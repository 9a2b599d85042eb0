/** What an assessment is made of: which readings count, how they weigh, and what it is compared with. */
module RiskBreakdown {
  import opened Wrappers
  import opened Sums
  import opened Latest
  import opened RiskScoring
  import opened RiskEngine
  import opened RiskProofs
  import opened RiskHistory

  // ----- one entry -----

  /** A reading counts up to and including its allowed age. */
  predicate Counts(o: Observation, ind: Indicator, at: real) {
    ind.stalenessHours.None? || at <= o.observedAt + 3600.0 * ind.stalenessHours.value as real
  }

  /** What a weight row's entry must say about the reading the query picked, if it picked one. */
  ghost predicate EntryOf(c: Contribution, row: WeightRow, ind: Indicator, reading: Option<Observation>, at: real) {
    && c.indicator == row.indicator && c.weight == row.weight && c.direction == row.direction
    && match reading
       case None => !c.included && !c.stale && c.contribution.None? && c.confidence.None?
                    && c.rawValue.None? && c.normalized.None? && c.observedAt.None?
       case Some(o) =>
         && c.rawValue == Some(o.rawValue) && c.normalized == Some(o.normalized)
         && c.confidence == Some(o.confidence) && c.observedAt == Some(o.observedAt)
         && (c.included <==> Counts(o, ind, at)) && (c.stale <==> !Counts(o, ind, at))
         && (!Counts(o, ind, at) ==> c.contribution.None?)
         && (Counts(o, ind, at) && row.direction.Positive? ==> c.contribution == Some(o.normalized))
         && (Counts(o, ind, at) && row.direction.Inverse? ==> c.contribution == Some(1.0 - o.normalized))
  }

  function Reading(s: Store, row: WeightRow, q: Request, at: real, choice: Choice): Option<Observation> {
    if q.scopeId.None? then None
    else LatestObservation(s.observations, row.indicator, q.scopeType, q.scopeId.value, at,
                           PickFor(choice, row.indicator))
  }

  /** A reading the row asks for: of its indicator and of the scope, and not after the assessment. */
  predicate Relevant(o: Observation, row: WeightRow, q: Request, at: real) {
    o.indicator == row.indicator && o.scopeType == q.scopeType && Some(o.scopeId) == q.scopeId && o.observedAt <= at
  }

  /** The query picks a relevant reading that no other is newer than, if there is a relevant one. */
  lemma ReadingIsTheNewest(s: Store, row: WeightRow, q: Request, at: real, choice: Choice)
    ensures var r := Reading(s, row, q, at, choice);
      && (r.None? <==> forall o <- s.observations :: !Relevant(o, row, q, at))
      && (r.Some? ==>
            r.value in s.observations && Relevant(r.value, row, q, at)
            && forall o <- s.observations :: Relevant(o, row, q, at) ==> o.observedAt <= r.value.observedAt)
  {
    if q.scopeId.Some? {
      assert forall o: Observation ::
        Relevant(o, row, q, at) <==> Matches(o, row.indicator, q.scopeType, q.scopeId.value, at);
    }
    hide LatestObservation;
  }

  lemma EntryCounts(s: Store, row: WeightRow, q: Request, at: real, choice: Choice)
    requires row.indicator in s.indicators
    ensures EntryOf(ContributionOf(s.observations, s.indicators[row.indicator], row, q.scopeType, q.scopeId, at,
                                   PickFor(choice, row.indicator)),
                    row, s.indicators[row.indicator], Reading(s, row, q, at, choice), at)
  {
    var ind, reading := s.indicators[row.indicator], Reading(s, row, q, at, choice);
    if reading.Some? && ind.stalenessHours.Some? {
      StaleAfterItsAge(reading.value.observedAt, at, ind.stalenessHours.value);
    }
    hide LatestObservation, IsStale;
  }

  // ----- the whole breakdown -----

  lemma {:induction false} RowsOfAreTheRisks(weights: seq<WeightRow>, risk: nat)
    ensures forall w :: multiset(RowsOf(weights, risk))[w] == if w.risk == risk then multiset(weights)[w] else 0
  {
    if weights != [] {
      RowsOfAreTheRisks(weights[1..], risk);
      assert weights == [weights[0]] + weights[1..];
    }
  }

  ghost predicate Weighs(s: Store, w: WeightRow, risk: nat) {
    w in s.weights && w.risk == risk && w.indicator in s.indicators
  }

  /**
   The breakdown of an assessment: one entry for each weight row of the risk, repeated rows included,
   and for none else, in the rows' order and skipping orphaned ones, saying of the reading the query
   picked whether it counts and what it adds.
   */
  lemma BreakdownIsOfTheWeights(s: Store, q: Request, reply: ModelReply, now: real, choice: Choice, i: nat)
    requires Calculated(s, q, reply, now, choice).Ok?
    requires i < |RowsOf(s.weights, q.risk)| && RowsOf(s.weights, q.risk)[i].indicator in s.indicators
    ensures var a, rows := Calculated(s, q, reply, now, choice).value, RowsOf(s.weights, q.risk);
      var k := EntriesBefore(s, rows, i);
      && |a.contributions| == EntriesBefore(s, rows, |rows|) && k < |a.contributions|
      && EntryOf(a.contributions[k], rows[i], s.indicators[rows[i].indicator],
                 Reading(s, rows[i], q, a.assessedAt, choice), a.assessedAt)
  {
    hide RealTotal, LatestAssessment, ContributionOf, RoundHalfEven, Contributions;
    var rows, a := RowsOf(s.weights, q.risk), Calculated(s, q, reply, now, choice).value;
    EntryOfRow(s, rows, q.scopeType, q.scopeId, a.assessedAt, choice, i);
    EntryCounts(s, rows[i], q, a.assessedAt, choice);
  }

  // ----- when it fails, when it is of, and what it is compared with -----

  ghost predicate HasWeight(s: Store, risk: nat) {
    exists w <- s.weights :: w.risk == risk
  }

  lemma {:induction false} NoRowsIff(weights: seq<WeightRow>, risk: nat)
    ensures RowsOf(weights, risk) == [] <==> forall w <- weights :: w.risk != risk
  {
    if weights != [] {
      NoRowsIff(weights[1..], risk);
      assert forall w :: w in weights <==> w == weights[0] || w in weights[1..];
    }
  }

  /** An assessment fails for exactly three reasons, in this order, and is otherwise of the time asked for. */
  lemma AssessmentFailsIff(s: Store, q: Request, reply: ModelReply, now: real, choice: Choice)
    ensures var a := Calculated(s, q, reply, now, choice);
      && (a == Err(NotFound) <==> q.risk !in s.definitions)
      && (a == Err(ScopeNotApplicable) <==>
            q.risk in s.definitions && q.scopeType !in s.definitions[q.risk].scopeTypes)
      && (a == Err(NoWeights) <==>
            q.risk in s.definitions && q.scopeType in s.definitions[q.risk].scopeTypes && !HasWeight(s, q.risk))
      && (a.Ok? ==> a.value.assessedAt == (if q.asOf.Some? then q.asOf.value else now)
                    && a.value.risk == q.risk && a.value.scopeType == q.scopeType && a.value.scopeId == q.scopeId)
      && a != Err(InvalidBounds)
  {
    hide RealTotal, LatestAssessment, Contributions, RoundHalfEven;
    NoRowsIff(s.weights, q.risk);
  }

  ghost predicate IsPrevious(s: Store, q: Request, p: Assessment) {
    && p in s.assessments && SameSubject(p, q.risk, q.scopeType, q.scopeId)
    && forall a <- s.assessments :: SameSubject(a, q.risk, q.scopeType, q.scopeId) ==> a.assessedAt <= p.assessedAt
  }

  /**
   The previous score is the final score of a newest stored assessment of the same risk and scope, and
   the trend is its change where that exceeds two points; there is neither without such an assessment.
   */
  lemma TrendFollowsTheLast(s: Store, q: Request, reply: ModelReply, now: real, choice: Choice)
    requires Calculated(s, q, reply, now, choice).Ok?
    ensures var a := Calculated(s, q, reply, now, choice).value;
      if a.previousScore.None? then
        a.trend.None? && forall p <- s.assessments :: !SameSubject(p, q.risk, q.scopeType, q.scopeId)
      else
        && (exists p :: IsPrevious(s, q, p) && a.previousScore == Some(p.finalScore))
        && (a.trend == Some(Rising) <==> a.finalScore >= a.previousScore.value + 3)
        && (a.trend == Some(Falling) <==> a.finalScore <= a.previousScore.value - 3)
        && (a.trend == Some(Stable) <==> -2 <= a.finalScore - a.previousScore.value <= 2)
  {
    var previous := LatestAssessment(s.assessments, q.risk, q.scopeType, q.scopeId, choice.assessment);
    if previous.Some? {
      assert IsPrevious(s, q, previous.value);
    }
    hide RealTotal, LatestAssessment, Contributions, RoundHalfEven, IsPrevious;
  }

  // ----- the formula -----

  /** An entry that does not count changes nothing, wherever it stands. */
  lemma ExcludedEntriesDoNotCount(a: seq<Contribution>, c: Contribution, b: seq<Contribution>, totalWeight: real)
    requires !c.included
    ensures Aggregated(a + [c] + b, totalWeight) == Aggregated(a + b, totalWeight)
  {
    WithoutExcluded(IncludedWeight, a, c, b);
    WithoutExcluded(WeightedScore, a, c, b);
    WithoutExcluded(WeightedConfidence, a, c, b);
    hide RealTotal;
  }

  lemma WithoutExcluded(f: Contribution -> real, a: seq<Contribution>, c: Contribution, b: seq<Contribution>)
    requires f(c) == 0.0
    ensures RealTotal(f, a + [c] + b) == RealTotal(f, a + b)
  {
    RealTotalConcat(f, a + [c], b);
    RealTotalPush(f, a, c);
    RealTotalConcat(f, a, b);
  }

  function Entry(weight: real, x: real, confidence: real): Contribution {
    Contribution(0, weight, Positive, Some(x), Some(x), Some(x), Some(confidence), Some(0.0), true, false)
  }

  /** Two counting entries: the rounded weighted average, and the confidences scaled by what is covered. */
  lemma TwoEntries(u: real, x: real, p: real, v: real, y: real, q: real, totalWeight: real)
    requires u >= 0.0 && v >= 0.0 && u + v > 0.0 && totalWeight >= u + v
    requires 0.0 <= x <= 1.0 && 0.0 <= y <= 1.0 && 0.0 <= p <= 1.0 && 0.0 <= q <= 1.0
    ensures var r := Aggregated([Entry(u, x, p), Entry(v, y, q)], totalWeight);
      && r.baseScore == RoundHalfEven(100.0 * ((u * x + v * y) / (u + v)))
      && r.confidence == (u * p + v * q) / totalWeight
  {
    var a, b := Entry(u, x, p), Entry(v, y, q);
    var cs := [a, b];
    SumsOfTwo(u, x, p, v, y, q);
    WellFormedEntries(a, b);
    hide RealTotal, RoundHalfEven, AllWellFormed, ContributionsBetween, Entry;
    BaseScoreIsRoundedAverage(cs, totalWeight, 0.0, 1.0);
    ConfidenceIsCoverage(cs, totalWeight);
    assert Average(cs) == (u * x + v * y) / (u + v);
  }

  lemma SumsOfTwo(u: real, x: real, p: real, v: real, y: real, q: real)
    ensures var cs := [Entry(u, x, p), Entry(v, y, q)];
      && Available(cs) == u + v && RealTotal(WeightedScore, cs) == u * x + v * y
      && RealTotal(WeightedConfidence, cs) == u * p + v * q
  {
    var a, b := Entry(u, x, p), Entry(v, y, q);
    TotalOfTwo(IncludedWeight, a, b);
    TotalOfTwo(WeightedScore, a, b);
    TotalOfTwo(WeightedConfidence, a, b);
  }

  lemma WellFormedEntries(a: Contribution, b: Contribution)
    requires WellFormed(a) && WellFormed(b)
    ensures AllWellFormed([a, b]) && ContributionsBetween([a, b], 0.0, 1.0)
  {}

  lemma TotalOfTwo(f: Contribution -> real, a: Contribution, b: Contribution)
    ensures RealTotal(f, [a, b]) == f(a) + f(b)
  {
    assert [a, b] == [a] + [b];
    RealTotalOne(f, a);
    RealTotalPush(f, [a], b);
  }

  // ----- readings -----

  /** A reading is stored as it came, with its value normalised and its confidence cut to the scale. */
  lemma RecordedReading(s: Store, a: Action)
    requires a.Record?
    ensures Recorded(s, a) == Err(NotFound) <==> a.indicator !in s.indicators
    ensures a.indicator in s.indicators ==>
      var ind := s.indicators[a.indicator];
      && (Recorded(s, a) == Err(InvalidBounds) <==>
            ind.method_.MinMax? && (ind.lowerBound.None? || ind.upperBound.None? || ind.lowerBound == ind.upperBound))
      && (Recorded(s, a).Ok? ==>
            var o := Recorded(s, a).value;
            && o.indicator == a.indicator && o.scopeType == a.scopeType && o.scopeId == a.scopeId
            && o.observedAt == a.observedAt && o.rawValue == a.rawValue
            && Ok(o.normalized) == NormalizeValue(a.rawValue, ind)
            && (0.0 <= a.confidence <= 1.0 ==> o.confidence == a.confidence)
            && (a.confidence < 0.0 ==> o.confidence == 0.0) && (a.confidence > 1.0 ==> o.confidence == 1.0))
  {}

  /** A yes-or-no reading counts as 1 unless it is zero; a manual one is cut to the scale. */
  lemma OtherNormalisations(raw: real, ind: Indicator)
    ensures ind.method_.Boolean? ==> NormalizeValue(raw, ind) == Ok(if raw == 0.0 then 0.0 else 1.0)
    ensures ind.method_.Manual? && 0.0 <= raw <= 1.0 ==> NormalizeValue(raw, ind) == Ok(raw)
    ensures ind.method_.Manual? && raw < 0.0 ==> NormalizeValue(raw, ind) == Ok(0.0)
    ensures ind.method_.Manual? && raw > 1.0 ==> NormalizeValue(raw, ind) == Ok(1.0)
  {}
}
