/**
 The risk engine's numbers: readings stay on the 0-1 scale, every stored assessment is bounded and
 explained by its contributions, and reading every indicator the other way reflects the score.
 */
module RiskProofs {
  import opened Wrappers
  import opened Sums
  import opened RiskScoring
  import opened RiskEngine

  // ----- normalisation -----

  predicate Between(a: real, x: real, b: real) { a <= x <= b || b <= x <= a }

  /** Min-max normalisation sends the bounds to 0 and 1, is linear between them and never reverses. */
  lemma MinMaxIsLinear(raw: real, other: real, ind: Indicator)
    requires ind.method_.MinMax? && NormalizeValue(raw, ind).Ok?
    ensures ind.lowerBound.Some? && ind.upperBound.Some? && ind.lowerBound.value != ind.upperBound.value
    ensures NormalizeValue(ind.lowerBound.value, ind) == Ok(0.0)
    ensures NormalizeValue(ind.upperBound.value, ind) == Ok(1.0)
    ensures Between(ind.lowerBound.value, raw, ind.upperBound.value) ==>
      NormalizeValue(raw, ind).value * (ind.upperBound.value - ind.lowerBound.value) == raw - ind.lowerBound.value
    ensures NormalizeValue(other, ind).Ok?
    ensures raw <= other && ind.lowerBound.value < ind.upperBound.value ==>
      NormalizeValue(raw, ind).value <= NormalizeValue(other, ind).value
    ensures raw <= other && ind.upperBound.value < ind.lowerBound.value ==>
      NormalizeValue(other, ind).value <= NormalizeValue(raw, ind).value
  {
    var low, high := ind.lowerBound.value, ind.upperBound.value;
    var width := high - low;
    IsQuotient(width, width, 1.0);
    IsQuotient(low - low, width, 0.0);
    if raw <= other {
      DivideIsMonotone(raw - low, other - low, width);
    }
    if Between(low, raw, high) {
      FractionOfWidth(raw - low, width);
    }
  }

  lemma FractionOfWidth(x: real, width: real)
    requires 0.0 <= x <= width || width <= x <= 0.0
    requires width != 0.0
    ensures 0.0 <= x / width <= 1.0
    ensures (x / width) * width == x
  {
    if width > 0.0 {
      DivideIsMonotone(0.0, x, width);
      DivideIsMonotone(x, width, width);
    } else {
      DivideIsMonotone(x, 0.0, width);
      DivideIsMonotone(width, x, width);
    }
    IsQuotient(width, width, 1.0);
  }

  /** A reading counts up to and including its allowed age, and is stale from then on. */
  lemma StaleAfterItsAge(observedAt: real, asOf: real, hours: int)
    ensures IsStale(observedAt, asOf, Some(hours)) <==> asOf > observedAt + 3600.0 * hours as real
    ensures !IsStale(observedAt, asOf, None)
  {
    var age, limit := asOf - observedAt, hours as real;
    assert age / 3600.0 > limit <==> age > 3600.0 * limit;
  }

  // ----- every stored row -----

  ghost predicate ReadingSound(o: Observation) {
    0.0 <= o.normalized <= 1.0 && 0.0 <= o.confidence <= 1.0
  }

  /** Base score and confidence are the rounded average and the covered confidence of the breakdown. */
  ghost predicate Explained(a: Assessment) {
    var cs := a.contributions;
    if Available(cs) > 0.0 then
      && RealTotal(WeightOf, cs) >= Available(cs)
      && a.baseScore == RoundHalfEven(100.0 * Average(cs))
      && a.confidence == RealTotal(WeightedConfidence, cs) / RealTotal(WeightOf, cs)
    else a.baseScore == 0 && a.confidence == 0.0
  }

  ghost predicate AssessmentSound(a: Assessment) {
    && AllWellFormed(a.contributions)
    && Explained(a)
    && 0 <= a.baseScore <= 100 && 0 <= a.finalScore <= 100
    && 0.0 <= a.confidence <= 1.0
    && -10 <= a.adjustment <= 10 && Abs(a.finalScore - a.baseScore) <= Abs(a.adjustment)
  }

  ghost predicate StoreSound(s: Store) {
    && (forall w <- s.weights :: w.weight >= 0.0)
    && (forall o <- s.observations :: ReadingSound(o))
    && (forall a <- s.assessments :: AssessmentSound(a))
  }

  lemma {:induction false} RowsAreWeights(weights: seq<WeightRow>, risk: nat)
    ensures forall w <- RowsOf(weights, risk) :: w in weights
  {
    if weights != [] {
      RowsAreWeights(weights[1..], risk);
    }
  }

  lemma {:induction false} ContributionsAreWellFormed(
    s: Store, rows: seq<WeightRow>, scopeType: ScopeType, scopeId: Option<nat>, at: real, choice: Choice)
    requires forall o <- s.observations :: ReadingSound(o)
    requires forall w <- rows :: w.weight >= 0.0
    ensures AllWellFormed(Contributions(s, rows, scopeType, scopeId, at, choice))
  {
    if rows != [] {
      var n := |rows| - 1;
      assert forall w <- rows[..n] :: w in rows;
      ContributionsAreWellFormed(s, rows[..n], scopeType, scopeId, at, choice);
      assert rows[n] in rows;
      if rows[n].indicator in s.indicators {
        var c := ContributionOf(s.observations, s.indicators[rows[n].indicator], rows[n], scopeType, scopeId, at,
                                PickFor(choice, rows[n].indicator));
        assert WellFormed(c);
      }
    }
  }

  lemma AvailableWithinWhole(cs: seq<Contribution>)
    requires AllWellFormed(cs)
    ensures Available(cs) <= RealTotal(WeightOf, cs)
  {
    forall i | 0 <= i < |cs| ensures IncludedWeight(cs[i]) <= WeightOf(cs[i]) {
      assert cs[i] in cs && WellFormed(cs[i]);
    }
    RealTotalPointwise(IncludedWeight, cs, WeightOf, cs);
  }

  lemma CalculatedIsSound(s: Store, q: Request, reply: ModelReply, now: real, choice: Choice)
    requires StoreSound(s) && Calculated(s, q, reply, now, choice).Ok?
    ensures AssessmentSound(Calculated(s, q, reply, now, choice).value)
  {
    var a := Calculated(s, q, reply, now, choice).value;
    var rows := RowsOf(s.weights, q.risk);
    RowsAreWeights(s.weights, q.risk);
    ContributionsAreWellFormed(s, rows, q.scopeType, q.scopeId, a.assessedAt, choice);
    var cs := a.contributions;
    if Available(cs) > 0.0 {
      AvailableWithinWhole(cs);
      assert ContributionsBetween(cs, 0.0, 1.0) by {
        assert forall c <- cs :: WellFormed(c);
      }
      BaseScoreIsRoundedAverage(cs, RealTotal(WeightOf, cs), 0.0, 1.0);
      ConfidenceIsCoverage(cs, RealTotal(WeightOf, cs));
    }
  }

  /** With non-negative weights, every run of readings and assessments keeps every row sound. */
  lemma {:induction false} RunsAreSound(s: Store, run: seq<Action>)
    requires StoreSound(s)
    ensures StoreSound(After(s, run))
  {
    if run != [] {
      var before, action := After(s, run[..|run| - 1]), run[|run| - 1];
      RunsAreSound(s, run[..|run| - 1]);
      if action.Assess? && Calculated(before, action.q, action.reply, action.now, action.choice).Ok? {
        CalculatedIsSound(before, action.q, action.reply, action.now, action.choice);
      }
    }
  }

  // ----- reading every indicator the other way -----

  function FlippedRow(w: WeightRow): WeightRow {
    w.(direction := if w.direction.Positive? then Inverse else Positive)
  }

  function FlippedRows(rows: seq<WeightRow>): seq<WeightRow> {
    if rows == [] then [] else FlippedRows(rows[..|rows| - 1]) + [FlippedRow(rows[|rows| - 1])]
  }

  lemma {:induction false} FlippedConcat(a: seq<Contribution>, b: seq<Contribution>)
    ensures Flipped(a + b) == Flipped(a) + Flipped(b)
  {
    if a == [] {
      assert a + b == b;
    } else {
      assert (a + b)[1..] == a[1..] + b;
      FlippedConcat(a[1..], b);
    }
  }

  lemma {:induction false} RowsOfSnoc(weights: seq<WeightRow>, w: WeightRow, risk: nat)
    ensures RowsOf(weights + [w], risk) == RowsOf(weights, risk) + if w.risk == risk then [w] else []
  {
    var kept := if w.risk == risk then [w] else [];
    if weights == [] {
      assert weights + [w] == [w] && [w][1..] == [];
      assert RowsOf([w], risk) == kept + RowsOf([], risk) == kept;
    } else {
      assert (weights + [w])[1..] == weights[1..] + [w];
      RowsOfSnoc(weights[1..], w, risk);
      var head := if weights[0].risk == risk then [weights[0]] else [];
      assert head + (RowsOf(weights[1..], risk) + kept) == (head + RowsOf(weights[1..], risk)) + kept;
    }
  }

  lemma {:induction false} RowsOfFlipped(weights: seq<WeightRow>, risk: nat)
    ensures RowsOf(FlippedRows(weights), risk) == FlippedRows(RowsOf(weights, risk))
  {
    if weights != [] {
      var front, last := weights[..|weights| - 1], weights[|weights| - 1];
      assert weights == front + [last];
      RowsOfFlipped(front, risk);
      RowsOfSnoc(front, last, risk);
      RowsOfSnoc(FlippedRows(front), FlippedRow(last), risk);
      var rows := RowsOf(front, risk);
      assert (rows + [last])[..|rows|] == rows;
      assert rows + [] == rows && FlippedRows(rows) + [] == FlippedRows(rows);
    }
  }

  lemma ContributionOfFlipped(
    obs: seq<Observation>, ind: Indicator, row: WeightRow, scopeType: ScopeType, scopeId: Option<nat>, at: real,
    pick: nat)
    ensures ContributionOf(obs, ind, FlippedRow(row), scopeType, scopeId, at, pick)
         == FlippedRecord(ContributionOf(obs, ind, row, scopeType, scopeId, at, pick))
  {
    hide LatestObservation, IsStale;
  }

  lemma {:induction false} ContributionsOfFlipped(
    s: Store, rows: seq<WeightRow>, scopeType: ScopeType, scopeId: Option<nat>, at: real, choice: Choice)
    ensures Contributions(s, FlippedRows(rows), scopeType, scopeId, at, choice)
         == Flipped(Contributions(s, rows, scopeType, scopeId, at, choice))
  {
    hide ContributionOf, FlippedRecord;
    if rows != [] {
      var n := |rows| - 1;
      ContributionsOfFlipped(s, rows[..n], scopeType, scopeId, at, choice);
      FlippedRowsLength(rows[..n]);
      assert FlippedRows(rows)[..n] == FlippedRows(rows[..n]);
      if rows[n].indicator in s.indicators {
        var c := ContributionOf(s.observations, s.indicators[rows[n].indicator], rows[n], scopeType, scopeId, at,
                                PickFor(choice, rows[n].indicator));
        ContributionOfFlipped(
          s.observations, s.indicators[rows[n].indicator], rows[n], scopeType, scopeId, at,
          PickFor(choice, rows[n].indicator));
        FlippedConcat(Contributions(s, rows[..n], scopeType, scopeId, at, choice), [c]);
        assert Flipped([c]) == [FlippedRecord(c)] + Flipped([]);
      }
    }
  }

  lemma {:induction false} FlippedRowsLength(rows: seq<WeightRow>)
    ensures |FlippedRows(rows)| == |rows|
  {
    if rows != [] {
      FlippedRowsLength(rows[..|rows| - 1]);
    }
  }

  lemma {:induction false} FlippedWeight(cs: seq<Contribution>)
    ensures RealTotal(WeightOf, Flipped(cs)) == RealTotal(WeightOf, cs)
  {
    if cs != [] {
      FlippedWeight(cs[1..]);
    }
  }

  function WithFlippedWeights(s: Store): Store { s.(weights := FlippedRows(s.weights)) }

  /**
   Over any sound store: swapping positive and inverse on every weight turns a base score into
   exactly 100 minus it iff some weight was available; without one the score is 0 both ways.
   */
  lemma FlippedWeightsReflectTheScore(s: Store, q: Request, now: real, choice: Choice)
    requires StoreSound(s) && Calculated(s, q, NoModel, now, choice).Ok?
    ensures var a := Calculated(s, q, NoModel, now, choice).value;
      var b := Calculated(WithFlippedWeights(s), q, NoModel, now, choice);
      && b.Ok?
      && (b.value.baseScore == 100 - a.baseScore <==> Available(a.contributions) > 0.0)
      && (Available(a.contributions) <= 0.0 ==> a.baseScore == 0 && b.value.baseScore == 0)
  {
    hide RealTotal, RoundHalfEven, StoreSound;
    var a := Calculated(s, q, NoModel, now, choice).value;
    var rows := RowsOf(s.weights, q.risk);
    CalculatedIsSound(s, q, NoModel, now, choice);
    RowsOfFlipped(s.weights, q.risk);
    FlippedRowsLength(rows);
    ContributionsOfFlipped(s, rows, q.scopeType, q.scopeId, a.assessedAt, choice);
    ContributionsIgnoreWeights(
      s, WithFlippedWeights(s), FlippedRows(rows), q.scopeType, q.scopeId, a.assessedAt, choice);
    FlippedWeight(a.contributions);
    FlippedTotals(a.contributions);
    FlippingReflectsTheScore(a.contributions, RealTotal(WeightOf, a.contributions));
  }

  lemma {:induction false} ContributionsIgnoreWeights(
    s: Store, t: Store, rows: seq<WeightRow>, scopeType: ScopeType, scopeId: Option<nat>, at: real, choice: Choice)
    requires s.indicators == t.indicators && s.observations == t.observations
    ensures Contributions(s, rows, scopeType, scopeId, at, choice)
         == Contributions(t, rows, scopeType, scopeId, at, choice)
  {
    if rows != [] {
      ContributionsIgnoreWeights(s, t, rows[..|rows| - 1], scopeType, scopeId, at, choice);
    }
  }
}
