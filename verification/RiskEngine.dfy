/** Indicator readings, the risk engine over them, and the shadow re-run by a second model. */
module RiskEngine {
  import opened Wrappers
  import opened Sums
  import opened RiskScoring
  import opened Latest

  datatype ScopeType = Country | Relationship | Actor | Conflict | Global

  datatype Method = MinMax | Boolean | Manual

  datatype Indicator = Indicator(
    method_: Method, lowerBound: Option<real>, upperBound: Option<real>, stalenessHours: Option<int>)

  datatype WeightRow = WeightRow(risk: nat, indicator: nat, weight: real, direction: Direction)

  /** Times are in seconds. */
  datatype Observation = Observation(
    indicator: nat,
    scopeType: ScopeType,
    scopeId: nat,
    observedAt: real,
    rawValue: real,
    normalized: real,
    confidence: real)

  datatype RiskDefinition = RiskDefinition(scopeTypes: set<ScopeType>)

  datatype Trend = Rising | Falling | Stable

  datatype Assessment = Assessment(
    risk: nat,
    scopeType: ScopeType,
    scopeId: Option<nat>,
    assessedAt: real,
    baseScore: int,
    adjustment: int,
    finalScore: int,
    previousScore: Option<int>,
    trend: Option<Trend>,
    confidence: real,
    contributions: seq<Contribution>)

  datatype Store = Store(
    definitions: map<nat, RiskDefinition>,
    weights: seq<WeightRow>,
    indicators: map<nat, Indicator>,
    observations: seq<Observation>,
    assessments: seq<Assessment>)

  datatype Error = NotFound | ScopeNotApplicable | NoWeights | InvalidBounds

  /** The second opinion a model gives: none asked for, a failed call, or any integer at all. */
  datatype ModelReply = NoModel | ModelFailed | Recommends(adjustment: int)

  datatype Request = Request(risk: nat, scopeType: ScopeType, scopeId: Option<nat>, asOf: Option<real>)

  /** The database's choices among equally new rows: one for each indicator, one for the last assessment. */
  datatype Choice = Choice(observations: map<nat, nat>, assessment: nat)

  function PickFor(choice: Choice, indicator: nat): nat {
    if indicator in choice.observations then choice.observations[indicator] else 0
  }

  // ----- readings -----

  function NormalizeValue(raw: real, ind: Indicator): Result<real, Error> {
    match ind.method_
    case Boolean => Ok(if raw != 0.0 then 1.0 else 0.0)
    case Manual => Ok(ClampReal(0.0, 1.0, raw))
    case MinMax =>
      if ind.lowerBound.None? || ind.upperBound.None? then Err(InvalidBounds)
      else if ind.upperBound.value == ind.lowerBound.value then Err(InvalidBounds)
      else Ok(ClampReal(0.0, 1.0, (raw - ind.lowerBound.value) / (ind.upperBound.value - ind.lowerBound.value)))
  }

  predicate IsStale(observedAt: real, asOf: real, stalenessHours: Option<int>) {
    stalenessHours.Some? && (asOf - observedAt) / 3600.0 > stalenessHours.value as real
  }

  predicate Matches(o: Observation, indicator: nat, scopeType: ScopeType, scopeId: nat, asOf: real) {
    o.indicator == indicator && o.scopeType == scopeType && o.scopeId == scopeId && o.observedAt <= asOf
  }

  function MatchesOf(indicator: nat, scopeType: ScopeType, scopeId: nat, asOf: real): Observation -> bool {
    o => Matches(o, indicator, scopeType, scopeId, asOf)
  }

  function ObservedAt(): Observation -> real { (o: Observation) => o.observedAt }

  /** The readings the query may return: those not after `asOf` that none is newer than. */
  function NewestObservations(obs: seq<Observation>, indicator: nat, scopeType: ScopeType, scopeId: nat, asOf: real)
    : seq<Observation>
  {
    Newest(obs, MatchesOf(indicator, scopeType, scopeId, asOf), ObservedAt())
  }

  /** The one it returns; `pick` is the database's choice among equally new ones. */
  function LatestObservation(
    obs: seq<Observation>, indicator: nat, scopeType: ScopeType, scopeId: nat, asOf: real, pick: nat)
    : (r: Option<Observation>)
    ensures r.Some? ==> r.value in obs && Matches(r.value, indicator, scopeType, scopeId, asOf)
    ensures forall o <- obs :: Matches(o, indicator, scopeType, scopeId, asOf) ==>
      r.Some? && o.observedAt <= r.value.observedAt
  {
    assert forall o <- obs :: MatchesOf(indicator, scopeType, scopeId, asOf)(o)
                              <==> Matches(o, indicator, scopeType, scopeId, asOf);
    Pick(NewestObservations(obs, indicator, scopeType, scopeId, asOf), pick)
  }

  predicate SameSubject(a: Assessment, risk: nat, scopeType: ScopeType, scopeId: Option<nat>) {
    a.risk == risk && a.scopeType == scopeType && a.scopeId == scopeId
  }

  /** The newest earlier assessment of the same risk and scope, with the same freedom. */
  function LatestAssessment(
    rows: seq<Assessment>, risk: nat, scopeType: ScopeType, scopeId: Option<nat>, pick: nat)
    : (r: Option<Assessment>)
    ensures r.Some? ==> r.value in rows && SameSubject(r.value, risk, scopeType, scopeId)
    ensures forall a <- rows :: SameSubject(a, risk, scopeType, scopeId) ==>
      r.Some? && a.assessedAt <= r.value.assessedAt
  {
    LatestOf(rows, a => SameSubject(a, risk, scopeType, scopeId), (a: Assessment) => a.assessedAt, pick)
  }

  // ----- one assessment, as a function of the store -----

  /** The breakdown entry of one weight row whose indicator exists. */
  function ContributionOf(obs: seq<Observation>, ind: Indicator, row: WeightRow,
                          scopeType: ScopeType, scopeId: Option<nat>, at: real, pick: nat): Contribution
  {
    var observation :=
      if scopeId.None? then None
      else LatestObservation(obs, row.indicator, scopeType, scopeId.value, at, pick);
    match observation
    case None => Contribution(row.indicator, row.weight, row.direction, None, None, None, None, None, false, false)
    case Some(o) =>
      var stale := IsStale(o.observedAt, at, ind.stalenessHours);
      var fraction := if row.direction.Positive? then o.normalized else 1.0 - o.normalized;
      Contribution(row.indicator, row.weight, row.direction, Some(o.rawValue), Some(o.normalized),
                   if stale then None else Some(fraction), Some(o.confidence), Some(o.observedAt),
                   !stale, stale)
  }

  function RowsOf(weights: seq<WeightRow>, risk: nat): seq<WeightRow> {
    if weights == [] then []
    else
      var kept := if weights[0].risk == risk then [weights[0]] else [];
      kept + RowsOf(weights[1..], risk)
  }

  function Contributions(
    s: Store, rows: seq<WeightRow>, scopeType: ScopeType, scopeId: Option<nat>, at: real, choice: Choice)
    : seq<Contribution>
  {
    if rows == [] then []
    else
      var n := |rows| - 1;
      var front, row := Contributions(s, rows[..n], scopeType, scopeId, at, choice), rows[n];
      if row.indicator in s.indicators then
        front + [ContributionOf(s.observations, s.indicators[row.indicator], row, scopeType, scopeId, at,
                                PickFor(choice, row.indicator))]
      else front
  }

  function WeightOf(c: Contribution): real { c.weight }

  function ClampedAdjustment(reply: ModelReply): int {
    match reply
    case NoModel => 0
    case ModelFailed => 0
    case Recommends(adjustment) => ClampInt(-10, 10, adjustment)
  }

  function TrendOf(finalScore: int, previous: Option<int>): Option<Trend> {
    if previous.None? then None
    else
      var delta := finalScore - previous.value;
      Some(if delta > 2 then Rising else if delta < -2 then Falling else Stable)
  }

  /** `RiskEngine.calculate` as a function; `now` is the clock reading used when no time is given. */
  function Calculated(s: Store, q: Request, reply: ModelReply, now: real, choice: Choice): Result<Assessment, Error> {
    if q.risk !in s.definitions then Err(NotFound)
    else if q.scopeType !in s.definitions[q.risk].scopeTypes then Err(ScopeNotApplicable)
    else
      var rows := RowsOf(s.weights, q.risk);
      if rows == [] then Err(NoWeights)
      else
        var at := if q.asOf.Some? then q.asOf.value else now;
        var contributions := Contributions(s, rows, q.scopeType, q.scopeId, at, choice);
        var aggregate := Aggregated(contributions, RealTotal(WeightOf, contributions));
        var previous := LatestAssessment(s.assessments, q.risk, q.scopeType, q.scopeId, choice.assessment);
        var previousScore := if previous.Some? then Some(previous.value.finalScore) else None;
        var adjustment := ClampedAdjustment(reply);
        var finalScore := ClampInt(0, 100, aggregate.baseScore + adjustment);
        Ok(Assessment(q.risk, q.scopeType, q.scopeId, at, aggregate.baseScore, adjustment, finalScore,
                      previousScore, TrendOf(finalScore, previousScore), aggregate.confidence, contributions))
  }

  // ----- runs over the store -----

  datatype Action =
    | Record(indicator: nat, scopeType: ScopeType, scopeId: nat, rawValue: real, confidence: real, observedAt: real)
    | Assess(q: Request, reply: ModelReply, now: real, persist: bool, choice: Choice)

  function Recorded(s: Store, a: Action): Result<Observation, Error>
    requires a.Record?
  {
    if a.indicator !in s.indicators then Err(NotFound)
    else match NormalizeValue(a.rawValue, s.indicators[a.indicator])
      case Err(error) => Err(error)
      case Ok(value) =>
        Ok(Observation(a.indicator, a.scopeType, a.scopeId, a.observedAt, a.rawValue, value,
                       ClampReal(0.0, 1.0, a.confidence)))
  }

  function Acted(s: Store, a: Action): Store {
    match a
    case Record(_, _, _, _, _, _) =>
      var row := Recorded(s, a);
      if row.Ok? then s.(observations := s.observations + [row.value]) else s
    case Assess(q, reply, now, persist, choice) =>
      var row := Calculated(s, q, reply, now, choice);
      if persist && row.Ok? then s.(assessments := s.assessments + [row.value]) else s
  }

  function After(s: Store, run: seq<Action>): Store {
    if run == [] then s else Acted(After(s, run[..|run| - 1]), run[|run| - 1])
  }

  // ----- the engine -----

  class RiskEngine {
    var definitions: map<nat, RiskDefinition>
    var weights: seq<WeightRow>
    var indicators: map<nat, Indicator>
    var observations: seq<Observation>
    var assessments: seq<Assessment>

    constructor (definitions: map<nat, RiskDefinition>, weights: seq<WeightRow>, indicators: map<nat, Indicator>)
      ensures View() == Store(definitions, weights, indicators, [], [])
    {
      this.definitions := definitions;
      this.weights := weights;
      this.indicators := indicators;
      observations := [];
      assessments := [];
    }

    ghost function View(): Store
      reads this
    {
      Store(definitions, weights, indicators, observations, assessments)
    }

    /** `record_observation`: normalise, clamp the confidence, append. */
    method RecordObservation(indicator: nat, scopeType: ScopeType, scopeId: nat, rawValue: real,
                             confidence: real, observedAt: real) returns (r: Result<Observation, Error>)
      modifies this`observations
      ensures var a := Record(indicator, scopeType, scopeId, rawValue, confidence, observedAt);
        r == Recorded(old(View()), a) && View() == Acted(old(View()), a)
    {
      if indicator !in indicators {
        return Err(NotFound);
      }
      var normalized := NormalizeValue(rawValue, indicators[indicator]);
      match normalized {
        case Err(error) => return Err(error);
        case Ok(value) =>
          var observation := Observation(
            indicator, scopeType, scopeId, observedAt, rawValue, value, ClampReal(0.0, 1.0, confidence));
          observations := observations + [observation];
          return Ok(observation);
      }
    }

    /** `calculate`; with `persist` false nothing is written. */
    method Calculate(q: Request, reply: ModelReply, now: real, persist: bool, choice: Choice)
      returns (r: Result<Assessment, Error>)
      modifies this`assessments
      ensures r == Calculated(old(View()), q, reply, now, choice)
      ensures View() == Acted(old(View()), Assess(q, reply, now, persist, choice))
    {
      hide RealTotal, Contributions, LatestAssessment, RowsOf;
      if q.risk !in definitions {
        return Err(NotFound);
      }
      if q.scopeType !in definitions[q.risk].scopeTypes {
        return Err(ScopeNotApplicable);
      }
      var rows := RowsOf(weights, q.risk);
      if rows == [] {
        return Err(NoWeights);
      }
      var assessedAt := if q.asOf.Some? then q.asOf.value else now;
      var contributions, totalWeight := BuildContributions(rows, q.scopeType, q.scopeId, assessedAt, choice);
      var aggregate := AggregateContributions(contributions, totalWeight);
      var previous := LatestAssessment(assessments, q.risk, q.scopeType, q.scopeId, choice.assessment);
      var previousScore := if previous.Some? then Some(previous.value.finalScore) else None;
      var adjustment := 0;
      if !reply.NoModel? {
        adjustment := ClampedAdjustment(reply);
      }
      var finalScore := ClampInt(0, 100, aggregate.baseScore + adjustment);
      var assessment := Assessment(
        q.risk, q.scopeType, q.scopeId, assessedAt, aggregate.baseScore, adjustment, finalScore,
        previousScore, TrendOf(finalScore, previousScore), aggregate.confidence, contributions);
      if persist {
        assessments := assessments + [assessment];
      }
      return Ok(assessment);
    }

    /** The loop over the weight rows; a row whose indicator is gone is skipped. */
    method BuildContributions(
      rows: seq<WeightRow>, scopeType: ScopeType, scopeId: Option<nat>, at: real, choice: Choice)
      returns (contributions: seq<Contribution>, totalWeight: real)
      ensures contributions == Contributions(View(), rows, scopeType, scopeId, at, choice)
      ensures totalWeight == RealTotal(WeightOf, contributions)
    {
      contributions, totalWeight := [], 0.0;
      for k := 0 to |rows|
        invariant contributions == Contributions(View(), rows[..k], scopeType, scopeId, at, choice)
        invariant totalWeight == RealTotal(WeightOf, contributions)
      {
        var row := rows[k];
        assert rows[..k + 1][..k] == rows[..k];
        if row.indicator in indicators {
          totalWeight := totalWeight + row.weight;
          var pick := PickFor(choice, row.indicator);
          var record := Examine(row, indicators[row.indicator], scopeType, scopeId, at, pick);
          RealTotalPush(WeightOf, contributions, record);
          contributions := contributions + [record];
        }
      }
      assert rows[..|rows|] == rows;
    }

    method Examine(row: WeightRow, ind: Indicator, scopeType: ScopeType, scopeId: Option<nat>, at: real, pick: nat)
      returns (record: Contribution)
      ensures record == ContributionOf(observations, ind, row, scopeType, scopeId, at, pick)
      ensures record.weight == row.weight
    {
      var observation := None;
      if scopeId.Some? {
        observation := LatestObservation(observations, row.indicator, scopeType, scopeId.value, at, pick);
      }
      var stale := observation.Some? && IsStale(observation.value.observedAt, at, ind.stalenessHours);
      var included := observation.Some? && !stale;
      var fraction: Option<real> := None;
      if included {
        fraction := Some(if row.direction.Positive? then observation.value.normalized
                         else 1.0 - observation.value.normalized);
      }
      record := match observation
        case Some(o) => Contribution(row.indicator, row.weight, row.direction, Some(o.rawValue),
          Some(o.normalized), fraction, Some(o.confidence), Some(o.observedAt), included, stale)
        case None => Contribution(row.indicator, row.weight, row.direction, None, None, fraction, None, None,
          included, stale);
    }
  }

  // ----- multi-model review -----

  datatype Review = Review(assessment: nat, primaryScore: int, secondaryScore: int, agreement: bool, delta: nat)

  function Abs(x: int): nat { if x >= 0 then x else -x }

  predicate ClassifyAgreement(primary: int, secondary: int, tolerance: int) { Abs(primary - secondary) <= tolerance }

  class MultiModelReviewService {
    const engine: RiskEngine
    var reviews: seq<Review>

    constructor (engine: RiskEngine)
      ensures this.engine == engine && reviews == []
    {
      this.engine := engine;
      reviews := [];
    }

    /** Re-run the assessment as of its own time with the second model, writing only the review. */
    method ReviewRiskAssessment(id: nat, secondary: ModelReply, tolerance: int, now: real, choice: Choice)
      returns (r: Result<Review, Error>)
      modifies this`reviews, engine`assessments
      ensures engine.View() == old(engine.View())
      ensures id >= |engine.assessments| ==> r == Err(NotFound)
      ensures r.Err? ==> reviews == old(reviews)
      ensures r.Ok? ==> reviews == old(reviews) + [r.value]
      ensures r.Ok? ==>
        var primary := engine.assessments[id];
        var q := Request(primary.risk, primary.scopeType, primary.scopeId, Some(primary.assessedAt));
        var shadow := Calculated(engine.View(), q, secondary, now, choice);
        shadow.Ok?
        && r.value.assessment == id
        && r.value.primaryScore == primary.finalScore && r.value.secondaryScore == shadow.value.finalScore
        && r.value.delta == Abs(primary.finalScore - shadow.value.finalScore)
        && (r.value.agreement <==> r.value.delta <= tolerance)
    {
      if id >= |engine.assessments| {
        return Err(NotFound);
      }
      var primary := engine.assessments[id];
      var q := Request(primary.risk, primary.scopeType, primary.scopeId, Some(primary.assessedAt));
      var shadow := engine.Calculate(q, secondary, now, false, choice);
      match shadow {
        case Err(error) => return Err(error);
        case Ok(second) =>
          var agreement := ClassifyAgreement(primary.finalScore, second.finalScore, tolerance);
          var delta := Abs(primary.finalScore - second.finalScore);
          var review := Review(id, primary.finalScore, second.finalScore, agreement, delta);
          reviews := reviews + [review];
          return Ok(review);
      }
    }
  }
}
