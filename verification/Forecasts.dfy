/** The forecast store: issuing, resolving and scoring. */
module Forecasts {
  import opened Wrappers

  datatype Outcome = Yes | No | Ambiguous

  datatype Status = Open | Resolved | Canceled

  datatype Forecast = Forecast(
    issuedAt: int,
    resolutionDate: int,
    probability: real,
    confidence: real,
    status: Status,
    outcome: Option<Outcome>,
    brierScore: Option<real>,
    resolvedAt: Option<int>)

  datatype Error = ForecastNotFound

  function Square(x: real): real { x * x }

  /** The squared error of a probability on the 0-1 scale; an ambiguous outcome has none. */
  function BrierScore(probability: real, outcome: Outcome): Option<real> {
    if outcome.Ambiguous? then None
    else
      var actual := if outcome.Yes? then 1.0 else 0.0;
      Some(Square(probability - actual))
  }

  function Issued(issuedAt: int, resolutionDate: int, probability: real, confidence: real): Forecast {
    Forecast(issuedAt, resolutionDate, probability, confidence, Open, None, None, None)
  }

  function ResolvedAs(f: Forecast, outcome: Outcome, at: int): Forecast {
    f.(status := Resolved, outcome := Some(outcome), resolvedAt := Some(at),
       brierScore := BrierScore(f.probability / 100.0, outcome))
  }

  // ----- runs over the store -----

  datatype Action =
    | Issue(at: int, resolutionDate: int, probability: real, confidence: real)
    | Resolve(id: nat, outcome: Outcome, at: int)

  function Acted(store: seq<Forecast>, action: Action): seq<Forecast> {
    match action
    case Issue(at, date, probability, confidence) => store + [Issued(at, date, probability, confidence)]
    case Resolve(id, outcome, at) =>
      if id < |store| then store[id := ResolvedAs(store[id], outcome, at)] else store
  }

  function After(run: seq<Action>): seq<Forecast> {
    if run == [] then [] else Acted(After(run[..|run| - 1]), run[|run| - 1])
  }

  /** A score is present exactly on a cleanly resolved forecast, and is then the squared error. */
  ghost predicate Scored(f: Forecast) {
    if f.status != Resolved then f.outcome.None? && f.brierScore.None?
    else
      var p := f.probability / 100.0;
      && f.outcome.Some?
      && match f.outcome.value
         case Ambiguous => f.brierScore.None?
         case Yes => f.brierScore == Some(Square(1.0 - p))
         case No => f.brierScore == Some(Square(p))
  }

  lemma BrierIsSquaredError(p: real)
    ensures BrierScore(p, Yes) == Some(Square(1.0 - p))
    ensures BrierScore(p, No) == Some(Square(p))
    ensures BrierScore(p, Ambiguous) == None
  {
    var x := 1.0 - p;
    assert (-x) * (-x) == x * x;
    assert p - 1.0 == -x;
  }

  lemma ResolutionScores(f: Forecast, outcome: Outcome, at: int)
    ensures Scored(ResolvedAs(f, outcome, at))
  {
    var p := f.probability / 100.0;
    BrierIsSquaredError(p);
    assert ResolvedAs(f, outcome, at).brierScore == BrierScore(p, outcome);
  }

  /** Every run of issuing and resolving, resolving twice included, leaves every forecast scored. */
  lemma {:induction false} RunsStayScored(run: seq<Action>)
    ensures forall f <- After(run) :: Scored(f)
  {
    if run != [] {
      var store, action := After(run[..|run| - 1]), run[|run| - 1];
      RunsStayScored(run[..|run| - 1]);
      if action.Resolve? && action.id < |store| {
        ResolutionScores(store[action.id], action.outcome, action.at);
      }
      forall f | f in Acted(store, action) ensures Scored(f) {
        if action.Issue? && f !in store {
          assert f == Issued(action.at, action.resolutionDate, action.probability, action.confidence);
        }
      }
    }
  }

  ghost predicate IssuedBy(f: Forecast, action: Action) {
    && action.Issue?
    && f.issuedAt == action.at && f.resolutionDate == action.resolutionDate
    && f.probability == action.probability && f.confidence == action.confidence
  }

  /** Whatever is resolved later, each forecast keeps the probability and dates it was issued with. */
  lemma {:induction false} IssuedFieldsNeverChange(run: seq<Action>, id: nat) returns (k: nat)
    requires id < |After(run)|
    ensures k < |run| && IssuedBy(After(run)[id], run[k])
    ensures |After(run[..k])| == id
  {
    var front := run[..|run| - 1];
    if id < |After(front)| {
      k := IssuedFieldsNeverChange(front, id);
      assert front[..k] == run[..k];
    } else {
      k := |run| - 1;
    }
  }

  // ----- the repository and the audit service -----

  class ForecastRepository {
    var forecasts: seq<Forecast>

    constructor ()
      ensures forecasts == []
    {
      forecasts := [];
    }

    method Create(issuedAt: int, resolutionDate: int, probability: real, confidence: real) returns (id: nat)
      modifies this
      ensures id == |old(forecasts)|
      ensures forecasts == Acted(old(forecasts), Issue(issuedAt, resolutionDate, probability, confidence))
    {
      id := |forecasts|;
      forecasts := forecasts
        + [Forecast(issuedAt, resolutionDate, probability, confidence, Open, None, None, None)];
    }

    method Resolve(id: nat, outcome: Outcome, resolvedAt: int, brierScore: Option<real>) returns (found: bool)
      modifies this
      ensures found <==> id < |old(forecasts)|
      ensures !found ==> forecasts == old(forecasts)
      ensures found ==> forecasts == old(forecasts)[id := old(forecasts)[id].(
        status := Resolved, outcome := Some(outcome), resolvedAt := Some(resolvedAt), brierScore := brierScore)]
    {
      if id >= |forecasts| {
        return false;
      }
      var forecast := forecasts[id];
      forecast := forecast.(status := Resolved);
      forecast := forecast.(outcome := Some(outcome));
      forecast := forecast.(resolvedAt := Some(resolvedAt));
      forecast := forecast.(brierScore := brierScore);
      forecasts := forecasts[id := forecast];
      return true;
    }

    /** `list_all` filtered by status, in table order. */
    function ListAll(status: Status): seq<Forecast>
      reads this
    {
      WithStatus(forecasts, status)
    }
  }

  function WithStatus(forecasts: seq<Forecast>, status: Status): seq<Forecast> {
    if forecasts == [] then []
    else
      var rest := WithStatus(forecasts[1..], status);
      if forecasts[0].status == status then [forecasts[0]] + rest else rest
  }

  class ForecastAuditService {
    const repository: ForecastRepository

    constructor (repository: ForecastRepository)
      ensures this.repository == repository
    {
      this.repository := repository;
    }

    method IssueForecast(now: int, resolutionDate: int, probability: real, confidence: real) returns (id: nat)
      modifies repository
      ensures id == |old(repository.forecasts)|
      ensures repository.forecasts
           == Acted(old(repository.forecasts), Issue(now, resolutionDate, probability, confidence))
    {
      id := repository.Create(now, resolutionDate, probability, confidence);
    }

    method ResolveForecast(id: nat, outcome: Outcome, now: int) returns (r: Result<Forecast, Error>)
      modifies repository
      ensures repository.forecasts == Acted(old(repository.forecasts), Action.Resolve(id, outcome, now))
      ensures r.Err? <==> id >= |old(repository.forecasts)|
      ensures r.Ok? ==> r.value == repository.forecasts[id] && r.value.status == Resolved
    {
      if id >= |repository.forecasts| {
        return Err(ForecastNotFound);
      }
      var brierScore := BrierScore(repository.forecasts[id].probability / 100.0, outcome);
      var found := repository.Resolve(id, outcome, now, brierScore);
      return Ok(repository.forecasts[id]);
    }
  }
}
