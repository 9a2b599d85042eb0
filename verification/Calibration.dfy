/** Reliability buckets and the calibration report. */
module Calibration {
  import opened Wrappers
  import opened Sums
  import opened Forecasts

  datatype Sample = Sample(probability: real, outcome: Option<Outcome>, brierScore: Option<real>)

  datatype Bucket = Bucket(
    lower: real,
    upper: real,
    count: nat,
    meanPredicted: Option<real>,
    observed: Option<real>,
    meanBrier: Option<real>)

  datatype Report = Report(overall: Option<real>, resolvedCount: nat, openCount: nat, buckets: seq<Bucket>)

  datatype BucketError = BucketCountTooSmall

  // ----- the measures of a sample -----

  function Predicted(s: Sample): real { s.probability / 100.0 }

  function Observed(s: Sample): real { if s.outcome == Some(Yes) then 1.0 else 0.0 }

  function Brier(s: Sample): real { if s.brierScore.Some? then s.brierScore.value else 0.0 }

  function ScoreCount(samples: seq<Sample>): nat {
    if samples == [] then 0
    else (if samples[0].brierScore.Some? then 1 else 0) + ScoreCount(samples[1..])
  }

  // ----- bucketing -----

  /** Python's `int()`: truncation towards zero. */
  function Truncate(x: real): int { if x >= 0.0 then x.Floor else -((-x).Floor) }

  function Clamp(x: int, low: int, high: int): int {
    var raised := if x >= low then x else low;
    if raised <= high then raised else high
  }

  function IndexOf(s: Sample, bucketCount: nat): (i: nat)
    requires bucketCount >= 1
    ensures i < bucketCount
  {
    Clamp(Truncate(Predicted(s) * bucketCount as real), 0, bucketCount - 1)
  }

  /** The samples appended one by one to the list of their bucket. */
  function Groups(samples: seq<Sample>, bucketCount: nat): (groups: seq<seq<Sample>>)
    requires bucketCount >= 1
    ensures |groups| == bucketCount
  {
    if samples == [] then seq(bucketCount, _ => [])
    else
      var n := |samples| - 1;
      var groups := Groups(samples[..n], bucketCount);
      var i := IndexOf(samples[n], bucketCount);
      groups[i := groups[i] + [samples[n]]]
  }

  function Mean(f: Sample -> real, samples: seq<Sample>): real
    requires samples != []
  {
    RealTotal(f, samples) / |samples| as real
  }

  function MeanScore(samples: seq<Sample>): Option<real> {
    if ScoreCount(samples) == 0 then None else Some(RealTotal(Brier, samples) / ScoreCount(samples) as real)
  }

  /** The i-th boundary of `bucketCount` equal-width buckets of [0, 1]. */
  function Edge(i: nat, bucketCount: nat): real
    requires bucketCount >= 1
  {
    var width := 1.0 / bucketCount as real;
    i as real * width
  }

  function BucketOf(group: seq<Sample>, i: nat, bucketCount: nat): Bucket
    requires bucketCount >= 1
  {
    var lower, upper := Edge(i, bucketCount), Edge(i + 1, bucketCount);
    if group == [] then Bucket(lower, upper, 0, None, None, None)
    else Bucket(lower, upper, |group|, Some(Mean(Predicted, group)), Some(Mean(Observed, group)), MeanScore(group))
  }

  function Buckets(samples: seq<Sample>, bucketCount: nat): seq<Bucket>
    requires bucketCount >= 1
  {
    var groups := Groups(samples, bucketCount);
    seq(bucketCount, i requires 0 <= i < bucketCount => BucketOf(groups[i], i, bucketCount))
  }

  method BucketForecasts(samples: seq<Sample>, bucketCount: int) returns (r: Result<seq<Bucket>, BucketError>)
    ensures bucketCount < 1 <==> r == Err(BucketCountTooSmall)
    ensures bucketCount >= 1 ==> r == Ok(Buckets(samples, bucketCount))
  {
    if bucketCount < 1 {
      return Err(BucketCountTooSmall);
    }
    var grouped := PlaceSamples(samples, bucketCount);
    ghost var groups := grouped[..];
    var buckets: seq<Bucket> := [];
    for index := 0 to bucketCount
      invariant |buckets| == index
      invariant forall i :: 0 <= i < index ==> buckets[i] == BucketOf(groups[i], i, bucketCount)
      modifies {}
    {
      var bucket := Summarize(grouped[index], index, bucketCount);
      buckets := buckets + [bucket];
    }
    assert buckets == Buckets(samples, bucketCount);
    r := Ok(buckets);
  }

  /** The first loop: every sample is appended to the list of its bucket. */
  method PlaceSamples(samples: seq<Sample>, bucketCount: nat) returns (grouped: array<seq<Sample>>)
    requires bucketCount >= 1
    ensures fresh(grouped) && grouped[..] == Groups(samples, bucketCount)
  {
    grouped := new seq<Sample>[bucketCount](_ => []);
    for k := 0 to |samples|
      invariant grouped[..] == Groups(samples[..k], bucketCount)
    {
      GroupsOfLonger(samples, k, bucketCount);
      var index := IndexOf(samples[k], bucketCount);
      grouped[index] := grouped[index] + [samples[k]];
    }
    assert samples[..|samples|] == samples;
  }

  lemma GroupsOfLonger(samples: seq<Sample>, k: nat, bucketCount: nat)
    requires bucketCount >= 1 && k < |samples|
    ensures var i := IndexOf(samples[k], bucketCount);
      var groups := Groups(samples[..k], bucketCount);
      Groups(samples[..k + 1], bucketCount) == groups[i := groups[i] + [samples[k]]]
  {
    assert samples[..k + 1][..k] == samples[..k];
  }

  /** One turn of the second loop. */
  method Summarize(group: seq<Sample>, index: nat, bucketCount: nat) returns (bucket: Bucket)
    requires bucketCount >= 1
    ensures bucket == BucketOf(group, index, bucketCount)
  {
    var width := 1.0 / bucketCount as real;
    var lower, upper := index as real * width, (index + 1) as real * width;
    if group == [] {
      return Bucket(lower, upper, 0, None, None, None);
    }
    var predicted, observed, brier, scored := Accumulate(group);
    var meanBrier := if scored > 0 then Some(brier / scored as real) else None;
    bucket := Bucket(lower, upper, |group|, Some(predicted / |group| as real),
                     Some(observed / |group| as real), meanBrier);
  }

  /** The four sums taken over one group. */
  method Accumulate(group: seq<Sample>) returns (predicted: real, observed: real, brier: real, scored: nat)
    ensures predicted == RealTotal(Predicted, group)
    ensures observed == RealTotal(Observed, group)
    ensures brier == RealTotal(Brier, group) && scored == ScoreCount(group)
  {
    predicted, observed, brier, scored := 0.0, 0.0, 0.0, 0;
    for k := 0 to |group|
      invariant predicted == RealTotal(Predicted, group[..k])
      invariant observed == RealTotal(Observed, group[..k])
      invariant brier == RealTotal(Brier, group[..k]) && scored == ScoreCount(group[..k])
    {
      var s := group[k];
      assert group[..k + 1] == group[..k] + [s];
      RealTotalPush(Predicted, group[..k], s);
      RealTotalPush(Observed, group[..k], s);
      RealTotalPush(Brier, group[..k], s);
      ScoreCountConcat(group[..k], [s]);
      predicted := predicted + s.probability / 100.0;
      observed := observed + if s.outcome == Some(Yes) then 1.0 else 0.0;
      match s.brierScore {
        case Some(score) =>
          brier := brier + score;
          scored := scored + 1;
        case None =>
      }
    }
    assert group[..|group|] == group;
  }

  lemma {:induction false} ScoreCountConcat(a: seq<Sample>, b: seq<Sample>)
    ensures ScoreCount(a + b) == ScoreCount(a) + ScoreCount(b)
  {
    if a == [] {
      assert a + b == b;
    } else {
      assert (a + b)[1..] == a[1..] + b;
      ScoreCountConcat(a[1..], b);
    }
  }

  // ----- the report over the store -----

  predicate IssuedBetween(f: Forecast, since: Option<int>, until: Option<int>) {
    if since.Some? && f.issuedAt < since.value then false
    else !(until.Some? && f.issuedAt > until.value)
  }

  function InRange(forecasts: seq<Forecast>, since: Option<int>, until: Option<int>): seq<Forecast> {
    if forecasts == [] then []
    else
      var kept := if IssuedBetween(forecasts[0], since, until) then [forecasts[0]] else [];
      kept + InRange(forecasts[1..], since, until)
  }

  /** The samples of the resolved forecasts whose outcome is binary. */
  function Scorable(resolved: seq<Forecast>): seq<Sample> {
    if resolved == [] then []
    else
      var f := resolved[0];
      var binary := f.outcome == Some(Yes) || f.outcome == Some(No);
      var kept := if binary then [Sample(f.probability, f.outcome, f.brierScore)] else [];
      kept + Scorable(resolved[1..])
  }

  function ReliabilityReport(store: seq<Forecast>, since: Option<int>, until: Option<int>, bucketCount: nat): Report
    requires bucketCount >= 1
  {
    var resolved := InRange(WithStatus(store, Resolved), since, until);
    var samples := Scorable(resolved);
    Report(MeanScore(samples), |resolved|, |InRange(WithStatus(store, Open), since, until)|,
           Buckets(samples, bucketCount))
  }

  lemma {:induction false} UnboundedRangeKeepsAll(forecasts: seq<Forecast>)
    ensures InRange(forecasts, None, None) == forecasts
  {
    if forecasts != [] {
      UnboundedRangeKeepsAll(forecasts[1..]);
    }
  }

  class CalibrationService {
    const repository: ForecastRepository

    constructor (repository: ForecastRepository)
      ensures this.repository == repository
    {
      this.repository := repository;
    }

    method ComputeReliability(since: Option<int>, until: Option<int>, bucketCount: int)
      returns (r: Result<Report, BucketError>)
      ensures bucketCount < 1 <==> r == Err(BucketCountTooSmall)
      ensures bucketCount >= 1 ==>
        r == Ok(ReliabilityReport(repository.forecasts, since, until, bucketCount))
    {
      var resolved := repository.ListAll(Resolved);
      var open := repository.ListAll(Open);
      if since.Some? || until.Some? {
        resolved := InRange(resolved, since, until);
        open := InRange(open, since, until);
      } else {
        UnboundedRangeKeepsAll(resolved);
        UnboundedRangeKeepsAll(open);
      }
      var samples := Scorable(resolved);
      var bucketed := BucketForecasts(samples, bucketCount);
      match bucketed {
        case Err(error) => return Err(error);
        case Ok(buckets) =>
          var _, _, brier, scored := Accumulate(samples);
          var overall := if scored > 0 then Some(brier / scored as real) else None;
          return Ok(Report(overall, |resolved|, |open|, buckets));
      }
    }
  }
}
