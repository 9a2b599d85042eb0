/** Which forecasts a calibration report speaks about, and which bucket each of them is in. */
module CalibrationSamples {
  import opened Wrappers
  import opened Sums
  import opened Forecasts
  import opened Calibration
  import opened CalibrationProofs

  // ----- the last resolution decides -----

  /** The last resolution a forecast was given while it was there: its outcome and time. */
  function LastResolution(run: seq<Action>, id: nat): Option<(Outcome, int)> {
    if run == [] then None
    else
      var front := run[..|run| - 1];
      match run[|run| - 1]
      case Issue(_, _, _, _) => LastResolution(front, id)
      case Resolve(k, outcome, at) =>
        if k == id && id < |After(front)| then Some((outcome, at)) else LastResolution(front, id)
  }

  /** Over every run a forecast is open until it is first resolved, and then shows its last resolution. */
  lemma {:induction false} LastResolutionDecides(run: seq<Action>, id: nat)
    ensures id >= |After(run)| ==> LastResolution(run, id).None?
    ensures id < |After(run)| ==>
      var f := After(run)[id];
      match LastResolution(run, id)
      case None => f.status == Open && f.outcome.None? && f.resolvedAt.None? && f.brierScore.None?
      case Some((outcome, at)) => f.status == Resolved && f.outcome == Some(outcome) && f.resolvedAt == Some(at)
  {
    hide BrierScore;
    if run != [] {
      LastResolutionDecides(run[..|run| - 1], id);
    }
  }

  // ----- the samples -----

  /** A forecast the report scores: resolved yes or no, and issued within the dates given, both included. */
  predicate Scores(f: Forecast, since: Option<int>, until: Option<int>) {
    && f.status == Resolved && (f.outcome == Some(Yes) || f.outcome == Some(No))
    && IssuedWithin(f, since, until)
  }

  predicate IssuedWithin(f: Forecast, since: Option<int>, until: Option<int>) {
    (since.Some? ==> since.value <= f.issuedAt) && (until.Some? ==> f.issuedAt <= until.value)
  }

  function SampleOf(f: Forecast): Sample { Sample(f.probability, f.outcome, f.brierScore) }

  /** A measure of samples as a measure of forecasts: zero for those the report does not score. */
  function OfScored(g: Sample -> real, since: Option<int>, until: Option<int>): Forecast -> real {
    f => if Scores(f, since, until) then g(SampleOf(f)) else 0.0
  }

  function SamplesIn(store: seq<Forecast>, since: Option<int>, until: Option<int>): seq<Sample> {
    Scorable(InRange(WithStatus(store, Resolved), since, until))
  }

  lemma SamplesOfMore(f: Forecast, rest: seq<Forecast>, since: Option<int>, until: Option<int>)
    ensures SamplesIn([f] + rest, since, until)
         == (if Scores(f, since, until) then [SampleOf(f)] else []) + SamplesIn(rest, since, until)
  {
    assert ([f] + rest)[1..] == rest;
    var more := WithStatus(rest, Resolved);
    assert ([f] + more)[1..] == more;
    var kept := InRange(more, since, until);
    assert ([f] + kept)[1..] == kept && [] + kept == kept;
    assert [] + Scorable(kept) == Scorable(kept);
  }

  /**
   The samples of a report are exactly the scored forecasts, each once: any measure summed over the
   samples is the measure summed over those forecasts of the store.
   */
  lemma {:induction false} SamplesAreTheScored(
    g: Sample -> real, store: seq<Forecast>, since: Option<int>, until: Option<int>)
    ensures RealTotal(g, SamplesIn(store, since, until)) == RealTotal(OfScored(g, since, until), store)
  {
    if store != [] {
      SamplesAreTheScored(g, store[1..], since, until);
      assert store == [store[0]] + store[1..];
      SamplesOfMore(store[0], store[1..], since, until);
      var own := if Scores(store[0], since, until) then [SampleOf(store[0])] else [];
      RealTotalConcat(g, own, SamplesIn(store[1..], since, until));
      if own != [] {
        RealTotalOne(g, SampleOf(store[0]));
      }
    }
  }

  function CountIf(p: Forecast -> bool): Forecast -> int { f => if p(f) then 1 else 0 }

  predicate Within(f: Forecast, status: Status, since: Option<int>, until: Option<int>) {
    f.status == status && IssuedWithin(f, since, until)
  }

  function WithinDates(status: Status, since: Option<int>, until: Option<int>): Forecast -> bool {
    f => Within(f, status, since, until)
  }

  lemma {:induction false} FilterCounts(
    store: seq<Forecast>, status: Status, since: Option<int>, until: Option<int>)
    ensures |InRange(WithStatus(store, status), since, until)|
         == Total(CountIf(WithinDates(status, since, until)), store)
  {
    if store != [] {
      FilterCounts(store[1..], status, since, until);
      var more := WithStatus(store[1..], status);
      assert ([store[0]] + more)[1..] == more;
    }
  }

  /** The report counts the resolved and the open forecasts issued within its dates. */
  lemma ReportCounts(store: seq<Forecast>, since: Option<int>, until: Option<int>, b: nat)
    requires b >= 1
    ensures var report := ReliabilityReport(store, since, until, b);
      && report.resolvedCount == Total(CountIf(WithinDates(Resolved, since, until)), store)
      && report.openCount == Total(CountIf(WithinDates(Open, since, until)), store)
  {
    FilterCounts(store, Resolved, since, until);
    FilterCounts(store, Open, since, until);
  }

  /** A measure of the samples of one bucket. */
  function InBucket(g: Sample -> real, b: nat, i: nat): Sample -> real
    requires b >= 1
  {
    s => if IndexOf(s, b) == i then g(s) else 0.0
  }

  lemma {:induction false} KeptTotal(g: Sample -> real, samples: seq<Sample>, b: nat, i: nat)
    requires b >= 1
    ensures RealTotal(g, Kept(samples, IsIn(b, i))) == RealTotal(InBucket(g, b, i), samples)
  {
    if samples != [] {
      var n := |samples| - 1;
      var last := samples[n];
      KeptTotal(g, samples[..n], b, i);
      assert samples == samples[..n] + [last];
      RealTotalPush(InBucket(g, b, i), samples[..n], last);
      var front := Kept(samples[..n], IsIn(b, i));
      RealTotalPush(g, front, last);
      assert front + [] == front;
    }
  }

  /** A bucket's count, and its means where it has any, multiplied back by it. */
  ghost predicate Figures(bucket: Bucket, count: real, predicted: real, observed: real) {
    && bucket.count as real == count
    && (bucket.count > 0 ==>
          bucket.meanPredicted.Some? && bucket.observed.Some?
          && count * bucket.meanPredicted.value == predicted && count * bucket.observed.value == observed)
  }

  /**
   Bucket i of a report counts the scored forecasts whose probability falls into it, and its sums of
   predictions and of outcomes are theirs.
   */
  lemma BucketsAreOfTheScored(store: seq<Forecast>, since: Option<int>, until: Option<int>, b: nat, i: nat)
    requires b >= 1 && i < b
    ensures Figures(ReliabilityReport(store, since, until, b).buckets[i],
                    RealTotal(OfScored(InBucket(One, b, i), since, until), store),
                    RealTotal(OfScored(InBucket(Predicted, b, i), since, until), store),
                    RealTotal(OfScored(InBucket(Observed, b, i), since, until), store))
  {
    var group := Groups(SamplesIn(store, since, until), b)[i];
    BucketFigures(group, i, b);
    BucketSum(One, store, since, until, b, i);
    BucketSum(Predicted, store, since, until, b, i);
    BucketSum(Observed, store, since, until, b, i);
    ReportBuckets(store, since, until, b, i);
    hide RealTotal, Groups, SamplesIn, BucketOf, ReliabilityReport, Figures;
  }

  lemma ReportBuckets(store: seq<Forecast>, since: Option<int>, until: Option<int>, b: nat, i: nat)
    requires b >= 1 && i < b
    ensures |ReliabilityReport(store, since, until, b).buckets| == b
    ensures ReliabilityReport(store, since, until, b).buckets[i]
         == BucketOf(Groups(SamplesIn(store, since, until), b)[i], i, b)
  {}

  lemma BucketFigures(group: seq<Sample>, i: nat, b: nat)
    requires b >= 1
    ensures Figures(BucketOf(group, i, b), RealTotal(One, group), RealTotal(Predicted, group),
                    RealTotal(Observed, group))
  {
    OnesCount(group);
    hide RealTotal, MeanScore, Edge;
    if group != [] {
      MultiplyBack(RealTotal(Predicted, group), |group| as real);
      MultiplyBack(RealTotal(Observed, group), |group| as real);
    }
  }

  lemma BucketSum(g: Sample -> real, store: seq<Forecast>, since: Option<int>, until: Option<int>, b: nat, i: nat)
    requires b >= 1 && i < b
    ensures RealTotal(g, Groups(SamplesIn(store, since, until), b)[i])
         == RealTotal(OfScored(InBucket(g, b, i), since, until), store)
  {
    var samples := SamplesIn(store, since, until);
    GroupIsSelection(samples, b, i);
    KeptTotal(g, samples, b, i);
    SamplesAreTheScored(InBucket(g, b, i), store, since, until);
  }

  // ----- the bucket of a probability -----

  /**
   The scale cut into b steps: what is on the i-th step, its lower end included and its upper one not,
   belongs to i; what is below the scale to the first, and what is at its end or above to the last.
   */
  ghost predicate OnStep(x: real, b: nat, i: nat) {
    if x < 0.0 then i == 0 else if x >= b as real then i == b - 1 else i as real <= x < (i + 1) as real
  }

  lemma IndexIs(s: Sample, b: nat, i: nat)
    requires b >= 1 && i < b
    ensures IndexOf(s, b) == i <==> OnStep(s.probability / 100.0 * b as real, b, i)
  {
    hide OnStep;
    var x := s.probability / 100.0 * b as real;
    assert IndexOf(s, b) == Clamp(Truncate(x), 0, b - 1);
    hide Clamp, Truncate, IndexOf;
    IndexOfScaled(x, b, i);
  }

  lemma IndexOfScaled(x: real, b: nat, i: nat)
    requires b >= 1 && i < b
    ensures Clamp(Truncate(x), 0, b - 1) == i <==> OnStep(x, b, i)
  {}

  /** The buckets lie side by side from 0 to 1, all of one width. */
  lemma BucketsTileTheScale(samples: seq<Sample>, b: nat, i: nat)
    requires b >= 1 && i < b
    ensures var buckets := Buckets(samples, b);
      && buckets[0].lower == 0.0 && buckets[b - 1].upper == 1.0
      && (i + 1 < b ==> buckets[i].upper == buckets[i + 1].lower)
      && (buckets[i].upper - buckets[i].lower) * b as real == 1.0
  {
    hide Groups, MeanScore, RealTotal;
    EdgesTile(b, i);
    EdgesTile(b, b - 1);
  }

  lemma EdgesTile(b: nat, i: nat)
    requires b >= 1
    ensures Edge(0, b) == 0.0 && Edge(b, b) == 1.0
    ensures (Edge(i + 1, b) - Edge(i, b)) * b as real == 1.0
  {
    var n := b as real;
    var width := 1.0 / n;
    assert n * width == 1.0;
    assert (i + 1) as real * width == i as real * width + width;
  }
}
