/** Partition, recomposition, convexity and refinement of the reliability buckets. */
module CalibrationProofs {
  import opened Wrappers
  import opened Sums
  import opened Forecasts
  import opened Calibration

  // ----- bucketing is a partition -----

  function SumOver(g: Sample -> real): seq<Sample> -> real { group => RealTotal(g, group) }

  function IsIn(b: nat, i: nat): Sample -> bool
    requires b >= 1
  {
    s => IndexOf(s, b) == i
  }

  function Kept(samples: seq<Sample>, keep: Sample -> bool): seq<Sample> {
    if samples == [] then []
    else
      var n := |samples| - 1;
      Kept(samples[..n], keep) + if keep(samples[n]) then [samples[n]] else []
  }

  /** Bucket i holds exactly the samples whose index is i, in their original order. */
  lemma {:induction false} GroupIsSelection(samples: seq<Sample>, b: nat, i: nat)
    requires b >= 1 && i < b
    ensures Groups(samples, b)[i] == Kept(samples, IsIn(b, i))
  {
    if samples != [] {
      GroupIsSelection(samples[..|samples| - 1], b, i);
    }
  }

  lemma {:induction false} KeptAreIn(samples: seq<Sample>, keep: Sample -> bool)
    ensures forall s :: s in Kept(samples, keep) <==> s in samples && keep(s)
  {
    if samples != [] {
      var n := |samples| - 1;
      assert samples == samples[..n] + [samples[n]];
      KeptAreIn(samples[..n], keep);
    }
  }

  /** Any measure summed over the buckets is the measure summed over the samples. */
  lemma {:induction false} GroupsRecompose(g: Sample -> real, samples: seq<Sample>, b: nat)
    requires b >= 1
    ensures RealTotal(SumOver(g), Groups(samples, b)) == RealTotal(g, samples)
  {
    if samples == [] {
      EmptyGroupsSumToZero(g, Groups(samples, b));
    } else {
      var n := |samples| - 1;
      var x := samples[n];
      var groups := Groups(samples[..n], b);
      var i := IndexOf(x, b);
      GroupsRecompose(g, samples[..n], b);
      RealTotalUpdate(SumOver(g), groups, i, groups[i] + [x]);
      RealTotalPush(g, groups[i], x);
      assert samples == samples[..n] + [x];
      RealTotalPush(g, samples[..n], x);
    }
  }

  lemma {:induction false} EmptyGroupsSumToZero(g: Sample -> real, groups: seq<seq<Sample>>)
    requires forall k :: 0 <= k < |groups| ==> groups[k] == []
    ensures RealTotal(SumOver(g), groups) == 0.0
  {
    if groups != [] {
      EmptyGroupsSumToZero(g, groups[1..]);
    }
  }

  function One(s: Sample): real { 1.0 }

  lemma {:induction false} OnesCount(samples: seq<Sample>)
    ensures RealTotal(One, samples) == |samples| as real
  {
    if samples != [] {
      OnesCount(samples[1..]);
    }
  }

  function CountShare(b: Bucket): real { b.count as real }

  lemma CountsAddUp(samples: seq<Sample>, b: nat)
    requires b >= 1
    ensures RealTotal(CountShare, Buckets(samples, b)) == |samples| as real
  {
    var groups, buckets := Groups(samples, b), Buckets(samples, b);
    forall i | 0 <= i < b ensures CountShare(buckets[i]) == SumOver(One)(groups[i]) {
      OnesCount(groups[i]);
    }
    RealTotalPointwise(CountShare, buckets, SumOver(One), groups);
    GroupsRecompose(One, samples, b);
    OnesCount(samples);
  }

  /**
   Exactly `bucketCount` buckets whose counts add up to the number of samples; bucket i counts the
   samples whose index is i, so each sample lands in exactly one bucket.
   */
  lemma BucketsPartition(samples: seq<Sample>, b: nat)
    requires b >= 1
    ensures |Buckets(samples, b)| == b
    ensures RealTotal(CountShare, Buckets(samples, b)) == |samples| as real
    ensures forall i :: 0 <= i < b ==> Buckets(samples, b)[i].count == |Kept(samples, IsIn(b, i))|
    ensures forall s, i :: 0 <= i < b && s in samples ==> (s in Kept(samples, IsIn(b, i)) <==> i == IndexOf(s, b))
  {
    CountsAddUp(samples, b);
    forall i | 0 <= i < b
      ensures Buckets(samples, b)[i].count == |Kept(samples, IsIn(b, i))|
      ensures forall s :: s in samples ==> (s in Kept(samples, IsIn(b, i)) <==> i == IndexOf(s, b))
    {
      GroupIsSelection(samples, b, i);
      KeptAreIn(samples, IsIn(b, i));
    }
  }

  /** The order of the samples does not matter. */
  lemma BucketsIgnoreOrder(a: seq<Sample>, c: seq<Sample>, b: nat)
    requires b >= 1 && multiset(a) == multiset(c)
    ensures Buckets(a, b) == Buckets(c, b)
  {
    forall i | 0 <= i < b
      ensures BucketOf(Groups(a, b)[i], i, b) == BucketOf(Groups(c, b)[i], i, b)
    {
      GroupIsSelection(a, b, i);
      GroupIsSelection(c, b, i);
      KeptOfPermutation(a, c, IsIn(b, i));
      BucketOfPermutation(Groups(a, b)[i], Groups(c, b)[i], i, b);
    }
  }

  lemma {:induction false} KeptCounts(samples: seq<Sample>, keep: Sample -> bool, s: Sample)
    ensures multiset(Kept(samples, keep))[s] == if keep(s) then multiset(samples)[s] else 0
  {
    if samples != [] {
      var n := |samples| - 1;
      assert samples == samples[..n] + [samples[n]];
      KeptCounts(samples[..n], keep, s);
    }
  }

  lemma KeptOfPermutation(a: seq<Sample>, c: seq<Sample>, keep: Sample -> bool)
    requires multiset(a) == multiset(c)
    ensures multiset(Kept(a, keep)) == multiset(Kept(c, keep))
  {
    forall s ensures multiset(Kept(a, keep))[s] == multiset(Kept(c, keep))[s] {
      KeptCounts(a, keep, s);
      KeptCounts(c, keep, s);
    }
  }

  function ScoredUnit(s: Sample): int { if s.brierScore.Some? then 1 else 0 }

  lemma {:induction false} ScoreCountIsTotal(samples: seq<Sample>)
    ensures ScoreCount(samples) == Total(ScoredUnit, samples)
  {
    if samples != [] {
      ScoreCountIsTotal(samples[1..]);
    }
  }

  lemma BucketOfPermutation(a: seq<Sample>, c: seq<Sample>, i: nat, b: nat)
    requires b >= 1 && multiset(a) == multiset(c)
    ensures BucketOf(a, i, b) == BucketOf(c, i, b)
  {
    assert |multiset(a)| == |a| && |multiset(c)| == |c|;
    RealTotalOfPermutation(Predicted, a, c);
    RealTotalOfPermutation(Observed, a, c);
    RealTotalOfPermutation(Brier, a, c);
    TotalOfPermutation(ScoredUnit, a, c);
    ScoreCountIsTotal(a);
    ScoreCountIsTotal(c);
  }

  // ----- the mean prediction lies in its bucket -----

  lemma ProductBounds(p: real, b: real, low: real, high: real)
    requires b > 0.0 && low <= p * b <= high
    ensures low * (1.0 / b) <= p <= high * (1.0 / b)
  {
    var w := 1.0 / b;
    assert b * w == 1.0;
    assert (p * b) * w == p * (b * w) == p;
    assert low * w <= (p * b) * w <= high * w;
  }

  lemma IndexBoundsScaled(p: real, b: nat)
    requires b >= 1 && 0.0 <= p <= 1.0
    ensures var i := Clamp(Truncate(p * b as real), 0, b - 1);
      i as real <= p * b as real <= (i + 1) as real
  {
    assert 0.0 <= p * b as real <= 1.0 * b as real;
  }

  lemma IndexBoundsPrediction(s: Sample, b: nat)
    requires b >= 1 && 0.0 <= s.probability <= 100.0
    ensures var i := IndexOf(s, b); Edge(i, b) <= Predicted(s) <= Edge(i + 1, b)
  {
    var i := IndexOf(s, b);
    IndexBoundsScaled(Predicted(s), b);
    ProductBounds(Predicted(s), b as real, i as real, (i + 1) as real);
  }

  lemma {:induction false} TotalWithinBounds(f: Sample -> real, samples: seq<Sample>, low: real, high: real)
    requires forall s <- samples :: low <= f(s) <= high
    ensures |samples| as real * low <= RealTotal(f, samples) <= |samples| as real * high
  {
    if samples != [] {
      assert samples[0] in samples;
      TotalWithinBounds(f, samples[1..], low, high);
      var n := (|samples| - 1) as real;
      assert |samples| as real * low == n * low + low;
      assert |samples| as real * high == n * high + high;
    }
  }

  lemma MeanWithinBounds(f: Sample -> real, group: seq<Sample>, low: real, high: real)
    requires group != [] && forall s <- group :: low <= f(s) <= high
    ensures low <= Mean(f, group) <= high
  {
    TotalWithinBounds(f, group, low, high);
    DivideBetween(RealTotal(f, group), |group| as real, low, high);
  }

  lemma MeanPredictionOfGroup(group: seq<Sample>, i: nat, b: nat)
    requires b >= 1 && group != []
    requires forall s <- group :: 0.0 <= s.probability <= 100.0 && IndexOf(s, b) == i
    ensures Edge(i, b) <= Mean(Predicted, group) <= Edge(i + 1, b)
  {
    forall s | s in group ensures Edge(i, b) <= Predicted(s) <= Edge(i + 1, b) {
      IndexBoundsPrediction(s, b);
    }
    MeanWithinBounds(Predicted, group, Edge(i, b), Edge(i + 1, b));
  }

  /** For probabilities on the 0-100 scale every bucket's mean prediction lies between its bounds. */
  lemma MeanPredictionInBucket(samples: seq<Sample>, b: nat, i: nat)
    requires b >= 1 && i < b
    requires forall s <- samples :: 0.0 <= s.probability <= 100.0
    requires Buckets(samples, b)[i].count > 0
    ensures var bucket := Buckets(samples, b)[i];
      bucket.meanPredicted.Some? && bucket.lower <= bucket.meanPredicted.value <= bucket.upper
  {
    GroupIsSelection(samples, b, i);
    KeptAreIn(samples, IsIn(b, i));
    MeanPredictionOfGroup(Groups(samples, b)[i], i, b);
  }

  // ----- the calibration inequality -----

  function Gap(s: Sample): real { Predicted(s) - Observed(s) }

  ghost predicate IsScored(s: Sample) {
    (s.outcome == Some(Yes) || s.outcome == Some(No)) && s.brierScore == Some(Square(Gap(s)))
  }

  ghost predicate AllScored(samples: seq<Sample>) {
    forall s <- samples :: IsScored(s)
  }

  lemma {:induction false} GapIsDifference(samples: seq<Sample>)
    ensures RealTotal(Gap, samples) == RealTotal(Predicted, samples) - RealTotal(Observed, samples)
  {
    if samples != [] {
      GapIsDifference(samples[1..]);
    }
  }

  lemma {:induction false} ScoredSamplesAllCount(samples: seq<Sample>)
    requires AllScored(samples)
    ensures ScoreCount(samples) == |samples|
  {
    if samples != [] {
      assert samples[0] in samples;
      ScoredSamplesAllCount(samples[1..]);
    }
  }

  lemma SpreadOfOneMore(x: real, y: real, squares: real, total: real, n: real)
    requires squares - 2.0 * y * total + n * (y * y) >= 0.0
    ensures (x * x + squares) - 2.0 * y * (x + total) + (n + 1.0) * (y * y) >= 0.0
  {
    assert (x - y) * (x - y) == x * x - 2.0 * y * x + y * y;
    assert 2.0 * y * (x + total) == 2.0 * y * x + 2.0 * y * total;
    assert (n + 1.0) * (y * y) == n * (y * y) + y * y;
  }

  /** The spread of the errors around any y is not negative. */
  lemma {:induction false} SpreadIsNonNegative(samples: seq<Sample>, y: real)
    requires AllScored(samples)
    ensures RealTotal(Brier, samples) - 2.0 * y * RealTotal(Gap, samples) + |samples| as real * (y * y) >= 0.0
  {
    if samples != [] {
      var rest := samples[1..];
      assert IsScored(samples[0]) && AllScored(rest);
      SpreadIsNonNegative(rest, y);
      SpreadOfOneMore(Gap(samples[0]), y, RealTotal(Brier, rest), RealTotal(Gap, rest), |rest| as real);
    }
  }

  /** The mean square is at least the square of the mean. */
  lemma MeanSquareDominates(samples: seq<Sample>)
    requires samples != [] && AllScored(samples)
    ensures Mean(Brier, samples) >= Square(Mean(Gap, samples))
  {
    var n := |samples| as real;
    var m := Mean(Gap, samples);
    SpreadIsNonNegative(samples, m);
    MeanFromSpread(RealTotal(Brier, samples), RealTotal(Gap, samples), n, m);
  }

  lemma MeanFromSpread(squares: real, total: real, n: real, m: real)
    requires n > 0.0 && m == total / n && squares - 2.0 * m * total + n * (m * m) >= 0.0
    ensures squares / n >= Square(m)
  {
    assert total == n * m;
    assert m * total == n * (m * m);
    assert squares >= n * (m * m);
    assert (n * (m * m)) / n == m * m;
  }

  /** Each non-empty bucket: mean Brier score >= (mean prediction - observed frequency) squared. */
  lemma BucketBrierDominates(samples: seq<Sample>, b: nat, i: nat)
    requires b >= 1 && i < b && AllScored(samples)
    requires Buckets(samples, b)[i].count > 0
    ensures var bucket := Buckets(samples, b)[i];
      bucket.meanBrier.Some? && bucket.meanPredicted.Some? && bucket.observed.Some?
      && bucket.meanBrier.value >= Square(bucket.meanPredicted.value - bucket.observed.value)
  {
    var group := Groups(samples, b)[i];
    GroupIsSelection(samples, b, i);
    KeptAreIn(samples, IsIn(b, i));
    ScoredSamplesAllCount(group);
    MeanSquareDominates(group);
    MeanGap(group);
  }

  lemma MeanGap(group: seq<Sample>)
    requires group != []
    ensures Mean(Gap, group) == Mean(Predicted, group) - Mean(Observed, group)
  {
    GapIsDifference(group);
    var n := |group| as real;
    DivideDifference(RealTotal(Predicted, group), RealTotal(Observed, group), n);
  }

  lemma DivideDifference(x: real, y: real, n: real)
    requires n > 0.0
    ensures (x - y) / n == x / n - y / n
  {}

  /** count * mean Brier score of a bucket. */
  function BrierShare(b: Bucket): real {
    if b.meanBrier.Some? then b.count as real * b.meanBrier.value else 0.0
  }

  /** count * squared calibration gap of a bucket. */
  function GapShare(b: Bucket): real {
    if b.meanPredicted.Some? && b.observed.Some?
    then b.count as real * Square(b.meanPredicted.value - b.observed.value) else 0.0
  }

  /** The reliability term of the Brier score. */
  function Reliability(buckets: seq<Bucket>, n: nat): real
    requires n > 0
  {
    RealTotal(GapShare, buckets) / n as real
  }

  lemma MultiplyBack(total: real, n: real)
    requires n > 0.0
    ensures n * (total / n) == total
  {}

  lemma BrierShareIsSum(group: seq<Sample>, i: nat, b: nat)
    requires b >= 1 && AllScored(group)
    ensures BrierShare(BucketOf(group, i, b)) == RealTotal(Brier, group)
  {
    ScoredSamplesAllCount(group);
    if group != [] {
      MultiplyBack(RealTotal(Brier, group), |group| as real);
    }
  }

  lemma BrierSharesAddUp(samples: seq<Sample>, b: nat)
    requires b >= 1 && AllScored(samples)
    ensures RealTotal(BrierShare, Buckets(samples, b)) == RealTotal(Brier, samples)
  {
    var groups, buckets := Groups(samples, b), Buckets(samples, b);
    forall i | 0 <= i < b ensures BrierShare(buckets[i]) == SumOver(Brier)(groups[i]) {
      GroupIsSelection(samples, b, i);
      KeptAreIn(samples, IsIn(b, i));
      BrierShareIsSum(groups[i], i, b);
    }
    RealTotalPointwise(BrierShare, buckets, SumOver(Brier), groups);
    GroupsRecompose(Brier, samples, b);
  }

  lemma OverallTimesCount(samples: seq<Sample>, overall: Option<real>)
    requires samples != [] && AllScored(samples) && overall == MeanScore(samples)
    ensures overall.Some? && |samples| as real * overall.value == RealTotal(Brier, samples)
  {
    ScoredSamplesAllCount(samples);
    MultiplyBack(RealTotal(Brier, samples), |samples| as real);
  }

  lemma GapShareAtMostBrierShare(samples: seq<Sample>, b: nat, i: nat)
    requires b >= 1 && i < b && AllScored(samples)
    ensures GapShare(Buckets(samples, b)[i]) <= BrierShare(Buckets(samples, b)[i])
  {
    var bucket := Buckets(samples, b)[i];
    if bucket.count > 0 {
      BucketBrierDominates(samples, b, i);
      ScaleInequality(bucket.count as real,
        Square(bucket.meanPredicted.value - bucket.observed.value), bucket.meanBrier.value);
    }
  }

  lemma GapSharesAtMostBrierShares(samples: seq<Sample>, b: nat)
    requires b >= 1 && AllScored(samples)
    ensures RealTotal(GapShare, Buckets(samples, b)) <= RealTotal(BrierShare, Buckets(samples, b))
  {
    var buckets := Buckets(samples, b);
    forall i | 0 <= i < b ensures GapShare(buckets[i]) <= BrierShare(buckets[i]) {
      GapShareAtMostBrierShare(samples, b, i);
    }
    RealTotalPointwise(GapShare, buckets, BrierShare, buckets);
  }

  /** The counts add up, and the count-weighted bucket means recompose the overall Brier score. */
  ghost predicate Recomposed(report: Report, n: nat) {
    && report.overall.Some?
    && RealTotal(CountShare, report.buckets) == n as real
    && RealTotal(BrierShare, report.buckets) == n as real * report.overall.value
  }

  lemma BucketTotals(samples: seq<Sample>, b: nat)
    requires b >= 1 && AllScored(samples)
    ensures RealTotal(CountShare, Buckets(samples, b)) == |samples| as real
    ensures RealTotal(BrierShare, Buckets(samples, b)) == RealTotal(Brier, samples)
  {
    CountsAddUp(samples, b);
    BrierSharesAddUp(samples, b);
  }

  lemma ScoredSamplesAreRecomposed(samples: seq<Sample>, b: nat, report: Report)
    requires b >= 1 && samples != [] && AllScored(samples)
    requires report.buckets == Buckets(samples, b) && report.overall == MeanScore(samples)
    ensures Recomposed(report, |samples|)
  {
    OverallTimesCount(samples, report.overall);
    BucketTotals(samples, b);
  }

  /** A recomposed score is at least the reliability term when no bucket's gap exceeds its score. */
  lemma BrierAtLeastReliability(report: Report, n: nat)
    requires n > 0 && Recomposed(report, n)
    requires RealTotal(GapShare, report.buckets) <= RealTotal(BrierShare, report.buckets)
    ensures report.overall.value >= Reliability(report.buckets, n)
  {
    DivideInequality(RealTotal(GapShare, report.buckets), report.overall.value, n as real);
  }

  lemma ScaleInequality(n: real, x: real, y: real)
    requires n >= 0.0 && x <= y
    ensures n * x <= n * y
  {}

  lemma DivideInequality(total: real, mean: real, n: real)
    requires n > 0.0 && total <= n * mean
    ensures total / n <= mean
  {
    assert (n * mean) / n == mean;
  }

  // ----- the inequality over the store -----

  lemma {:induction false} ScorableAreScored(forecasts: seq<Forecast>)
    requires forall f <- forecasts :: Scored(f)
    ensures AllScored(Scorable(forecasts))
  {
    if forecasts != [] {
      var f := forecasts[0];
      assert f in forecasts && Scored(f);
      ScorableAreScored(forecasts[1..]);
      var p := f.probability / 100.0;
      SquareOfNegation(1.0 - p);
    }
  }

  lemma SquareOfNegation(x: real)
    ensures Square(x) == Square(-x)
  {}

  lemma {:induction false} FiltersKeepMembers(forecasts: seq<Forecast>, since: Option<int>, until: Option<int>)
    ensures forall f <- InRange(WithStatus(forecasts, Resolved), since, until) :: f in forecasts
  {
    RangeKeepsMembers(WithStatus(forecasts, Resolved), since, until);
    StatusKeepsMembers(forecasts, Resolved);
  }

  lemma {:induction false} RangeKeepsMembers(forecasts: seq<Forecast>, since: Option<int>, until: Option<int>)
    ensures forall f :: f in InRange(forecasts, since, until) <==> f in forecasts && IssuedBetween(f, since, until)
  {
    if forecasts != [] {
      RangeKeepsMembers(forecasts[1..], since, until);
    }
  }

  lemma {:induction false} StatusKeepsMembers(forecasts: seq<Forecast>, status: Status)
    ensures forall f :: f in WithStatus(forecasts, status) <==> f in forecasts && f.status == status
  {
    if forecasts != [] {
      StatusKeepsMembers(forecasts[1..], status);
    }
  }

  /**
   Whatever was issued and resolved, in any order, the report over any date range recomposes its
   overall Brier score from the buckets, and that score is no smaller than the reliability term.
   */
  lemma ReportsAreCalibrated(run: seq<Action>, since: Option<int>, until: Option<int>, b: nat)
    requires b >= 1
    requires Scorable(InRange(WithStatus(After(run), Resolved), since, until)) != []
    ensures var report := ReliabilityReport(After(run), since, until, b);
      var n := |Scorable(InRange(WithStatus(After(run), Resolved), since, until))|;
      Recomposed(report, n) && report.overall.value >= Reliability(report.buckets, n)
  {
    var report := ReliabilityReport(After(run), since, until, b);
    var resolved := InRange(WithStatus(After(run), Resolved), since, until);
    RunsStayScored(run);
    FiltersKeepMembers(After(run), since, until);
    ScorableAreScored(resolved);
    ScoredSamplesAreRecomposed(Scorable(resolved), b, report);
    GapSharesAtMostBrierShares(Scorable(resolved), b);
    BrierAtLeastReliability(report, |Scorable(resolved)|);
  }
}
