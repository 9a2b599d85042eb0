/** Halving the bucket width: a coarse bucket is its two fine halves merged, and hides miscalibration. */
module CalibrationRefinement {
  import opened Wrappers
  import opened Sums
  import opened Forecasts
  import opened Calibration
  import opened CalibrationProofs

  // ----- indices -----

  lemma FloorOfDouble(x: real)
    ensures 2 * x.Floor <= (2.0 * x).Floor <= 2 * x.Floor + 1
  {
    assert x.Floor as real <= x < x.Floor as real + 1.0;
  }

  lemma IndexHalves(s: Sample, b: nat)
    requires b >= 1
    ensures IndexOf(s, 2 * b) / 2 == IndexOf(s, b)
  {
    var x := Predicted(s) * b as real;
    DoubledProduct(Predicted(s), b);
    FloorOfDouble(x);
  }

  lemma DoubledProduct(p: real, b: nat)
    ensures p * (2 * b) as real == 2.0 * (p * b as real)
  {
    assert (2 * b) as real == 2.0 * b as real;
  }

  lemma CoarseGroupIsMerge(samples: seq<Sample>, b: nat, i: nat)
    requires b >= 1 && i < b
    ensures var fine := Groups(samples, 2 * b);
      multiset(Groups(samples, b)[i]) == multiset(fine[2 * i] + fine[2 * i + 1])
  {
    var fine := Groups(samples, 2 * b);
    GroupIsSelection(samples, b, i);
    GroupIsSelection(samples, 2 * b, 2 * i);
    GroupIsSelection(samples, 2 * b, 2 * i + 1);
    forall s
      ensures multiset(Groups(samples, b)[i])[s] == multiset(fine[2 * i])[s] + multiset(fine[2 * i + 1])[s]
    {
      IndexHalves(s, b);
      KeptCounts(samples, IsIn(b, i), s);
      KeptCounts(samples, IsIn(2 * b, 2 * i), s);
      KeptCounts(samples, IsIn(2 * b, 2 * i + 1), s);
    }
  }

  // ----- merging two buckets from their published numbers alone -----

  function Share(count: nat, mean: Option<real>): real {
    if mean.Some? then count as real * mean.value else 0.0
  }

  function MergedMean(m: nat, xMean: Option<real>, n: nat, yMean: Option<real>): Option<real> {
    if m + n == 0 then None else Some((Share(m, xMean) + Share(n, yMean)) / (m + n) as real)
  }

  /** Two neighbours as one; a mean Brier score is over the scored samples only, so it weighs with their numbers. */
  function Merged(x: Bucket, y: Bucket, xScored: nat, yScored: nat): Bucket {
    Bucket(x.lower, y.upper, x.count + y.count,
           MergedMean(x.count, x.meanPredicted, y.count, y.meanPredicted),
           MergedMean(x.count, x.observed, y.count, y.observed),
           MergedMean(xScored, x.meanBrier, yScored, y.meanBrier))
  }

  lemma ShareOfMean(f: Sample -> real, group: seq<Sample>)
    ensures Share(|group|, if group == [] then None else Some(Mean(f, group))) == RealTotal(f, group)
  {
    if group != [] {
      MultiplyBack(RealTotal(f, group), |group| as real);
    }
  }

  function OptionalMean(f: Sample -> real, group: seq<Sample>): Option<real> {
    if group == [] then None else Some(Mean(f, group))
  }

  lemma MeanOfConcat(f: Sample -> real, g: seq<Sample>, h: seq<Sample>)
    ensures OptionalMean(f, g + h)
         == MergedMean(|g|, OptionalMean(f, g), |h|, OptionalMean(f, h))
  {
    RealTotalConcat(f, g, h);
    ShareOfMean(f, g);
    ShareOfMean(f, h);
  }

  lemma HalfBounds(i: nat, b: nat)
    requires b >= 1
    ensures Edge(i, b) == Edge(2 * i, 2 * b)
  {
    var w := 1.0 / (2 * b) as real;
    assert (2 * b) as real == 2.0 * b as real;
    assert 1.0 / b as real == 2.0 * w;
    assert (2 * i) as real == 2.0 * i as real;
  }

  lemma {:induction false} UnscoredTotal(group: seq<Sample>)
    requires ScoreCount(group) == 0
    ensures RealTotal(Brier, group) == 0.0
  {
    if group != [] {
      UnscoredTotal(group[1..]);
    }
  }

  lemma ShareOfScore(group: seq<Sample>)
    ensures Share(ScoreCount(group), MeanScore(group)) == RealTotal(Brier, group)
  {
    if ScoreCount(group) == 0 {
      UnscoredTotal(group);
    } else {
      MultiplyBack(RealTotal(Brier, group), ScoreCount(group) as real);
    }
  }

  lemma ScoreOfConcat(g: seq<Sample>, h: seq<Sample>)
    ensures MeanScore(g + h) == MergedMean(ScoreCount(g), MeanScore(g), ScoreCount(h), MeanScore(h))
  {
    RealTotalConcat(Brier, g, h);
    ScoreCountConcat(g, h);
    ShareOfScore(g);
    ShareOfScore(h);
  }

  lemma BucketOfConcat(g: seq<Sample>, h: seq<Sample>, i: nat, b: nat)
    requires b >= 1
    ensures BucketOf(g + h, i, b)
         == Merged(BucketOf(g, 2 * i, 2 * b), BucketOf(h, 2 * i + 1, 2 * b), ScoreCount(g), ScoreCount(h))
  {
    MeanOfConcat(Predicted, g, h);
    MeanOfConcat(Observed, g, h);
    ScoreOfConcat(g, h);
    HalfBounds(i, b);
    HalfBounds(i + 1, b);
  }

  /** Bucketing coarsely is bucketing finely and merging neighbours. */
  lemma CoarseBucketIsMerge(samples: seq<Sample>, b: nat, i: nat)
    requires b >= 1 && i < b
    ensures var fine, groups := Buckets(samples, 2 * b), Groups(samples, 2 * b);
      Buckets(samples, b)[i] == Merged(fine[2 * i], fine[2 * i + 1],
                                       ScoreCount(groups[2 * i]), ScoreCount(groups[2 * i + 1]))
  {
    hide BucketOf, Merged, ScoreCount, Groups;
    var fine := Groups(samples, 2 * b);
    CoarseGroupIsMerge(samples, b, i);
    BucketOfPermutation(Groups(samples, b)[i], fine[2 * i] + fine[2 * i + 1], i, b);
    BucketOfConcat(fine[2 * i], fine[2 * i + 1], i, b);
  }

  /** Where every sample is scored, the published numbers of the neighbours alone give the merged bucket. */
  lemma CoarseBucketFromPublished(samples: seq<Sample>, b: nat, i: nat)
    requires b >= 1 && i < b && AllScored(samples)
    ensures var fine := Buckets(samples, 2 * b);
      Buckets(samples, b)[i] == Merged(fine[2 * i], fine[2 * i + 1], fine[2 * i].count, fine[2 * i + 1].count)
  {
    hide Merged, ScoreCount, Groups, Mean, MeanScore, Edge;
    var fine := Groups(samples, 2 * b);
    CoarseBucketIsMerge(samples, b, i);
    GroupIsScored(samples, 2 * b, 2 * i);
    GroupIsScored(samples, 2 * b, 2 * i + 1);
    ScoredSamplesAllCount(fine[2 * i]);
    ScoredSamplesAllCount(fine[2 * i + 1]);
  }

  lemma GroupIsScored(samples: seq<Sample>, b: nat, i: nat)
    requires b >= 1 && i < b && AllScored(samples)
    ensures AllScored(Groups(samples, b)[i])
  {
    GroupIsSelection(samples, b, i);
    KeptAreIn(samples, IsIn(b, i));
  }

  // ----- the coarse reliability term never exceeds the fine one -----

  /** The squared total gap of a group over its size. */
  function GapEnergy(total: real, n: nat): real {
    if n == 0 then 0.0 else Square(total) / n as real
  }

  lemma GapShareIsEnergy(group: seq<Sample>, i: nat, b: nat)
    requires b >= 1
    ensures GapShare(BucketOf(group, i, b)) == GapEnergy(RealTotal(Gap, group), |group|)
  {
    hide RealTotal, MeanScore, Edge, Square;
    if group != [] {
      MeanGap(group);
      SquareOfQuotient(RealTotal(Gap, group), |group| as real);
    }
  }

  lemma SquareOfQuotient(total: real, n: real)
    requires n > 0.0
    ensures n * Square(total / n) == Square(total) / n
  {
    var q := total / n;
    assert total == n * q;
    assert Square(total) == n * (n * (q * q));
    assert (n * (n * (q * q))) / n == n * (q * q);
  }

  lemma CrossProduct(q: real, r: real, m: real, n: real)
    requires m > 0.0 && n > 0.0
    ensures Square(m * q + n * r) <= (m + n) * (m * Square(q) + n * Square(r))
  {
    assert (q - r) * (q - r) >= 0.0;
    assert m * n > 0.0;
    assert m * n * ((q - r) * (q - r)) >= 0.0;
    assert (m + n) * (m * (q * q) + n * (r * r)) - (m * q + n * r) * (m * q + n * r)
        == m * n * ((q - r) * (q - r));
  }

  lemma PositiveEnergyIsConvex(s: real, m: nat, t: real, n: nat)
    requires m > 0 && n > 0
    ensures GapEnergy(s + t, m + n) <= GapEnergy(s, m) + GapEnergy(t, n)
  {
    hide Square;
    var x, y := m as real, n as real;
    var q, r := s / x, t / y;
    SquareOfQuotient(s, x);
    SquareOfQuotient(t, y);
    CrossProduct(q, r, x, y);
    assert s + t == x * q + y * r && (m + n) as real == x + y;
    DivideInequality(Square(s + t), x * Square(q) + y * Square(r), x + y);
  }

  lemma EnergyIsConvex(s: real, m: nat, t: real, n: nat)
    requires (m == 0 ==> s == 0.0) && (n == 0 ==> t == 0.0)
    ensures GapEnergy(s + t, m + n) <= GapEnergy(s, m) + GapEnergy(t, n)
  {
    if m > 0 && n > 0 {
      PositiveEnergyIsConvex(s, m, t, n);
    } else {
      assert m == 0 ==> s + t == t && m + n == n;
      assert n == 0 ==> s + t == s && m + n == m;
    }
  }

  lemma EnergyOfSum(total: real, n: nat, s: real, i: nat, t: real, j: nat)
    requires total == s + t && n == i + j
    requires (i == 0 ==> s == 0.0) && (j == 0 ==> t == 0.0)
    ensures GapEnergy(total, n) <= GapEnergy(s, i) + GapEnergy(t, j)
  {
    EnergyIsConvex(s, i, t, j);
  }

  lemma MergedLength(merged: seq<Sample>, g: seq<Sample>, h: seq<Sample>)
    requires multiset(merged) == multiset(g + h)
    ensures |merged| == |g| + |h|
  {
    assert |multiset(merged)| == |merged| && |multiset(g + h)| == |g + h|;
  }

  lemma MergedGap(merged: seq<Sample>, g: seq<Sample>, h: seq<Sample>)
    requires multiset(merged) == multiset(g + h)
    ensures RealTotal(Gap, merged) == RealTotal(Gap, g) + RealTotal(Gap, h)
  {
    RealTotalOfPermutation(Gap, merged, g + h);
    RealTotalConcat(Gap, g, h);
  }

  lemma EmptyGap(group: seq<Sample>)
    ensures |group| == 0 ==> RealTotal(Gap, group) == 0.0
  {}

  lemma MergedEnergy(merged: seq<Sample>, g: seq<Sample>, h: seq<Sample>)
    requires multiset(merged) == multiset(g + h)
    ensures GapEnergy(RealTotal(Gap, merged), |merged|)
         <= GapEnergy(RealTotal(Gap, g), |g|) + GapEnergy(RealTotal(Gap, h), |h|)
  {
    hide GapEnergy, RealTotal;
    MergedLength(merged, g, h);
    MergedGap(merged, g, h);
    EmptyGap(g);
    EmptyGap(h);
    EnergyOfSum(RealTotal(Gap, merged), |merged|, RealTotal(Gap, g), |g|, RealTotal(Gap, h), |h|);
  }

  lemma CoarseGapShare(samples: seq<Sample>, b: nat, i: nat)
    requires b >= 1 && i < b
    ensures GapShare(Buckets(samples, b)[i])
         <= GapShare(Buckets(samples, 2 * b)[2 * i]) + GapShare(Buckets(samples, 2 * b)[2 * i + 1])
  {
    var coarse, fine := Groups(samples, b)[i], Groups(samples, 2 * b);
    var g, h := fine[2 * i], fine[2 * i + 1];
    hide GapShare, GapEnergy, RealTotal, BucketOf, Groups;
    CoarseGroupIsMerge(samples, b, i);
    MergedEnergy(coarse, g, h);
    GapShareIsEnergy(coarse, i, b);
    GapShareIsEnergy(g, 2 * i, 2 * b);
    GapShareIsEnergy(h, 2 * i + 1, 2 * b);
  }

  lemma {:induction false} PairsDominate(f: Bucket -> real, coarse: seq<Bucket>, fine: seq<Bucket>)
    requires |fine| == 2 * |coarse|
    requires forall i :: 0 <= i < |coarse| ==> f(coarse[i]) <= f(fine[2 * i]) + f(fine[2 * i + 1])
    ensures RealTotal(f, coarse) <= RealTotal(f, fine)
  {
    if coarse != [] {
      assert fine == [fine[0], fine[1]] + fine[2..];
      assert fine[1..][1..] == fine[2..] && fine[1..][0] == fine[1];
      assert f(coarse[0]) <= f(fine[2 * 0]) + f(fine[2 * 0 + 1]);
      forall i | 0 <= i < |coarse| - 1
        ensures f(coarse[1..][i]) <= f(fine[2..][2 * i]) + f(fine[2..][2 * i + 1])
      {
        assert f(coarse[i + 1]) <= f(fine[2 * (i + 1)]) + f(fine[2 * (i + 1) + 1]);
      }
      PairsDominate(f, coarse[1..], fine[2..]);
    }
  }

  /** Merging buckets can only hide miscalibration: the coarse reliability term is the smaller one. */
  lemma CoarseReliabilityIsSmaller(samples: seq<Sample>, b: nat)
    requires b >= 1 && samples != []
    ensures Reliability(Buckets(samples, b), |samples|) <= Reliability(Buckets(samples, 2 * b), |samples|)
  {
    var coarse, fine := Buckets(samples, b), Buckets(samples, 2 * b);
    forall i | 0 <= i < b
      ensures GapShare(coarse[i]) <= GapShare(fine[2 * i]) + GapShare(fine[2 * i + 1])
    {
      CoarseGapShare(samples, b, i);
    }
    PairsDominate(GapShare, coarse, fine);
    DivideIsMonotone(RealTotal(GapShare, coarse), RealTotal(GapShare, fine), |samples| as real);
  }
}
