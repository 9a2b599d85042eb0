/** The deterministic scoring formula: half-even rounding and the weighted average of contributions. */
module RiskScoring {
  import opened Wrappers
  import opened Sums

  datatype Direction = Positive | Inverse

  datatype Contribution = Contribution(
    indicator: nat,
    weight: real,
    direction: Direction,
    rawValue: Option<real>,
    normalized: Option<real>,
    contribution: Option<real>,
    confidence: Option<real>,
    observedAt: Option<real>,
    included: bool,
    stale: bool)

  datatype Aggregate = Aggregate(baseScore: int, confidence: real, availableWeight: real)

  /** Python's `round`: to the nearest integer, ties to the even one. */
  function RoundHalfEven(x: real): int {
    var low := x.Floor;
    var rest := x - low as real;
    if rest < 0.5 then low
    else if rest > 0.5 then low + 1
    else if low % 2 == 0 then low else low + 1
  }

  function ClampInt(low: int, high: int, x: int): int {
    var capped := if x <= high then x else high;
    if capped >= low then capped else low
  }

  function ClampReal(low: real, high: real, x: real): real {
    var capped := if x <= high then x else high;
    if capped >= low then capped else low
  }

  // ----- the three sums over the included records -----

  function IncludedWeight(c: Contribution): real { if c.included then c.weight else 0.0 }

  function WeightedScore(c: Contribution): real {
    if c.included && c.contribution.Some? then c.weight * c.contribution.value else 0.0
  }

  function WeightedConfidence(c: Contribution): real {
    if c.included && c.confidence.Some? then c.weight * c.confidence.value else 0.0
  }

  function Available(cs: seq<Contribution>): real { RealTotal(IncludedWeight, cs) }

  function Average(cs: seq<Contribution>): real
    requires Available(cs) > 0.0
  {
    RealTotal(WeightedScore, cs) / Available(cs)
  }

  /** The rounded, clamped percentage. */
  function Percent(total: real, available: real): int
    requires available > 0.0
  {
    ClampInt(0, 100, RoundHalfEven(100.0 * total / available))
  }

  /** The clamped product of the mean confidence and the covered share of the whole weight. */
  function Coverage(total: real, available: real, whole: real): real
    requires available > 0.0
  {
    var raw := total / available;
    var coverage := if whole > 0.0 then available / whole else 0.0;
    ClampReal(0.0, 1.0, raw * coverage)
  }

  function FromSums(available: real, score: real, confidence: real, whole: real): Aggregate {
    if available <= 0.0 then Aggregate(0, 0.0, 0.0)
    else Aggregate(Percent(score, available), Coverage(confidence, available, whole), available)
  }

  /** `aggregate_contributions` as a function. */
  function Aggregated(cs: seq<Contribution>, totalWeight: real): Aggregate {
    FromSums(Available(cs), RealTotal(WeightedScore, cs), RealTotal(WeightedConfidence, cs), totalWeight)
  }

  function Included(cs: seq<Contribution>): seq<Contribution> {
    if cs == [] then []
    else
      var kept := if cs[0].included then [cs[0]] else [];
      kept + Included(cs[1..])
  }

  lemma {:induction false} IncludedTotal(f: Contribution -> real, cs: seq<Contribution>)
    requires forall c <- cs :: !c.included ==> f(c) == 0.0
    ensures RealTotal(f, Included(cs)) == RealTotal(f, cs)
  {
    if cs != [] {
      assert cs[0] in cs;
      IncludedTotal(f, cs[1..]);
      RealTotalConcat(f, if cs[0].included then [cs[0]] else [], Included(cs[1..]));
    }
  }

  lemma {:induction false} IncludedAreIncluded(cs: seq<Contribution>)
    ensures forall c <- Included(cs) :: c.included && c in cs
  {
    if cs != [] {
      IncludedAreIncluded(cs[1..]);
    }
  }

  method AggregateContributions(contributions: seq<Contribution>, totalWeight: real) returns (a: Aggregate)
    ensures a == Aggregated(contributions, totalWeight)
  {
    var included := Included(contributions);
    IncludedAreIncluded(contributions);
    IncludedTotal(IncludedWeight, contributions);
    IncludedTotal(WeightedScore, contributions);
    IncludedTotal(WeightedConfidence, contributions);
    var availableWeight := SumOfWeights(included);
    if availableWeight <= 0.0 {
      return Aggregate(0, 0.0, 0.0);
    }
    var weightedScoreSum, weightedConfidenceSum := WeightedSums(included);
    a := Aggregate(Percent(weightedScoreSum, availableWeight),
                   Coverage(weightedConfidenceSum, availableWeight, totalWeight),
                   availableWeight);
  }

  method SumOfWeights(included: seq<Contribution>) returns (total: real)
    requires forall c <- included :: c.included
    ensures total == Available(included)
  {
    total := 0.0;
    for k := 0 to |included|
      invariant total == Available(included[..k])
    {
      assert included[..k + 1] == included[..k] + [included[k]] && included[k] in included;
      RealTotalPush(IncludedWeight, included[..k], included[k]);
      total := total + included[k].weight;
    }
    assert included[..|included|] == included;
  }

  /** One pass of the accumulating loop. */
  method AddRecord(score: real, confidence: real, record: Contribution) returns (score': real, confidence': real)
    requires record.included
    ensures score' == score + WeightedScore(record)
    ensures confidence' == confidence + WeightedConfidence(record)
  {
    score', confidence' := score, confidence;
    if record.contribution.Some? {
      score' := score' + record.weight * record.contribution.value;
    }
    if record.confidence.Some? {
      confidence' := confidence' + record.weight * record.confidence.value;
    }
  }

  /** The accumulating loop over the included records. */
  method WeightedSums(included: seq<Contribution>) returns (score: real, confidence: real)
    requires forall c <- included :: c.included
    ensures score == RealTotal(WeightedScore, included)
    ensures confidence == RealTotal(WeightedConfidence, included)
  {
    score, confidence := 0.0, 0.0;
    for k := 0 to |included|
      invariant score == RealTotal(WeightedScore, included[..k])
      invariant confidence == RealTotal(WeightedConfidence, included[..k])
    {
      assert included[..k + 1] == included[..k] + [included[k]] && included[k] in included;
      RealTotalPush(WeightedScore, included[..k], included[k]);
      RealTotalPush(WeightedConfidence, included[..k], included[k]);
      score, confidence := AddRecord(score, confidence, included[k]);
    }
    assert included[..|included|] == included;
  }

  // ----- rounding -----

  /** Rounding moves a number by at most one half, and exactly one half only to an even integer. */
  lemma RoundIsNearest(x: real)
    ensures RoundHalfEven(x) as real - 0.5 <= x <= RoundHalfEven(x) as real + 0.5
    ensures x == RoundHalfEven(x) as real + 0.5 || x == RoundHalfEven(x) as real - 0.5 ==> RoundHalfEven(x) % 2 == 0
  {}

  /** Those two facts determine the rounded value. */
  lemma RoundIsUnique(x: real, n: int)
    requires n as real - 0.5 <= x <= n as real + 0.5
    requires x == n as real + 0.5 || x == n as real - 0.5 ==> n % 2 == 0
    ensures RoundHalfEven(x) == n
  {
    RoundIsNearest(x);
  }

  lemma RoundIsMonotone(x: real, y: real)
    requires x <= y
    ensures RoundHalfEven(x) <= RoundHalfEven(y)
  {
    RoundIsNearest(x);
    RoundIsNearest(y);
  }

  /** Half-even rounding commutes with reflection in an even number. */
  lemma RoundIsDual(even: int, x: real)
    requires even % 2 == 0
    ensures RoundHalfEven(even as real - x) == even - RoundHalfEven(x)
  {
    RoundIsNearest(x);
    RoundIsUnique(even as real - x, even - RoundHalfEven(x));
  }

  // ----- percentages and coverage -----

  lemma PercentOfQuotient(total: real, w: real)
    requires w > 0.0 && 0.0 <= total <= w
    ensures Percent(total, w) == RoundHalfEven(100.0 * (total / w))
    ensures 0 <= Percent(total, w) <= 100
  {
    DivideBetween(total, w, 0.0, 1.0);
    assert 100.0 * total / w == 100.0 * (total / w);
    RoundIsMonotone(0.0, 100.0 * (total / w));
    RoundIsMonotone(100.0 * (total / w), 100.0);
  }

  lemma PercentIsMonotone(x: real, y: real, w: real)
    requires w > 0.0 && x <= y
    ensures Percent(x, w) <= Percent(y, w)
  {
    assert 100.0 * x / w <= 100.0 * y / w;
    RoundIsMonotone(100.0 * x / w, 100.0 * y / w);
  }

  lemma IsQuotient(x: real, w: real, q: real)
    requires w != 0.0 && x == q * w
    ensures x / w == q
  {}

  lemma PercentReflects(x: real, w: real)
    requires w > 0.0 && 0.0 <= x <= w
    ensures Percent(w - x, w) == 100 - Percent(x, w)
  {
    PercentOfQuotient(x, w);
    PercentOfQuotient(w - x, w);
    ComplementQuotient(x, w);
    RoundIsDual(100, 100.0 * (x / w));
  }

  lemma ComplementQuotient(x: real, w: real)
    requires w > 0.0
    ensures (w - x) / w == 1.0 - x / w
  {
    var q := x / w;
    assert (1.0 - q) * w == 1.0 * w - q * w == w - x;
    IsQuotient(w - x, w, 1.0 - q);
  }

  lemma QuotientRescales(k: real, x: real, y: real, kx: real, ky: real)
    requires k > 0.0 && y > 0.0 && kx == k * x && ky == k * y
    ensures ky > 0.0 && kx / ky == x / y
  {
    var q := x / y;
    assert q * ky == k * (q * y) == kx;
    IsQuotient(kx, ky, q);
  }

  lemma PercentIgnoresScale(k: real, total: real, w: real, kTotal: real, kw: real)
    requires k > 0.0 && w > 0.0 && kTotal == k * total && kw == k * w
    ensures kw > 0.0 && Percent(kTotal, kw) == Percent(total, w)
  {
    QuotientRescales(k, 100.0 * total, w, 100.0 * kTotal, kw);
  }

  lemma CoverageIgnoresScale(k: real, total: real, w: real, whole: real, kTotal: real, kw: real, kWhole: real)
    requires k > 0.0 && w > 0.0 && kTotal == k * total && kw == k * w && kWhole == k * whole
    ensures kw > 0.0 && Coverage(kTotal, kw, kWhole) == Coverage(total, w, whole)
  {
    QuotientRescales(k, total, w, kTotal, kw);
    if whole > 0.0 {
      QuotientRescales(k, w, whole, kw, kWhole);
    } else {
      NonPositiveProduct(k, whole);
    }
  }

  lemma NonPositiveProduct(k: real, x: real)
    requires k > 0.0 && x <= 0.0
    ensures k * x <= 0.0
  {}

  lemma CoverageOfQuotient(total: real, w: real, whole: real)
    requires 0.0 < w <= whole && 0.0 <= total <= w
    ensures Coverage(total, w, whole) == total / whole
    ensures 0.0 <= total / whole <= 1.0
  {
    var q, r := total / w, w / whole;
    assert total == q * w && w == r * whole;
    assert (q * r) * whole == q * (r * whole) == total;
    IsQuotient(total, whole, q * r);
    DivideBetween(total, whole, 0.0, 1.0);
  }

  // ----- the scoring algebra -----

  /** Records as the engine builds them from stored readings with non-negative weights. */
  ghost predicate WellFormed(c: Contribution) {
    && c.weight >= 0.0
    && (c.included ==> c.contribution.Some? && 0.0 <= c.contribution.value <= 1.0)
    && (c.included ==> c.confidence.Some? && 0.0 <= c.confidence.value <= 1.0)
  }

  ghost predicate AllWellFormed(cs: seq<Contribution>) {
    forall c <- cs :: WellFormed(c)
  }

  ghost predicate ContributionsBetween(cs: seq<Contribution>, low: real, high: real) {
    forall c <- cs :: c.included ==> c.contribution.Some? && low <= c.contribution.value <= high
  }

  lemma WeightedBetween(w: real, x: real, low: real, high: real)
    requires w >= 0.0 && low <= x <= high
    ensures w * low <= w * x <= w * high
  {}

  lemma RecordBetween(c: Contribution, low: real, high: real)
    requires WellFormed(c) && (c.included ==> low <= c.contribution.value <= high)
    ensures low * IncludedWeight(c) <= WeightedScore(c) <= high * IncludedWeight(c)
  {
    if c.included {
      WeightedBetween(c.weight, c.contribution.value, low, high);
    }
  }

  lemma ScoreBetween(cs: seq<Contribution>, low: real, high: real)
    requires AllWellFormed(cs) && ContributionsBetween(cs, low, high)
    ensures low * Available(cs) <= RealTotal(WeightedScore, cs) <= high * Available(cs)
  {
    forall c | c in cs
      ensures low * IncludedWeight(c) <= WeightedScore(c) <= high * IncludedWeight(c)
    {
      assert WellFormed(c);
      RecordBetween(c, low, high);
    }
    RealTotalBetween(WeightedScore, IncludedWeight, low, high, cs);
  }

  lemma ScoreWithinWeight(cs: seq<Contribution>)
    requires AllWellFormed(cs)
    ensures 0.0 <= RealTotal(WeightedScore, cs) <= Available(cs)
  {
    assert ContributionsBetween(cs, 0.0, 1.0) by {
      forall c | c in cs && c.included
        ensures c.contribution.Some? && 0.0 <= c.contribution.value <= 1.0
      {
        assert WellFormed(c);
      }
    }
    ScoreBetween(cs, 0.0, 1.0);
  }

  /**
   The average lies between the least and the greatest included contribution, so the clamp to
   [0, 100] never acts and the base score is the rounded average.
   */
  lemma BaseScoreIsRoundedAverage(cs: seq<Contribution>, totalWeight: real, low: real, high: real)
    requires AllWellFormed(cs) && Available(cs) > 0.0 && ContributionsBetween(cs, low, high)
    ensures low <= Average(cs) <= high
    ensures Aggregated(cs, totalWeight).baseScore == RoundHalfEven(100.0 * Average(cs))
    ensures 0 <= Aggregated(cs, totalWeight).baseScore <= 100
  {
    ScoreBetween(cs, low, high);
    DivideBetween(RealTotal(WeightedScore, cs), Available(cs), low, high);
    ScoreWithinWeight(cs);
    PercentOfQuotient(RealTotal(WeightedScore, cs), Available(cs));
  }

  lemma PartOfWeight(w: real, x: real)
    requires w >= 0.0 && 0.0 <= x <= 1.0
    ensures 0.0 <= w * x <= w
  {
    assert w * x <= w * 1.0;
  }

  lemma ConfidenceOfRecord(c: Contribution)
    requires WellFormed(c)
    ensures 0.0 <= WeightedConfidence(c) <= IncludedWeight(c)
  {
    if c.included {
      var w, x := c.weight, c.confidence.value;
      assert WeightedConfidence(c) == w * x;
      PartOfWeight(w, x);
    }
  }

  lemma ConfidenceWithinWeight(cs: seq<Contribution>)
    requires AllWellFormed(cs)
    ensures 0.0 <= RealTotal(WeightedConfidence, cs) <= Available(cs)
  {
    forall c | c in cs
      ensures 0.0 * IncludedWeight(c) <= WeightedConfidence(c) <= 1.0 * IncludedWeight(c)
    {
      assert WellFormed(c);
      ConfidenceOfRecord(c);
    }
    RealTotalBetween(WeightedConfidence, IncludedWeight, 0.0, 1.0, cs);
  }

  /** Confidence is the included weight times confidence over the whole weight; no clamp acts. */
  lemma ConfidenceIsCoverage(cs: seq<Contribution>, totalWeight: real)
    requires AllWellFormed(cs) && 0.0 < Available(cs) <= totalWeight
    ensures Aggregated(cs, totalWeight).confidence == RealTotal(WeightedConfidence, cs) / totalWeight
    ensures 0.0 <= Aggregated(cs, totalWeight).confidence <= 1.0
  {
    ConfidenceWithinWeight(cs);
    CoverageOfQuotient(RealTotal(WeightedConfidence, cs), Available(cs), totalWeight);
  }

  /** The order of the indicators does not matter. */
  lemma AggregateIgnoresOrder(a: seq<Contribution>, b: seq<Contribution>, totalWeight: real)
    requires multiset(a) == multiset(b)
    ensures Aggregated(a, totalWeight) == Aggregated(b, totalWeight)
  {
    RealTotalOfPermutation(IncludedWeight, a, b);
    RealTotalOfPermutation(WeightedScore, a, b);
    RealTotalOfPermutation(WeightedConfidence, a, b);
  }

  function RescaledRecord(k: real, c: Contribution): Contribution { c.(weight := k * c.weight) }

  function Rescaled(k: real, cs: seq<Contribution>): seq<Contribution> {
    if cs == [] then [] else [RescaledRecord(k, cs[0])] + Rescaled(k, cs[1..])
  }

  lemma RescaledMeasures(k: real, c: Contribution)
    ensures IncludedWeight(RescaledRecord(k, c)) == k * IncludedWeight(c)
    ensures WeightedScore(RescaledRecord(k, c)) == k * WeightedScore(c)
    ensures WeightedConfidence(RescaledRecord(k, c)) == k * WeightedConfidence(c)
  {}

  lemma {:induction false} RescaledAvailable(k: real, cs: seq<Contribution>)
    ensures RealTotal(IncludedWeight, Rescaled(k, cs)) == k * RealTotal(IncludedWeight, cs)
  {
    if cs != [] {
      RescaledAvailable(k, cs[1..]);
      RescaledMeasures(k, cs[0]);
      Distribute(k, IncludedWeight(cs[0]), RealTotal(IncludedWeight, cs[1..]));
    }
  }

  lemma {:induction false} RescaledScore(k: real, cs: seq<Contribution>)
    ensures RealTotal(WeightedScore, Rescaled(k, cs)) == k * RealTotal(WeightedScore, cs)
  {
    if cs != [] {
      RescaledScore(k, cs[1..]);
      RescaledMeasures(k, cs[0]);
      Distribute(k, WeightedScore(cs[0]), RealTotal(WeightedScore, cs[1..]));
    }
  }

  lemma {:induction false} RescaledConfidence(k: real, cs: seq<Contribution>)
    ensures RealTotal(WeightedConfidence, Rescaled(k, cs)) == k * RealTotal(WeightedConfidence, cs)
  {
    if cs != [] {
      RescaledConfidence(k, cs[1..]);
      RescaledMeasures(k, cs[0]);
      Distribute(k, WeightedConfidence(cs[0]), RealTotal(WeightedConfidence, cs[1..]));
    }
  }

  lemma FromSumsIgnoresScale(k: real, w: real, score: real, confidence: real, whole: real,
                             kw: real, kScore: real, kConfidence: real, kWhole: real)
    requires k > 0.0 && kw == k * w && kScore == k * score
    requires kConfidence == k * confidence && kWhole == k * whole
    ensures FromSums(kw, kScore, kConfidence, kWhole).baseScore == FromSums(w, score, confidence, whole).baseScore
    ensures FromSums(kw, kScore, kConfidence, kWhole).confidence == FromSums(w, score, confidence, whole).confidence
  {
    if w > 0.0 {
      PercentIgnoresScale(k, score, w, kScore, kw);
      CoverageIgnoresScale(k, confidence, w, whole, kConfidence, kw, kWhole);
    } else {
      NonPositiveProduct(k, w);
    }
  }

  /** Only the proportions of the weights matter. */
  lemma AggregateIgnoresScale(k: real, cs: seq<Contribution>, totalWeight: real)
    requires k > 0.0
    ensures Aggregated(Rescaled(k, cs), k * totalWeight).baseScore == Aggregated(cs, totalWeight).baseScore
    ensures Aggregated(Rescaled(k, cs), k * totalWeight).confidence == Aggregated(cs, totalWeight).confidence
  {
    hide RealTotal, FromSums;
    RescaledAvailable(k, cs);
    RescaledScore(k, cs);
    RescaledConfidence(k, cs);
    var ks := Rescaled(k, cs);
    FromSumsIgnoresScale(
      k, Available(cs), RealTotal(WeightedScore, cs), RealTotal(WeightedConfidence, cs), totalWeight,
      Available(ks), RealTotal(WeightedScore, ks), RealTotal(WeightedConfidence, ks), k * totalWeight);
  }

  /** `b` is `a` with some contributions raised and nothing else the score depends on changed. */
  ghost predicate RaisedRecord(a: Contribution, b: Contribution) {
    && a.weight == b.weight && a.included == b.included
    && (a.included ==> a.contribution.Some? && b.contribution.Some?)
    && (a.included ==> a.contribution.value <= b.contribution.value)
  }

  ghost predicate Raised(a: seq<Contribution>, b: seq<Contribution>) {
    |a| == |b| && forall i :: 0 <= i < |a| ==> RaisedRecord(a[i], b[i])
  }

  lemma RaisedTotals(a: seq<Contribution>, b: seq<Contribution>)
    requires AllWellFormed(a) && Raised(a, b)
    ensures Available(a) == Available(b)
    ensures RealTotal(WeightedScore, a) <= RealTotal(WeightedScore, b)
  {
    forall i | 0 <= i < |a|
      ensures WeightedScore(a[i]) <= WeightedScore(b[i]) && IncludedWeight(a[i]) == IncludedWeight(b[i])
    {
      assert RaisedRecord(a[i], b[i]);
      assert a[i] in a && WellFormed(a[i]);
      if a[i].included {
        WeightedBetween(a[i].weight, b[i].contribution.value, a[i].contribution.value, b[i].contribution.value);
      }
    }
    RealTotalPointwise(IncludedWeight, a, IncludedWeight, b);
    RealTotalPointwise(WeightedScore, a, WeightedScore, b);
  }

  /** Raising a contribution never lowers the base score. */
  lemma BaseScoreIsMonotone(a: seq<Contribution>, b: seq<Contribution>, totalWeight: real)
    requires AllWellFormed(a) && Raised(a, b)
    ensures Aggregated(a, totalWeight).baseScore <= Aggregated(b, totalWeight).baseScore
  {
    RaisedTotals(a, b);
    if Available(a) > 0.0 {
      PercentIsMonotone(RealTotal(WeightedScore, a), RealTotal(WeightedScore, b), Available(a));
    }
  }

  /** A record read in the opposite direction. */
  function FlippedRecord(c: Contribution): Contribution {
    var direction := if c.direction.Positive? then Inverse else Positive;
    var contribution := if c.contribution.Some? then Some(1.0 - c.contribution.value) else None;
    c.(direction := direction, contribution := contribution)
  }

  function Flipped(cs: seq<Contribution>): seq<Contribution> {
    if cs == [] then [] else [FlippedRecord(cs[0])] + Flipped(cs[1..])
  }

  lemma {:induction false} FlippedTotals(cs: seq<Contribution>)
    requires AllWellFormed(cs)
    ensures Available(Flipped(cs)) == Available(cs)
    ensures RealTotal(WeightedScore, Flipped(cs)) == Available(cs) - RealTotal(WeightedScore, cs)
  {
    if cs != [] {
      var c := cs[0];
      assert c in cs && WellFormed(c) && AllWellFormed(cs[1..]);
      FlippedTotals(cs[1..]);
      if c.included {
        Distribute(c.weight, 1.0 - c.contribution.value, c.contribution.value);
      }
    }
  }

  /**
   Flipping every direction turns a base score s into exactly 100 - s, half-even rounding included;
   it fails only where no weight is available, where the score is 0 either way.
   */
  lemma FlippingReflectsTheScore(cs: seq<Contribution>, totalWeight: real)
    requires AllWellFormed(cs)
    ensures Aggregated(Flipped(cs), totalWeight).baseScore == 100 - Aggregated(cs, totalWeight).baseScore
      <==> Available(cs) > 0.0
  {
    FlippedTotals(cs);
    ScoreWithinWeight(cs);
    if Available(cs) > 0.0 {
      PercentReflects(RealTotal(WeightedScore, cs), Available(cs));
    }
  }
}
