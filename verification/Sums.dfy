/** Sums of an integer or real measure over a sequence, with the facts every later module needs. */
module Sums {

  function Total<T>(f: T -> int, s: seq<T>): int {
    if s == [] then 0 else f(s[0]) + Total(f, s[1..])
  }

  lemma {:induction false} TotalConcat<T>(f: T -> int, a: seq<T>, b: seq<T>)
    ensures Total(f, a + b) == Total(f, a) + Total(f, b)
  {
    if a == [] {
      assert a + b == b;
    } else {
      assert (a + b)[1..] == a[1..] + b;
      TotalConcat(f, a[1..], b);
    }
  }

  lemma TotalPush<T>(f: T -> int, s: seq<T>, x: T)
    ensures Total(f, s + [x]) == Total(f, s) + f(x)
  {
    TotalConcat(f, s, [x]);
    assert [x][1..] == [];
  }

  lemma TotalUpdate<T>(f: T -> int, s: seq<T>, i: nat, x: T)
    requires i < |s|
    ensures Total(f, s[i := x]) == Total(f, s) - f(s[i]) + f(x)
  {
    assert s == s[..i] + ([s[i]] + s[i + 1..]);
    assert s[i := x] == s[..i] + ([x] + s[i + 1..]);
    TotalConcat(f, s[..i], [s[i]] + s[i + 1..]);
    TotalConcat(f, s[..i], [x] + s[i + 1..]);
  }

  lemma {:induction false} TotalAtMost<T>(f: T -> int, g: T -> int, s: seq<T>)
    requires forall x <- s :: f(x) <= g(x)
    ensures Total(f, s) <= Total(g, s)
  {
    if s != [] {
      assert s[0] in s;
      TotalAtMost(f, g, s[1..]);
    }
  }

  function RealTotal<T>(f: T -> real, s: seq<T>): real {
    if s == [] then 0.0 else f(s[0]) + RealTotal(f, s[1..])
  }

  lemma {:induction false} RealTotalConcat<T>(f: T -> real, a: seq<T>, b: seq<T>)
    ensures RealTotal(f, a + b) == RealTotal(f, a) + RealTotal(f, b)
  {
    if a == [] {
      assert a + b == b;
    } else {
      assert (a + b)[1..] == a[1..] + b;
      RealTotalConcat(f, a[1..], b);
    }
  }

  lemma RealTotalOne<T>(f: T -> real, x: T)
    ensures RealTotal(f, [x]) == f(x)
  {
    assert [x][1..] == [];
  }

  lemma RealTotalPush<T>(f: T -> real, s: seq<T>, x: T)
    ensures RealTotal(f, s + [x]) == RealTotal(f, s) + f(x)
  {
    RealTotalConcat(f, s, [x]);
  }

  lemma RealTotalUpdate<T>(f: T -> real, s: seq<T>, i: nat, x: T)
    requires i < |s|
    ensures RealTotal(f, s[i := x]) == RealTotal(f, s) - f(s[i]) + f(x)
  {
    assert s == s[..i] + ([s[i]] + s[i + 1..]);
    assert s[i := x] == s[..i] + ([x] + s[i + 1..]);
    RealTotalConcat(f, s[..i], [s[i]] + s[i + 1..]);
    RealTotalConcat(f, s[..i], [x] + s[i + 1..]);
  }

  /** Sums of two sequences compare as their terms do. */
  lemma {:induction false} RealTotalPointwise<T, U>(f: T -> real, s: seq<T>, g: U -> real, t: seq<U>)
    requires |s| == |t| && forall i :: 0 <= i < |s| ==> f(s[i]) <= g(t[i])
    ensures RealTotal(f, s) <= RealTotal(g, t)
    ensures (forall i :: 0 <= i < |s| ==> f(s[i]) == g(t[i])) ==> RealTotal(f, s) == RealTotal(g, t)
  {
    if s != [] {
      RealTotalPointwise(f, s[1..], g, t[1..]);
    }
  }

  /** A sum is bounded by a multiple of another when its terms are. */
  lemma {:induction false} RealTotalBetween<T>(f: T -> real, g: T -> real, low: real, high: real, s: seq<T>)
    requires forall x <- s :: low * g(x) <= f(x) <= high * g(x)
    ensures low * RealTotal(g, s) <= RealTotal(f, s) <= high * RealTotal(g, s)
  {
    if s != [] {
      assert s[0] in s;
      RealTotalBetween(f, g, low, high, s[1..]);
      Distribute(low, g(s[0]), RealTotal(g, s[1..]));
      Distribute(high, g(s[0]), RealTotal(g, s[1..]));
    }
  }

  lemma Distribute(k: real, x: real, y: real)
    ensures k * (x + y) == k * x + k * y
  {}

  lemma DivideBetween(total: real, w: real, low: real, high: real)
    requires w > 0.0 && low * w <= total <= high * w
    ensures low <= total / w <= high
  {
    assert (low * w) / w == low && (high * w) / w == high;
  }

  lemma DivideIsMonotone(x: real, y: real, d: real)
    requires d != 0.0 && x <= y
    ensures d > 0.0 ==> x / d <= y / d
    ensures d < 0.0 ==> y / d <= x / d
  {}

  /** The first element of a sequence, cut out of a permutation of it. */
  lemma PermutationSplit<T>(a: seq<T>, b: seq<T>) returns (left: seq<T>, right: seq<T>)
    requires a != [] && multiset(a) == multiset(b)
    ensures b == left + ([a[0]] + right)
    ensures multiset(a[1..]) == multiset(left + right)
  {
    assert a[0] in multiset(b);
    var i :| 0 <= i < |b| && b[i] == a[0];
    left, right := b[..i], b[i + 1..];
    assert a == [a[0]] + a[1..];
    assert b == left + ([b[i]] + right);
    calc {
      multiset(a[1..]);
      multiset(a) - multiset{a[0]};
      multiset(left + ([b[i]] + right)) - multiset{a[0]};
      multiset(left) + multiset(right);
      multiset(left + right);
    }
  }

  /** A sum does not depend on the order of its terms. */
  lemma {:induction false} TotalOfPermutation<T>(f: T -> int, a: seq<T>, b: seq<T>)
    requires multiset(a) == multiset(b)
    ensures Total(f, a) == Total(f, b)
  {
    assert |multiset(a)| == |a| && |multiset(b)| == |b|;
    if a != [] {
      var left, right := PermutationSplit(a, b);
      TotalOfPermutation(f, a[1..], left + right);
      TotalConcat(f, left, [a[0]] + right);
      TotalConcat(f, left, right);
    }
  }

  lemma {:induction false} RealTotalOfPermutation<T>(f: T -> real, a: seq<T>, b: seq<T>)
    requires multiset(a) == multiset(b)
    ensures RealTotal(f, a) == RealTotal(f, b)
  {
    assert |multiset(a)| == |a| && |multiset(b)| == |b|;
    if a != [] {
      var left, right := PermutationSplit(a, b);
      RealTotalOfPermutation(f, a[1..], left + right);
      RealTotalConcat(f, left, [a[0]] + right);
      RealTotalConcat(f, left, right);
    }
  }
}
