/** Resolving an actor's name: exact alias first, then a ranked fuzzy match that must win clearly. */
module EntityResolution {
  import opened Wrappers
  import Sums

  const AMBIGUITY_GAP: real := 5.0
  const MAX_SURFACED: nat := 5

  datatype Actor = Actor(canonicalName: string, aliases: seq<string>)

  /** Functions outside the program: the fuzzy score and case-insensitive SQL matching. */
  datatype Foreign = Foreign(ratio: (string, string) -> real, ilike: (string, string) -> bool)

  datatype Settings = Settings(autoThreshold: real, reviewThreshold: real)

  datatype Candidate = Candidate(actor: nat, name: string, aliases: seq<string>)

  datatype Scored = Scored(actor: nat, name: string, score: real)

  /** Where a resolved name is to be attached. */
  datatype Target = EventActor(event: nat, role: string) | Claimant(claim: nat) | SubjectOf(claim: nat)

  datatype ReviewItem =
    | EntityReview(name: string, target: Target, document: nat, candidates: seq<Scored>)
    | DuplicateReview(event: nat, document: nat, kind: string, duplicates: seq<nat>)

  datatype Outcome = Resolved(actor: nat) | Queued(item: nat)

  // ----- ranking -----

  function BestScore(f: Foreign, name: string, others: seq<string>): (best: real)
    requires others != []
    ensures exists other <- others :: best == f.ratio(name, other)
    ensures forall other <- others :: f.ratio(name, other) <= best
  {
    assert others == [others[0]] + others[1..];
    var head := f.ratio(name, others[0]);
    if |others| == 1 then head
    else
      var rest := BestScore(f, name, others[1..]);
      if head >= rest then head else rest
  }

  function ScoreOf(f: Foreign, name: string, c: Candidate): Scored {
    Scored(c.actor, c.name, BestScore(f, name, [c.name] + c.aliases))
  }

  function ScoreAll(f: Foreign, name: string, pool: seq<Candidate>): seq<Scored> {
    seq(|pool|, i requires 0 <= i < |pool| => ScoreOf(f, name, pool[i]))
  }

  ghost predicate Descending(s: seq<Scored>) {
    forall i :: 0 < i < |s| ==> s[i - 1].score >= s[i].score
  }

  /** Insertion after every entry that scores at least as much. */
  function Insert(s: seq<Scored>, x: Scored): (r: seq<Scored>) {
    if s == [] then [x]
    else if s[0].score >= x.score then [s[0]] + Insert(s[1..], x)
    else [x] + s
  }

  /** The list sorted by falling score, ties in their original order. */
  function SortByScore(s: seq<Scored>): (r: seq<Scored>) {
    if s == [] then [] else Insert(SortByScore(s[..|s| - 1]), s[|s| - 1])
  }

  function RankCandidates(f: Foreign, name: string, pool: seq<Candidate>): seq<Scored> {
    SortByScore(ScoreAll(f, name, pool))
  }

  predicate IsAutoResolvable(ranked: seq<Scored>, autoThreshold: real) {
    && ranked != []
    && ranked[0].score >= autoThreshold
    && !(|ranked| > 1 && ranked[0].score - ranked[1].score < AMBIGUITY_GAP)
  }

  function AtLeast(ranked: seq<Scored>, threshold: real): seq<Scored> {
    if ranked == [] then []
    else
      var rest := AtLeast(ranked[1..], threshold);
      if ranked[0].score >= threshold then [ranked[0]] + rest else rest
  }

  function FirstFew(s: seq<Scored>): seq<Scored> {
    if |s| <= MAX_SURFACED then s else s[..MAX_SURFACED]
  }

  // ----- the order is the stable one -----

  lemma {:induction false} InsertKeepsOrder(s: seq<Scored>, x: Scored)
    requires Descending(s)
    ensures Descending(Insert(s, x))
    ensures Insert(s, x) != [] && Insert(s, x)[0] == if s != [] && s[0].score >= x.score then s[0] else x
  {
    if s != [] {
      InsertKeepsOrder(s[1..], x);
    }
  }

  lemma {:induction false} InsertAddsOne(s: seq<Scored>, x: Scored)
    ensures multiset(Insert(s, x)) == multiset(s) + multiset{x} && |Insert(s, x)| == |s| + 1
  {
    if s != [] {
      InsertAddsOne(s[1..], x);
      assert s == [s[0]] + s[1..];
    }
  }

  lemma {:induction false} SortSorts(s: seq<Scored>)
    ensures multiset(SortByScore(s)) == multiset(s) && Descending(SortByScore(s))
    ensures |SortByScore(s)| == |s|
  {
    if s != [] {
      var front, last := s[..|s| - 1], s[|s| - 1];
      assert s == front + [last];
      SortSorts(front);
      InsertKeepsOrder(SortByScore(front), last);
      InsertAddsOne(SortByScore(front), last);
    }
  }

  lemma {:induction false} HeadIsGreatest(s: seq<Scored>)
    requires Descending(s) && s != []
    ensures forall x <- s :: x.score <= s[0].score
  {
    assert s == [s[0]] + s[1..];
    if |s| > 1 {
      HeadIsGreatest(s[1..]);
    }
  }

  function WithScore(s: seq<Scored>, v: real): seq<Scored> {
    if s == [] then []
    else
      var rest := WithScore(s[1..], v);
      if s[0].score == v then [s[0]] + rest else rest
  }

  lemma {:induction false} WithScoreConcat(a: seq<Scored>, b: seq<Scored>, v: real)
    ensures WithScore(a + b, v) == WithScore(a, v) + WithScore(b, v)
  {
    if a == [] {
      assert a + b == b;
    } else {
      assert (a + b)[1..] == a[1..] + b;
      WithScoreConcat(a[1..], b, v);
    }
  }

  lemma {:induction false} LowerScoresAbsent(s: seq<Scored>, v: real)
    requires forall x <- s :: x.score < v
    ensures WithScore(s, v) == []
  {
    if s != [] {
      assert s[0] in s;
      LowerScoresAbsent(s[1..], v);
    }
  }

  lemma WithScorePushed(x: Scored, s: seq<Scored>, v: real)
    ensures WithScore([x] + s, v) == (if x.score == v then [x] else []) + WithScore(s, v)
  {
    assert ([x] + s)[1..] == s;
  }

  lemma {:induction false} InsertIsStable(s: seq<Scored>, x: Scored, v: real)
    requires Descending(s)
    ensures WithScore(Insert(s, x), v) == WithScore(s, v) + if x.score == v then [x] else []
  {
    if s == [] {
      WithScorePushed(x, [], v);
    } else if s[0].score >= x.score {
      InsertIsStable(s[1..], x, v);
      WithScorePushed(s[0], Insert(s[1..], x), v);
    } else {
      WithScorePushed(x, s, v);
      if v == x.score {
        HeadIsGreatest(s);
        LowerScoresAbsent(s, v);
      }
    }
  }

  lemma {:induction false} SortIsStable(s: seq<Scored>, v: real)
    ensures WithScore(SortByScore(s), v) == WithScore(s, v)
  {
    if s != [] {
      var front, last := s[..|s| - 1], s[|s| - 1];
      assert s == front + [last];
      SortSorts(front);
      SortIsStable(front, v);
      InsertIsStable(SortByScore(front), last, v);
      WithScoreConcat(front, [last], v);
      WithScorePushed(last, [], v);
    }
  }

  lemma {:induction false} ScorePresent(s: seq<Scored>, v: real)
    ensures WithScore(s, v) != [] <==> exists x <- s :: x.score == v
  {
    if s != [] {
      ScorePresent(s[1..], v);
      assert forall x :: x in s <==> x == s[0] || x in s[1..];
    }
  }

  ghost predicate SameByScore(a: seq<Scored>, b: seq<Scored>) {
    forall v: real :: WithScore(a, v) == WithScore(b, v)
  }

  lemma HeadsAgree(a: seq<Scored>, b: seq<Scored>)
    requires Descending(a) && Descending(b) && SameByScore(a, b) && a != []
    ensures b != [] && a[0] == b[0]
  {
    var v := a[0].score;
    assert WithScore(a, v) == WithScore(b, v);
    ScorePresent(a, v);
    ScorePresent(b, v);
    HeadIsGreatest(b);
    var w := b[0].score;
    assert WithScore(a, w) == WithScore(b, w);
    ScorePresent(a, w);
    ScorePresent(b, w);
    HeadIsGreatest(a);
    assert WithScore(a, v)[0] == a[0] && WithScore(b, v)[0] == b[0];
  }

  /** A falling order that keeps ties in place is the only one there is. */
  lemma {:induction false} StableOrderIsUnique(a: seq<Scored>, b: seq<Scored>)
    requires Descending(a) && Descending(b) && SameByScore(a, b)
    ensures a == b
  {
    if a != [] {
      HeadsAgree(a, b);
      forall v: real ensures WithScore(a[1..], v) == WithScore(b[1..], v) {
        assert WithScore(a, v) == WithScore(b, v);
        var head := if a[0].score == v then [a[0]] else [];
        assert WithScore(a, v) == head + WithScore(a[1..], v) && WithScore(b, v) == head + WithScore(b[1..], v);
        assert WithScore(a[1..], v) == WithScore(a, v)[|head|..] == WithScore(b[1..], v);
      }
      StableOrderIsUnique(a[1..], b[1..]);
    } else if b != [] {
      HeadsAgree(b, a);
    }
  }

  /** So `sort(key=score, reverse=True)`, which is stable, computes exactly this ranking. */
  lemma RankingIsTheStableOrder(s: seq<Scored>, r: seq<Scored>)
    ensures r == SortByScore(s) <==> Descending(r) && SameByScore(r, s)
  {
    SortSorts(s);
    forall v: real {
      SortIsStable(s, v);
    }
    if Descending(r) && SameByScore(r, s) {
      forall v: real ensures WithScore(r, v) == WithScore(SortByScore(s), v) {
        assert WithScore(r, v) == WithScore(s, v);
      }
      StableOrderIsUnique(r, SortByScore(s));
    }
  }

  // ----- who wins -----

  /** One entry reaches the threshold and beats every other by the gap. */
  ghost predicate ClearWinner(scores: multiset<Scored>, c: Scored, autoThreshold: real) {
    && c in scores && c.score >= autoThreshold
    && forall other <- scores - multiset{c} :: c.score - other.score >= AMBIGUITY_GAP
  }

  lemma OthersThan(s: seq<Scored>, i: nat)
    requires i < |s|
    ensures multiset(s) - multiset{s[i]} == multiset(s[..i] + s[i + 1..])
  {
    assert s == s[..i] + ([s[i]] + s[i + 1..]);
  }

  lemma OtherThan(s: seq<Scored>, i: nat, j: nat)
    requires i < |s| && j < |s| && j != i
    ensures s[j] in multiset(s) - multiset{s[i]}
  {
    OthersThan(s, i);
    var others := s[..i] + s[i + 1..];
    assert s[j] == others[if j < i then j else j - 1];
    assert s[j] in multiset(others);
  }

  lemma WinnerIsOnTop(r: seq<Scored>, c: Scored, autoThreshold: real)
    requires Descending(r) && ClearWinner(multiset(r), c, autoThreshold)
    ensures r != [] && c == r[0] && IsAutoResolvable(r, autoThreshold)
  {
    var i :| 0 <= i < |r| && r[i] == c;
    HeadIsGreatest(r);
    if i > 0 {
      OtherThan(r, i, 0);
      assert false;
    } else if |r| > 1 {
      OtherThan(r, 0, 1);
    }
  }

  lemma RestOf(r: seq<Scored>)
    requires r != []
    ensures multiset(r) - multiset{r[0]} == multiset(r[1..])
  {
    assert r == [r[0]] + r[1..];
  }

  lemma RestIsBehind(r: seq<Scored>, autoThreshold: real)
    requires Descending(r) && IsAutoResolvable(r, autoThreshold)
    ensures forall other <- r[1..] :: r[0].score - other.score >= AMBIGUITY_GAP
  {
    if |r| > 1 {
      HeadIsGreatest(r[1..]);
    }
  }

  lemma TopOfRankingWins(r: seq<Scored>, autoThreshold: real)
    requires Descending(r) && IsAutoResolvable(r, autoThreshold)
    ensures ClearWinner(multiset(r), r[0], autoThreshold)
  {
    RestOf(r);
    RestIsBehind(r, autoThreshold);
    hide Descending, IsAutoResolvable;
    forall other | other in multiset(r) - multiset{r[0]} ensures r[0].score - other.score >= AMBIGUITY_GAP {
      assert other in multiset(r[1..]);
      assert other in r[1..];
    }
  }

  /** The top two decide: the list resolves itself iff some entry is the clear winner, and then the top is. */
  lemma AutoResolvableIffClearWinner(s: seq<Scored>, autoThreshold: real)
    ensures IsAutoResolvable(SortByScore(s), autoThreshold)
      <==> exists c :: ClearWinner(multiset(s), c, autoThreshold)
    ensures forall c :: ClearWinner(multiset(s), c, autoThreshold) ==>
      SortByScore(s) != [] && c == SortByScore(s)[0]
  {
    SortSorts(s);
    var ranked := SortByScore(s);
    forall c | ClearWinner(multiset(s), c, autoThreshold)
      ensures ranked != [] && c == ranked[0] && IsAutoResolvable(ranked, autoThreshold)
    {
      WinnerIsOnTop(ranked, c, autoThreshold);
    }
    if IsAutoResolvable(ranked, autoThreshold) {
      TopOfRankingWins(ranked, autoThreshold);
    }
  }

  lemma ScoresConcat(f: Foreign, name: string, p: seq<Candidate>, q: seq<Candidate>)
    ensures ScoreAll(f, name, p + q) == ScoreAll(f, name, p) + ScoreAll(f, name, q)
  {}

  lemma {:induction false} ScoresOfPermutation(f: Foreign, name: string, p: seq<Candidate>, q: seq<Candidate>)
    requires multiset(p) == multiset(q)
    ensures multiset(ScoreAll(f, name, p)) == multiset(ScoreAll(f, name, q))
    decreases |p|
  {
    assert |multiset(p)| == |p| && |multiset(q)| == |q|;
    if p != [] {
      var left, right := Sums.PermutationSplit(p, q);
      ScoresOfPermutation(f, name, p[1..], left + right);
      assert p == [p[0]] + p[1..];
      ScoresConcat(f, name, [p[0]], p[1..]);
      ScoresConcat(f, name, left, [p[0]] + right);
      ScoresConcat(f, name, [p[0]], right);
      ScoresConcat(f, name, left, right);
    }
  }

  /** The order in which the database lists the actors changes neither the decision nor the winner. */
  lemma ResolutionIgnoresOrder(f: Foreign, name: string, p: seq<Candidate>, q: seq<Candidate>, autoThreshold: real)
    requires multiset(p) == multiset(q)
    ensures var a, b := RankCandidates(f, name, p), RankCandidates(f, name, q);
      && (IsAutoResolvable(a, autoThreshold) <==> IsAutoResolvable(b, autoThreshold))
      && (IsAutoResolvable(a, autoThreshold) ==> a[0] == b[0])
  {
    var s, t := ScoreAll(f, name, p), ScoreAll(f, name, q);
    ScoresOfPermutation(f, name, p, q);
    AutoResolvableIffClearWinner(s, autoThreshold);
    AutoResolvableIffClearWinner(t, autoThreshold);
    SortSorts(s);
    if IsAutoResolvable(SortByScore(s), autoThreshold) {
      TopOfRankingWins(SortByScore(s), autoThreshold);
    }
  }

  // ----- what is shown to an analyst -----

  lemma {:induction false} AtLeastIsPrefix(ranked: seq<Scored>, threshold: real) returns (k: nat)
    requires Descending(ranked)
    ensures k <= |ranked| && AtLeast(ranked, threshold) == ranked[..k]
    ensures forall i :: 0 <= i < |ranked| ==> (i < k <==> ranked[i].score >= threshold)
  {
    if ranked == [] {
      k := 0;
    } else if ranked[0].score >= threshold {
      k := AtLeastIsPrefix(ranked[1..], threshold);
      k := k + 1;
      assert ranked[..k] == [ranked[0]] + ranked[1..][..k - 1];
    } else {
      k := AtLeastIsPrefix(ranked[1..], threshold);
      k := 0;
      assert forall i :: 0 < i < |ranked| ==> ranked[i] == ranked[1..][i - 1];
      assert AtLeast(ranked[1..], threshold) == [];
    }
  }

  function Surfaced(ranked: seq<Scored>, threshold: real): seq<Scored> {
    FirstFew(AtLeast(ranked, threshold))
  }

  /** What is surfaced is the top of the ranking, cut at the threshold or after five. */
  lemma SurfacedIsTop(ranked: seq<Scored>, threshold: real) returns (n: nat)
    requires Descending(ranked)
    ensures n <= |ranked| && n <= MAX_SURFACED && Surfaced(ranked, threshold) == ranked[..n]
    ensures forall i :: 0 <= i < n ==> ranked[i].score >= threshold
    ensures forall i :: n <= i < |ranked| ==> ranked[i].score < threshold || n == MAX_SURFACED
  {
    var k := AtLeastIsPrefix(ranked, threshold);
    n := if k <= MAX_SURFACED then k else MAX_SURFACED;
  }

  lemma {:induction false} DescendingApart(s: seq<Scored>, i: nat, j: nat)
    requires Descending(s) && i <= j < |s|
    ensures s[i].score >= s[j].score
    decreases j - i
  {
    if i < j {
      DescendingApart(s, i, j - 1);
    }
  }

  ghost predicate Outscored(shown: seq<Scored>, y: Scored) {
    forall x <- shown :: y.score <= x.score
  }

  lemma TopOutscores(ranked: seq<Scored>, n: nat, j: nat)
    requires Descending(ranked) && n <= j < |ranked|
    ensures Outscored(ranked[..n], ranked[j])
  {
    forall x | x in ranked[..n] ensures ranked[j].score <= x.score {
      var i :| 0 <= i < n && ranked[i] == x;
      DescendingApart(ranked, i, j);
    }
  }

  /**
   At most five candidates are surfaced, all from the pool and at or above the threshold; an omitted
   one outscores none of them and is below the threshold unless five are shown.
   */
  lemma SurfacedAreTheBest(s: seq<Scored>, threshold: real) returns (omitted: seq<Scored>)
    ensures var shown := Surfaced(SortByScore(s), threshold);
      && |shown| <= MAX_SURFACED
      && multiset(shown + omitted) == multiset(s)
      && (forall x <- shown :: x.score >= threshold)
      && (forall y <- omitted :: Outscored(shown, y) && (y.score < threshold || |shown| == MAX_SURFACED))
  {
    hide Surfaced, SortByScore;
    SortSorts(s);
    var ranked := SortByScore(s);
    var n := SurfacedIsTop(ranked, threshold);
    omitted := ranked[n..];
    assert ranked == ranked[..n] + omitted;
    hide Outscored;
    forall j | 0 <= j < |omitted| ensures Outscored(ranked[..n], omitted[j]) {
      TopOutscores(ranked, n, n + j);
    }
  }

  // ----- resolution -----

  function MatchingCanonical(f: Foreign, actors: seq<Actor>, name: string): (r: Option<nat>)
    ensures r.Some? ==> r.value < |actors| && f.ilike(actors[r.value].canonicalName, name)
    ensures r.None? ==> forall a <- actors :: !f.ilike(a.canonicalName, name)
  {
    if actors == [] then None
    else
      var n := |actors| - 1;
      var earlier := MatchingCanonical(f, actors[..n], name);
      if earlier.Some? then earlier else if f.ilike(actors[n].canonicalName, name) then Some(n) else None
  }

  predicate AliasMatches(f: Foreign, a: Actor, name: string) { exists alias <- a.aliases :: f.ilike(alias, name) }

  function MatchingAlias(f: Foreign, actors: seq<Actor>, name: string): (r: Option<nat>)
    ensures r.Some? ==> r.value < |actors| && AliasMatches(f, actors[r.value], name)
    ensures r.None? ==> forall a <- actors :: !AliasMatches(f, a, name)
  {
    if actors == [] then None
    else
      var n := |actors| - 1;
      var earlier := MatchingAlias(f, actors[..n], name);
      if earlier.Some? then earlier else if AliasMatches(f, actors[n], name) then Some(n) else None
  }

  /** A canonical name first, then any alias. */
  function FindByExactAlias(f: Foreign, actors: seq<Actor>, name: string): Option<nat> {
    var canonical := MatchingCanonical(f, actors, name);
    if canonical.Some? then canonical else MatchingAlias(f, actors, name)
  }

  function Pool(actors: seq<Actor>): (pool: seq<Candidate>)
    ensures |pool| == |actors| && forall i :: 0 <= i < |pool| ==> pool[i].actor == i
  {
    seq(|actors|, i requires 0 <= i < |actors| => Candidate(i, actors[i].canonicalName, actors[i].aliases))
  }

  /** The actor a name confidently stands for, if any. */
  function Confident(f: Foreign, c: Settings, actors: seq<Actor>, name: string): Option<nat> {
    var exact := FindByExactAlias(f, actors, name);
    if exact.Some? then exact
    else
      var ranked := RankCandidates(f, name, Pool(actors));
      if IsAutoResolvable(ranked, c.autoThreshold) then Some(ranked[0].actor) else None
  }

  function SurfacedFor(f: Foreign, c: Settings, actors: seq<Actor>, name: string): seq<Scored> {
    Surfaced(RankCandidates(f, name, Pool(actors)), c.reviewThreshold)
  }

  /** A confident answer is a registered actor, matched exactly or ahead of every other by the gap. */
  lemma ConfidentAnswerIsJustified(f: Foreign, c: Settings, actors: seq<Actor>, name: string)
    requires Confident(f, c, actors, name).Some?
    ensures var a := Confident(f, c, actors, name).value;
      && a < |actors|
      && (f.ilike(actors[a].canonicalName, name) || AliasMatches(f, actors[a], name)
          || LeadsBy(ScoreAll(f, name, Pool(actors)), a, c.autoThreshold))
  {
    if FindByExactAlias(f, actors, name).None? {
      var s := ScoreAll(f, name, Pool(actors));
      SortSorts(s);
      TopOfRankingWins(SortByScore(s), c.autoThreshold);
      var winner := SortByScore(s)[0];
      assert winner in multiset(s);
      var a :| 0 <= a < |s| && s[a] == winner;
      assert s[a].actor == a;
      WinnerLeads(s, a, c.autoThreshold);
    }
  }

  /** Entry `a` reaches the threshold and is ahead of every other entry by the gap. */
  ghost predicate LeadsBy(s: seq<Scored>, a: nat, autoThreshold: real) {
    && a < |s| && s[a].score >= autoThreshold
    && forall b :: 0 <= b < |s| && b != a ==> s[a].score - s[b].score >= AMBIGUITY_GAP
  }

  lemma WinnerLeads(s: seq<Scored>, a: nat, autoThreshold: real)
    requires a < |s| && ClearWinner(multiset(s), s[a], autoThreshold)
    ensures LeadsBy(s, a, autoThreshold)
  {
    forall b | 0 <= b < |s| && b != a ensures s[a].score - s[b].score >= AMBIGUITY_GAP {
      OtherThan(s, a, b);
    }
  }

  lemma LeaderWins(s: seq<Scored>, a: nat, autoThreshold: real)
    requires LeadsBy(s, a, autoThreshold)
    ensures ClearWinner(multiset(s), s[a], autoThreshold)
  {
    OthersThan(s, a);
    var others := s[..a] + s[a + 1..];
    forall other: Scored | other in multiset(others) ensures s[a].score - other.score >= AMBIGUITY_GAP {
      assert other in others;
      var i :| 0 <= i < |others| && others[i] == other;
      assert other == s[if i < a then i else i + 1];
    }
  }

  ghost predicate SomeExactMatch(f: Foreign, actors: seq<Actor>, name: string) {
    exists a <- actors :: f.ilike(a.canonicalName, name) || AliasMatches(f, a, name)
  }

  ghost predicate SomeLeader(f: Foreign, c: Settings, actors: seq<Actor>, name: string) {
    exists a: nat :: LeadsBy(ScoreAll(f, name, Pool(actors)), a, c.autoThreshold)
  }

  /** A name gets a confident answer exactly when some actor matches it or leads all others by the gap. */
  lemma ConfidentIff(f: Foreign, c: Settings, actors: seq<Actor>, name: string)
    ensures Confident(f, c, actors, name).Some?
      <==> SomeExactMatch(f, actors, name) || SomeLeader(f, c, actors, name)
  {
    hide SortByScore, ScoreAll, ClearWinner;
    var s := ScoreAll(f, name, Pool(actors));
    if FindByExactAlias(f, actors, name).None? {
      AutoResolvableIffClearWinner(s, c.autoThreshold);
      if a: nat :| LeadsBy(s, a, c.autoThreshold) {
        LeaderWins(s, a, c.autoThreshold);
      }
      if Confident(f, c, actors, name).Some? {
        ConfidentAnswerIsJustified(f, c, actors, name);
      }
    }
  }

  // ----- the service -----

  class ReviewRepository {
    var items: seq<ReviewItem>

    constructor ()
      ensures items == []
    {
      items := [];
    }

    method Create(item: ReviewItem) returns (id: nat)
      modifies this
      ensures id == |old(items)| && items == old(items) + [item]
    {
      id := |items|;
      items := items + [item];
    }
  }

  class EntityResolutionService {
    const foreign: Foreign
    const settings: Settings
    const actors: seq<Actor>
    const review: ReviewRepository

    constructor (foreign: Foreign, settings: Settings, actors: seq<Actor>, review: ReviewRepository)
      ensures this.foreign == foreign && this.settings == settings && this.actors == actors && this.review == review
    {
      this.foreign := foreign;
      this.settings := settings;
      this.actors := actors;
      this.review := review;
    }

    /** Score the pool one candidate at a time, then sort the list. */
    method Rank(name: string) returns (scored: seq<Scored>)
      ensures scored == RankCandidates(foreign, name, Pool(actors))
    {
      var pool := Pool(actors);
      scored := [];
      for k := 0 to |pool|
        invariant scored == ScoreAll(foreign, name, pool[..k])
      {
        var best := BestScore(foreign, name, [pool[k].name] + pool[k].aliases);
        scored := scored + [Scored(pool[k].actor, pool[k].name, best)];
      }
      assert pool[..|pool|] == pool;
      scored := SortByScore(scored);
    }

    /** `resolve_confident`: no review item is ever queued. */
    method ResolveConfident(name: string) returns (r: Option<nat>)
      ensures r == Confident(foreign, settings, actors, name)
    {
      var exact := FindByExactAlias(foreign, actors, name);
      if exact.Some? {
        return exact;
      }
      var ranked := Rank(name);
      if IsAutoResolvable(ranked, settings.autoThreshold) {
        return Some(ranked[0].actor);
      }
      return None;
    }

    /** `resolve`: the same answer, and exactly one review item when there is none. */
    method Resolve(name: string, target: Target, document: nat) returns (outcome: Outcome)
      modifies review
      ensures var answer := Confident(foreign, settings, actors, name);
        && (answer.Some? ==> outcome == Resolved(answer.value) && review.items == old(review.items))
        && (answer.None? ==>
              outcome == Queued(|old(review.items)|)
              && review.items == old(review.items)
                 + [EntityReview(name, target, document, SurfacedFor(foreign, settings, actors, name))])
    {
      var exact := FindByExactAlias(foreign, actors, name);
      if exact.Some? {
        return Resolved(exact.value);
      }
      var ranked := Rank(name);
      if IsAutoResolvable(ranked, settings.autoThreshold) {
        return Resolved(ranked[0].actor);
      }
      var surfaced := FirstFew(AtLeast(ranked, settings.reviewThreshold));
      var item := review.Create(EntityReview(name, target, document, surfaced));
      return Queued(item);
    }
  }
}
