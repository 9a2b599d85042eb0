/** The answer to a name, from the names actors are registered under and the scores between names. */
module EntityAnswers {
  import opened Wrappers
  import opened EntityResolution

  /** The names an actor is registered under. */
  function NamesOf(a: Actor): seq<string> { [a.canonicalName] + a.aliases }

  // ----- exact matches -----

  predicate CanonicalMatches(f: Foreign, a: Actor, name: string) { f.ilike(a.canonicalName, name) }

  /** The first actor with a property. */
  ghost predicate First(actors: seq<Actor>, p: Actor -> bool, i: nat) {
    i < |actors| && p(actors[i]) && forall j :: 0 <= j < i ==> !p(actors[j])
  }

  function ByName(f: Foreign, name: string): Actor -> bool { a => CanonicalMatches(f, a, name) }

  function ByAlias(f: Foreign, name: string): Actor -> bool { a => AliasMatches(f, a, name) }

  lemma {:induction false} CanonicalIsFirst(f: Foreign, actors: seq<Actor>, name: string)
    ensures var r := MatchingCanonical(f, actors, name); r.Some? ==> First(actors, ByName(f, name), r.value)
  {
    if actors != [] {
      var n := |actors| - 1;
      CanonicalIsFirst(f, actors[..n], name);
      if MatchingCanonical(f, actors[..n], name).None? {
        forall j | 0 <= j < n ensures !ByName(f, name)(actors[j]) {
          assert actors[j] in actors[..n];
        }
      }
    }
  }

  lemma {:induction false} AliasIsFirst(f: Foreign, actors: seq<Actor>, name: string)
    ensures var r := MatchingAlias(f, actors, name); r.Some? ==> First(actors, ByAlias(f, name), r.value)
  {
    if actors != [] {
      var n := |actors| - 1;
      AliasIsFirst(f, actors[..n], name);
      if MatchingAlias(f, actors[..n], name).None? {
        forall j | 0 <= j < n ensures !ByAlias(f, name)(actors[j]) {
          assert actors[j] in actors[..n];
        }
      }
    }
  }

  ghost predicate NoCanonical(f: Foreign, actors: seq<Actor>, name: string) {
    forall i :: 0 <= i < |actors| ==> !f.ilike(actors[i].canonicalName, name)
  }

  ghost predicate NoAlias(f: Foreign, actors: seq<Actor>, name: string) {
    forall i, alias :: 0 <= i < |actors| && alias in actors[i].aliases ==> !f.ilike(alias, name)
  }

  lemma ExactAnswer(f: Foreign, actors: seq<Actor>, name: string)
    ensures MatchingCanonical(f, actors, name).None? <==> NoCanonical(f, actors, name)
    ensures MatchingAlias(f, actors, name).None? <==> NoAlias(f, actors, name)
  {
    var r, q := MatchingCanonical(f, actors, name), MatchingAlias(f, actors, name);
    if r.None? {
      forall i | 0 <= i < |actors| ensures !f.ilike(actors[i].canonicalName, name) {
        assert actors[i] in actors;
      }
    }
    if q.None? {
      forall i | 0 <= i < |actors| ensures !AliasMatches(f, actors[i], name) {
        assert actors[i] in actors;
      }
    }
  }

  // ----- fuzzy matches -----

  /** One of its names reaches the threshold and scores at least 5 more than every name of every other actor. */
  ghost predicate LeadsByName(f: Foreign, actors: seq<Actor>, name: string, threshold: real, a: nat) {
    && a < |actors|
    && exists x <- NamesOf(actors[a]) ::
         f.ratio(name, x) >= threshold && AheadOfOthers(f, actors, name, a, f.ratio(name, x))
  }

  ghost predicate AheadOfOthers(f: Foreign, actors: seq<Actor>, name: string, a: nat, score: real) {
    forall b, y :: 0 <= b < |actors| && b != a && y in NamesOf(actors[b]) ==> score - f.ratio(name, y) >= 5.0
  }

  /** The score of an actor is that of its best name. */
  lemma ScoreIsBestName(f: Foreign, actors: seq<Actor>, name: string, a: nat)
    requires a < |actors|
    ensures var s := ScoreAll(f, name, Pool(actors));
      && |s| == |actors| && s[a].actor == a && s[a].name == actors[a].canonicalName
      && (exists x <- NamesOf(actors[a]) :: s[a].score == f.ratio(name, x))
      && (forall x <- NamesOf(actors[a]) :: f.ratio(name, x) <= s[a].score)
  {
    assert ScoreAll(f, name, Pool(actors))[a] == ScoreOf(f, name, Pool(actors)[a]);
    hide BestScore;
  }

  lemma LeadersAreByName(f: Foreign, actors: seq<Actor>, name: string, threshold: real, a: nat)
    requires a < |actors|
    ensures LeadsBy(ScoreAll(f, name, Pool(actors)), a, threshold) <==> LeadsByName(f, actors, name, threshold, a)
  {
    var s := ScoreAll(f, name, Pool(actors));
    ScoreIsBestName(f, actors, name, a);
    forall b: nat | b < |actors|
      ensures |s| == |actors|
      ensures exists x <- NamesOf(actors[b]) :: s[b].score == f.ratio(name, x)
      ensures forall x <- NamesOf(actors[b]) :: f.ratio(name, x) <= s[b].score
    {
      ScoreIsBestName(f, actors, name, b);
    }
    hide ScoreAll, NamesOf;
    if LeadsBy(s, a, threshold) {
      var x :| x in NamesOf(actors[a]) && s[a].score == f.ratio(name, x);
      assert AheadOfOthers(f, actors, name, a, f.ratio(name, x));
    }
    if LeadsByName(f, actors, name, threshold, a) {
      var x :| x in NamesOf(actors[a]) && f.ratio(name, x) >= threshold
               && AheadOfOthers(f, actors, name, a, f.ratio(name, x));
      forall b | 0 <= b < |s| && b != a ensures s[a].score - s[b].score >= AMBIGUITY_GAP {
        var y :| y in NamesOf(actors[b]) && s[b].score == f.ratio(name, y);
      }
    }
  }

  /** Who the ranking resolves to, if nothing matches exactly. */
  lemma FuzzyAnswer(f: Foreign, c: Settings, actors: seq<Actor>, name: string, a: nat)
    requires a < |actors| && FindByExactAlias(f, actors, name).None?
    ensures Confident(f, c, actors, name) == Some(a)
      <==> LeadsBy(ScoreAll(f, name, Pool(actors)), a, c.autoThreshold)
  {
    hide ScoreAll, SortByScore, LeadsBy, ClearWinner, IsAutoResolvable;
    var s := ScoreAll(f, name, Pool(actors));
    ScoreIsBestName(f, actors, name, a);
    AutoResolvableIffClearWinner(s, c.autoThreshold);
    if LeadsBy(s, a, c.autoThreshold) {
      LeaderWins(s, a, c.autoThreshold);
    }
    if Confident(f, c, actors, name) == Some(a) {
      SortSorts(s);
      TopOfRankingWins(SortByScore(s), c.autoThreshold);
      WinnerAt(s, SortByScore(s)[0], c.autoThreshold, f, actors, name);
    }
  }

  lemma WinnerAt(s: seq<Scored>, winner: Scored, threshold: real, f: Foreign, actors: seq<Actor>, name: string)
    requires s == ScoreAll(f, name, Pool(actors)) && ClearWinner(multiset(s), winner, threshold)
    ensures LeadsBy(s, winner.actor, threshold)
  {
    assert winner in s;
    var i :| 0 <= i < |s| && s[i] == winner;
    assert s[i].actor == i;
    WinnerLeads(s, i, threshold);
  }

  /**
   The answer to a name, in full: the first actor of that canonical name; failing that, the first with
   that alias; failing that, the actor one of whose names reaches the threshold and scores at least
   five more than every name of every other actor; and otherwise none.
   */
  lemma AnswerIs(f: Foreign, c: Settings, actors: seq<Actor>, name: string, a: nat)
    ensures Confident(f, c, actors, name) == Some(a) <==>
      if !NoCanonical(f, actors, name) then First(actors, ByName(f, name), a)
      else if !NoAlias(f, actors, name) then First(actors, ByAlias(f, name), a)
      else LeadsByName(f, actors, name, c.autoThreshold, a)
  {
    ExactAnswer(f, actors, name);
    CanonicalIsFirst(f, actors, name);
    AliasIsFirst(f, actors, name);
    if FindByExactAlias(f, actors, name).None? {
      if a < |actors| {
        FuzzyAnswer(f, c, actors, name, a);
        LeadersAreByName(f, actors, name, c.autoThreshold, a);
      } else if Confident(f, c, actors, name).Some? {
        ConfidentAnswerIsJustified(f, c, actors, name);
      }
    }
    hide NoCanonical, NoAlias, MatchingCanonical, MatchingAlias, LeadsByName, Confident;
  }

  /** What an analyst is shown of an actor: its number, its name and the score of its best name. */
  lemma SurfacedShowScores(f: Foreign, c: Settings, actors: seq<Actor>, name: string, x: Scored)
    requires x in SurfacedFor(f, c, actors, name)
    ensures x.actor < |actors| && x.name == actors[x.actor].canonicalName && x.score >= c.reviewThreshold
    ensures exists y <- NamesOf(actors[x.actor]) :: x.score == f.ratio(name, y)
    ensures forall y <- NamesOf(actors[x.actor]) :: f.ratio(name, y) <= x.score
  {
    hide ScoreAll, SortByScore;
    var s := ScoreAll(f, name, Pool(actors));
    SortSorts(s);
    var ranked := SortByScore(s);
    var n := SurfacedIsTop(ranked, c.reviewThreshold);
    assert x in ranked[..n];
    assert x in multiset(ranked) && x in multiset(s) && x in s;
    ScoresHave(f, actors, name, x);
    ScoreIsBestName(f, actors, name, x.actor);
  }

  lemma ScoresHave(f: Foreign, actors: seq<Actor>, name: string, x: Scored)
    requires x in ScoreAll(f, name, Pool(actors))
    ensures x.actor < |actors| && x == ScoreAll(f, name, Pool(actors))[x.actor]
  {
    var s := ScoreAll(f, name, Pool(actors));
    var i :| 0 <= i < |s| && s[i] == x;
    assert s[i].actor == i;
  }

  ghost predicate ShowsActor(shown: seq<Scored>, a: nat) {
    exists x <- shown :: x.actor == a
  }

  /**
   Every actor one of whose names reaches the review threshold is shown, unless five others are that
   all score at least as much.
   */
  lemma UpToFiveAreShown(f: Foreign, c: Settings, actors: seq<Actor>, name: string, a: nat, y: string)
    requires a < |actors| && y in NamesOf(actors[a]) && f.ratio(name, y) >= c.reviewThreshold
    ensures var shown := SurfacedFor(f, c, actors, name);
      && |shown| <= 5
      && (ShowsActor(shown, a) || (|shown| == 5 && forall x <- shown :: x.score >= f.ratio(name, y)))
  {
    hide Surfaced, SortByScore, ScoreAll;
    var s := ScoreAll(f, name, Pool(actors));
    ScoreIsBestName(f, actors, name, a);
    var omitted := SurfacedAreTheBest(s, c.reviewThreshold);
    var shown := SurfacedFor(f, c, actors, name);
    assert s[a] in multiset(s);
    assert s[a] in shown || s[a] in omitted;
    if s[a] in shown {
      assert ShowsActor(shown, a);
    }
  }
}
