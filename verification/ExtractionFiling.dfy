/** Where a document's events and claims end up, from the names and titles it was extracted with. */
module ExtractionFiling {
  import opened Wrappers
  import opened EntityResolution
  import opened Extraction
  import opened ExtractionProofs

  // ----- which stored events an extracted one may be -----

  /** One of the names extracted for the event confidently stands for the actor. */
  ghost predicate Names(env: Env, actors: seq<NamedRole>, actor: nat) {
    exists a <- actors :: Answer(env, a.name) == Some(actor)
  }

  /** An active event of the same kind, started within the window either way, with an actor in common. */
  ghost predicate MayBe(env: Env, s: State, event: nat, x: ExtractedEvent)
    requires event < |s.events|
  {
    var e := s.events[event];
    && e.kind == x.kind
    && (e.lifecycle == Extracted || e.lifecycle == Assessed)
    && -env.window <= e.startedAt - x.startedAt <= env.window
    && exists l <- s.links :: l.event == event && Names(env, x.actors, l.actor)
  }

  lemma CandidateIff(env: Env, s: State, x: ExtractedEvent, event: nat)
    ensures event in Candidates(env, s, x) <==> event < |s.events| && MayBe(env, s, event, x)
  {
    ConfidentActorsAnswer(env, x.actors);
    assert forall actor :: actor in ConfidentActors(env, x.actors) <==> Names(env, x.actors, actor);
    hide Names, ConfidentActors;
  }

  ghost predicate OnlyOne(env: Env, s: State, event: nat, x: ExtractedEvent) {
    && event < |s.events| && MayBe(env, s, event, x)
    && forall other: nat :: other < |s.events| && MayBe(env, s, other, x) ==> other == event
  }

  /** A stored event is reused exactly when it is the only one the extracted event may be. */
  lemma ReusedIff(env: Env, s: State, document: nat, x: ExtractedEvent, event: nat)
    requires event < |s.events|
    ensures PersistedEvent(env, s, document, x).1 == event <==> OnlyOne(env, s, event, x)
  {
    var candidates := Candidates(env, s, x);
    assert forall i :: 0 <= i < |candidates| ==> candidates[i] in candidates;
    forall other: nat ensures other in candidates <==> other < |s.events| && MayBe(env, s, other, x) {
      CandidateIff(env, s, x, other);
    }
    hide MayBe, Candidates, WithActors;
    if OnlyOne(env, s, event, x) {
      assert event in candidates;
      if |candidates| > 1 {
        assert candidates[0] == event && candidates[1] == event;
        CandidatesAscend(env, s, x);
      }
    }
  }

  lemma CandidatesAscend(env: Env, s: State, x: ExtractedEvent)
    ensures forall i, j :: 0 <= i < j < |Candidates(env, s, x)| ==> Candidates(env, s, x)[i] < Candidates(env, s, x)[j]
  {}

  /** The kind of an event, and how far its start is from the extracted one's. */
  ghost predicate Fits(env: Env, e: Event, x: ExtractedEvent) {
    e.kind == x.kind && -env.window <= e.startedAt - x.startedAt <= env.window
  }

  lemma FiledEventFits(env: Env, s: State, document: nat, x: ExtractedEvent)
    requires env.window >= 0.0
    ensures var (t, event) := PersistedEvent(env, s, document, x);
      && event < |t.events| && Fits(env, t.events[event], x)
      && s.events <= t.events
      && (event >= |s.events| ==>
            event == |s.events| && t.events == s.events + [Event(x.kind, x.title, x.startedAt, Extracted)])
      && (event < |s.events| ==> t.events == s.events)
  {
    var candidates := Candidates(env, s, x);
    if |candidates| == 1 {
      assert candidates[0] in candidates;
      CandidateIff(env, s, x, candidates[0]);
    }
    ActorsAreLinked(env, Clustered(env, s, document, x).0, Clustered(env, s, document, x).1, x.actors, document);
    hide Candidates, WithActors;
  }

  /** Every extracted event of a document is filed under one of its own kind that starts within the window. */
  lemma {:induction false} EveryEventIsFiled(env: Env, s: State, document: nat, xs: seq<ExtractedEvent>, i: nat)
    requires env.window >= 0.0 && i < |xs|
    ensures var t := PersistedEvents(env, s, document, xs).0;
      var event := EventOf(env, s, document, xs, i);
      event < |t.events| && Fits(env, t.events[event], xs[i])
  {
    hide Clustered, WithActors, Fits;
    var n := |xs| - 1;
    var before := PersistedEvents(env, s, document, xs[..n]).0;
    FiledEventFits(env, before, document, xs[n]);
    if i < n {
      EveryEventIsFiled(env, s, document, xs[..n], i);
      assert xs[..n][..i] == xs[..i];
    }
  }

  // ----- where claims end up -----

  /** The event a claim's reference names: that of the last extracted event with the title, if any. */
  ghost predicate Refers(env: Env, s: State, document: nat, xs: seq<ExtractedEvent>, reference: Option<string>,
                         event: Option<nat>)
  {
    if reference.None? || reference.value == "" || !exists x <- xs :: x.title == reference.value then event.None?
    else exists i: nat :: LastTitled(xs, i, reference.value) && event == Some(EventOf(env, s, document, xs, i))
  }

  ghost predicate LastTitled(xs: seq<ExtractedEvent>, i: nat, title: string) {
    i < |xs| && xs[i].title == title && forall j :: i < j < |xs| ==> xs[j].title != title
  }

  lemma {:induction false} TitlesAre(env: Env, s: State, document: nat, xs: seq<ExtractedEvent>, title: string)
    ensures title in PersistedEvents(env, s, document, xs).1 <==> exists x <- xs :: x.title == title
  {
    hide PersistedEvent;
    if xs != [] {
      var n := |xs| - 1;
      TitlesAre(env, s, document, xs[..n], title);
      assert forall x :: x in xs <==> x == xs[n] || x in xs[..n];
    }
  }

  lemma {:induction false} LastTitledExists(xs: seq<ExtractedEvent>, title: string) returns (i: nat)
    requires exists x <- xs :: x.title == title
    ensures LastTitled(xs, i, title)
  {
    var n := |xs| - 1;
    if xs[n].title == title {
      i := n;
    } else {
      assert forall x :: x in xs <==> x == xs[n] || x in xs[..n];
      i := LastTitledExists(xs[..n], title);
    }
  }

  lemma ReferenceIsFound(env: Env, s: State, document: nat, xs: seq<ExtractedEvent>, reference: Option<string>)
    ensures Refers(env, s, document, xs, reference,
                   EventFor(PersistedEvents(env, s, document, xs).1, reference))
  {
    if reference.Some? && reference.value != "" {
      TitlesAre(env, s, document, xs, reference.value);
      if x :| x in xs && x.title == reference.value {
        var i := LastTitledExists(xs, reference.value);
        LastTitleWins(env, s, document, xs, i);
        assert LastTitled(xs, i, reference.value);
      }
    }
    hide PersistedEvents, EventOf;
  }

  /** The actor a given, non-empty name confidently stands for. */
  function AnswerTo(env: Env, name: Option<string>): Option<nat> {
    match name
    case None => None
    case Some(text) => if text == "" then None else Answer(env, text)
  }

  lemma {:induction false} ClaimsAreFiled(
    env: Env, s: State, document: nat, xs: seq<ExtractedClaim>, titles: map<string, nat>, k: nat)
    requires k < |xs|
    ensures var t := PersistedClaims(env, s, document, xs, titles);
      && |t.claims| == |s.claims| + |xs| && |t.evidence| == |s.evidence| + |xs| && t.events == s.events
      && t.claims[|s.claims| + k] == Claim(xs[k].text, EventFor(titles, xs[k].eventReference),
                                           AnswerTo(env, xs[k].claimant), AnswerTo(env, xs[k].subject))
      && t.evidence[|s.evidence| + k] == Evidence(|s.claims| + k, document, xs[k].excerpt)
  {
    hide PersistedClaim, Answer;
    var n := |xs| - 1;
    var before := PersistedClaims(env, s, document, xs[..n], titles);
    ClaimCount(env, s, document, xs[..n], titles);
    ClaimIsFiled(env, before, document, xs[n], titles);
    if k < n {
      ClaimsAreFiled(env, s, document, xs[..n], titles, k);
    }
  }

  lemma {:induction false} ClaimCount(
    env: Env, s: State, document: nat, xs: seq<ExtractedClaim>, titles: map<string, nat>)
    ensures var t := PersistedClaims(env, s, document, xs, titles);
      |t.claims| == |s.claims| + |xs| && |t.evidence| == |s.evidence| + |xs| && t.events == s.events
  {
    hide PersistedClaim;
    if xs != [] {
      var n := |xs| - 1;
      ClaimCount(env, s, document, xs[..n], titles);
      ClaimIsFiled(env, PersistedClaims(env, s, document, xs[..n], titles), document, xs[n], titles);
    }
  }

  /**
   Every claim of a document, in order: its text, the event the last extracted event with the title
   it refers to was filed under, the actors its two names confidently stand for, and its evidence.
   */
  lemma EveryClaimIsFiled(env: Env, s: State, document: nat, x: ExtractionResult, k: nat)
    requires Consistent(s) && k < |x.claims|
    ensures var t := Persisted(env, s, document, x);
      && |t.claims| == |s.claims| + |x.claims| && |t.evidence| == |s.evidence| + |x.claims|
      && var c := t.claims[|s.claims| + k];
         && c.text == x.claims[k].text
         && c.claimant == AnswerTo(env, x.claims[k].claimant) && c.subject == AnswerTo(env, x.claims[k].subject)
         && Refers(env, s, document, x.events, x.claims[k].eventReference, c.event)
         && t.evidence[|s.evidence| + k] == Evidence(|s.claims| + k, document, x.claims[k].excerpt)
  {
    hide PersistedEvents, PersistedClaims, Refers, Consistent, Answer, AnswerTo, EventFor, EventOf, EvidenceMatches;
    var (u, titles) := PersistedEvents(env, s, document, x.events);
    EventsKeepConsistency(env, s, document, x.events);
    ReferenceIsFound(env, s, document, x.events, x.claims[k].eventReference);
    ClaimsAreFiled(env, u, document, x.claims, titles, k);
  }
}
