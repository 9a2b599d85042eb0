/**
 Extraction over all runs: every mention is attached or waits in exactly one review item, nothing is
 attached that was not mentioned, no link is inserted twice, and events cluster as promised.
 */
module ExtractionProofs {
  import opened Wrappers
  import opened EntityResolution
  import opened Extraction

  // ----- what a consistent set of tables looks like -----

  function Duplicates(items: seq<ReviewItem>): seq<ReviewItem> {
    if items == [] then []
    else
      var front, item := Duplicates(items[..|items| - 1]), items[|items| - 1];
      if item.DuplicateReview? then front + [item] else front
  }

  ghost predicate TargetExists(s: State, target: Target) {
    match target
    case EventActor(event, _) => event < |s.events|
    case Claimant(claim) => claim < |s.claims|
    case SubjectOf(claim) => claim < |s.claims|
  }

  ghost predicate Attached(s: State, target: Target, actor: nat) {
    match target
    case EventActor(event, role) => Link(event, actor, role) in s.links
    case Claimant(claim) => claim < |s.claims| && s.claims[claim].claimant == Some(actor)
    case SubjectOf(claim) => claim < |s.claims| && s.claims[claim].subject == Some(actor)
  }

  ghost predicate MentionHolds(s: State, m: Mention) {
    TargetExists(s, m.target) && (m.resolved.Some? ==> Attached(s, m.target, m.resolved.value))
  }

  ghost predicate MentionsHold(s: State) {
    forall m <- s.mentions :: MentionHolds(s, m)
  }

  ghost predicate Mentioned(s: State, target: Target, actor: nat) {
    exists m <- s.mentions :: m.target == target && m.resolved == Some(actor)
  }

  /** Nothing is attached without a mention that resolved to it. */
  ghost predicate AttachmentsMentioned(s: State) {
    forall target: Target, actor: nat :: Attached(s, target, actor) ==> Mentioned(s, target, actor)
  }

  /** The primary key of the link table is never inserted twice. */
  ghost predicate LinksDistinct(s: State) {
    forall i, j :: 0 <= i < j < |s.links| ==> s.links[i] != s.links[j]
  }

  ghost predicate EvidenceMatches(s: State) {
    |s.evidence| == |s.claims| && forall i :: 0 <= i < |s.claims| ==> s.evidence[i].claim == i
  }

  ghost predicate Consistent(s: State) {
    MentionsHold(s) && AttachmentsMentioned(s) && LinksDistinct(s)
  }

  // ----- one mention -----

  lemma MentionKeepsDuplicates(env: Env, s: State, name: string, target: Target, document: nat)
    ensures Duplicates(WithMention(env, s, name, target, document).reviews) == Duplicates(s.reviews)
  {
    hide Confident, SurfacedFor;
    var t := WithMention(env, s, name, target, document);
    if t.reviews != s.reviews {
      assert t.reviews[..|t.reviews| - 1] == s.reviews;
    }
  }

  /** `t` is `s` with one more mention of `target`, attached if it resolved, and nothing else attached. */
  ghost predicate Extends(s: State, t: State, m: Mention) {
    && t.mentions == s.mentions + [m]
    && |t.events| == |s.events| && |t.claims| == |s.claims|
    && TargetExists(t, m.target)
    && (m.resolved.Some? ==> Attached(t, m.target, m.resolved.value))
    && (forall target: Target, actor: nat :: target != m.target ==>
          (Attached(s, target, actor) <==> Attached(t, target, actor)))
    && (forall actor: nat :: Attached(t, m.target, actor) ==>
          Attached(s, m.target, actor) || m.resolved == Some(actor))
    && (forall actor: nat :: Attached(s, m.target, actor) ==> Attached(t, m.target, actor))
  }

  lemma ExtensionKeepsMentions(s: State, t: State, m: Mention)
    requires MentionsHold(s) && AttachmentsMentioned(s) && Extends(s, t, m)
    ensures MentionsHold(t) && AttachmentsMentioned(t)
  {
    forall x | x in t.mentions ensures MentionHolds(t, x) {
      if x in s.mentions {
        assert MentionHolds(s, x);
      }
    }
    forall target: Target, actor: nat | Attached(t, target, actor) ensures Mentioned(t, target, actor) {
      if Attached(s, target, actor) {
        var x :| x in s.mentions && x.target == target && x.resolved == Some(actor);
        assert x in t.mentions;
      } else {
        assert m in t.mentions;
      }
    }
  }

  lemma ActorExtends(env: Env, s: State, event: nat, a: NamedRole, document: nat)
    requires event < |s.events|
    ensures Extends(s, WithActor(env, s, event, a, document),
                    Mention(a.name, EventActor(event, a.role), document, Answer(env, a.name)))
  {
    hide Confident, SurfacedFor;
  }

  lemma ActorKeepsConsistency(env: Env, s: State, event: nat, a: NamedRole, document: nat)
    requires Consistent(s) && event < |s.events|
    ensures Consistent(WithActor(env, s, event, a, document))
    ensures Duplicates(WithActor(env, s, event, a, document).reviews) == Duplicates(s.reviews)
  {
    var t := WithActor(env, s, event, a, document);
    ActorExtends(env, s, event, a, document);
    ExtensionKeepsMentions(s, t, Mention(a.name, EventActor(event, a.role), document, Answer(env, a.name)));
    MentionKeepsDuplicates(env, s, a.name, EventActor(event, a.role), document);
    hide Confident, SurfacedFor, MentionsHold, AttachmentsMentioned, Extends;
  }

  lemma {:induction false} ActorsKeepConsistency(env: Env, s: State, event: nat, actors: seq<NamedRole>, document: nat)
    requires Consistent(s) && event < |s.events|
    ensures var t := WithActors(env, s, event, actors, document);
      && Consistent(t) && t.events == s.events && t.claims == s.claims && t.evidence == s.evidence
      && Duplicates(t.reviews) == Duplicates(s.reviews)
  {
    hide Confident, SurfacedFor, Consistent;
    if actors != [] {
      var n := |actors| - 1;
      ActorsKeepConsistency(env, s, event, actors[..n], document);
      ActorKeepsConsistency(env, WithActors(env, s, event, actors[..n], document), event, actors[n], document);
    }
  }

  // ----- events -----

  lemma CreationKeepsConsistency(s: State, e: Event)
    requires Consistent(s)
    ensures Consistent(s.(events := s.events + [e]))
  {
    var t := s.(events := s.events + [e]);
    forall m | m in t.mentions ensures MentionHolds(t, m) {
      assert MentionHolds(s, m);
    }
    forall target: Target, actor: nat | Attached(t, target, actor) ensures Mentioned(t, target, actor) {
      assert Attached(s, target, actor) && Mentioned(s, target, actor);
    }
  }

  lemma FlagKeepsConsistency(s: State, item: ReviewItem)
    requires Consistent(s) && item.DuplicateReview?
    ensures Consistent(s.(reviews := s.reviews + [item]))
    ensures Duplicates(s.reviews + [item]) == Duplicates(s.reviews) + [item]
  {
    var t := s.(reviews := s.reviews + [item]);
    assert t.reviews[..|t.reviews| - 1] == s.reviews;
    forall m | m in t.mentions ensures MentionHolds(t, m) {
      assert MentionHolds(s, m);
    }
    forall target: Target, actor: nat | Attached(t, target, actor) ensures Mentioned(t, target, actor) {
      assert Attached(s, target, actor) && Mentioned(s, target, actor);
    }
  }

  /**
   A new event is created iff there is not exactly one candidate; a single candidate is reused; two
   or more are all listed, in order, in one duplicate review of the new event, and fewer in none.
   */
  lemma ClusteringIsAdvisory(env: Env, s: State, document: nat, x: ExtractedEvent)
    requires Consistent(s)
    ensures var candidates := Candidates(env, s, x);
      var (t, event) := Clustered(env, s, document, x);
      && Consistent(t) && event < |t.events| && t.mentions == s.mentions
      && t.links == s.links && t.claims == s.claims && t.evidence == s.evidence
      && (t.events != s.events <==> |candidates| != 1)
      && (|candidates| == 1 ==> event == candidates[0])
      && (|candidates| != 1 ==>
            event == |s.events| && t.events == s.events + [Event(x.kind, x.title, x.startedAt, Extracted)])
      && Duplicates(t.reviews) == Duplicates(s.reviews)
           + if |candidates| >= 2 then [DuplicateReview(event, document, x.kind, candidates)] else []
  {
    hide Confident, SurfacedFor;
    var candidates := Candidates(env, s, x);
    if |candidates| == 1 {
      assert candidates[0] in candidates;
    } else {
      var e := Event(x.kind, x.title, x.startedAt, Extracted);
      CreationKeepsConsistency(s, e);
      if |candidates| > 1 {
        FlagKeepsConsistency(s.(events := s.events + [e]), DuplicateReview(|s.events|, document, x.kind, candidates));
      }
    }
  }

  lemma EventKeepsConsistency(env: Env, s: State, document: nat, x: ExtractedEvent)
    requires Consistent(s)
    ensures var (t, event) := PersistedEvent(env, s, document, x);
      && Consistent(t) && event < |t.events| && t.claims == s.claims && t.evidence == s.evidence
      && (EvidenceMatches(s) ==> EvidenceMatches(t))
  {
    ClusteringIsAdvisory(env, s, document, x);
    var (t, event) := Clustered(env, s, document, x);
    ActorsKeepConsistency(env, t, event, x.actors, document);
  }

  lemma {:induction false} EventsKeepConsistency(env: Env, s: State, document: nat, xs: seq<ExtractedEvent>)
    requires Consistent(s)
    ensures var (t, titles) := PersistedEvents(env, s, document, xs);
      && Consistent(t) && t.claims == s.claims && t.evidence == s.evidence
      && (EvidenceMatches(s) ==> EvidenceMatches(t))
  {
    hide Consistent, EvidenceMatches, PersistedEvent;
    if xs != [] {
      var n := |xs| - 1;
      EventsKeepConsistency(env, s, document, xs[..n]);
      EventKeepsConsistency(env, PersistedEvents(env, s, document, xs[..n]).0, document, xs[n]);
    }
  }

  /** A claim's event reference finds the event of the last extracted event with that title. */
  lemma {:induction false} LastTitleWins(env: Env, s: State, document: nat, xs: seq<ExtractedEvent>, i: nat)
    requires i < |xs| && forall j :: i < j < |xs| ==> xs[j].title != xs[i].title
    ensures var titles := PersistedEvents(env, s, document, xs).1;
      xs[i].title in titles && titles[xs[i].title] == EventOf(env, s, document, xs, i)
  {
    hide Clustered, WithActors;
    var n := |xs| - 1;
    if i < n {
      LastTitleWins(env, s, document, xs[..n], i);
      assert xs[..n][..i] == xs[..i];
    }
  }

  // ----- the same event again -----

  ghost predicate AllLinked(env: Env, s: State, event: nat, actors: seq<NamedRole>) {
    forall a <- actors :: Answer(env, a.name).Some? ==> Link(event, Answer(env, a.name).value, a.role) in s.links
  }

  lemma {:induction false} ActorsAreLinked(env: Env, s: State, event: nat, actors: seq<NamedRole>, document: nat)
    ensures var t := WithActors(env, s, event, actors, document);
      && t.events == s.events
      && (forall l <- s.links :: l in t.links)
      && (forall l <- t.links :: l in s.links || l.event == event)
      && AllLinked(env, t, event, actors)
      && (AllLinked(env, s, event, actors) ==> t.links == s.links)
  {
    if actors != [] {
      hide Confident, SurfacedFor;
      var n := |actors| - 1;
      ActorsAreLinked(env, s, event, actors[..n], document);
      assert forall a :: a in actors <==> a == actors[n] || a in actors[..n];
    }
  }

  lemma {:induction false} ConfidentActorsAnswer(env: Env, actors: seq<NamedRole>)
    ensures forall id :: id in ConfidentActors(env, actors) <==> exists a <- actors :: Answer(env, a.name) == Some(id)
  {
    hide Confident;
    if actors != [] {
      var n := |actors| - 1;
      ConfidentActorsAnswer(env, actors[..n]);
      assert forall a :: a in actors <==> a == actors[n] || a in actors[..n];
      assert actors[n] in actors;
    }
  }

  lemma {:induction false} SameCandidates(
    s: State, t: State, n: nat, kind: string, from: real, to: real, actors: seq<nat>)
    requires n <= |s.events| && n <= |t.events|
    requires forall e :: 0 <= e < n ==>
      (IsCandidate(s, e, kind, from, to, actors) <==> IsCandidate(t, e, kind, from, to, actors))
    ensures CandidatesBelow(s, n, kind, from, to, actors) == CandidatesBelow(t, n, kind, from, to, actors)
  {
    if n > 0 {
      SameCandidates(s, t, n - 1, kind, from, to, actors);
    }
  }

  /** Linking an event's own confident actors to it makes it, and no other event, a new candidate. */
  lemma SharingAfterLinking(env: Env, s: State, event: nat, actors: seq<NamedRole>, document: nat, other: nat)
    ensures var ids := ConfidentActors(env, actors);
      SharesActor(WithActors(env, s, event, actors, document).links, other, ids)
      <==> SharesActor(s.links, other, ids) || (other == event && ids != [])
  {
    hide Confident, SurfacedFor, ConfidentActors, WithActors;
    var ids := ConfidentActors(env, actors);
    var t := WithActors(env, s, event, actors, document);
    ActorsAreLinked(env, s, event, actors, document);
    if other == event && ids != [] {
      assert ids[0] in ids;
      ConfidentActorsAnswer(env, actors);
      var a :| a in actors && Answer(env, a.name) == Some(ids[0]);
      assert Link(event, ids[0], a.role) in t.links;
    }
  }

  /** `t` has the links of `s`, and `event` is now linked to the actors `ids`. */
  ghost predicate LinkedTo(s: State, t: State, event: nat, ids: seq<nat>) {
    forall e: nat :: SharesActor(t.links, e, ids) <==> SharesActor(s.links, e, ids) || (e == event && ids != [])
  }

  lemma PersistingLinks(env: Env, s: State, document: nat, x: ExtractedEvent)
    requires Consistent(s)
    ensures LinkedTo(s, PersistedEvent(env, s, document, x).0, PersistedEvent(env, s, document, x).1,
                     ConfidentActors(env, x.actors))
  {
    hide Confident, SurfacedFor, ConfidentActors, WithActors, Consistent, SharesActor, Candidates;
    ClusteringIsAdvisory(env, s, document, x);
    var (u, event) := Clustered(env, s, document, x);
    forall e: nat {
      SharingAfterLinking(env, u, event, x.actors, document, e);
    }
  }

  lemma ReusedEventKeepsCandidates(env: Env, s: State, t: State, event: nat, x: ExtractedEvent)
    requires t.events == s.events && LinkedTo(s, t, event, ConfidentActors(env, x.actors))
    requires event in Candidates(env, s, x)
    ensures Candidates(env, t, x) == Candidates(env, s, x)
  {
    hide SharesActor, Active;
    SameCandidates(s, t, |s.events|, x.kind, x.startedAt - env.window, x.startedAt + env.window,
                   ConfidentActors(env, x.actors));
  }

  lemma NewEventJoinsCandidates(env: Env, s: State, t: State, x: ExtractedEvent)
    requires env.window >= 0.0
    requires t.events == s.events + [Event(x.kind, x.title, x.startedAt, Extracted)]
    requires LinkedTo(s, t, |s.events|, ConfidentActors(env, x.actors))
    requires !SharesActor(s.links, |s.events|, ConfidentActors(env, x.actors))
    ensures Candidates(env, t, x)
         == Candidates(env, s, x) + if ConfidentActors(env, x.actors) != [] then [|s.events|] else []
  {
    hide SharesActor, ConfidentActors, Confident;
    SameCandidates(s, t, |s.events|, x.kind, x.startedAt - env.window, x.startedAt + env.window,
                   ConfidentActors(env, x.actors));
  }

  /** After an event has been persisted, its candidates are those it had plus itself if it was created. */
  lemma CandidatesAfterPersisting(env: Env, s: State, document: nat, x: ExtractedEvent)
    requires Consistent(s) && env.window >= 0.0
    ensures var before := Candidates(env, s, x);
      var (t, event) := PersistedEvent(env, s, document, x);
      Candidates(env, t, x)
      == before + if |before| != 1 && ConfidentActors(env, x.actors) != [] then [event] else []
  {
    hide Confident, SurfacedFor, ConfidentActors, WithActors, Consistent, Candidates, LinkedTo, SharesActor;
    PersistingLinks(env, s, document, x);
    ClusteringIsAdvisory(env, s, document, x);
    var (u, event) := Clustered(env, s, document, x);
    var t := WithActors(env, u, event, x.actors, document);
    ActorsAreLinked(env, u, event, x.actors, document);
    if |Candidates(env, s, x)| == 1 {
      ReusedEventKeepsCandidates(env, s, t, event, x);
    } else {
      NewEventUnlinked(s, ConfidentActors(env, x.actors));
      NewEventJoinsCandidates(env, s, t, x);
    }
  }

  lemma NewEventUnlinked(s: State, ids: seq<nat>)
    requires Consistent(s)
    ensures !SharesActor(s.links, |s.events|, ids)
  {
    forall l | l in s.links ensures l.event < |s.events| {
      assert Attached(s, EventActor(l.event, l.role), l.actor);
      var m :| m in s.mentions && m.target == EventActor(l.event, l.role) && m.resolved == Some(l.actor);
      assert MentionHolds(s, m);
    }
  }

  /**
   Persisting the same extracted event again creates no second event iff one of its actors resolves
   with confidence and it had at most one candidate at first; with two or more, every repetition
   adds another event.
   */
  lemma RepetitionIsReusedIff(env: Env, s: State, document: nat, again: nat, x: ExtractedEvent)
    requires Consistent(s) && env.window >= 0.0
    ensures var t := PersistedEvent(env, s, document, x).0;
      PersistedEvent(env, t, again, x).0.events == t.events
      <==> ConfidentActors(env, x.actors) != [] && |Candidates(env, s, x)| <= 1
  {
    hide Confident, SurfacedFor, ConfidentActors, Consistent, Candidates;
    var t := PersistedEvent(env, s, document, x).0;
    EventKeepsConsistency(env, s, document, x);
    CandidatesAfterPersisting(env, s, document, x);
    ClusteringIsAdvisory(env, t, again, x);
    var (u, event) := Clustered(env, t, again, x);
    ActorsAreLinked(env, u, event, x.actors, again);
    CandidatesNeedActors(env, s, x);
  }

  lemma CandidatesNeedActors(env: Env, s: State, x: ExtractedEvent)
    ensures ConfidentActors(env, x.actors) == [] ==> Candidates(env, s, x) == []
  {
    NoActorsNoCandidates(s, |s.events|, x.kind, x.startedAt - env.window, x.startedAt + env.window);
  }

  /** And then no link is added either. */
  lemma RepetitionAddsNoLink(env: Env, s: State, document: nat, again: nat, x: ExtractedEvent)
    requires Consistent(s) && env.window >= 0.0
    requires ConfidentActors(env, x.actors) != [] && |Candidates(env, s, x)| <= 1
    ensures var (t, event) := PersistedEvent(env, s, document, x);
      PersistedEvent(env, t, again, x).1 == event && PersistedEvent(env, t, again, x).0.links == t.links
  {
    hide Confident, SurfacedFor, ConfidentActors, Consistent, Candidates;
    var (t, event) := PersistedEvent(env, s, document, x);
    EventKeepsConsistency(env, s, document, x);
    CandidatesAfterPersisting(env, s, document, x);
    ClusteringIsAdvisory(env, s, document, x);
    ActorsAreLinked(env, Clustered(env, s, document, x).0, event, x.actors, document);
    ActorsAreLinked(env, t, event, x.actors, again);
  }

  // ----- claims -----

  lemma ClaimantExtends(env: Env, s: State, claim: nat, name: string, document: nat)
    requires claim < |s.claims| && s.claims[claim].claimant.None? && name != ""
    ensures Extends(s, WithClaimant(env, s, claim, Some(name), document),
                    Mention(name, Claimant(claim), document, Answer(env, name)))
  {
    hide Confident, SurfacedFor;
  }

  lemma SubjectExtends(env: Env, s: State, claim: nat, name: string, document: nat)
    requires claim < |s.claims| && s.claims[claim].subject.None? && name != ""
    ensures Extends(s, WithSubject(env, s, claim, Some(name), document),
                    Mention(name, SubjectOf(claim), document, Answer(env, name)))
  {
    hide Confident, SurfacedFor;
  }

  lemma ClaimantKeepsConsistency(env: Env, s: State, claim: nat, name: Option<string>, document: nat)
    requires Consistent(s) && claim < |s.claims| && s.claims[claim].claimant.None?
    ensures var t := WithClaimant(env, s, claim, name, document);
      && Consistent(t) && |t.claims| == |s.claims| && t.claims[claim].subject == s.claims[claim].subject
      && t.evidence == s.evidence
  {
    var t := WithClaimant(env, s, claim, name, document);
    if Given(name) {
      var m := Mention(name.value, Claimant(claim), document, Answer(env, name.value));
      ClaimantExtends(env, s, claim, name.value, document);
      ExtensionKeepsMentions(s, t, m);
      hide Confident, SurfacedFor, MentionsHold, AttachmentsMentioned, Extends;
    }
  }

  lemma SubjectKeepsConsistency(env: Env, s: State, claim: nat, name: Option<string>, document: nat)
    requires Consistent(s) && claim < |s.claims| && s.claims[claim].subject.None?
    ensures var t := WithSubject(env, s, claim, name, document);
      && Consistent(t) && |t.claims| == |s.claims|
      && t.evidence == s.evidence
  {
    var t := WithSubject(env, s, claim, name, document);
    if Given(name) {
      var m := Mention(name.value, SubjectOf(claim), document, Answer(env, name.value));
      SubjectExtends(env, s, claim, name.value, document);
      ExtensionKeepsMentions(s, t, m);
      hide Confident, SurfacedFor, MentionsHold, AttachmentsMentioned, Extends;
    }
  }

  lemma NewClaimKeepsConsistency(s: State, c: Claim)
    requires Consistent(s) && c.claimant.None? && c.subject.None?
    ensures Consistent(s.(claims := s.claims + [c]))
  {
    var t := s.(claims := s.claims + [c]);
    forall m | m in t.mentions ensures MentionHolds(t, m) {
      assert MentionHolds(s, m);
    }
    forall target: Target, actor: nat | Attached(t, target, actor) ensures Mentioned(t, target, actor) {
      assert Attached(s, target, actor) && Mentioned(s, target, actor);
    }
  }

  lemma EvidenceKeepsConsistency(s: State, e: Evidence)
    requires Consistent(s)
    ensures Consistent(s.(evidence := s.evidence + [e]))
  {
    var t := s.(evidence := s.evidence + [e]);
    forall m | m in t.mentions ensures MentionHolds(t, m) {
      assert MentionHolds(s, m);
    }
    forall target: Target, actor: nat | Attached(t, target, actor) ensures Mentioned(t, target, actor) {
      assert Attached(s, target, actor) && Mentioned(s, target, actor);
    }
  }

  lemma ClaimKeepsConsistency(env: Env, s: State, document: nat, x: ExtractedClaim, titles: map<string, nat>)
    requires Consistent(s) && EvidenceMatches(s)
    ensures var t := PersistedClaim(env, s, document, x, titles);
      Consistent(t) && EvidenceMatches(t)
  {
    hide Consistent, WithClaimant, WithSubject;
    var id := |s.claims|;
    var c := Claim(x.text, EventFor(titles, x.eventReference), None, None);
    NewClaimKeepsConsistency(s, c);
    var created := s.(claims := s.claims + [c]);
    ClaimantKeepsConsistency(env, created, id, x.claimant, document);
    var t := WithClaimant(env, created, id, x.claimant, document);
    SubjectKeepsConsistency(env, t, id, x.subject, document);
    var u := WithSubject(env, t, id, x.subject, document);
    EvidenceKeepsConsistency(u, Evidence(id, document, x.excerpt));
  }

  /**
   A persisted claim holds its text, the event its reference names, and for claimant and subject the
   actor each non-empty name resolves to; earlier claims stay as they were.
   */
  lemma ClaimIsFiled(env: Env, s: State, document: nat, x: ExtractedClaim, titles: map<string, nat>)
    ensures var t := PersistedClaim(env, s, document, x, titles);
      var event := if x.eventReference.Some? && x.eventReference.value != "" && x.eventReference.value in titles
                   then Some(titles[x.eventReference.value]) else None;
      var claimant := if Given(x.claimant) then Answer(env, x.claimant.value) else None;
      var subject := if Given(x.subject) then Answer(env, x.subject.value) else None;
      && t.claims == s.claims + [Claim(x.text, event, claimant, subject)]
      && t.evidence == s.evidence + [Evidence(|s.claims|, document, x.excerpt)]
      && t.events == s.events && t.links == s.links
  {
    hide Confident, SurfacedFor;
  }

  lemma {:induction false} ClaimsKeepConsistency(
    env: Env, s: State, document: nat, xs: seq<ExtractedClaim>, titles: map<string, nat>)
    requires Consistent(s) && EvidenceMatches(s)
    ensures var t := PersistedClaims(env, s, document, xs, titles);
      Consistent(t) && EvidenceMatches(t)
  {
    hide Consistent, EvidenceMatches, PersistedClaim;
    if xs != [] {
      var n := |xs| - 1;
      ClaimsKeepConsistency(env, s, document, xs[..n], titles);
      ClaimKeepsConsistency(env, PersistedClaims(env, s, document, xs[..n], titles), document, xs[n], titles);
    }
  }

  // ----- which mentions a document makes -----

  /** The mentions of an event's actors, each targeting its role on that event. */
  function ActorMentions(env: Env, event: nat, actors: seq<NamedRole>, document: nat): seq<Mention> {
    seq(|actors|, j requires 0 <= j < |actors| =>
      Mention(actors[j].name, EventActor(event, actors[j].role), document, Answer(env, actors[j].name)))
  }

  /** The event the i-th extracted event is filed under: the reused candidate or the new row. */
  function EventOf(env: Env, s: State, document: nat, xs: seq<ExtractedEvent>, i: nat): nat
    requires i < |xs|
  {
    Clustered(env, PersistedEvents(env, s, document, xs[..i]).0, document, xs[i]).1
  }

  function EventMentions(env: Env, s: State, document: nat, xs: seq<ExtractedEvent>): seq<Mention> {
    if xs == [] then []
    else
      var n := |xs| - 1;
      EventMentions(env, s, document, xs[..n])
      + ActorMentions(env, EventOf(env, s, document, xs, n), xs[n].actors, document)
  }

  function GivenMention(env: Env, name: Option<string>, target: Target, document: nat): seq<Mention> {
    if Given(name) then [Mention(name.value, target, document, Answer(env, name.value))] else []
  }

  /** The mentions of one claim: claimant first, then subject, where given. */
  function ClaimMentions(env: Env, claim: nat, x: ExtractedClaim, document: nat): seq<Mention> {
    GivenMention(env, x.claimant, Claimant(claim), document) + GivenMention(env, x.subject, SubjectOf(claim), document)
  }

  /** The mentions of several claims, numbered from `first`. */
  function ClaimsMentions(env: Env, first: nat, xs: seq<ExtractedClaim>, document: nat): seq<Mention> {
    if xs == [] then []
    else
      var n := |xs| - 1;
      ClaimsMentions(env, first, xs[..n], document) + ClaimMentions(env, first + n, xs[n], document)
  }

  function MentionsOf(env: Env, s: State, document: nat, x: ExtractionResult): seq<Mention> {
    EventMentions(env, s, document, x.events) + ClaimsMentions(env, |s.claims|, x.claims, document)
  }

  // ----- what each mention leaves behind -----

  function EntityItems(items: seq<ReviewItem>): seq<ReviewItem> {
    if items == [] then []
    else
      var front, item := EntityItems(items[..|items| - 1]), items[|items| - 1];
      if item.EntityReview? then front + [item] else front
  }

  /** The review item an unresolved mention is owed. */
  function ItemFor(env: Env, m: Mention): ReviewItem {
    EntityReview(m.name, m.target, m.document, SurfacedFor(env.foreign, env.settings, env.actors, m.name))
  }

  function Owed(env: Env, mentions: seq<Mention>): seq<ReviewItem> {
    if mentions == [] then []
    else
      var front, m := Owed(env, mentions[..|mentions| - 1]), mentions[|mentions| - 1];
      if m.resolved.None? then front + [ItemFor(env, m)] else front
  }

  /** `t` has exactly the mentions `ms` more than `s`, and exactly the review items they are owed. */
  ghost predicate Notes(env: Env, s: State, t: State, ms: seq<Mention>) {
    t.mentions == s.mentions + ms && EntityItems(t.reviews) == EntityItems(s.reviews) + Owed(env, ms)
  }

  lemma {:induction false} OwedConcat(env: Env, a: seq<Mention>, b: seq<Mention>)
    ensures Owed(env, a + b) == Owed(env, a) + Owed(env, b)
  {
    hide ItemFor;
    if b == [] {
      assert a + b == a;
    } else {
      var n := |b| - 1;
      assert (a + b)[..|a + b| - 1] == a + b[..n];
      OwedConcat(env, a, b[..n]);
    }
  }

  lemma NotesNothing(env: Env, s: State, t: State)
    requires t.mentions == s.mentions && EntityItems(t.reviews) == EntityItems(s.reviews)
    ensures Notes(env, s, t, [])
  {}

  lemma NotesThen(env: Env, s: State, t: State, u: State, ms: seq<Mention>, ns: seq<Mention>)
    requires Notes(env, s, t, ms) && Notes(env, t, u, ns)
    ensures Notes(env, s, u, ms + ns)
  {
    OwedConcat(env, ms, ns);
  }

  lemma MentionNotes(env: Env, s: State, name: string, target: Target, document: nat)
    ensures Notes(env, s, WithMention(env, s, name, target, document),
                  [Mention(name, target, document, Answer(env, name))])
  {
    hide Confident, SurfacedFor;
    var t, m := WithMention(env, s, name, target, document), Mention(name, target, document, Answer(env, name));
    assert Owed(env, [m]) == Owed(env, []) + if m.resolved.None? then [ItemFor(env, m)] else [];
    if t.reviews != s.reviews {
      assert t.reviews[..|t.reviews| - 1] == s.reviews;
    }
  }

  lemma ActorNotes(env: Env, s: State, event: nat, a: NamedRole, document: nat)
    ensures Notes(env, s, WithActor(env, s, event, a, document),
                  [Mention(a.name, EventActor(event, a.role), document, Answer(env, a.name))])
  {
    hide Answer, SurfacedFor;
    MentionNotes(env, s, a.name, EventActor(event, a.role), document);
  }

  lemma {:induction false} ActorsNote(env: Env, s: State, event: nat, actors: seq<NamedRole>, document: nat)
    ensures Notes(env, s, WithActors(env, s, event, actors, document), ActorMentions(env, event, actors, document))
  {
    hide Notes, WithActor, Answer;
    if actors == [] {
      assert ActorMentions(env, event, actors, document) == [];
      NotesNothing(env, s, s);
    } else {
      var n := |actors| - 1;
      var before := WithActors(env, s, event, actors[..n], document);
      var m := Mention(actors[n].name, EventActor(event, actors[n].role), document, Answer(env, actors[n].name));
      ActorsNote(env, s, event, actors[..n], document);
      ActorNotes(env, before, event, actors[n], document);
      NotesThen(env, s, before, WithActors(env, s, event, actors, document),
                ActorMentions(env, event, actors[..n], document), [m]);
      assert ActorMentions(env, event, actors, document)
          == ActorMentions(env, event, actors[..n], document) + [m];
    }
  }

  lemma ClusteringNotesNothing(env: Env, s: State, document: nat, x: ExtractedEvent)
    ensures Notes(env, s, Clustered(env, s, document, x).0, [])
  {
    hide Candidates;
    var t := Clustered(env, s, document, x).0;
    if t.reviews != s.reviews {
      assert t.reviews[..|t.reviews| - 1] == s.reviews;
    }
  }

  lemma EventNotes(env: Env, s: State, document: nat, x: ExtractedEvent)
    ensures Notes(env, s, PersistedEvent(env, s, document, x).0,
                  ActorMentions(env, Clustered(env, s, document, x).1, x.actors, document))
  {
    hide Notes, Clustered, WithActors, ActorMentions;
    var (t, event) := Clustered(env, s, document, x);
    var ms := ActorMentions(env, event, x.actors, document);
    ClusteringNotesNothing(env, s, document, x);
    ActorsNote(env, t, event, x.actors, document);
    NotesThen(env, s, t, PersistedEvent(env, s, document, x).0, [], ms);
    assert [] + ms == ms;
  }

  lemma {:induction false} EventsNote(env: Env, s: State, document: nat, xs: seq<ExtractedEvent>)
    ensures Notes(env, s, PersistedEvents(env, s, document, xs).0, EventMentions(env, s, document, xs))
  {
    hide Notes, PersistedEvent, Clustered, ActorMentions;
    if xs == [] {
      NotesNothing(env, s, s);
    } else {
      var n := |xs| - 1;
      var before := PersistedEvents(env, s, document, xs[..n]).0;
      EventsNote(env, s, document, xs[..n]);
      EventNotes(env, before, document, xs[n]);
      NotesThen(env, s, before, PersistedEvents(env, s, document, xs).0, EventMentions(env, s, document, xs[..n]),
                ActorMentions(env, EventOf(env, s, document, xs, n), xs[n].actors, document));
    }
  }

  lemma ClaimantNotes(env: Env, s: State, claim: nat, name: Option<string>, document: nat)
    requires claim < |s.claims|
    ensures Notes(env, s, WithClaimant(env, s, claim, name, document),
                  GivenMention(env, name, Claimant(claim), document))
  {
    hide Answer, SurfacedFor;
    if Given(name) {
      MentionNotes(env, s, name.value, Claimant(claim), document);
    } else {
      NotesNothing(env, s, s);
    }
  }

  lemma SubjectNotes(env: Env, s: State, claim: nat, name: Option<string>, document: nat)
    requires claim < |s.claims|
    ensures Notes(env, s, WithSubject(env, s, claim, name, document),
                  GivenMention(env, name, SubjectOf(claim), document))
  {
    hide Answer, SurfacedFor;
    if Given(name) {
      MentionNotes(env, s, name.value, SubjectOf(claim), document);
    } else {
      NotesNothing(env, s, s);
    }
  }

  lemma ClaimNotes(env: Env, s: State, document: nat, x: ExtractedClaim, titles: map<string, nat>)
    ensures Notes(env, s, PersistedClaim(env, s, document, x, titles), ClaimMentions(env, |s.claims|, x, document))
  {
    hide Answer, SurfacedFor, Owed, GivenMention;
    var id := |s.claims|;
    var created := s.(claims := s.claims + [Claim(x.text, EventFor(titles, x.eventReference), None, None)]);
    ClaimantNotes(env, created, id, x.claimant, document);
    var t := WithClaimant(env, created, id, x.claimant, document);
    SubjectNotes(env, t, id, x.subject, document);
    NotesThen(env, created, t, WithSubject(env, t, id, x.subject, document),
              GivenMention(env, x.claimant, Claimant(id), document),
              GivenMention(env, x.subject, SubjectOf(id), document));
  }

  lemma {:induction false} ClaimsNote(
    env: Env, s: State, document: nat, xs: seq<ExtractedClaim>, titles: map<string, nat>)
    ensures var t := PersistedClaims(env, s, document, xs, titles);
      |t.claims| == |s.claims| + |xs| && Notes(env, s, t, ClaimsMentions(env, |s.claims|, xs, document))
  {
    hide Notes, PersistedClaim, ClaimMentions, Answer;
    if xs == [] {
      NotesNothing(env, s, s);
    } else {
      var n := |xs| - 1;
      var before := PersistedClaims(env, s, document, xs[..n], titles);
      ClaimsNote(env, s, document, xs[..n], titles);
      ClaimNotes(env, before, document, xs[n], titles);
      ClaimIsFiled(env, before, document, xs[n], titles);
      NotesThen(env, s, before, PersistedClaims(env, s, document, xs, titles),
                ClaimsMentions(env, |s.claims|, xs[..n], document),
                ClaimMentions(env, |s.claims| + n, xs[n], document));
    }
  }

  // ----- one document, and every run -----

  /**
   Mention accounting: persisting a document notes exactly the mentions of its events and claims, each
   with its own target and the answer its name has, queues exactly one review item for each one that
   has no answer, in order, and leaves every other one attached to its target.
   */
  lemma MentionsAreAccountedFor(env: Env, s: State, document: nat, x: ExtractionResult)
    requires Consistent(s) && EvidenceMatches(s)
    ensures var t := Persisted(env, s, document, x);
      Consistent(t) && EvidenceMatches(t) && Notes(env, s, t, MentionsOf(env, s, document, x))
  {
    hide Consistent, EvidenceMatches, PersistedEvents, PersistedClaims, Notes, EventMentions, ClaimsMentions;
    EventsKeepConsistency(env, s, document, x.events);
    EventsNote(env, s, document, x.events);
    var (t, titles) := PersistedEvents(env, s, document, x.events);
    ClaimsKeepConsistency(env, t, document, x.claims, titles);
    ClaimsNote(env, t, document, x.claims, titles);
    NotesThen(env, s, t, PersistedClaims(env, t, document, x.claims, titles),
              EventMentions(env, s, document, x.events), ClaimsMentions(env, |s.claims|, x.claims, document));
  }

  /** How many items the mentions before the k-th are owed: the place of the k-th one's own item. */
  function PlaceOf(env: Env, ms: seq<Mention>, k: nat): nat
    requires k <= |ms|
  {
    |Owed(env, ms[..k])|
  }

  lemma OwedAt(env: Env, ms: seq<Mention>, k: nat)
    requires k < |ms| && ms[k].resolved.None?
    ensures PlaceOf(env, ms, k) < |Owed(env, ms)| && Owed(env, ms)[PlaceOf(env, ms, k)] == ItemFor(env, ms[k])
    ensures PlaceOf(env, ms, k + 1) == PlaceOf(env, ms, k) + 1
  {
    hide ItemFor;
    assert ms[..k + 1][..k] == ms[..k];
    assert ms == ms[..k + 1] + ms[k + 1..];
    OwedConcat(env, ms[..k + 1], ms[k + 1..]);
  }

  /** The items stand in one-to-one correspondence with the unresolved mentions. */
  lemma {:induction false} OneItemPerMention(env: Env, ms: seq<Mention>, q: nat) returns (k: nat)
    requires q < |Owed(env, ms)|
    ensures k < |ms| && ms[k].resolved.None? && PlaceOf(env, ms, k) == q
    ensures forall l :: 0 <= l < |ms| && ms[l].resolved.None? && PlaceOf(env, ms, l) == q ==> l == k
  {
    hide ItemFor;
    var n := |ms| - 1;
    var front := ms[..n];
    assert forall l :: 0 <= l <= n ==> front[..l] == ms[..l];
    if q < |Owed(env, front)| {
      k := OneItemPerMention(env, front, q);
    } else {
      k := n;
      forall l | 0 <= l < n && ms[l].resolved.None? ensures PlaceOf(env, ms, l) != q {
        OwedAt(env, front, l);
      }
    }
  }

  /**
   The k-th mention made between `s` and `t` is `m`; it is attached to its target if it resolved, and
   otherwise the review item at its own place in the queue is the one it is owed.
   */
  ghost predicate Settled(env: Env, s: State, t: State, ms: seq<Mention>, k: nat, m: Mention) {
    && k < |ms| && ms[k] == m && t.mentions == s.mentions + ms
    && TargetExists(t, m.target)
    && (m.resolved.Some? ==> Attached(t, m.target, m.resolved.value))
    && (m.resolved.None? ==>
          var q := |EntityItems(s.reviews)| + PlaceOf(env, ms, k);
          q < |EntityItems(t.reviews)| && EntityItems(t.reviews)[q] == ItemFor(env, m))
  }

  lemma NotedAreSettled(env: Env, s: State, t: State, ms: seq<Mention>, k: nat)
    requires Consistent(t) && Notes(env, s, t, ms) && k < |ms|
    ensures Settled(env, s, t, ms, k, ms[k])
  {
    assert ms[k] in t.mentions && MentionHolds(t, ms[k]);
    if ms[k].resolved.None? {
      OwedAt(env, ms, k);
    }
  }

  /** Where the mentions of the i-th event start. */
  function EventOffset(xs: seq<ExtractedEvent>, i: nat): nat
    requires i <= |xs|
  {
    if i == 0 then 0 else EventOffset(xs, i - 1) + |xs[i - 1].actors|
  }

  lemma {:induction false} EventOffsetOfPrefix(xs: seq<ExtractedEvent>, n: nat, i: nat)
    requires i <= n <= |xs|
    ensures EventOffset(xs[..n], i) == EventOffset(xs, i)
  {
    if i > 0 {
      EventOffsetOfPrefix(xs, n, i - 1);
    }
  }

  lemma {:induction false} EventMentionAt(
    env: Env, s: State, document: nat, xs: seq<ExtractedEvent>, i: nat, j: nat)
    requires i < |xs| && j < |xs[i].actors|
    ensures var ms := EventMentions(env, s, document, xs);
      var a := xs[i].actors[j];
      && EventOffset(xs, |xs|) == |ms|
      && EventOffset(xs, i) + j < |ms|
      && ms[EventOffset(xs, i) + j]
         == Mention(a.name, EventActor(EventOf(env, s, document, xs, i), a.role), document, Answer(env, a.name))
  {
    hide Clustered, PersistedEvents, Answer;
    var n := |xs| - 1;
    EventOffsetOfPrefix(xs, n, n);
    EventMentionCount(env, s, document, xs[..n]);
    if i < n {
      EventMentionAt(env, s, document, xs[..n], i, j);
      EventOffsetOfPrefix(xs, n, i);
      assert xs[..n][..i] == xs[..i];
    }
  }

  lemma {:induction false} EventMentionCount(env: Env, s: State, document: nat, xs: seq<ExtractedEvent>)
    ensures |EventMentions(env, s, document, xs)| == EventOffset(xs, |xs|)
  {
    hide Clustered, PersistedEvents, Answer;
    if xs != [] {
      var n := |xs| - 1;
      EventMentionCount(env, s, document, xs[..n]);
      EventOffsetOfPrefix(xs, n, n);
    }
  }

  /**
   Every actor of every extracted event, occurrence by occurrence: linked in its role to the event
   it was extracted for, or waiting in its own review item that targets exactly that event and role.
   */
  lemma EventActorIsSettled(env: Env, s: State, document: nat, x: ExtractionResult, i: nat, j: nat)
    requires Consistent(s) && EvidenceMatches(s) && i < |x.events| && j < |x.events[i].actors|
    ensures var a := x.events[i].actors[j];
      Settled(env, s, Persisted(env, s, document, x), MentionsOf(env, s, document, x),
              EventOffset(x.events, i) + j,
              Mention(a.name, EventActor(EventOf(env, s, document, x.events, i), a.role), document,
                      Answer(env, a.name)))
  {
    hide Settled, Persisted, EventMentions, ClaimsMentions, EventOf, Consistent, EvidenceMatches, Notes;
    MentionsAreAccountedFor(env, s, document, x);
    EventMentionAt(env, s, document, x.events, i, j);
    NotedAreSettled(env, s, Persisted(env, s, document, x), MentionsOf(env, s, document, x),
                    EventOffset(x.events, i) + j);
  }

  lemma {:induction false} ClaimMentionAt(env: Env, first: nat, xs: seq<ExtractedClaim>, document: nat, k: nat)
    requires k < |xs|
    ensures var ms, offset := ClaimsMentions(env, first, xs, document),
                              |ClaimsMentions(env, first, xs[..k], document)|;
      var own := ClaimMentions(env, first + k, xs[k], document);
      offset + |own| <= |ms| && ms[offset..offset + |own|] == own
  {
    hide ClaimMentions;
    var n := |xs| - 1;
    if k < n {
      ClaimMentionAt(env, first, xs[..n], document, k);
      assert xs[..n][..k] == xs[..k];
    }
  }

  /** And every name of every claim: attached to that claim, or waiting in its own review item. */
  lemma ClaimNameIsSettled(env: Env, s: State, document: nat, x: ExtractionResult, k: nat, j: nat)
    requires Consistent(s) && EvidenceMatches(s) && k < |x.claims|
    requires j < |ClaimMentions(env, |s.claims| + k, x.claims[k], document)|
    ensures var offset := EventOffset(x.events, |x.events|)
                          + |ClaimsMentions(env, |s.claims|, x.claims[..k], document)|;
      Settled(env, s, Persisted(env, s, document, x), MentionsOf(env, s, document, x), offset + j,
              ClaimMentions(env, |s.claims| + k, x.claims[k], document)[j])
  {
    hide Settled, Persisted, EventMentions, ClaimsMentions, ClaimMentions, Consistent, EvidenceMatches, Notes;
    MentionsAreAccountedFor(env, s, document, x);
    EventMentionCount(env, s, document, x.events);
    ClaimMentionAt(env, |s.claims|, x.claims, document, k);
    var own := ClaimMentions(env, |s.claims| + k, x.claims[k], document);
    var before := |ClaimsMentions(env, |s.claims|, x.claims[..k], document)|;
    var offset := EventOffset(x.events, |x.events|) + before;
    assert ClaimsMentions(env, |s.claims|, x.claims, document)[before..before + |own|][j] == own[j];
    NotedAreSettled(env, s, Persisted(env, s, document, x), MentionsOf(env, s, document, x), offset + j);
  }

  /** The mentions made by all documents of a run, in order. */
  function RunMentions(s: State, run: seq<Action>): seq<Mention> {
    if run == [] then []
    else
      var front, last := run[..|run| - 1], run[|run| - 1];
      RunMentions(s, front)
      + if last.Persist? then MentionsOf(last.env, After(s, front), last.document, last.result) else []
  }

  /** The review items those mentions are owed, each by the registry of its own document's call. */
  function RunOwed(s: State, run: seq<Action>): seq<ReviewItem> {
    if run == [] then []
    else
      var front, last := run[..|run| - 1], run[|run| - 1];
      RunOwed(s, front)
      + if last.Persist? then Owed(last.env, MentionsOf(last.env, After(s, front), last.document, last.result)) else []
  }

  ghost predicate AccountedSince(s: State, run: seq<Action>) {
    var t := After(s, run);
    t.mentions == s.mentions + RunMentions(s, run)
    && EntityItems(t.reviews) == EntityItems(s.reviews) + RunOwed(s, run)
  }

  lemma LifecycleKeepsConsistency(s: State, event: nat, lifecycle: Lifecycle)
    requires Consistent(s)
    ensures Consistent(Acted(s, SetLifecycle(event, lifecycle)))
  {
    var t := Acted(s, SetLifecycle(event, lifecycle));
    forall m | m in t.mentions ensures MentionHolds(t, m) {
      assert MentionHolds(s, m);
    }
    forall target: Target, actor: nat | Attached(t, target, actor) ensures Mentioned(t, target, actor) {
      assert Attached(s, target, actor) && Mentioned(s, target, actor);
    }
  }

  lemma {:induction false} RunsStayConsistent(s: State, run: seq<Action>)
    requires Consistent(s) && EvidenceMatches(s)
    ensures Consistent(After(s, run)) && EvidenceMatches(After(s, run))
    ensures AccountedSince(s, run)
  {
    hide Consistent, EvidenceMatches, Persisted, MentionsOf, EntityItems, Owed;
    if run != [] {
      var before, last := After(s, run[..|run| - 1]), run[|run| - 1];
      RunsStayConsistent(s, run[..|run| - 1]);
      match last {
        case Persist(env, document, result) => MentionsAreAccountedFor(env, before, document, result);
        case SetLifecycle(event, lifecycle) =>
          LifecycleKeepsConsistency(before, event, lifecycle);
          EvidenceStays(before, event, lifecycle);
      }
    }
  }

  lemma EvidenceStays(s: State, event: nat, lifecycle: Lifecycle)
    requires EvidenceMatches(s)
    ensures EvidenceMatches(Acted(s, SetLifecycle(event, lifecycle)))
  {}

  lemma EmptyTablesAreConsistent()
    ensures Consistent(State([], [], [], [], [], [])) && EvidenceMatches(State([], [], [], [], [], []))
  {
    assert forall target: Target, actor: nat :: !Attached(State([], [], [], [], [], []), target, actor);
  }

  /**
   From empty tables, over every run of documents and status changes: the mentions are exactly those
   the documents make, the entity reviews exactly those the unresolved ones are owed, each resolved
   mention is still attached to its own target, nothing else is attached, and no link repeats.
   */
  lemma EveryRunIsAccountedFor(run: seq<Action>)
    ensures var empty := State([], [], [], [], [], []);
      var t := After(empty, run);
      && t.mentions == RunMentions(empty, run)
      && EntityItems(t.reviews) == RunOwed(empty, run)
      && (forall m <- RunMentions(empty, run) :: MentionHolds(t, m))
      && AttachmentsMentioned(t) && LinksDistinct(t) && EvidenceMatches(t)
  {
    hide MentionHolds, After, RunMentions, RunOwed, AttachmentsMentioned, LinksDistinct;
    var empty := State([], [], [], [], [], []);
    EmptyTablesAreConsistent();
    RunsStayConsistent(empty, run);
    assert [] + RunMentions(empty, run) == RunMentions(empty, run);
  }
}
