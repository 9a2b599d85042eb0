/**
 Persisting what a model extracted from a document: event clustering, actor links, claims with their
 evidence, and a review item for every name that could not be resolved.
 */
module Extraction {
  import opened Wrappers
  import opened EntityResolution

  datatype Lifecycle = Observed | Extracted | Assessed | Approved | Superseded | Rejected

  datatype Event = Event(kind: string, title: string, startedAt: real, lifecycle: Lifecycle)

  datatype Link = Link(event: nat, actor: nat, role: string)

  datatype Claim = Claim(text: string, event: Option<nat>, claimant: Option<nat>, subject: Option<nat>)

  datatype Evidence = Evidence(claim: nat, document: nat, excerpt: string)

  /** A name met while persisting, with the actor it resolved to, if any.  History, not a table. */
  datatype Mention = Mention(name: string, target: Target, document: nat, resolved: Option<nat>)

  datatype State = State(
    events: seq<Event>,
    links: seq<Link>,
    claims: seq<Claim>,
    evidence: seq<Evidence>,
    reviews: seq<ReviewItem>,
    mentions: seq<Mention>)

  datatype NamedRole = NamedRole(name: string, role: string)

  /** `startedAt` is the already resolved temporal reference. */
  datatype ExtractedEvent = ExtractedEvent(kind: string, title: string, startedAt: real, actors: seq<NamedRole>)

  datatype ExtractedClaim = ExtractedClaim(
    text: string,
    excerpt: string,
    claimant: Option<string>,
    subject: Option<string>,
    eventReference: Option<string>)

  datatype ExtractionResult = ExtractionResult(events: seq<ExtractedEvent>, claims: seq<ExtractedClaim>)

  /** What one call depends on besides the tables: the actor registry, thresholds and the window. */
  datatype Env = Env(foreign: Foreign, settings: Settings, actors: seq<Actor>, window: real)

  function Answer(env: Env, name: string): Option<nat> {
    Confident(env.foreign, env.settings, env.actors, name)
  }

  // ----- clustering -----

  predicate Active(e: Event) { e.lifecycle.Extracted? || e.lifecycle.Assessed? }

  predicate SharesActor(links: seq<Link>, event: nat, actors: seq<nat>) {
    exists l <- links :: l.event == event && l.actor in actors
  }

  predicate IsCandidate(s: State, event: nat, kind: string, from: real, to: real, actors: seq<nat>)
    requires event < |s.events|
  {
    var e := s.events[event];
    e.kind == kind && Active(e) && from <= e.startedAt <= to && SharesActor(s.links, event, actors)
  }

  /** The matching ids below `n`, in order. */
  function CandidatesBelow(s: State, n: nat, kind: string, from: real, to: real, actors: seq<nat>): (r: seq<nat>)
    requires n <= |s.events|
    ensures forall e :: e in r <==> 0 <= e < n && IsCandidate(s, e, kind, from, to, actors)
    ensures forall i, j :: 0 <= i < j < |r| ==> r[i] < r[j]
  {
    if n == 0 then []
    else
      var below := CandidatesBelow(s, n - 1, kind, from, to, actors);
      assert forall i :: 0 <= i < |below| ==> below[i] in below;
      if IsCandidate(s, n - 1, kind, from, to, actors) then below + [n - 1] else below
  }

  lemma {:induction false} NoActorsNoCandidates(s: State, n: nat, kind: string, from: real, to: real)
    requires n <= |s.events|
    ensures CandidatesBelow(s, n, kind, from, to, []) == []
  {
    if n > 0 {
      NoActorsNoCandidates(s, n - 1, kind, from, to);
      assert !SharesActor(s.links, n - 1, []);
    }
  }

  /** The actors of an event that resolve with confidence. */
  function ConfidentActors(env: Env, actors: seq<NamedRole>): seq<nat> {
    if actors == [] then []
    else
      var front, last := ConfidentActors(env, actors[..|actors| - 1]), Answer(env, actors[|actors| - 1].name);
      if last.Some? then front + [last.value] else front
  }

  function Candidates(env: Env, s: State, x: ExtractedEvent): seq<nat> {
    CandidatesBelow(s, |s.events|, x.kind, x.startedAt - env.window, x.startedAt + env.window,
                    ConfidentActors(env, x.actors))
  }

  // ----- one call, as a function of the tables -----

  function WithMention(env: Env, s: State, name: string, target: Target, document: nat): State {
    var answer := Answer(env, name);
    var item := EntityReview(name, target, document, SurfacedFor(env.foreign, env.settings, env.actors, name));
    s.(mentions := s.mentions + [Mention(name, target, document, answer)],
       reviews := if answer.Some? then s.reviews else s.reviews + [item])
  }

  function WithActor(env: Env, s: State, event: nat, a: NamedRole, document: nat): State {
    var t := WithMention(env, s, a.name, EventActor(event, a.role), document);
    var answer := Answer(env, a.name);
    if answer.Some? && Link(event, answer.value, a.role) !in t.links then
      t.(links := t.links + [Link(event, answer.value, a.role)])
    else t
  }

  function WithActors(env: Env, s: State, event: nat, actors: seq<NamedRole>, document: nat): State {
    if actors == [] then s
    else
      var n := |actors| - 1;
      WithActor(env, WithActors(env, s, event, actors[..n], document), event, actors[n], document)
  }

  /** Reuse the only candidate; otherwise create, flagging several candidates for review. */
  function Clustered(env: Env, s: State, document: nat, x: ExtractedEvent): (State, nat) {
    var candidates := Candidates(env, s, x);
    if |candidates| == 1 then (s, candidates[0])
    else
      var created := s.(events := s.events + [Event(x.kind, x.title, x.startedAt, Extracted)]);
      var item := DuplicateReview(|s.events|, document, x.kind, candidates);
      (if |candidates| > 1 then created.(reviews := created.reviews + [item]) else created, |s.events|)
  }

  function PersistedEvent(env: Env, s: State, document: nat, x: ExtractedEvent): (State, nat) {
    var (t, event) := Clustered(env, s, document, x);
    (WithActors(env, t, event, x.actors, document), event)
  }

  function PersistedEvents(env: Env, s: State, document: nat, xs: seq<ExtractedEvent>): (State, map<string, nat>) {
    if xs == [] then (s, map[])
    else
      var n := |xs| - 1;
      var (before, titles) := PersistedEvents(env, s, document, xs[..n]);
      var (after, event) := PersistedEvent(env, before, document, xs[n]);
      (after, titles[xs[n].title := event])
  }

  predicate Given(name: Option<string>) { name.Some? && name.value != "" }

  function EventFor(titles: map<string, nat>, reference: Option<string>): Option<nat> {
    if Given(reference) && reference.value in titles then Some(titles[reference.value]) else None
  }

  function WithClaimant(env: Env, s: State, claim: nat, name: Option<string>, document: nat): State
    requires claim < |s.claims|
  {
    if !Given(name) then s
    else
      var t := WithMention(env, s, name.value, Claimant(claim), document);
      var answer := Answer(env, name.value);
      if answer.Some? then t.(claims := t.claims[claim := t.claims[claim].(claimant := answer)]) else t
  }

  function WithSubject(env: Env, s: State, claim: nat, name: Option<string>, document: nat): State
    requires claim < |s.claims|
  {
    if !Given(name) then s
    else
      var t := WithMention(env, s, name.value, SubjectOf(claim), document);
      var answer := Answer(env, name.value);
      if answer.Some? then t.(claims := t.claims[claim := t.claims[claim].(subject := answer)]) else t
  }

  function PersistedClaim(env: Env, s: State, document: nat, x: ExtractedClaim, titles: map<string, nat>): State {
    var id := |s.claims|;
    var created := s.(claims := s.claims + [Claim(x.text, EventFor(titles, x.eventReference), None, None)]);
    var t := WithSubject(env, WithClaimant(env, created, id, x.claimant, document), id, x.subject, document);
    t.(evidence := t.evidence + [Evidence(id, document, x.excerpt)])
  }

  function PersistedClaims(env: Env, s: State, document: nat, xs: seq<ExtractedClaim>, titles: map<string, nat>)
    : State
  {
    if xs == [] then s
    else
      var n := |xs| - 1;
      PersistedClaim(env, PersistedClaims(env, s, document, xs[..n], titles), document, xs[n], titles)
  }

  function Persisted(env: Env, s: State, document: nat, x: ExtractionResult): State {
    var (t, titles) := PersistedEvents(env, s, document, x.events);
    PersistedClaims(env, t, document, x.claims, titles)
  }

  // ----- runs -----

  datatype Action =
    | Persist(env: Env, document: nat, result: ExtractionResult)
    | SetLifecycle(event: nat, lifecycle: Lifecycle)

  function Acted(s: State, a: Action): State {
    match a
    case Persist(env, document, result) => Persisted(env, s, document, result)
    case SetLifecycle(event, lifecycle) =>
      if event < |s.events| then s.(events := s.events[event := s.events[event].(lifecycle := lifecycle)]) else s
  }

  function After(s: State, run: seq<Action>): State {
    if run == [] then s else Acted(After(s, run[..|run| - 1]), run[|run| - 1])
  }

  // ----- the service -----

  function LinkKeys(links: seq<Link>, event: nat): set<(nat, string)> {
    set l <- links | l.event == event :: (l.actor, l.role)
  }

  lemma KeyPresent(links: seq<Link>, event: nat, actor: nat, role: string)
    ensures (actor, role) in LinkKeys(links, event) <==> Link(event, actor, role) in links
  {}

  lemma KeysGrow(links: seq<Link>, event: nat, actor: nat, role: string)
    ensures LinkKeys(links + [Link(event, actor, role)], event) == LinkKeys(links, event) + {(actor, role)}
  {
    var more := links + [Link(event, actor, role)];
    forall a: nat, r: string
      ensures (a, r) in LinkKeys(more, event) <==> (a, r) in LinkKeys(links, event) || (a, r) == (actor, role)
    {
      KeyPresent(more, event, a, r);
      KeyPresent(links, event, a, r);
    }
  }

  class ExtractionService {
    const resolver: EntityResolutionService
    const window: real

    var events: seq<Event>
    var links: seq<Link>
    var claims: seq<Claim>
    var evidence: seq<Evidence>
    ghost var mentions: seq<Mention>

    constructor (resolver: EntityResolutionService, window: real)
      ensures this.resolver == resolver && this.window == window
      ensures View() == State([], [], [], [], resolver.review.items, [])
    {
      this.resolver := resolver;
      this.window := window;
      events, links, claims, evidence, mentions := [], [], [], [], [];
    }

    ghost function View(): State
      reads this, resolver.review
    {
      State(events, links, claims, evidence, resolver.review.items, mentions)
    }

    ghost function Environment(): Env {
      Env(resolver.foreign, resolver.settings, resolver.actors, window)
    }

    method Persist(document: nat, result: ExtractionResult)
      modifies this, resolver.review
      ensures View() == Persisted(Environment(), old(View()), document, result)
    {
      hide PersistedEvent, PersistedClaim;
      var eventByTitle: map<string, nat> := map[];
      for k := 0 to |result.events|
        invariant (View(), eventByTitle) == PersistedEvents(Environment(), old(View()), document, result.events[..k])
      {
        assert result.events[..k + 1][..k] == result.events[..k];
        var event := PersistEvent(document, result.events[k]);
        eventByTitle := eventByTitle[result.events[k].title := event];
      }
      assert result.events[..|result.events|] == result.events;
      ghost var clustered := View();
      for k := 0 to |result.claims|
        invariant View() == PersistedClaims(Environment(), clustered, document, result.claims[..k], eventByTitle)
      {
        assert result.claims[..k + 1][..k] == result.claims[..k];
        PersistClaim(document, result.claims[k], eventByTitle);
      }
      assert result.claims[..|result.claims|] == result.claims;
    }

    method PersistEvent(document: nat, x: ExtractedEvent) returns (event: nat)
      modifies this, resolver.review
      ensures (View(), event) == PersistedEvent(Environment(), old(View()), document, x)
    {
      hide Confident, SurfacedFor, CandidatesBelow, WithActors;
      var resolved := ResolveActors(x.actors);
      var candidates := FindCandidates(x.kind, x.startedAt - window, x.startedAt + window, resolved);
      if |candidates| == 1 {
        event := candidates[0];
      } else {
        event := |events|;
        events := events + [Event(x.kind, x.title, x.startedAt, Extracted)];
        if |candidates| > 1 {
          var item := resolver.review.Create(DuplicateReview(event, document, x.kind, candidates));
        }
      }
      LinkActors(document, event, x.actors);
    }

    /** The confident ids that feed the clustering lookup. */
    method ResolveActors(actors: seq<NamedRole>) returns (ids: seq<nat>)
      ensures ids == ConfidentActors(Environment(), actors)
    {
      ids := [];
      for k := 0 to |actors|
        invariant ids == ConfidentActors(Environment(), actors[..k])
      {
        assert actors[..k + 1][..k] == actors[..k];
        var id := resolver.ResolveConfident(actors[k].name);
        if id.Some? {
          ids := ids + [id.value];
        }
      }
      assert actors[..|actors|] == actors;
    }

    /** `find_candidates`: without a resolved actor nothing is looked up. */
    method FindCandidates(kind: string, from: real, to: real, actors: seq<nat>) returns (ids: seq<nat>)
      ensures ids == CandidatesBelow(View(), |events|, kind, from, to, actors)
    {
      ids := [];
      if actors == [] {
        NoActorsNoCandidates(View(), |events|, kind, from, to);
        return;
      }
      for k := 0 to |events|
        invariant ids == CandidatesBelow(View(), k, kind, from, to, actors)
      {
        var e := events[k];
        if e.kind == kind && Active(e) && from <= e.startedAt <= to && SharesActor(links, k, actors) {
          ids := ids + [k];
        }
      }
    }

    /** Resolve each mention again, now with a target, and link it unless the link exists. */
    method LinkActors(document: nat, event: nat, actors: seq<NamedRole>)
      modifies this`links, this`mentions, resolver.review
      ensures View() == WithActors(Environment(), old(View()), event, actors, document)
    {
      var existing := LinkKeys(links, event);
      for k := 0 to |actors|
        invariant View() == WithActors(Environment(), old(View()), event, actors[..k], document)
        invariant existing == LinkKeys(links, event)
      {
        assert actors[..k + 1][..k] == actors[..k];
        existing := LinkActor(document, event, actors[k], existing);
      }
      assert actors[..|actors|] == actors;
    }

    method LinkActor(document: nat, event: nat, a: NamedRole, existing: set<(nat, string)>)
      returns (existing': set<(nat, string)>)
      requires existing == LinkKeys(links, event)
      modifies this`links, this`mentions, resolver.review
      ensures View() == WithActor(Environment(), old(View()), event, a, document)
      ensures existing' == LinkKeys(links, event)
    {
      hide Confident, SurfacedFor;
      existing' := existing;
      var outcome := resolver.Resolve(a.name, EventActor(event, a.role), document);
      mentions := mentions + [Mention(a.name, EventActor(event, a.role), document, Answer(Environment(), a.name))];
      if outcome.Resolved? {
        KeyPresent(links, event, outcome.actor, a.role);
        if (outcome.actor, a.role) !in existing {
          KeysGrow(links, event, outcome.actor, a.role);
          links := links + [Link(event, outcome.actor, a.role)];
          existing' := existing + {(outcome.actor, a.role)};
        }
      }
    }

    method PersistClaim(document: nat, x: ExtractedClaim, eventByTitle: map<string, nat>)
      modifies this`claims, this`evidence, this`mentions, resolver.review
      ensures View() == PersistedClaim(Environment(), old(View()), document, x, eventByTitle)
    {
      var event := EventFor(eventByTitle, x.eventReference);
      var claim := |claims|;
      claims := claims + [Claim(x.text, event, None, None)];
      if Given(x.claimant) {
        var outcome := resolver.Resolve(x.claimant.value, Claimant(claim), document);
        mentions := mentions
          + [Mention(x.claimant.value, Claimant(claim), document, Answer(Environment(), x.claimant.value))];
        if outcome.Resolved? {
          claims := claims[claim := claims[claim].(claimant := Some(outcome.actor))];
        }
      }
      if Given(x.subject) {
        var outcome := resolver.Resolve(x.subject.value, SubjectOf(claim), document);
        mentions := mentions
          + [Mention(x.subject.value, SubjectOf(claim), document, Answer(Environment(), x.subject.value))];
        if outcome.Resolved? {
          claims := claims[claim := claims[claim].(subject := Some(outcome.actor))];
        }
      }
      evidence := evidence + [Evidence(claim, document, x.excerpt)];
    }
  }
}
