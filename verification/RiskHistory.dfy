/**
 Reproducibility: an assessment depends on history only up to its own time, and on the database's
 pick among equally new readings exactly where these differ.
 */
module RiskHistory {
  import opened Wrappers
  import opened Sums
  import opened RiskScoring
  import opened RiskEngine
  import opened Latest

  /** The readings dated at or before `at`, in order. */
  function AsOf(obs: seq<Observation>, at: real): seq<Observation> {
    if obs == [] then []
    else
      var n := |obs| - 1;
      if obs[n].observedAt <= at then AsOf(obs[..n], at) + [obs[n]] else AsOf(obs[..n], at)
  }

  lemma {:induction false} NewestSeesOnlyThePast(
    obs: seq<Observation>, indicator: nat, scopeType: ScopeType, scopeId: nat, at: real)
    ensures NewestObservations(AsOf(obs, at), indicator, scopeType, scopeId, at)
         == NewestObservations(obs, indicator, scopeType, scopeId, at)
  {
    hide Newest;
    if obs != [] {
      var n := |obs| - 1;
      var matches := MatchesOf(indicator, scopeType, scopeId, at);
      NewestSeesOnlyThePast(obs[..n], indicator, scopeType, scopeId, at);
      assert obs == obs[..n] + [obs[n]];
      NewestOfPushed(obs[..n], obs[n], matches, ObservedAt());
      NewestOfPushed(AsOf(obs[..n], at), obs[n], matches, ObservedAt());
    }
  }

  /** The same indicators, weights and definitions, and the same readings up to `at`. */
  ghost predicate SamePast(s: Store, t: Store, at: real) {
    && s.definitions == t.definitions && s.weights == t.weights && s.indicators == t.indicators
    && AsOf(s.observations, at) == AsOf(t.observations, at)
  }

  /** Equally new readings of a weighted indicator all carry the same values. */
  ghost predicate TieAgrees(s: Store, w: WeightRow, scopeType: ScopeType, scopeId: Option<nat>, at: real) {
    w.indicator in s.indicators && scopeId.Some? ==>
      AllEqual(NewestObservations(s.observations, w.indicator, scopeType, scopeId.value, at))
  }

  ghost predicate TiesAgree(s: Store, q: Request, at: real) {
    forall w <- RowsOf(s.weights, q.risk) :: TieAgrees(s, w, q.scopeType, q.scopeId, at)
  }

  lemma ContributionSeesOnlyThePast(
    s: Store, t: Store, w: WeightRow, scopeType: ScopeType, scopeId: Option<nat>, at: real, c: nat, d: nat)
    requires SamePast(s, t, at) && w.indicator in s.indicators
    requires c == d || TieAgrees(s, w, scopeType, scopeId, at)
    ensures ContributionOf(s.observations, s.indicators[w.indicator], w, scopeType, scopeId, at, c)
         == ContributionOf(t.observations, t.indicators[w.indicator], w, scopeType, scopeId, at, d)
  {
    if scopeId.Some? {
      NewestSeesOnlyThePast(s.observations, w.indicator, scopeType, scopeId.value, at);
      NewestSeesOnlyThePast(t.observations, w.indicator, scopeType, scopeId.value, at);
      assert LatestObservation(s.observations, w.indicator, scopeType, scopeId.value, at, c)
          == LatestObservation(t.observations, w.indicator, scopeType, scopeId.value, at, d);
    }
    hide LatestObservation;
  }

  lemma {:induction false} ContributionsSeeOnlyThePast(
    s: Store, t: Store, rows: seq<WeightRow>, scopeType: ScopeType, scopeId: Option<nat>, at: real,
    c: Choice, d: Choice)
    requires SamePast(s, t, at)
    requires c.observations == d.observations || forall w <- rows :: TieAgrees(s, w, scopeType, scopeId, at)
    ensures Contributions(s, rows, scopeType, scopeId, at, c) == Contributions(t, rows, scopeType, scopeId, at, d)
  {
    hide ContributionOf, TieAgrees;
    if rows != [] {
      var n := |rows| - 1;
      assert rows[n] in rows && forall w <- rows[..n] :: w in rows;
      ContributionsSeeOnlyThePast(s, t, rows[..n], scopeType, scopeId, at, c, d);
      if rows[n].indicator in s.indicators {
        ContributionSeesOnlyThePast(s, t, rows[n], scopeType, scopeId, at,
                                    PickFor(c, rows[n].indicator), PickFor(d, rows[n].indicator));
      }
    }
  }

  /**
   Reproducibility: for a fixed time, whether an assessment is possible, its base score, its
   confidence and its breakdown depend only on the readings up to that time, and on the database's
   choice among equally new readings only where these differ.
   */
  lemma AssessmentSeesOnlyThePast(s: Store, t: Store, q: Request, first: ModelReply, second: ModelReply,
                                  now: real, later: real, c: Choice, d: Choice)
    requires q.asOf.Some? && SamePast(s, t, q.asOf.value)
    requires c.observations == d.observations || TiesAgree(s, q, q.asOf.value)
    ensures var a, b := Calculated(s, q, first, now, c), Calculated(t, q, second, later, d);
      && (a.Err? ==> b == a)
      && (a.Ok? ==> b.Ok? && a.value.baseScore == b.value.baseScore && a.value.confidence == b.value.confidence
                    && a.value.contributions == b.value.contributions)
  {
    hide RealTotal, LatestAssessment, RoundHalfEven;
    var rows := RowsOf(s.weights, q.risk);
    ContributionsSeeOnlyThePast(s, t, rows, q.scopeType, q.scopeId, q.asOf.value, c, d);
  }

  /** How many breakdown entries the rows before the i-th give. */
  function EntriesBefore(s: Store, rows: seq<WeightRow>, i: nat): nat
    requires i <= |rows|
  {
    if i == 0 then 0 else EntriesBefore(s, rows, i - 1) + if rows[i - 1].indicator in s.indicators then 1 else 0
  }

  lemma {:induction false} EntriesOfPrefix(s: Store, rows: seq<WeightRow>, n: nat, i: nat)
    requires i <= n <= |rows|
    ensures EntriesBefore(s, rows[..n], i) == EntriesBefore(s, rows, i)
  {
    if i > 0 {
      EntriesOfPrefix(s, rows, n, i - 1);
    }
  }

  lemma {:induction false} EntryOfRow(
    s: Store, rows: seq<WeightRow>, scopeType: ScopeType, scopeId: Option<nat>, at: real, choice: Choice, i: nat)
    requires i < |rows| && rows[i].indicator in s.indicators
    ensures var cs := Contributions(s, rows, scopeType, scopeId, at, choice);
      && |cs| == EntriesBefore(s, rows, |rows|) && EntriesBefore(s, rows, i) < |cs|
      && cs[EntriesBefore(s, rows, i)]
         == ContributionOf(s.observations, s.indicators[rows[i].indicator], rows[i], scopeType, scopeId, at,
                           PickFor(choice, rows[i].indicator))
  {
    hide ContributionOf;
    var n := |rows| - 1;
    EntriesOfPrefix(s, rows, n, n);
    EntryCount(s, rows[..n], scopeType, scopeId, at, choice);
    if i < n {
      EntriesOfPrefix(s, rows, n, i);
      EntryOfRow(s, rows[..n], scopeType, scopeId, at, choice, i);
    }
  }

  lemma {:induction false} EntryCount(
    s: Store, rows: seq<WeightRow>, scopeType: ScopeType, scopeId: Option<nat>, at: real, choice: Choice)
    ensures |Contributions(s, rows, scopeType, scopeId, at, choice)| == EntriesBefore(s, rows, |rows|)
  {
    hide ContributionOf;
    if rows != [] {
      var n := |rows| - 1;
      EntriesOfPrefix(s, rows, n, n);
      EntryCount(s, rows[..n], scopeType, scopeId, at, choice);
    }
  }

  /** The breakdown entry shows the reading it was made from. */
  lemma EntryShowsReading(
    s: Store, w: WeightRow, scopeType: ScopeType, scopeId: nat, at: real, i: nat, j: nat)
    requires w.indicator in s.indicators
    requires var newest := NewestObservations(s.observations, w.indicator, scopeType, scopeId, at);
      i < |newest| && j < |newest|
    requires ContributionOf(s.observations, s.indicators[w.indicator], w, scopeType, Some(scopeId), at, i)
          == ContributionOf(s.observations, s.indicators[w.indicator], w, scopeType, Some(scopeId), at, j)
    ensures var newest := NewestObservations(s.observations, w.indicator, scopeType, scopeId, at);
      newest[i] == newest[j]
  {
    var newest := NewestObservations(s.observations, w.indicator, scopeType, scopeId, at);
    PickReaches(newest, i);
    PickReaches(newest, j);
    assert newest[i] in newest && newest[j] in newest;
    assert Matches(newest[i], w.indicator, scopeType, scopeId, at);
    assert Matches(newest[j], w.indicator, scopeType, scopeId, at);
    hide Newest, IsStale;
  }

  ghost predicate Reproducible(s: Store, q: Request, at: real) {
    forall c: Choice, d: Choice ::
      Contributions(s, RowsOf(s.weights, q.risk), q.scopeType, q.scopeId, at, c)
      == Contributions(s, RowsOf(s.weights, q.risk), q.scopeType, q.scopeId, at, d)
  }

  /** The breakdown is reproducible whatever the database chooses iff equally new readings carry equal values. */
  lemma ReproducibleIffTiesAgree(s: Store, q: Request, at: real)
    ensures Reproducible(s, q, at) <==> TiesAgree(s, q, at)
  {
    hide Contributions, ContributionOf, NewestObservations;
    var rows := RowsOf(s.weights, q.risk);
    if TiesAgree(s, q, at) {
      forall c: Choice, d: Choice {
        ContributionsSeeOnlyThePast(s, s, rows, q.scopeType, q.scopeId, at, c, d);
      }
    }
    if Reproducible(s, q, at) {
      forall w | w in rows ensures TieAgrees(s, w, q.scopeType, q.scopeId, at) {
        if w.indicator in s.indicators && q.scopeId.Some? {
          ReproducibleTieAgrees(s, q, at, w);
        }
      }
    }
  }

  lemma ReproducibleTieAgrees(s: Store, q: Request, at: real, w: WeightRow)
    requires Reproducible(s, q, at) && w in RowsOf(s.weights, q.risk) && w.indicator in s.indicators && q.scopeId.Some?
    ensures AllEqual(NewestObservations(s.observations, w.indicator, q.scopeType, q.scopeId.value, at))
  {
    hide Contributions, ContributionOf, NewestObservations;
    var rows := RowsOf(s.weights, q.risk);
    var newest := NewestObservations(s.observations, w.indicator, q.scopeType, q.scopeId.value, at);
    var r :| 0 <= r < |rows| && rows[r] == w;
    forall x, y | x in newest && y in newest ensures x == y {
      var i :| 0 <= i < |newest| && newest[i] == x;
      var j :| 0 <= j < |newest| && newest[j] == y;
      var c, d := Choice(map[w.indicator := i], 0), Choice(map[w.indicator := j], 0);
      EntryOfRow(s, rows, q.scopeType, q.scopeId, at, c, r);
      EntryOfRow(s, rows, q.scopeType, q.scopeId, at, d, r);
      assert Contributions(s, rows, q.scopeType, q.scopeId, at, c)
          == Contributions(s, rows, q.scopeType, q.scopeId, at, d);
      EntryShowsReading(s, w, q.scopeType, q.scopeId.value, at, i, j);
    }
  }

  /** No reading recorded in the run is dated at or before `at`. */
  ghost predicate NothingBackdated(run: seq<Action>, at: real) {
    forall a <- run :: a.Record? ==> a.observedAt > at
  }

  lemma {:induction false} RunsKeepThePast(s: Store, run: seq<Action>, at: real)
    requires NothingBackdated(run, at)
    ensures SamePast(s, After(s, run), at)
    ensures s.assessments <= After(s, run).assessments && s.observations <= After(s, run).observations
  {
    if run != [] {
      var front, last := run[..|run| - 1], run[|run| - 1];
      assert last in run;
      RunsKeepThePast(s, front, at);
      var before, after := After(s, front), After(s, run);
      if after.observations != before.observations {
        assert after.observations[..|after.observations| - 1] == before.observations;
      }
    }
  }
}
