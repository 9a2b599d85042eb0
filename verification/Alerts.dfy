/**
 Monitors and the evaluation pass that turns readings into notifications: each pass looks at the
 newest reading of a monitor's subject and alerts when it violates the condition and is newer than
 the last reading alerted on.
 */
module Alerts {
  import opened Wrappers
  import opened Latest

  /** The page size of the query that lists the monitors of a pass. */
  const LIST_LIMIT: nat := 50

  /** A JSON or column value, as `float()` sees it. */
  datatype Value = Number(x: real) | NotANumber

  /** A reference in a condition: absent or empty, present but no UUID, or an id. */
  datatype Reference = Missing | NotAnId | Id(id: nat)

  datatype Condition =
    | RelationshipThreshold(relationship: Reference, field: Option<string>, operator: Option<string>,
                            target: Option<Value>)
    | CountryRisk(country: Reference, risk: Reference, operator: Option<string>, target: Option<Value>)
    | OtherType

  datatype Reading =
    | Observation(relationship: nat, at: real, fields: map<string, Value>)
    | Assessment(risk: nat, country: nat, at: real, finalScore: int)

  /** `name` is the name's place in the database's collation: smaller sorts first, equal names are equal. */
  datatype Monitor = Monitor(
    name: int,
    enabled: bool,
    condition: Condition,
    lastEvaluated: Option<real>,
    lastTriggered: Option<real>)

  /** The alert text quotes one reading. */
  datatype Notification = Notification(monitor: nat, reading: Reading)

  datatype State = State(readings: seq<Reading>, monitors: seq<Monitor>, notifications: seq<Notification>)

  /** Where evaluating one monitor may raise, before the step has any effect. */
  datatype Fault = NoFault | AtLookup | AtNotification

  /**
   What one pass meets: the clock, the monitors whose evaluation raises, and the database's choice
   among equally new readings of each monitor's subject.
   */
  datatype Round = Round(now: real, faults: map<nat, Fault>, picks: map<nat, nat>)

  function FaultOf(r: Round, id: nat): Fault { if id in r.faults then r.faults[id] else NoFault }

  function PickOf(r: Round, id: nat): nat { if id in r.picks then r.picks[id] else 0 }

  // ----- one comparison and one look-up -----

  function EvaluateThreshold(value: Value, operator: string, target: Value): bool {
    if value.NotANumber? || target.NotANumber? then false
    else if operator == ">" then value.x > target.x
    else if operator == ">=" then value.x >= target.x
    else if operator == "<" then value.x < target.x
    else if operator == "<=" then value.x <= target.x
    else if operator == "==" then value.x == target.x
    else false
  }

  /**
   The operators fit together as orders do, a violation of an at-least threshold stays one for
   larger values, and nothing but numbers and the five operators ever violates.
   */
  lemma OperatorsFitTogether(x: real, y: real, t: real, value: Value, operator: string, target: Value)
    ensures EvaluateThreshold(Number(x), ">=", Number(t))
      <==> EvaluateThreshold(Number(x), ">", Number(t)) || EvaluateThreshold(Number(x), "==", Number(t))
    ensures EvaluateThreshold(Number(x), "<=", Number(t)) <==> !EvaluateThreshold(Number(x), ">", Number(t))
    ensures EvaluateThreshold(Number(x), "<", Number(t)) <==> EvaluateThreshold(Number(t), ">", Number(x))
    ensures EvaluateThreshold(Number(x), "==", Number(t)) <==> x == t
    ensures EvaluateThreshold(Number(x), ">=", Number(t)) && y >= x ==> EvaluateThreshold(Number(y), ">=", Number(t))
    ensures EvaluateThreshold(value, operator, target) ==>
      value.Number? && target.Number? && operator in {">", ">=", "<", "<=", "=="}
  {}

  datatype Subject = Relationship(id: nat) | CountryScore(risk: nat, country: nat)

  predicate About(r: Reading, subject: Subject) {
    match subject
    case Relationship(id) => r.Observation? && r.relationship == id
    case CountryScore(risk, country) => r.Assessment? && r.risk == risk && r.country == country
  }

  function Timely(subject: Subject, now: real): Reading -> bool { r => About(r, subject) && r.at <= now }

  function TakenAt(): Reading -> real { (r: Reading) => r.at }

  /** A newest reading of a subject not after `now`; `pick` is the choice among equally new ones. */
  function LatestReading(readings: seq<Reading>, subject: Subject, now: real, pick: nat): (r: Option<Reading>)
    ensures r.Some? ==> r.value in readings && About(r.value, subject) && r.value.at <= now
    ensures forall x <- readings :: About(x, subject) && x.at <= now ==> r.Some? && x.at <= r.value.at
  {
    assert forall x <- readings :: Timely(subject, now)(x) <==> About(x, subject) && x.at <= now;
    LatestOf(readings, Timely(subject, now), TakenAt(), pick)
  }

  // ----- one monitor, as a function -----

  datatype Rule = NoRule | Malformed | Rule(subject: Subject, field: string, operator: string, target: Value)

  function WithDefault(text: Option<string>, default_: string): string {
    if text.Some? then text.value else default_
  }

  /** What a condition asks for: nothing, something unparsable, or a threshold on a subject. */
  function RuleOf(c: Condition): Rule {
    match c
    case OtherType => NoRule
    case RelationshipThreshold(relationship, field, operator, target) =>
      if relationship.Missing? || target.None? then NoRule
      else if relationship.NotAnId? then Malformed
      else Rule(Relationship(relationship.id), WithDefault(field, "escalation_risk_score"),
                WithDefault(operator, ">="), target.value)
    case CountryRisk(country, risk, operator, target) =>
      if country.Missing? || risk.Missing? || target.None? then NoRule
      else if country.NotAnId? || risk.NotAnId? then Malformed
      else Rule(CountryScore(risk.id, country.id), "final_score", WithDefault(operator, ">="), target.value)
  }

  function ValueOf(r: Reading, field: string): Option<Value> {
    match r
    case Observation(_, _, fields) => if field in fields then Some(fields[field]) else None
    case Assessment(_, _, _, score) => Some(Number(score as real))
  }

  predicate Violates(r: Reading, rule: Rule)
    requires rule.Rule?
  {
    var value := ValueOf(r, rule.field);
    value.Some? && EvaluateThreshold(value.value, rule.operator, rule.target)
  }

  predicate NewerThan(at: real, last: Option<real>) { last.None? || at > last.value }

  datatype Verdict = Raised | Quiet | Fires(reading: Reading)

  function Judged(readings: seq<Reading>, m: Monitor, now: real, fault: Fault, pick: nat): Verdict {
    var rule := RuleOf(m.condition);
    if rule.NoRule? then Quiet
    else if rule.Malformed? || fault.AtLookup? then Raised
    else
      match LatestReading(readings, rule.subject, now, pick)
      case None => Quiet
      case Some(r) =>
        if !Violates(r, rule) || !NewerThan(r.at, m.lastTriggered) then Quiet
        else if fault.AtNotification? then Raised else Fires(r)
  }

  function Marked(m: Monitor, now: real, v: Verdict): Monitor {
    match v
    case Raised => m
    case Quiet => m.(lastEvaluated := Some(now))
    case Fires(r) => m.(lastEvaluated := Some(now), lastTriggered := Some(r.at))
  }

  // ----- passes and runs -----

  function VerdictOn(s: State, id: nat, r: Round): Verdict
    requires id < |s.monitors|
  {
    Judged(s.readings, s.monitors[id], r.now, FaultOf(r, id), PickOf(r, id))
  }

  function EvaluatedOne(s: State, id: nat, r: Round): State
    requires id < |s.monitors|
  {
    var verdict := VerdictOn(s, id, r);
    var alerts := if verdict.Fires? then [Notification(id, verdict.reading)] else [];
    s.(monitors := s.monitors[id := Marked(s.monitors[id], r.now, verdict)], notifications := s.notifications + alerts)
  }

  ghost predicate KnownIds(s: State, listed: seq<nat>) {
    forall k :: 0 <= k < |listed| ==> listed[k] < |s.monitors|
  }

  /** The state after the listed monitors have been evaluated in order. */
  function Passed(s: State, listed: seq<nat>, r: Round): (t: State)
    requires KnownIds(s, listed)
    ensures |t.monitors| == |s.monitors| && t.readings == s.readings
  {
    if listed == [] then s
    else
      var n := |listed| - 1;
      EvaluatedOne(Passed(s, listed[..n], r), listed[n], r)
  }

  ghost predicate IsEnabled(s: State, id: nat) { id < |s.monitors| && s.monitors[id].enabled }

  ghost function EnabledIds(s: State): set<nat> {
    set id: nat | id < |s.monitors| && IsEnabled(s, id)
  }

  predicate Distinct(listed: seq<nat>) {
    forall i, j :: 0 <= i < j < |listed| ==> listed[i] != listed[j]
  }

  /** An order the listing query may produce: every enabled monitor once, sorted by name. */
  ghost predicate IsOrder(s: State, order: seq<nat>) {
    && KnownIds(s, order) && Distinct(order)
    && (forall k :: 0 <= k < |order| ==> IsEnabled(s, order[k]))
    && (forall id: nat :: IsEnabled(s, id) ==> id in order)
    && (forall i, j :: 0 <= i < j < |order| ==> s.monitors[order[i]].name <= s.monitors[order[j]].name)
  }

  /** The first page of it, which is all a pass asks for. */
  function Page(order: seq<nat>): seq<nat> {
    if |order| <= LIST_LIMIT then order else order[..LIST_LIMIT]
  }

  datatype Action =
    | AddReading(reading: Reading)
    | CreateMonitor(name: int, condition: Condition)
    | EditMonitor(id: nat, name: int, condition: Condition, enabled: bool)
    | Pass(order: seq<nat>, r: Round)

  ghost predicate Possible(s: State, a: Action) {
    match a
    case AddReading(_) => true
    case CreateMonitor(_, _) => true
    case EditMonitor(id, _, _, _) => id < |s.monitors|
    case Pass(order, _) => IsOrder(s, order)
  }

  function Acted(s: State, a: Action): State
    requires Possible(s, a)
  {
    match a
    case AddReading(x) => s.(readings := s.readings + [x])
    case CreateMonitor(name, c) => s.(monitors := s.monitors + [Monitor(name, true, c, None, None)])
    case EditMonitor(id, name, c, enabled) =>
      s.(monitors := s.monitors[id := s.monitors[id].(name := name, condition := c, enabled := enabled)])
    case Pass(order, r) => Passed(s, Page(order), r)
  }

  ghost predicate IsRun(s: State, run: seq<Action>)
    decreases |run|
  {
    run == [] || (Possible(s, run[0]) && IsRun(Acted(s, run[0]), run[1..]))
  }

  ghost function After(s: State, run: seq<Action>): State
    requires IsRun(s, run)
    decreases |run|
  {
    if run == [] then s else After(Acted(s, run[0]), run[1..])
  }

  // ----- a pass, monitor by monitor -----

  /** The readings a monitor has alerted on, oldest alert first. */
  function AlertsOf(notifications: seq<Notification>, id: nat): seq<Reading> {
    if notifications == [] then []
    else
      var n := |notifications| - 1;
      var earlier := AlertsOf(notifications[..n], id);
      if notifications[n].monitor == id then earlier + [notifications[n].reading] else earlier
  }

  lemma AlertsOfPushed(notifications: seq<Notification>, id: nat, alert: Notification)
    ensures AlertsOf(notifications + [alert], id)
         == AlertsOf(notifications, id) + if alert.monitor == id then [alert.reading] else []
  {
    assert (notifications + [alert])[..|notifications|] == notifications;
  }

  lemma EvaluationAlerts(s: State, id: nat, r: Round, other: nat)
    requires id < |s.monitors|
    ensures var verdict := VerdictOn(s, id, r);
      AlertsOf(EvaluatedOne(s, id, r).notifications, other)
      == AlertsOf(s.notifications, other) + if verdict.Fires? && other == id then [verdict.reading] else []
  {
    hide VerdictOn;
    var verdict := VerdictOn(s, id, r);
    if verdict.Fires? {
      AlertsOfPushed(s.notifications, other, Notification(id, verdict.reading));
    } else {
      assert s.notifications + [] == s.notifications;
    }
  }

  /** What a pass does to one monitor is what that monitor alone says, wherever it is in the listing. */
  lemma {:induction false} PassTreatsMonitorsApart(
    s: State, listed: seq<nat>, r: Round, id: nat)
    requires KnownIds(s, listed) && Distinct(listed) && id < |s.monitors|
    ensures var t, verdict := Passed(s, listed, r), VerdictOn(s, id, r);
      && (id !in listed ==> t.monitors[id] == s.monitors[id]
                            && AlertsOf(t.notifications, id) == AlertsOf(s.notifications, id))
      && (id in listed ==> t.monitors[id] == Marked(s.monitors[id], r.now, verdict)
                           && AlertsOf(t.notifications, id)
                              == AlertsOf(s.notifications, id) + if verdict.Fires? then [verdict.reading] else [])
  {
    if listed != [] {
      var n := |listed| - 1;
      hide VerdictOn;
      PassTreatsMonitorsApart(s, listed[..n], r, id);
      var last := listed[n];
      assert last !in listed[..n];
      assert id in listed <==> id == last || id in listed[..n];
      EvaluationAlerts(Passed(s, listed[..n], r), last, r, id);
    }
  }

  // ----- at most one alert per reading -----

  ghost predicate Increasing(alerts: seq<Reading>) {
    forall i, j :: 0 <= i < j < |alerts| ==> alerts[i].at < alerts[j].at
  }

  /** A monitor's alerts have increasing times and it remembers the newest of them. */
  ghost predicate MonitorConsistent(s: State, id: nat) {
    var alerts := AlertsOf(s.notifications, id);
    && Increasing(alerts)
    && (id >= |s.monitors| ==> alerts == [])
    && (id < |s.monitors| ==>
          s.monitors[id].lastTriggered == if alerts == [] then None else Some(alerts[|alerts| - 1].at))
  }

  ghost predicate Consistent(s: State) {
    forall id: nat :: MonitorConsistent(s, id)
  }

  lemma {:induction false} PassLeavesStrangers(s: State, listed: seq<nat>, r: Round, id: nat)
    requires KnownIds(s, listed) && id >= |s.monitors|
    ensures AlertsOf(Passed(s, listed, r).notifications, id) == AlertsOf(s.notifications, id)
  {
    if listed != [] {
      var n := |listed| - 1;
      PassLeavesStrangers(s, listed[..n], r, id);
      EvaluationAlerts(Passed(s, listed[..n], r), listed[n], r, id);
    }
  }

  lemma PassKeepsConsistency(s: State, listed: seq<nat>, r: Round, id: nat)
    requires MonitorConsistent(s, id) && KnownIds(s, listed) && Distinct(listed)
    ensures MonitorConsistent(Passed(s, listed, r), id)
  {
    hide VerdictOn, Passed;
    if id < |s.monitors| {
      PassTreatsMonitorsApart(s, listed, r, id);
      FiringKeepsOrder(s, id, r);
    } else {
      PassLeavesStrangers(s, listed, r, id);
    }
  }

  lemma FiringKeepsOrder(s: State, id: nat, r: Round)
    requires MonitorConsistent(s, id) && id < |s.monitors|
    ensures var verdict := VerdictOn(s, id, r);
      verdict.Fires? ==> Increasing(AlertsOf(s.notifications, id) + [verdict.reading])
  {
    hide LatestReading, EvaluateThreshold;
  }

  lemma StepKeepsConsistency(s: State, a: Action)
    requires Consistent(s) && Possible(s, a)
    ensures Consistent(Acted(s, a))
  {
    forall id: nat ensures MonitorConsistent(Acted(s, a), id) {
      assert MonitorConsistent(s, id);
      if a.Pass? {
        PassKeepsConsistency(s, Page(a.order), a.r, id);
      }
    }
  }

  /**
   Over every run mixing readings (late or backdated), edits and passes: the readings a monitor
   alerts on have strictly increasing times, and it remembers exactly the newest.
   */
  lemma {:induction false} AlertsIncreaseOverRuns(s: State, run: seq<Action>)
    requires Consistent(s) && IsRun(s, run)
    ensures Consistent(After(s, run))
    decreases |run|
  {
    if run != [] {
      StepKeepsConsistency(s, run[0]);
      AlertsIncreaseOverRuns(Acted(s, run[0]), run[1..]);
    }
  }

  lemma EmptyStoreIsConsistent()
    ensures Consistent(State([], [], []))
  {}

  /** No reading alerts twice on one monitor. */
  lemma NoReadingAlertsTwice(run: seq<Action>, i: nat, j: nat)
    requires IsRun(State([], [], []), run)
    requires i < j < |After(State([], [], []), run).notifications|
    ensures var notifications := After(State([], [], []), run).notifications;
      notifications[i].monitor == notifications[j].monitor ==>
        notifications[i].reading.at < notifications[j].reading.at
  {
    EmptyStoreIsConsistent();
    AlertsIncreaseOverRuns(State([], [], []), run);
    var t := After(State([], [], []), run);
    if t.notifications[i].monitor == t.notifications[j].monitor {
      var id := t.notifications[i].monitor;
      assert MonitorConsistent(t, id);
      var p, q := AlertPositions(t.notifications, id, i, j);
    }
  }

  /** Two notifications of one monitor sit in the same order among its alerts. */
  lemma {:induction false} AlertPositions(notifications: seq<Notification>, id: nat, i: nat, j: nat)
    returns (p: nat, q: nat)
    requires i < j < |notifications| && notifications[i].monitor == id && notifications[j].monitor == id
    ensures p < q < |AlertsOf(notifications, id)|
    ensures AlertsOf(notifications, id)[p] == notifications[i].reading
    ensures AlertsOf(notifications, id)[q] == notifications[j].reading
  {
    var n := |notifications| - 1;
    if j < n {
      p, q := AlertPositions(notifications[..n], id, i, j);
    } else {
      p := AlertPosition(notifications[..n], id, i);
      q := |AlertsOf(notifications, id)| - 1;
    }
  }

  lemma {:induction false} AlertPosition(notifications: seq<Notification>, id: nat, i: nat) returns (p: nat)
    requires i < |notifications| && notifications[i].monitor == id
    ensures p < |AlertsOf(notifications, id)| && AlertsOf(notifications, id)[p] == notifications[i].reading
  {
    var n := |notifications| - 1;
    if i < n {
      p := AlertPosition(notifications[..n], id, i);
    } else {
      p := |AlertsOf(notifications, id)| - 1;
    }
  }

  // ----- no violation is missed -----

  /** A violating newest reading that no earlier alert has reached. */
  ghost predicate Due(s: State, id: nat, r: Round)
    requires id < |s.monitors|
  {
    var rule := RuleOf(s.monitors[id].condition);
    rule.Rule?
    && var x := LatestReading(s.readings, rule.subject, r.now, PickOf(r, id));
       x.Some? && Violates(x.value, rule) && forall y <- AlertsOf(s.notifications, id) :: y.at < x.value.at
  }

  /**
   In a pass that lists the monitor and meets no error there, a due reading yields exactly one
   notification, quoting that reading, and anything else yields none.
   */
  lemma NextPassAlertsIffDue(s: State, order: seq<nat>, r: Round, id: nat)
    requires Consistent(s) && IsOrder(s, order) && id in Page(order) && FaultOf(r, id) == NoFault
    ensures id < |s.monitors|
    ensures var before, after := AlertsOf(s.notifications, id),
                                 AlertsOf(Acted(s, Pass(order, r)).notifications, id);
      if Due(s, id, r)
      then after == before
             + [LatestReading(s.readings, RuleOf(s.monitors[id].condition).subject, r.now, PickOf(r, id)).value]
      else after == before
  {
    hide Judged, Passed, Due, LatestReading, MonitorConsistent;
    PageIsKnown(s, order);
    PassTreatsMonitorsApart(s, Page(order), r, id);
    assert MonitorConsistent(s, id);
    DueMeansFiring(s, id, r);
  }

  lemma PageIsKnown(s: State, order: seq<nat>)
    requires IsOrder(s, order)
    ensures KnownIds(s, Page(order)) && Distinct(Page(order))
    ensures forall id <- Page(order) :: IsEnabled(s, id)
  {}

  lemma DueMeansFiring(s: State, id: nat, r: Round)
    requires id < |s.monitors| && MonitorConsistent(s, id) && FaultOf(r, id) == NoFault
    ensures var verdict := VerdictOn(s, id, r);
      && (verdict.Fires? <==> Due(s, id, r))
      && (verdict.Fires? ==>
            LatestReading(s.readings, RuleOf(s.monitors[id].condition).subject, r.now, PickOf(r, id))
            == Some(verdict.reading))
  {
    hide LatestReading, EvaluateThreshold;
    var alerts := AlertsOf(s.notifications, id);
    if alerts != [] {
      assert alerts[|alerts| - 1] in alerts;
    }
  }

  /** An error or a malformed condition leaves the monitor exactly as it was, its timestamps included. */
  lemma FailedMonitorIsUntouched(s: State, order: seq<nat>, r: Round, id: nat)
    requires IsOrder(s, order) && id in Page(order)
    ensures id < |s.monitors|
    ensures var t := Acted(s, Pass(order, r));
      || t.monitors[id].lastEvaluated == Some(r.now)
      || (t.monitors[id] == s.monitors[id] && AlertsOf(t.notifications, id) == AlertsOf(s.notifications, id)
          && (FaultOf(r, id) != NoFault || RuleOf(s.monitors[id].condition) == Malformed))
  {
    hide LatestReading, EvaluateThreshold, Passed;
    PageIsKnown(s, order);
    PassTreatsMonitorsApart(s, Page(order), r, id);
  }

  // ----- who is evaluated -----

  /** The enabled monitors whose names sort before a monitor's. */
  ghost function Ahead(s: State, id: nat): set<nat>
    requires id < |s.monitors|
  {
    set o: nat | o < |s.monitors| && IsEnabled(s, o) && s.monitors[o].name < s.monitors[id].name
  }

  /** The other enabled monitors whose names do not sort after it. */
  ghost function NotBehind(s: State, id: nat): set<nat>
    requires id < |s.monitors|
  {
    set o: nat | o < |s.monitors| && IsEnabled(s, o) && o != id && s.monitors[o].name <= s.monitors[id].name
  }

  function IdsOf(listed: seq<nat>): set<nat> { set id <- listed }

  lemma {:induction false} DistinctIdsCount(listed: seq<nat>)
    requires Distinct(listed)
    ensures |IdsOf(listed)| == |listed|
  {
    if listed != [] {
      var front, last := listed[..|listed| - 1], listed[|listed| - 1];
      DistinctIdsCount(front);
      assert last !in front;
      assert IdsOf(listed) == IdsOf(front) + {last};
    }
  }

  lemma SubsetCount(a: set<nat>, b: set<nat>)
    requires a <= b
    ensures |a| <= |b|
  {
    assert b == a + (b - a);
  }

  lemma AheadComeBefore(s: State, order: seq<nat>, k: nat)
    requires IsOrder(s, order) && k < |order|
    ensures Ahead(s, order[k]) <= IdsOf(order[..k])
  {
    forall o | o in Ahead(s, order[k]) ensures o in order[..k] {
      var i :| 0 <= i < |order| && order[i] == o;
      assert i < k;
    }
  }

  lemma OnlyNotBehindComeBefore(s: State, order: seq<nat>, k: nat)
    requires IsOrder(s, order) && k < |order|
    ensures IdsOf(order[..k]) <= NotBehind(s, order[k])
  {
    forall o | o in order[..k] ensures o in NotBehind(s, order[k]) {
      var i :| 0 <= i < k && order[i] == o;
    }
  }

  /** At least the monitors ahead of it, and at most those not behind it, come before it in the order. */
  lemma PlaceInOrder(s: State, order: seq<nat>, id: nat) returns (k: nat)
    requires IsOrder(s, order) && IsEnabled(s, id)
    ensures k < |order| && order[k] == id && |Ahead(s, id)| <= k <= |NotBehind(s, id)|
    ensures id in Page(order) <==> k < LIST_LIMIT
  {
    hide Ahead, NotBehind, IdsOf;
    k :| 0 <= k < |order| && order[k] == id;
    DistinctIdsCount(order[..k]);
    AheadComeBefore(s, order, k);
    SubsetCount(Ahead(s, id), IdsOf(order[..k]));
    OnlyNotBehindComeBefore(s, order, k);
    SubsetCount(IdsOf(order[..k]), NotBehind(s, id));
    if k < LIST_LIMIT {
      assert Page(order)[k] == id;
    }
  }

  /**
   Is this monitor evaluated?  Yes if fewer than fifty other enabled monitors sort no later, no if
   fifty sort before it, and where its name is its own exactly when fewer than fifty sort before it.
   */
  lemma MonitorIsListedIff(s: State, order: seq<nat>, id: nat)
    requires IsOrder(s, order) && id < |s.monitors|
    ensures !s.monitors[id].enabled ==> id !in Page(order)
    ensures s.monitors[id].enabled && |NotBehind(s, id)| < LIST_LIMIT ==> id in Page(order)
    ensures |Ahead(s, id)| >= LIST_LIMIT ==> id !in Page(order)
    ensures s.monitors[id].enabled && NotBehind(s, id) == Ahead(s, id) ==>
      (id in Page(order) <==> |Ahead(s, id)| < LIST_LIMIT)
  {
    PageIsKnown(s, order);
    if s.monitors[id].enabled {
      var k := PlaceInOrder(s, order, id);
    }
  }

  lemma {:induction false} GreatestName(s: State, ids: set<nat>) returns (last: nat)
    requires ids != {} && forall id <- ids :: id < |s.monitors|
    ensures last in ids && forall id <- ids :: s.monitors[id].name <= s.monitors[last].name
    decreases |ids|
  {
    last :| last in ids;
    if ids != {last} {
      var other := GreatestName(s, ids - {last});
      last := if s.monitors[other].name <= s.monitors[last].name then last else other;
    }
  }

  ghost predicate Sorted(s: State, listed: seq<nat>) {
    && KnownIds(s, listed) && Distinct(listed)
    && forall i, j :: 0 <= i < j < |listed| ==> s.monitors[listed[i]].name <= s.monitors[listed[j]].name
  }

  lemma {:induction false} SortedByName(s: State, ids: set<nat>) returns (listed: seq<nat>)
    requires forall id <- ids :: id < |s.monitors|
    ensures Sorted(s, listed) && IdsOf(listed) == ids
    decreases |ids|
  {
    listed := [];
    if ids != {} {
      var last := GreatestName(s, ids);
      var front := SortedByName(s, ids - {last});
      SortedSingle(s, last);
      hide Sorted, IdsOf;
      SortedJoin(s, front, [last]);
      listed := front + [last];
    }
  }

  lemma SortedJoin(s: State, a: seq<nat>, b: seq<nat>)
    requires Sorted(s, a) && Sorted(s, b) && IdsOf(a) !! IdsOf(b)
    requires forall x, y :: x in IdsOf(a) && y in IdsOf(b) ==> s.monitors[x].name <= s.monitors[y].name
    ensures Sorted(s, a + b) && IdsOf(a + b) == IdsOf(a) + IdsOf(b)
  {
    assert forall i :: 0 <= i < |a| ==> a[i] in IdsOf(a);
    assert forall i :: 0 <= i < |b| ==> b[i] in IdsOf(b);
  }

  lemma EnabledIdsAreKnown(s: State)
    ensures forall id <- EnabledIds(s) :: id < |s.monitors|
  {}

  lemma SortedSingle(s: State, id: nat)
    requires id < |s.monitors|
    ensures Sorted(s, [id]) && IdsOf([id]) == {id}
  {}

  lemma SortedCount(s: State, listed: seq<nat>)
    requires Sorted(s, listed)
    ensures |IdsOf(listed)| == |listed|
  {
    DistinctIdsCount(listed);
  }

  lemma PlaceDecides(s: State, order: seq<nat>, k: nat)
    requires IsOrder(s, order) && k < |order|
    ensures order[k] in Page(order) <==> k < LIST_LIMIT
  {
    if k < LIST_LIMIT {
      assert Page(order)[k] == order[k];
    }
  }

  lemma SortedIsOrder(s: State, order: seq<nat>)
    requires Sorted(s, order) && IdsOf(order) == EnabledIds(s)
    ensures IsOrder(s, order)
  {
    forall k | 0 <= k < |order| ensures IsEnabled(s, order[k]) {
      assert order[k] in IdsOf(order);
    }
    forall id: nat | IsEnabled(s, id) ensures id in order {
      assert id in IdsOf(order);
    }
  }

  /** The listing query may put a monitor after all that sort no later, or before all that sort no earlier. */
  lemma OrderAround(s: State, before: set<nat>, id: nat, after: set<nat>) returns (order: seq<nat>)
    requires IsEnabled(s, id) && EnabledIds(s) == before + {id} + after
    requires before !! {id} && before !! after && id !in after
    requires forall o <- before :: s.monitors[o].name <= s.monitors[id].name
    requires forall o <- after :: s.monitors[id].name <= s.monitors[o].name
    ensures IsOrder(s, order) && (id in Page(order) <==> |before| < LIST_LIMIT)
  {
    hide IdsOf, Sorted, IsOrder, Page;
    EnabledIdsAreKnown(s);
    SortedSingle(s, id);
    var back := SortedByName(s, after);
    var front := SortedByName(s, before);
    hide EnabledIds, IsEnabled;
    SortedJoin(s, [id], back);
    SortedJoin(s, front, [id] + back);
    order := front + ([id] + back);
    SortedIsOrder(s, order);
    SortedCount(s, front);
    PlaceDecides(s, order, |before|);
  }

  /** Whatever order the query gives namesakes, the monitor is listed iff fewer than fifty others sort no later. */
  lemma AlwaysListedIff(s: State, id: nat)
    requires IsEnabled(s, id)
    ensures (forall order :: IsOrder(s, order) ==> id in Page(order)) <==> |NotBehind(s, id)| < LIST_LIMIT
  {
    if |NotBehind(s, id)| < LIST_LIMIT {
      forall order | IsOrder(s, order) ensures id in Page(order) {
        MonitorIsListedIff(s, order, id);
      }
    } else {
      var order := OrderAround(s, NotBehind(s, id), id, EnabledIds(s) - NotBehind(s, id) - {id});
    }
  }

  /** Some order lists the monitor iff fewer than fifty enabled ones sort before it. */
  lemma SometimesListedIff(s: State, id: nat)
    requires IsEnabled(s, id)
    ensures (exists order :: IsOrder(s, order) && id in Page(order)) <==> |Ahead(s, id)| < LIST_LIMIT
  {
    if |Ahead(s, id)| < LIST_LIMIT {
      var order := OrderAround(s, Ahead(s, id), id, EnabledIds(s) - Ahead(s, id) - {id});
    } else {
      forall order | IsOrder(s, order) ensures id !in Page(order) {
        MonitorIsListedIff(s, order, id);
      }
    }
  }

  /** A pass reaches every enabled monitor iff no more are enabled than fit on the listing's one page. */
  lemma EveryMonitorIsListedIff(s: State, order: seq<nat>)
    requires IsOrder(s, order)
    ensures (forall id <- EnabledIds(s) :: id in Page(order)) <==> |EnabledIds(s)| <= LIST_LIMIT
  {
    DistinctIdsCount(order);
    assert IdsOf(order) == EnabledIds(s);
    if |order| > LIST_LIMIT {
      var last := order[|order| - 1];
      assert last in EnabledIds(s) && last !in Page(order);
    }
  }

  /** Every pass of the run finds the monitor disabled or with fifty enabled ones ahead of it. */
  ghost predicate StaysBehind(s: State, run: seq<Action>, id: nat)
    requires IsRun(s, run) && id < |s.monitors|
    decreases |run|
  {
    run == []
    || ((run[0].Pass? ==> !s.monitors[id].enabled || |Ahead(s, id)| >= LIST_LIMIT)
        && StaysBehind(Acted(s, run[0]), run[1..], id))
  }

  /** A monitor that stays behind fifty others is never evaluated and never alerts, however long the run. */
  lemma {:induction false} BehindFiftyNeverAlerts(s: State, run: seq<Action>, id: nat)
    requires IsRun(s, run) && id < |s.monitors| && StaysBehind(s, run, id)
    ensures var t := After(s, run);
      && id < |t.monitors|
      && AlertsOf(t.notifications, id) == AlertsOf(s.notifications, id)
      && t.monitors[id].lastEvaluated == s.monitors[id].lastEvaluated
      && t.monitors[id].lastTriggered == s.monitors[id].lastTriggered
    decreases |run|
  {
    hide VerdictOn, Passed, Ahead, IsOrder;
    if run != [] {
      if run[0].Pass? {
        PageIsKnown(s, run[0].order);
        MonitorIsListedIff(s, run[0].order, id);
        PassTreatsMonitorsApart(s, Page(run[0].order), run[0].r, id);
      }
      BehindFiftyNeverAlerts(Acted(s, run[0]), run[1..], id);
    }
  }

  // ----- the fifty-first monitor -----

  /** `n` enabled monitors with one condition, named in the order they were made, and one reading. */
  function Crowd(n: nat, c: Condition, readings: seq<Reading>): State {
    State(readings, seq(n, i requires 0 <= i < n => Monitor(i, true, c, None, None)), [])
  }

  lemma {:induction false} RunSnoc(s: State, run: seq<Action>, a: Action)
    requires IsRun(s, run) && Possible(After(s, run), a)
    ensures IsRun(s, run + [a]) && After(s, run + [a]) == Acted(After(s, run), a)
    decreases |run|
  {
    hide Possible, Acted;
    if run == [] {
      assert [] + [a] == [a] && [a][1..] == [];
      assert IsRun(Acted(s, a), []);
    } else {
      assert (run + [a])[1..] == run[1..] + [a];
      RunSnoc(Acted(s, run[0]), run[1..], a);
    }
  }

  lemma {:induction false} CrowdIsReachable(n: nat, c: Condition, x: Reading) returns (run: seq<Action>)
    ensures IsRun(State([], [], []), run) && After(State([], [], []), run) == Crowd(n, c, [x])
  {
    var empty := State([], [], []);
    if n == 0 {
      run := [AddReading(x)];
      assert run == [] + [AddReading(x)] && IsRun(empty, []);
      RunSnoc(empty, [], AddReading(x));
    } else {
      var front := CrowdIsReachable(n - 1, c, x);
      RunSnoc(empty, front, CreateMonitor(n - 1, c));
      run := front + [CreateMonitor(n - 1, c)];
    }
  }

  lemma CrowdOrder(n: nat, c: Condition, readings: seq<Reading>)
    ensures IsOrder(Crowd(n, c, readings), seq(n, i requires 0 <= i < n => i))
  {
    var order := seq(n, i requires 0 <= i < n => i);
    forall id: nat | IsEnabled(Crowd(n, c, readings), id) ensures id in order {
      assert order[id] == id;
    }
  }

  function LowThreshold(): Condition { RelationshipThreshold(Id(0), None, None, Some(Number(0.0))) }

  function HighReading(): Reading { Observation(0, 0.0, map["escalation_risk_score" := Number(1.0)]) }

  lemma EveryoneIsDue(n: nat, now: real, id: nat)
    requires now >= 0.0 && id < n
    ensures Due(Crowd(n, LowThreshold(), [HighReading()]), id, Round(now, map[], map[]))
  {
    var readings := [HighReading()];
    assert HighReading() in readings;
    assert LatestReading(readings, Relationship(0), now, 0) == Some(HighReading());
  }

  /**
   The failing case: with fifty-one enabled monitors and one reading that violates all their
   conditions, a pass without any error alerts on the first fifty and says nothing on the last.
   */
  lemma FiftyFirstMonitorIsSkipped(now: real) returns (run: seq<Action>, order: seq<nat>)
    requires now >= 0.0
    ensures IsRun(State([], [], []), run)
    ensures var s, r := After(State([], [], []), run), Round(now, map[], map[]);
      && IsOrder(s, order) && |s.monitors| == 51
      && (forall id: nat :: id < 51 ==> Due(s, id, r))
      && (forall id: nat :: id < 51 ==>
            |AlertsOf(Acted(s, Pass(order, r)).notifications, id)| == if id < 50 then 1 else 0)
  {
    hide Due, LatestReading, VerdictOn, Passed;
    var r := Round(now, map[], map[]);
    run := CrowdIsReachable(51, LowThreshold(), HighReading());
    order := seq(51, i requires 0 <= i < 51 => i);
    var s := Crowd(51, LowThreshold(), [HighReading()]);
    CrowdOrder(51, LowThreshold(), [HighReading()]);
    PageIsKnown(s, order);
    EmptyStoreIsConsistent();
    AlertsIncreaseOverRuns(State([], [], []), run);
    forall id: nat | id < 51
      ensures Due(s, id, r)
      ensures |AlertsOf(Acted(s, Pass(order, r)).notifications, id)| == if id < 50 then 1 else 0
    {
      EveryoneIsDue(51, now, id);
      if id < 50 {
        assert Page(order)[id] == id;
        NextPassAlertsIffDue(s, order, r, id);
      } else {
        PassTreatsMonitorsApart(s, Page(order), r, id);
      }
    }
  }

  // ----- the worker -----

  class MonitorStore {
    var readings: seq<Reading>
    var monitors: seq<Monitor>
    var notifications: seq<Notification>

    constructor ()
      ensures View() == State([], [], [])
    {
      readings := [];
      monitors := [];
      notifications := [];
    }

    ghost function View(): State
      reads this
    {
      State(readings, monitors, notifications)
    }

    /** `_evaluate_monitors_async`, given the order in which its query sorts the enabled monitors. */
    method EvaluateMonitors(order: seq<nat>, r: Round)
      requires IsOrder(View(), order)
      modifies this
      ensures View() == Acted(old(View()), Pass(order, r))
    {
      hide EvaluatedOne, IsOrder;
      PageIsKnown(View(), order);
      var listed := if |order| <= LIST_LIMIT then order else order[..LIST_LIMIT];
      for k := 0 to |listed|
        invariant KnownIds(old(View()), listed[..k]) && View() == Passed(old(View()), listed[..k], r)
      {
        assert listed[..k + 1][..k] == listed[..k];
        EvaluateMonitor(listed[k], r);
      }
      assert listed[..|listed|] == listed;
    }

    /** The body of the loop with its `try` block; a monitor whose evaluation raises is left as it is. */
    method EvaluateMonitor(id: nat, r: Round)
      requires id < |monitors|
      modifies this`monitors, this`notifications
      ensures View() == EvaluatedOne(old(View()), id, r)
    {
      var fault := FaultOf(r, id);
      var raised, triggered := CheckCondition(monitors[id], r.now, fault, PickOf(r, id));
      if raised {
        return;
      }
      if triggered.Some? {
        if fault.AtNotification? {
          return;
        }
        notifications := notifications + [Notification(id, triggered.value)];
        monitors := monitors[id := monitors[id].(lastTriggered := Some(triggered.value.at))];
      }
      monitors := monitors[id := monitors[id].(lastEvaluated := Some(r.now))];
    }

    /** The branches on the monitor's type, up to the decision to notify. */
    method CheckCondition(m: Monitor, now: real, fault: Fault, pick: nat)
      returns (raised: bool, triggered: Option<Reading>)
      ensures Judged(readings, m, now, fault, pick)
           == if raised then Raised
              else if triggered.None? then Quiet
              else if fault.AtNotification? then Raised
              else Fires(triggered.value)
    {
      hide LatestReading;
      match m.condition {
        case RelationshipThreshold(relationship, field, operator, target) =>
          if relationship.Missing? || target.None? {
            return false, None;
          }
          if relationship.NotAnId? || fault.AtLookup? {
            return true, None;
          }
          var observation := LatestReading(readings, Relationship(relationship.id), now, pick);
          if observation.None? {
            return false, None;
          }
          var name := if field.Some? then field.value else "escalation_risk_score";
          var op := if operator.Some? then operator.value else ">=";
          var value := ValueOf(observation.value, name);
          if value.Some? && EvaluateThreshold(value.value, op, target.value)
             && (m.lastTriggered.None? || observation.value.at > m.lastTriggered.value) {
            return false, observation;
          }
        case CountryRisk(country, risk, operator, target) =>
          if country.Missing? || risk.Missing? || target.None? {
            return false, None;
          }
          if risk.NotAnId? || country.NotAnId? || fault.AtLookup? {
            return true, None;
          }
          var assessment := LatestReading(readings, CountryScore(risk.id, country.id), now, pick);
          var op := if operator.Some? then operator.value else ">=";
          if assessment.Some?
             && EvaluateThreshold(Number(assessment.value.finalScore as real), op, target.value)
             && (m.lastTriggered.None? || assessment.value.at > m.lastTriggered.value) {
            return false, assessment;
          }
        case OtherType =>
      }
      return false, None;
    }
  }
}
