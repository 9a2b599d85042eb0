/** When a monitor alerts, in the terms of its condition, and which evaluations fail. */
module AlertRules {
  import opened Wrappers
  import opened Latest
  import opened Alerts

  /** The comparison a condition asks for: at least the target, unless it names another one. */
  predicate Meets(value: Value, operator: Option<string>, target: Value) {
    && value.Number? && target.Number?
    && if operator.None? then value.x >= target.x
       else
         || (operator.value == ">=" && value.x >= target.x) || (operator.value == ">" && value.x > target.x)
         || (operator.value == "<=" && value.x <= target.x) || (operator.value == "<" && value.x < target.x)
         || (operator.value == "==" && value.x == target.x)
  }

  ghost predicate NewToMonitor(s: State, id: nat, x: Reading) {
    forall y <- AlertsOf(s.notifications, id) :: y.at < x.at
  }

  /**
   A relationship monitor is due exactly when the observation of its relationship that the query
   returns has the field asked for, the escalation risk score by default, with a value that meets the
   target, and is newer than everything it alerted on.
   */
  lemma RelationshipMonitorIsDueIff(s: State, id: nat, r: Round, relationship: nat, field: Option<string>,
                                    operator: Option<string>, target: Value)
    requires id < |s.monitors|
    requires s.monitors[id].condition == RelationshipThreshold(Id(relationship), field, operator, Some(target))
    ensures var x := LatestReading(s.readings, Relationship(relationship), r.now, PickOf(r, id));
      var name := if field.Some? then field.value else "escalation_risk_score";
      Due(s, id, r) <==>
        x.Some? && x.value.Observation? && x.value.relationship == relationship
        && name in x.value.fields && Meets(x.value.fields[name], operator, target) && NewToMonitor(s, id, x.value)
  {
    hide LatestReading;
  }

  /** A country monitor is due exactly when the final score of the assessment of that risk and country meets it. */
  lemma CountryMonitorIsDueIff(s: State, id: nat, r: Round, country: nat, risk: nat,
                               operator: Option<string>, target: Value)
    requires id < |s.monitors|
    requires s.monitors[id].condition == CountryRisk(Id(country), Id(risk), operator, Some(target))
    ensures var x := LatestReading(s.readings, CountryScore(risk, country), r.now, PickOf(r, id));
      Due(s, id, r) <==>
        x.Some? && x.value.Assessment? && x.value.risk == risk && x.value.country == country
        && Meets(Number(x.value.finalScore as real), operator, target) && NewToMonitor(s, id, x.value)
  {
    hide LatestReading;
  }

  /** A condition that lacks a reference or a target is never due, nor is one of another type. */
  predicate Incomplete(c: Condition) {
    match c
    case OtherType => true
    case RelationshipThreshold(relationship, _, _, target) => relationship.Missing? || target.None?
    case CountryRisk(country, risk, _, target) => country.Missing? || risk.Missing? || target.None?
  }

  /** A complete one with a reference that is no id. */
  predicate Unparsable(c: Condition) {
    !Incomplete(c)
    && match c
       case OtherType => false
       case RelationshipThreshold(relationship, _, _, _) => relationship.NotAnId?
       case CountryRisk(country, risk, _, _) => country.NotAnId? || risk.NotAnId?
  }

  lemma UnusableConditionsAreNeverDue(s: State, id: nat, r: Round)
    requires id < |s.monitors| && (Incomplete(s.monitors[id].condition) || Unparsable(s.monitors[id].condition))
    ensures !Due(s, id, r)
  {}

  /** The evaluation of a monitor raises at its reference, at the look-up, or at the notification it owes. */
  ghost predicate Fails(s: State, id: nat, r: Round)
    requires id < |s.monitors|
  {
    var c := s.monitors[id].condition;
    || Unparsable(c)
    || (!Incomplete(c) && FaultOf(r, id).AtLookup?)
    || (Due(s, id, r) && FaultOf(r, id).AtNotification?)
  }

  lemma RaisesIffFails(s: State, id: nat, r: Round)
    requires id < |s.monitors| && MonitorConsistent(s, id)
    ensures VerdictOn(s, id, r).Raised? <==> Fails(s, id, r)
    ensures VerdictOn(s, id, r).Fires? <==> Due(s, id, r) && !Fails(s, id, r)
  {
    hide LatestReading, EvaluateThreshold;
    var alerts := AlertsOf(s.notifications, id);
    if alerts != [] {
      assert alerts[|alerts| - 1] in alerts;
    }
  }

  /**
   What a pass does to a monitor it lists: one that fails stays as it was and alerts nothing, and any
   other is stamped with the time of the pass, alerting exactly when it is due.
   */
  lemma ListedMonitorInPass(s: State, order: seq<nat>, r: Round, id: nat)
    requires Consistent(s) && IsOrder(s, order) && id in Page(order)
    ensures id < |s.monitors|
    ensures var t := Acted(s, Pass(order, r));
      var before, after := AlertsOf(s.notifications, id), AlertsOf(t.notifications, id);
      && (Fails(s, id, r) ==> t.monitors[id] == s.monitors[id] && after == before)
      && (!Fails(s, id, r) ==>
            t.monitors[id].lastEvaluated == Some(r.now)
            && |after| == |before| + (if Due(s, id, r) then 1 else 0)
            && t.monitors[id].condition == s.monitors[id].condition
            && t.monitors[id].name == s.monitors[id].name && t.monitors[id].enabled == s.monitors[id].enabled)
  {
    hide VerdictOn, Passed, Due, Fails, MonitorConsistent;
    PageIsKnown(s, order);
    PassTreatsMonitorsApart(s, Page(order), r, id);
    assert MonitorConsistent(s, id);
    RaisesIffFails(s, id, r);
  }
}
