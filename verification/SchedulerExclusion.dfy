/**
 Exactly when a job runs at most once at a time: which loop passes and manual triggers keep every
 schedule to one task and one running execution, and that each other one can lead to two.
 */
module SchedulerExclusion {
  import opened Wrappers
  import opened Scheduler

  ghost predicate IsRunning(s: State, e: nat, id: nat) {
    e < |s.executions| && s.executions[e].schedule == id && s.executions[e].status.Running?
  }

  ghost predicate MarkedIsRunning(s: State) {
    forall id: nat :: id < |s.schedules| && s.schedules[id].lastStatus == Some(Running) ==>
      exists e: nat :: IsRunning(s, e, id)
  }

  ghost predicate OneRunning(s: State) {
    forall d: nat, e: nat, id: nat :: IsRunning(s, d, id) && IsRunning(s, e, id) ==> d == e
  }

  ghost predicate SpawnedAreIdle(s: State) {
    forall t :: 0 <= t < |s.tasks| && s.tasks[t].phase.Spawned? ==>
      s.tasks[t].schedule < |s.schedules| ==>
      s.schedules[s.tasks[t].schedule].lastStatus != Some(Running)
  }

  /** One task and one running execution per schedule, and the running mark tells the truth. */
  ghost predicate Alone(s: State) {
    && Sound(s) && OneTask(s) && SpawnedAreIdle(s)
    && RunningIsMarked(s) && MarkedIsRunning(s) && OneRunning(s)
  }

  ghost predicate HasSpawned(s: State, t: nat, id: nat) {
    t < |s.tasks| && s.tasks[t] == Task(id, Spawned)
  }

  /** A loop pass that finds none of its earlier spawned tasks due again; a trigger of an idle schedule. */
  ghost predicate Careful(s: State, step: Step) {
    match step
    case LoopTick =>
      forall t: nat, id: nat :: HasSpawned(s, t, id) && id < |s.schedules| ==> !IsDue(s.schedules[id], s.now)
    case Trigger(id) =>
      && id < |s.schedules| && s.schedules[id].lastStatus != Some(Running)
      && forall t: nat :: !HasSpawned(s, t, id)
    case _ => true
  }

  // ----- careful steps keep it -----

  lemma CarefulKeepsOneTask(s: State, step: Step)
    requires Alone(s) && Enabled(s, step) && Careful(s, step)
    ensures OneTask(Apply(s, step))
  {
    hide SpawnedAreIdle, MarkedIsRunning, OneRunning, IsDue;
    var s' := Apply(s, step);
    forall t, u | 0 <= t < u < |s'.tasks| && !s'.tasks[t].phase.Done? && !s'.tasks[u].phase.Done?
      ensures s'.tasks[t].schedule != s'.tasks[u].schedule
    {
      var n := |s.tasks|;
      if u < n {
        ActiveElsewhere(s, t, u);
      } else if t < n {
        if s.tasks[t].phase.Working? {
          WorkingMeansMarked(s, t);
        } else {
          assert HasSpawned(s, t, s.tasks[t].schedule);
        }
        if step.LoopTick? {
          TickAddsDueTask(s, u);
        }
      } else if step.LoopTick? {
        DueTasksAscend(s, |s.schedules|, t - n, u - n);
      }
    }
  }

  lemma CarefulKeepsSpawnedIdle(s: State, step: Step)
    requires Alone(s) && Enabled(s, step) && Careful(s, step)
    ensures SpawnedAreIdle(Apply(s, step))
  {
    var s' := Apply(s, step);
    forall t | 0 <= t < |s'.tasks| && s'.tasks[t].phase.Spawned?
      ensures s'.tasks[t].schedule < |s'.schedules|
        && s'.schedules[s'.tasks[t].schedule].lastStatus != Some(Running)
    {
      if t < |s.tasks| {
        assert TaskSound(s, s.tasks[t]) && HasSpawned(s, t, s.tasks[t].schedule);
        if (step.Claim? || step.Finish?) && step.t != t {
          ActiveElsewhere(s, step.t, t);
        }
      } else {
        TickAddsDueTask(s, t);
      }
    }
  }

  lemma StepKeepsRunningMarked(s: State, step: Step)
    requires Alone(s) && Enabled(s, step)
    ensures RunningIsMarked(Apply(s, step))
  {
    var s' := Apply(s, step);
    forall e | 0 <= e < |s'.executions| && s'.executions[e].status.Running?
      ensures s'.executions[e].schedule < |s'.schedules|
        && s'.schedules[s'.executions[e].schedule].lastStatus == Some(Running)
    {
      if e < |s.executions| {
        assert ExecutionSound(s, s.executions[e]) && IsRunning(s, e, s.executions[e].schedule);
        if step.Finish? {
          assert TaskSound(s, s.tasks[step.t]);
          assert IsRunning(s, s.tasks[step.t].phase.execution, s.tasks[step.t].schedule);
        }
      }
    }
  }

  lemma StepKeepsMarkedRunning(s: State, step: Step)
    requires Alone(s) && Enabled(s, step)
    ensures MarkedIsRunning(Apply(s, step))
  {
    var s' := Apply(s, step);
    forall id: nat | id < |s'.schedules| && s'.schedules[id].lastStatus == Some(Running)
      ensures exists e: nat :: IsRunning(s', e, id)
    {
      if |s'.executions| > |s.executions| && s'.executions[|s.executions|].schedule == id {
        assert IsRunning(s', |s.executions|, id);
      } else {
        var e: nat :| IsRunning(s, e, id);
        if step.Finish? {
          assert TaskSound(s, s.tasks[step.t]);
        }
        assert IsRunning(s', e, id);
      }
    }
  }

  lemma IdleHasNoneRunning(s: State, id: nat)
    requires RunningIsMarked(s) && id < |s.schedules| && s.schedules[id].lastStatus != Some(Running)
    ensures forall e: nat :: !IsRunning(s, e, id)
  {}

  lemma CarefulKeepsOneRunning(s: State, step: Step)
    requires Alone(s) && Enabled(s, step) && Careful(s, step)
    ensures OneRunning(Apply(s, step))
  {
    var s', n := Apply(s, step), |s.executions|;
    assert forall e: nat, id: nat :: e < n && IsRunning(s', e, id) ==> IsRunning(s, e, id);
    if |s'.executions| > n {
      IdleHasNoneRunning(s, s'.executions[n].schedule);
    }
  }

  lemma CarefulKeepsAlone(s: State, step: Step)
    requires Alone(s) && Enabled(s, step) && Careful(s, step)
    ensures Alone(Apply(s, step))
  {
    hide Careful, Enabled, Apply, OneTask, SpawnedAreIdle, RunningIsMarked, MarkedIsRunning, OneRunning;
    StepKeepsSound(s, step);
    CarefulKeepsOneTask(s, step);
    CarefulKeepsSpawnedIdle(s, step);
    StepKeepsRunningMarked(s, step);
    StepKeepsMarkedRunning(s, step);
    CarefulKeepsOneRunning(s, step);
  }

  // ----- every other step breaks it -----

  lemma TickSpawnsAgain(s: State, id: nat) returns (u: nat)
    requires id < |s.schedules| && IsDue(s.schedules[id], s.now)
    ensures |s.tasks| <= u < |Apply(s, LoopTick).tasks| && Apply(s, LoopTick).tasks[u] == Task(id, Spawned)
  {
    DueTasksAreDue(s, |s.schedules|);
    var spawned := DueTasks(s, |s.schedules|);
    var k :| 0 <= k < |spawned| && spawned[k] == Task(id, Spawned);
    u := |s.tasks| + k;
  }

  lemma CarelessBreaksAlone(s: State, step: Step)
    requires Alone(s) && Enabled(s, step) && !Careful(s, step)
    ensures !Alone(Apply(s, step))
  {
    var s' := Apply(s, step);
    match step {
      case LoopTick =>
        var t: nat, id: nat :| HasSpawned(s, t, id) && id < |s.schedules| && IsDue(s.schedules[id], s.now);
        var u := TickSpawnsAgain(s, id);
        assert s'.tasks[t].schedule == s'.tasks[u].schedule;
      case Trigger(id) =>
        var n := |s.executions|;
        assert IsRunning(s', n, id);
        if s.schedules[id].lastStatus == Some(Running) {
          var e: nat :| IsRunning(s, e, id);
          assert IsRunning(s', e, id);
        } else {
          var t: nat :| HasSpawned(s, t, id);
          assert s'.tasks[t].schedule == s'.tasks[|s.tasks|].schedule;
        }
    }
  }

  /** A step keeps every schedule to one task and one running execution iff it is careful. */
  lemma StepKeepsAloneIff(s: State, step: Step)
    requires Alone(s) && Enabled(s, step)
    ensures Alone(Apply(s, step)) <==> Careful(s, step)
  {
    if Careful(s, step) {
      CarefulKeepsAlone(s, step);
    } else {
      CarelessBreaksAlone(s, step);
    }
  }

  // ----- over runs -----

  ghost predicate CarefulRun(s: State, steps: seq<Step>)
    requires IsRun(s, steps)
    decreases |steps|
  {
    steps == [] || (Careful(s, steps[0]) && CarefulRun(Apply(s, steps[0]), steps[1..]))
  }

  ghost predicate AloneThroughout(s: State, steps: seq<Step>)
    requires IsRun(s, steps)
    decreases |steps|
  {
    Alone(s) && (steps == [] || AloneThroughout(Apply(s, steps[0]), steps[1..]))
  }

  /** A run keeps it in every state iff every one of its steps is careful. */
  lemma {:induction false} RunStaysAloneIff(s: State, steps: seq<Step>)
    requires Alone(s) && IsRun(s, steps)
    ensures AloneThroughout(s, steps) <==> CarefulRun(s, steps)
    decreases |steps|
  {
    hide Alone, Careful;
    if steps != [] {
      StepKeepsAloneIff(s, steps[0]);
      if Careful(s, steps[0]) {
        RunStaysAloneIff(Apply(s, steps[0]), steps[1..]);
      }
    }
  }

  lemma {:induction false} CarefulRunKeepsAlone(s: State, steps: seq<Step>)
    requires Alone(s) && IsRun(s, steps) && CarefulRun(s, steps)
    ensures Alone(After(s, steps))
    decreases |steps|
  {
    hide Alone, Careful;
    if steps != [] {
      CarefulKeepsAlone(s, steps[0]);
      CarefulRunKeepsAlone(Apply(s, steps[0]), steps[1..]);
    }
  }

  lemma InitialIsAlone(s: State)
    requires Initial(s)
    ensures Alone(s)
  {}

  lemma AloneMeansOneRunning(s: State, id: nat)
    requires Alone(s)
    ensures |RunningOf(s, id)| <= 1
  {
    forall a, b | a in RunningOf(s, id) && b in RunningOf(s, id) ensures a == b {
      assert IsRunning(s, a, id) && IsRunning(s, b, id);
    }
    AtMostOne(RunningOf(s, id));
  }

  /** Manual triggers of idle schedules included: a careful run has at most one running execution each. */
  lemma CarefulRunsExclude(s: State, steps: seq<Step>, id: nat)
    requires Initial(s) && IsRun(s, steps) && CarefulRun(s, steps)
    ensures |RunningOf(After(s, steps), id)| <= 1
  {
    InitialIsAlone(s);
    CarefulRunKeepsAlone(s, steps);
    AloneMeansOneRunning(After(s, steps), id);
  }

  /** Runs whose jobs start from the loop and claim before it looks again are careful. */
  lemma {:induction false} PromptRunsAreCareful(s: State, steps: seq<Step>)
    requires IsRun(s, steps) && PromptRun(s, steps)
    ensures CarefulRun(s, steps)
    decreases |steps|
  {
    if steps != [] {
      PromptRunsAreCareful(Apply(s, steps[0]), steps[1..]);
    }
  }

  lemma PromptRunsStayAlone(s: State, steps: seq<Step>)
    requires Initial(s) && IsRun(s, steps) && PromptRun(s, steps)
    ensures Alone(After(s, steps)) && Exclusive(After(s, steps))
  {
    InitialIsAlone(s);
    PromptRunsAreCareful(s, steps);
    CarefulRunKeepsAlone(s, steps);
    RunKeepsExclusive(s, steps);
  }

  // ----- what a careless step can lead to -----

  lemma TwoRun(s: State, d: nat, e: nat, id: nat)
    requires IsRunning(s, d, id) && IsRunning(s, e, id) && d != e
    ensures |RunningOf(s, id)| >= 2
  {
    assert {d, e} <= RunningOf(s, id);
    assert |RunningOf(s, id) - {d, e}| == |RunningOf(s, id)| - |{d, e}|;
  }

  lemma TwoSteps(s: State, first: Step, second: Step)
    requires Enabled(s, first) && Enabled(Apply(s, first), second)
    requires Careful(s, first) && Careful(Apply(s, first), second)
    ensures IsRun(s, [first, second]) && CarefulRun(s, [first, second])
    ensures After(s, [first, second]) == Apply(Apply(s, first), second)
  {
    hide Apply, Enabled, Careful;
    assert [first, second][1..] == [second] && [second][1..] == [];
    var t, u := Apply(s, first), Apply(Apply(s, first), second);
    assert IsRun(u, []) && CarefulRun(u, []) && After(u, []) == u;
    assert IsRun(t, [second]) && CarefulRun(t, [second]) && After(t, [second]) == u;
  }

  /** Two spawned tasks of one enabled schedule: both claim. */
  lemma BothClaim(s: State, t: nat, u: nat, id: nat) returns (more: seq<Step>)
    requires t != u && HasSpawned(s, t, id) && HasSpawned(s, u, id)
    requires Exists(s, id) && s.schedules[id].enabled
    ensures |more| <= 2 && IsRun(s, more) && CarefulRun(s, more) && |RunningOf(After(s, more), id)| >= 2
  {
    var mid := Apply(s, Claim(t));
    TwoSteps(s, Claim(t), Claim(u));
    more := [Claim(t), Claim(u)];
    TwoRun(Apply(mid, Claim(u)), |s.executions|, |s.executions| + 1, id);
  }

  /** A running execution beside a spawned task: the schedule is enabled, if need be, and the task claims. */
  lemma ClaimBesideRunning(s: State, e: nat, t: nat, id: nat) returns (more: seq<Step>)
    requires Exists(s, id) && IsRunning(s, e, id) && HasSpawned(s, t, id)
    ensures |more| <= 2 && IsRun(s, more) && CarefulRun(s, more) && |RunningOf(After(s, more), id)| >= 2
  {
    var enable := Edit(id, true, s.schedules[id].interval);
    var mid := Apply(s, enable);
    TwoSteps(s, enable, Claim(t));
    more := [enable, Claim(t)];
    TwoRun(Apply(mid, Claim(t)), e, |s.executions|, id);
  }

  /** Every careless step can be followed, without another one, by two runs of one job at once. */
  lemma CarelessStepCanRunTwice(s: State, step: Step) returns (more: seq<Step>, id: nat)
    requires Alone(s) && Enabled(s, step) && !Careful(s, step)
    ensures |more| <= 2 && IsRun(Apply(s, step), more) && CarefulRun(Apply(s, step), more)
    ensures |RunningOf(After(Apply(s, step), more), id)| >= 2
  {
    var s' := Apply(s, step);
    match step {
      case LoopTick =>
        var t: nat;
        t, id :| HasSpawned(s, t, id) && id < |s.schedules| && IsDue(s.schedules[id], s.now);
        var u := TickSpawnsAgain(s, id);
        more := BothClaim(s', t, u, id);
      case Trigger(triggered) =>
        id := triggered;
        assert IsRunning(s', |s.executions|, id);
        if s.schedules[id].lastStatus == Some(Running) {
          var e: nat :| IsRunning(s, e, id);
          TwoRun(s', e, |s.executions|, id);
          more := [];
        } else {
          var t: nat :| HasSpawned(s, t, id);
          more := ClaimBesideRunning(s', |s.executions|, t, id);
        }
    }
  }

  ghost predicate NeverTwice(s: State) {
    forall more: seq<Step>, id: nat :: IsRun(s, more) && CarefulRun(s, more) ==> |RunningOf(After(s, more), id)| <= 1
  }

  /** Exclusion exactly: a step is careful iff no careful continuation of it ever runs a job twice at once. */
  lemma ExclusionIff(s: State, step: Step)
    requires Alone(s) && Enabled(s, step)
    ensures NeverTwice(Apply(s, step)) <==> Careful(s, step)
  {
    hide Alone, Careful, RunningOf;
    var s' := Apply(s, step);
    if Careful(s, step) {
      CarefulKeepsAlone(s, step);
      forall more: seq<Step>, id: nat | IsRun(s', more) && CarefulRun(s', more)
        ensures |RunningOf(After(s', more), id)| <= 1
      {
        CarefulRunKeepsAlone(s', more);
        AloneMeansOneRunning(After(s', more), id);
      }
    } else {
      var more, id := CarelessStepCanRunTwice(s, step);
    }
  }

  /** At once: a manual trigger leaves at most one running execution iff the schedule is not marked running. */
  lemma TriggerIsExclusiveIff(s: State, id: nat)
    requires Alone(s) && Exists(s, id)
    ensures |RunningOf(Apply(s, Trigger(id)), id)| <= 1 <==> s.schedules[id].lastStatus != Some(Running)
  {
    var s' := Apply(s, Trigger(id));
    assert IsRunning(s', |s.executions|, id);
    if s.schedules[id].lastStatus == Some(Running) {
      var e: nat :| IsRunning(s, e, id);
      TwoRun(s', e, |s.executions|, id);
    } else {
      IdleHasNoneRunning(s, id);
      assert forall e: nat :: e < |s.executions| && IsRunning(s', e, id) ==> IsRunning(s, e, id);
      assert forall e <- RunningOf(s', id) :: IsRunning(s', e, id);
      AtMostOne(RunningOf(s', id));
    }
  }

  /** In a prompt run so far, a loop pass keeps one task per schedule iff no spawned task's schedule is enabled. */
  lemma TickKeepsOneTaskIff(s: State)
    requires Alone(s) && SpawnedAreDue(s)
    ensures OneTask(Apply(s, LoopTick))
      <==> forall t: nat, id: nat :: HasSpawned(s, t, id) && Exists(s, id) ==> !s.schedules[id].enabled
  {
    if t: nat, id: nat :| HasSpawned(s, t, id) && Exists(s, id) && s.schedules[id].enabled {
      assert IsDue(s.schedules[id], s.now);
      var u := TickSpawnsAgain(s, id);
      var s' := Apply(s, LoopTick);
      assert s'.tasks[t].schedule == s'.tasks[u].schedule;
    } else {
      CarefulKeepsOneTask(s, LoopTick);
    }
  }
}
