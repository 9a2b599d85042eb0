/** When a schedule runs, what its execution records of the job, and when it runs again. */
module SchedulerTimes {
  import opened Wrappers
  import opened Scheduler

  // ----- when the loop runs a schedule -----

  /** It exists, is enabled, is not marked running, and its next run, if it has one, is not in the future. */
  predicate RunsNow(s: State, id: nat) {
    && id < |s.schedules| && !s.schedules[id].deleted && s.schedules[id].enabled
    && s.schedules[id].lastStatus != Some(Running)
    && (s.schedules[id].nextRun.Some? ==> s.schedules[id].nextRun.value <= s.now)
  }

  ghost predicate SpawnedFor(s: State, t: State, id: nat) {
    exists k :: |s.tasks| <= k < |t.tasks| && t.tasks[k] == Task(id, Spawned)
  }

  /** One pass of the loop starts a task for a schedule exactly when it is to run now ... */
  lemma TickSpawnsIff(s: State, id: nat)
    ensures SpawnedFor(s, Apply(s, LoopTick), id) <==> RunsNow(s, id)
  {
    var n, t := |s.tasks|, Apply(s, LoopTick);
    var spawned := DueTasks(s, |s.schedules|);
    DueTasksAreDue(s, |s.schedules|);
    if RunsNow(s, id) {
      var k :| 0 <= k < |spawned| && spawned[k] == Task(id, Spawned);
      assert t.tasks[n + k] == Task(id, Spawned);
    }
    if k :| n <= k < |t.tasks| && t.tasks[k] == Task(id, Spawned) {
      assert spawned[k - n] == Task(id, Spawned);
    }
  }

  /** ... and not two. */
  lemma TickSpawnsOnce(s: State, j: nat, k: nat)
    requires |s.tasks| <= j < k < |Apply(s, LoopTick).tasks|
    ensures Apply(s, LoopTick).tasks[j].schedule != Apply(s, LoopTick).tasks[k].schedule
  {
    hide IsDue;
    DueTasksAscend(s, |s.schedules|, j - |s.tasks|, k - |s.tasks|);
  }

  /** A spawned task starts an execution exactly when its schedule still exists and is still enabled. */
  lemma ClaimStartsIff(s: State, t: nat)
    requires Enabled(s, Claim(t))
    ensures var u, id := Apply(s, Claim(t)), s.tasks[t].schedule;
      if !s.schedules[id].deleted && s.schedules[id].enabled then
        && |u.executions| == |s.executions| + 1
        && u.executions[|s.executions|].schedule == id && u.executions[|s.executions|].startedAt == s.now
        && u.executions[|s.executions|].status == Running && u.tasks[t].phase == Working(|s.executions|)
        && u.schedules[id].lastStatus == Some(Running) && u.schedules[id].lastRun == Some(s.now)
      else u.executions == s.executions && u.schedules == s.schedules && u.tasks[t].phase == Done
  {}

  // ----- what an execution records -----

  /** While its task works or has crashed, the execution is as the claim left it. */
  ghost predicate UnderWay(s: State, t: nat, e: nat) {
    && t < |s.tasks| && e < |s.executions| && s.tasks[t].phase == Working(e)
    && s.executions[e].status == Running
  }

  /** Nobody will complete the execution any more, and it was not completed. */
  ghost predicate Abandoned(s: State, e: nat) {
    && e < |s.executions| && s.executions[e].status == Running
    && forall t :: 0 <= t < |s.tasks| ==> s.tasks[t].phase != Working(e)
  }

  lemma StepKeepsAbandoned(s: State, step: Step, e: nat)
    requires Sound(s) && Enabled(s, step) && Abandoned(s, e)
    ensures Abandoned(Apply(s, step), e)
  {
    var s' := Apply(s, step);
    forall t | 0 <= t < |s'.tasks| ensures s'.tasks[t].phase != Working(e) {
      if t >= |s.tasks| && step.LoopTick? {
        TickAddsDueTask(s, t);
      }
    }
  }

  lemma {:induction false} AbandonedStays(s: State, steps: seq<Step>, e: nat)
    requires Sound(s) && IsRun(s, steps) && Abandoned(s, e)
    ensures Abandoned(After(s, steps), e)
    decreases |steps|
  {
    if steps != [] {
      StepKeepsSound(s, steps[0]);
      StepKeepsAbandoned(s, steps[0], e);
      hide Sound, Abandoned;
      AbandonedStays(Apply(s, steps[0]), steps[1..], e);
    }
  }

  /** What one step does to an execution under way. */
  lemma StepOnExecution(s: State, step: Step, t: nat, e: nat)
    requires Sound(s) && Enabled(s, step) && UnderWay(s, t, e) && !s.schedules[s.tasks[t].schedule].deleted
    requires step != Delete(s.tasks[t].schedule)
    ensures var s' := Apply(s, step);
      && s.tasks[t].schedule < |s'.schedules| && !s'.schedules[s.tasks[t].schedule].deleted
      && t < |s'.tasks| && s'.tasks[t].schedule == s.tasks[t].schedule && e < |s'.executions|
      && (step == Finish(t, true) ==> s'.executions[e].status == Success)
      && (step == Finish(t, false) ==> s'.executions[e].status == Failed)
      && (step == Crash(t) ==> Abandoned(s', e))
      && (!step.Finish? && step != Crash(t) ==> UnderWay(s', t, e))
      && (step.Finish? && step.t != t ==> UnderWay(s', t, e))
  {
    assert TaskSound(s, s.tasks[t]);
    if step.Finish? && step.t != t {
      assert TaskSound(s, s.tasks[step.t]);
      var first, second := if t < step.t then t else step.t, if t < step.t then step.t else t;
      assert s.tasks[first].phase.execution != s.tasks[second].phase.execution;
    }
    if step == Crash(t) {
      forall u | 0 <= u < |s.tasks| && u != t ensures s.tasks[u].phase != Working(e) {
        var first, second := if t < u then t else u, if t < u then u else t;
        assert s.tasks[first].phase.Working? && s.tasks[second].phase.Working? ==>
            s.tasks[first].phase.execution != s.tasks[second].phase.execution;
      }
    }
  }

  /**
   An execution tells the truth about its job: over every run in which its schedule is not deleted it
   ends as a success exactly when its own task finished with the job done, as a failure exactly when
   with the job raising, and otherwise stays as running.
   */
  lemma {:induction false} StatusTellsTheJob(s: State, steps: seq<Step>, t: nat, e: nat)
    requires Sound(s) && IsRun(s, steps) && UnderWay(s, t, e) && s.tasks[t].schedule < |s.schedules|
    requires !s.schedules[s.tasks[t].schedule].deleted && Delete(s.tasks[t].schedule) !in steps
    ensures e < |After(s, steps).executions|
    ensures var status := After(s, steps).executions[e].status;
      && (status == Success <==> Finish(t, true) in steps)
      && (status == Failed <==> Finish(t, false) in steps)
    decreases |steps|
  {
    if steps != [] {
      var step, s' := steps[0], Apply(s, steps[0]);
      StepKeepsSound(s, step);
      StepOnExecution(s, step, t, e);
      assert forall x :: x in steps <==> x == step || x in steps[1..];
      hide Sound, Apply, UnderWay, Abandoned;
      if step.Finish? && step.t == t {
        ExecutionsEndOnce(s', steps[1..], e);
        TaskIsDone(s, step, t);
        DoneTasksStay(s', steps[1..], t);
      } else if step == Crash(t) {
        AbandonedStays(s', steps[1..], e);
        AbandonedRuns(After(s', steps[1..]), e);
        TaskIsDone(s, step, t);
        DoneTasksStay(s', steps[1..], t);
      } else {
        StatusTellsTheJob(s', steps[1..], t, e);
      }
    } else {
      assert UnderWay(s, t, e);
    }
  }

  lemma AbandonedRuns(s: State, e: nat)
    requires Abandoned(s, e)
    ensures e < |s.executions| && s.executions[e].status == Running
  {}

  lemma TaskIsDone(s: State, step: Step, t: nat)
    requires Enabled(s, step) && (step == Finish(t, true) || step == Finish(t, false) || step == Crash(t))
    ensures t < |Apply(s, step).tasks| && Apply(s, step).tasks[t].phase.Done?
  {}

  lemma {:induction false} DoneTasksStay(s: State, steps: seq<Step>, t: nat)
    requires IsRun(s, steps) && t < |s.tasks| && s.tasks[t].phase.Done?
    ensures Finish(t, true) !in steps && Finish(t, false) !in steps
    decreases |steps|
  {
    if steps != [] {
      DoneTasksStay(Apply(s, steps[0]), steps[1..], t);
    }
  }

  // ----- when it runs again -----

  /**
   After a job has ended, the loop runs its schedule again exactly when it is still enabled and at least
   the interval read at the claim has passed since.
   */
  lemma RunsAgainIff(s: State, t: nat, success: bool, elapsed: real)
    requires Sound(s) && Enabled(s, Finish(t, success)) && !s.schedules[s.tasks[t].schedule].deleted && elapsed >= 0.0
    ensures var id, e := s.tasks[t].schedule, s.tasks[t].phase.execution;
      var u := Apply(Apply(s, Finish(t, success)), Elapse(elapsed));
      && (SpawnedFor(u, Apply(u, LoopTick), id) <==>
            s.schedules[id].enabled && elapsed >= s.executions[e].interval as real)
      && u.executions[e].completedAt == Some(s.now)
      && u.schedules[id].lastStatus == Some(if success then Success else Failed)
      && u.schedules[id].lastRun == Some(s.executions[e].startedAt)
  {
    var id := s.tasks[t].schedule;
    var u := Apply(Apply(s, Finish(t, success)), Elapse(elapsed));
    TickSpawnsIff(u, id);
    hide SpawnedFor;
  }

  /** The interval read at the claim is the schedule's, and a day of seconds where that is missing or zero. */
  lemma ClaimedInterval(s: State, t: nat)
    requires Enabled(s, Claim(t)) && RunsIfClaimed(s, t)
    ensures var id, u := s.tasks[t].schedule, Apply(s, Claim(t));
      && |u.executions| == |s.executions| + 1
      && (s.schedules[id].interval.None? || s.schedules[id].interval == Some(0) ==>
            u.executions[|s.executions|].interval == 86400)
      && (s.schedules[id].interval.Some? && s.schedules[id].interval != Some(0) ==>
            Some(u.executions[|s.executions|].interval) == s.schedules[id].interval)
  {}

  predicate RunsIfClaimed(s: State, t: nat)
    requires Enabled(s, Claim(t))
  {
    !s.schedules[s.tasks[t].schedule].deleted && s.schedules[s.tasks[t].schedule].enabled
  }

  /** A new schedule that is enabled runs at the loop's next pass, whenever that is. */
  lemma NewSchedulesRunAtOnce(s: State, enabled: bool, interval: Option<int>, elapsed: real)
    requires elapsed >= 0.0
    ensures var u := Apply(Apply(s, Create(enabled, interval)), Elapse(elapsed));
      SpawnedFor(u, Apply(u, LoopTick), |s.schedules|) <==> enabled
  {
    TickSpawnsIff(Apply(Apply(s, Create(enabled, interval)), Elapse(elapsed)), |s.schedules|);
    hide SpawnedFor;
  }
}
