/**
 The background scheduler as a transition system: a periodic loop that spawns a task for every due
 schedule, tasks that claim, run and complete, manual triggers, schedules that are created, edited and
 deleted, crashes and passing time.
 */
module Scheduler {
  import opened Wrappers

  const DEFAULT_INTERVAL: int := 86400

  datatype Status = Running | Success | Failed

  /**
   `lastStatus` is None for a schedule that has never run (stored as "idle").  A deleted schedule keeps its
   place, and its executions theirs, so that the others keep their numbers; no query finds them.
   */
  datatype Schedule = Schedule(
    deleted: bool,
    enabled: bool,
    interval: Option<int>,
    nextRun: Option<real>,
    lastRun: Option<real>,
    lastStatus: Option<Status>)

  /**
   `interval` is the schedule's interval as its task read it when claiming and still holds it in
   memory, `due` the next run time computed from it on completion.  Neither is a column.
   */
  datatype Execution = Execution(
    schedule: nat,
    startedAt: real,
    interval: int,
    status: Status,
    completedAt: Option<real>,
    due: Option<real>)

  datatype Phase = Spawned | Working(execution: nat) | Done

  datatype Task = Task(schedule: nat, phase: Phase)

  datatype State = State(now: real, schedules: seq<Schedule>, executions: seq<Execution>, tasks: seq<Task>)

  datatype Step =
    | Elapse(elapsed: real)
    | LoopTick
    | Claim(t: nat)
    | Fail(t: nat)                    // the task raises before it has claimed
    | Finish(t: nat, success: bool)
    | Crash(t: nat)                   // the task dies while the job runs; its rows stay as they are
    | Trigger(schedule: nat)          // a manual run
    | Create(enabled: bool, interval: Option<int>)
    | Edit(schedule: nat, enabled: bool, interval: Option<int>)
    | Delete(schedule: nat)

  datatype ScheduleError = ScheduleNotFound

  // ----- the step function -----

  /** `interval_seconds or 86400`: both a missing and a zero interval mean a day. */
  function Interval(s: Schedule): int {
    if s.interval.None? || s.interval.value == 0 then DEFAULT_INTERVAL else s.interval.value
  }

  predicate TimeReached(nextRun: Option<real>, now: real) { nextRun.None? || nextRun.value <= now }

  predicate IsDue(s: Schedule, now: real) {
    !s.deleted && s.enabled && TimeReached(s.nextRun, now) && s.lastStatus != Some(Running)
  }

  /** One new task for every due schedule below `n`. */
  function DueTasks(s: State, n: nat): seq<Task>
    requires n <= |s.schedules|
  {
    if n == 0 then []
    else DueTasks(s, n - 1) + if IsDue(s.schedules[n - 1], s.now) then [Task(n - 1, Spawned)] else []
  }

  /** The look-up by id finds the schedule. */
  predicate Exists(s: State, id: nat) { id < |s.schedules| && !s.schedules[id].deleted }

  predicate Enabled(s: State, step: Step) {
    match step
    case Elapse(elapsed) => elapsed >= 0.0
    case LoopTick => true
    case Claim(t) => t < |s.tasks| && s.tasks[t].phase.Spawned? && s.tasks[t].schedule < |s.schedules|
    case Fail(t) => t < |s.tasks| && s.tasks[t].phase.Spawned?
    case Finish(t, _) =>
      t < |s.tasks| && s.tasks[t].phase.Working? && s.tasks[t].schedule < |s.schedules|
      && s.tasks[t].phase.execution < |s.executions|
    case Crash(t) => t < |s.tasks| && s.tasks[t].phase.Working?
    case Trigger(id) => Exists(s, id)
    case Create(_, _) => true
    case Edit(id, _, _) => Exists(s, id)
    case Delete(id) => Exists(s, id)
  }

  /** A claim: a running execution row, and the schedule marked running. */
  function Started(s: State, id: nat): State
    requires id < |s.schedules|
  {
    s.(executions := s.executions + [Execution(id, s.now, Interval(s.schedules[id]), Running, None, None)],
       schedules := s.schedules[id := s.schedules[id].(lastStatus := Some(Running), lastRun := Some(s.now))])
  }

  function Completed(s: State, id: nat, e: nat, success: bool): State
    requires id < |s.schedules| && e < |s.executions|
  {
    var status := if success then Success else Failed;
    var due := s.now + s.executions[e].interval as real;
    s.(executions := s.executions[e := s.executions[e].(
         status := status, completedAt := Some(s.now), due := Some(due))],
       schedules := s.schedules[id := s.schedules[id].(
         lastStatus := Some(status), lastRun := Some(s.executions[e].startedAt), nextRun := Some(due))])
  }

  function Move(s: State, t: nat, phase: Phase): State
    requires t < |s.tasks|
  {
    s.(tasks := s.tasks[t := s.tasks[t].(phase := phase)])
  }

  function Apply(s: State, step: Step): State
    requires Enabled(s, step)
  {
    match step
    case Elapse(elapsed) => s.(now := s.now + elapsed)
    case LoopTick => s.(tasks := s.tasks + DueTasks(s, |s.schedules|))
    case Claim(t) =>
      var id := s.tasks[t].schedule;
      if !s.schedules[id].deleted && s.schedules[id].enabled
      then Move(Started(s, id), t, Working(|s.executions|))
      else Move(s, t, Done)
    case Fail(t) => Move(s, t, Done)
    case Finish(t, success) =>
      // updating a deleted row raises, and the task ends there
      if s.schedules[s.tasks[t].schedule].deleted then Move(s, t, Done)
      else Move(Completed(s, s.tasks[t].schedule, s.tasks[t].phase.execution, success), t, Done)
    case Crash(t) => Move(s, t, Done)
    case Trigger(id) => Started(s, id).(tasks := s.tasks + [Task(id, Working(|s.executions|))])
    case Create(enabled, interval) =>
      s.(schedules := s.schedules + [Schedule(false, enabled, interval, None, None, None)])
    case Edit(id, enabled, interval) =>
      s.(schedules := s.schedules[id := s.schedules[id].(enabled := enabled, interval := interval)])
    case Delete(id) =>
      s.(schedules := s.schedules[id := s.schedules[id].(deleted := true)])
  }

  ghost predicate IsRun(s: State, steps: seq<Step>)
    decreases |steps|
  {
    steps == [] || (Enabled(s, steps[0]) && IsRun(Apply(s, steps[0]), steps[1..]))
  }

  ghost function After(s: State, steps: seq<Step>): State
    requires IsRun(s, steps)
    decreases |steps|
  {
    if steps == [] then s else After(Apply(s, steps[0]), steps[1..])
  }

  // ----- what every run keeps -----

  ghost predicate TaskSound(s: State, task: Task) {
    && task.schedule < |s.schedules|
    && (task.phase.Working? ==>
          && task.phase.execution < |s.executions|
          && s.executions[task.phase.execution].schedule == task.schedule
          && s.executions[task.phase.execution].status.Running?)
  }

  ghost predicate ExecutionSound(s: State, e: Execution) {
    && e.schedule < |s.schedules| && e.startedAt <= s.now
    && (if e.status.Running? then e.completedAt.None? && e.due.None?
        else e.completedAt.Some? && e.due.Some? && e.startedAt <= e.completedAt.value <= s.now)
  }

  /** Every working task has a running execution of its own schedule to itself. */
  ghost predicate Sound(s: State) {
    && (forall t :: 0 <= t < |s.tasks| ==> TaskSound(s, s.tasks[t]))
    && (forall e :: 0 <= e < |s.executions| ==> ExecutionSound(s, s.executions[e]))
    && (forall t, u :: 0 <= t < u < |s.tasks| && s.tasks[t].phase.Working? && s.tasks[u].phase.Working? ==>
          s.tasks[t].phase.execution != s.tasks[u].phase.execution)
  }

  lemma {:induction false} DueTaskAt(s: State, n: nat, k: nat)
    requires n <= |s.schedules| && k < |DueTasks(s, n)|
    ensures var task := DueTasks(s, n)[k];
      task.phase.Spawned? && task.schedule < n && IsDue(s.schedules[task.schedule], s.now)
  {
    hide IsDue;
    var front := DueTasks(s, n - 1);
    if k < |front| {
      DueTaskAt(s, n - 1, k);
      assert DueTasks(s, n)[k] == front[k];
    } else {
      assert DueTasks(s, n)[k] == Task(n - 1, Spawned);
    }
  }

  lemma {:induction false} DueScheduleHasTask(s: State, n: nat, id: nat)
    requires n <= |s.schedules| && id < n && IsDue(s.schedules[id], s.now)
    ensures exists k :: 0 <= k < |DueTasks(s, n)| && DueTasks(s, n)[k] == Task(id, Spawned)
  {
    hide IsDue;
    var front := DueTasks(s, n - 1);
    if id < n - 1 {
      DueScheduleHasTask(s, n - 1, id);
      var k :| 0 <= k < |front| && front[k] == Task(id, Spawned);
      assert DueTasks(s, n)[k] == front[k];
    } else {
      assert DueTasks(s, n)[|front|] == Task(id, Spawned);
    }
  }

  lemma DueTasksAreDue(s: State, n: nat)
    requires n <= |s.schedules|
    ensures var spawned := DueTasks(s, n);
      && (forall k :: 0 <= k < |spawned| ==>
            spawned[k].phase.Spawned? && spawned[k].schedule < n && IsDue(s.schedules[spawned[k].schedule], s.now))
      && (forall id :: 0 <= id < n && IsDue(s.schedules[id], s.now) ==> Task(id, Spawned) in spawned)
  {
    hide IsDue, DueTasks;
    var spawned := DueTasks(s, n);
    forall k | 0 <= k < |spawned|
      ensures spawned[k].phase.Spawned? && spawned[k].schedule < n && IsDue(s.schedules[spawned[k].schedule], s.now)
    {
      DueTaskAt(s, n, k);
    }
    forall id | 0 <= id < n && IsDue(s.schedules[id], s.now) ensures Task(id, Spawned) in spawned {
      DueScheduleHasTask(s, n, id);
    }
  }

  /** In ascending order, so no schedule gets two. */
  lemma {:induction false} DueTasksAscend(s: State, n: nat, i: nat, j: nat)
    requires n <= |s.schedules| && i < j < |DueTasks(s, n)|
    ensures DueTasks(s, n)[i].schedule < DueTasks(s, n)[j].schedule
  {
    hide IsDue;
    var front := DueTasks(s, n - 1);
    assert DueTasks(s, n)[i] == front[i];
    if j < |front| {
      assert DueTasks(s, n)[j] == front[j];
      DueTasksAscend(s, n - 1, i, j);
    } else {
      assert DueTasks(s, n)[j] == Task(n - 1, Spawned);
      DueTaskAt(s, n - 1, i);
    }
  }

  lemma TickAddsDueTask(s: State, t: nat)
    requires |s.tasks| <= t < |Apply(s, LoopTick).tasks|
    ensures var task := Apply(s, LoopTick).tasks[t];
      task.phase.Spawned? && task.schedule < |s.schedules| && IsDue(s.schedules[task.schedule], s.now)
  {
    DueTasksAreDue(s, |s.schedules|);
    assert Apply(s, LoopTick).tasks[t] == DueTasks(s, |s.schedules|)[t - |s.tasks|];
  }

  lemma StepKeepsTaskSound(s: State, step: Step, t: nat)
    requires Sound(s) && Enabled(s, step) && t < |Apply(s, step).tasks|
    ensures TaskSound(Apply(s, step), Apply(s, step).tasks[t])
  {
    if t < |s.tasks| {
      assert TaskSound(s, s.tasks[t]);
      if step.Finish? && t != step.t {
        var first, second := if t < step.t then t else step.t, if t < step.t then step.t else t;
        assert s.tasks[first].phase.Working? && s.tasks[second].phase.Working? ==>
            s.tasks[first].phase.execution != s.tasks[second].phase.execution;
      }
    } else if step.LoopTick? {
      TickAddsDueTask(s, t);
    }
  }

  lemma StepKeepsOwnership(s: State, step: Step, t: nat, u: nat)
    requires Sound(s) && Enabled(s, step) && t < u < |Apply(s, step).tasks|
    requires Apply(s, step).tasks[t].phase.Working? && Apply(s, step).tasks[u].phase.Working?
    ensures Apply(s, step).tasks[t].phase.execution != Apply(s, step).tasks[u].phase.execution
  {
    assert t < |s.tasks| ==> TaskSound(s, s.tasks[t]);
    assert u < |s.tasks| ==> TaskSound(s, s.tasks[u]);
    if step.LoopTick? && u >= |s.tasks| {
      TickAddsDueTask(s, u);
      assert false;
    }
  }

  lemma StepKeepsSound(s: State, step: Step)
    requires Sound(s) && Enabled(s, step)
    ensures Sound(Apply(s, step))
  {
    var s' := Apply(s, step);
    forall t | 0 <= t < |s'.tasks| ensures TaskSound(s', s'.tasks[t]) {
      StepKeepsTaskSound(s, step, t);
    }
    forall t, u | 0 <= t < u < |s'.tasks| && s'.tasks[t].phase.Working? && s'.tasks[u].phase.Working?
      ensures s'.tasks[t].phase.execution != s'.tasks[u].phase.execution
    {
      StepKeepsOwnership(s, step, t, u);
    }
    forall e | 0 <= e < |s'.executions| ensures ExecutionSound(s', s'.executions[e]) {
      assert e < |s.executions| ==> ExecutionSound(s, s.executions[e]);
    }
  }

  lemma StepKeepsCompleted(s: State, step: Step, e: nat)
    requires Sound(s) && Enabled(s, step) && e < |s.executions| && !s.executions[e].status.Running?
    ensures e < |Apply(s, step).executions| && Apply(s, step).executions[e] == s.executions[e]
  {
    if step.Finish? {
      assert TaskSound(s, s.tasks[step.t]);
    }
  }

  /** Over every run, manual triggers and crashes included: an execution that left "running" never changes again. */
  lemma {:induction false} ExecutionsEndOnce(s: State, steps: seq<Step>, e: nat)
    requires Sound(s) && IsRun(s, steps) && e < |s.executions| && !s.executions[e].status.Running?
    ensures e < |After(s, steps).executions| && After(s, steps).executions[e] == s.executions[e]
    decreases |steps|
  {
    if steps != [] {
      StepKeepsSound(s, steps[0]);
      StepKeepsCompleted(s, steps[0], e);
      ExecutionsEndOnce(Apply(s, steps[0]), steps[1..], e);
    }
  }

  // ----- exclusion -----

  ghost predicate OneTask(s: State) {
    forall t, u :: 0 <= t < u < |s.tasks| && !s.tasks[t].phase.Done? && !s.tasks[u].phase.Done? ==>
      s.tasks[t].schedule != s.tasks[u].schedule
  }

  /** A spawned task's schedule is idle and its time has come. */
  ghost predicate SpawnedAreDue(s: State) {
    forall t :: 0 <= t < |s.tasks| && s.tasks[t].phase.Spawned? && s.tasks[t].schedule < |s.schedules| ==>
      s.schedules[s.tasks[t].schedule].lastStatus != Some(Running)
      && TimeReached(s.schedules[s.tasks[t].schedule].nextRun, s.now)
  }

  ghost predicate RunningIsMarked(s: State) {
    forall e :: 0 <= e < |s.executions| && s.executions[e].status.Running? ==>
      s.executions[e].schedule < |s.schedules| ==>
      s.schedules[s.executions[e].schedule].lastStatus == Some(Running)
  }

  /** Executions of one schedule follow each other, each starting when the previous one made it due. */
  ghost predicate Spaced(s: State) {
    forall d, e :: 0 <= d < e < |s.executions| && s.executions[d].schedule == s.executions[e].schedule ==>
      s.executions[d].due.Some? && s.executions[d].due.value <= s.executions[e].startedAt
  }

  ghost predicate DueRemembered(s: State) {
    forall e :: 0 <= e < |s.executions| && s.executions[e].due.Some? ==>
      s.executions[e].schedule < |s.schedules| ==>
      s.executions[e].due.value <= s.now || s.schedules[s.executions[e].schedule].nextRun == s.executions[e].due
  }

  ghost predicate Exclusive(s: State) {
    Sound(s) && OneTask(s) && SpawnedAreDue(s) && RunningIsMarked(s) && Spaced(s) && DueRemembered(s)
  }

  /** Jobs start from the loop only, and spawned tasks have claimed before the loop looks again. */
  ghost predicate Prompt(s: State, step: Step) {
    && !step.Trigger?
    && (step.LoopTick? ==> forall t :: 0 <= t < |s.tasks| ==> !s.tasks[t].phase.Spawned?)
  }

  lemma WorkingMeansMarked(s: State, t: nat)
    requires Sound(s) && RunningIsMarked(s) && t < |s.tasks| && s.tasks[t].phase.Working?
    ensures s.tasks[t].schedule < |s.schedules|
    ensures s.schedules[s.tasks[t].schedule].lastStatus == Some(Running)
  {
    assert TaskSound(s, s.tasks[t]);
    assert s.executions[s.tasks[t].phase.execution].status.Running?;
  }

  lemma TickKeepsOneTask(s: State, t: nat, u: nat)
    requires Exclusive(s) && Prompt(s, LoopTick) && t < u < |Apply(s, LoopTick).tasks|
    requires !Apply(s, LoopTick).tasks[t].phase.Done? && !Apply(s, LoopTick).tasks[u].phase.Done?
    ensures Apply(s, LoopTick).tasks[t].schedule != Apply(s, LoopTick).tasks[u].schedule
  {
    var n := |s.tasks|;
    if t >= n {
      DueTasksAscend(s, |s.schedules|, t - n, u - n);
    } else if u >= n {
      assert !s.tasks[t].phase.Spawned?;
      WorkingMeansMarked(s, t);
      TickAddsDueTask(s, u);
    } else {
      ActiveElsewhere(s, t, u);
    }
  }

  lemma StepKeepsOneTask(s: State, step: Step)
    requires Exclusive(s) && Enabled(s, step) && Prompt(s, step)
    ensures OneTask(Apply(s, step))
  {
    var s' := Apply(s, step);
    forall t, u | 0 <= t < u < |s'.tasks| && !s'.tasks[t].phase.Done? && !s'.tasks[u].phase.Done?
      ensures s'.tasks[t].schedule != s'.tasks[u].schedule
    {
      if step.LoopTick? {
        TickKeepsOneTask(s, t, u);
      } else {
        ActiveElsewhere(s, t, u);
      }
    }
  }

  lemma StepKeepsSpawnedDue(s: State, step: Step)
    requires Exclusive(s) && Enabled(s, step) && Prompt(s, step)
    ensures SpawnedAreDue(Apply(s, step))
  {
    var s' := Apply(s, step);
    forall t | 0 <= t < |s'.tasks| && s'.tasks[t].phase.Spawned?
      ensures s'.tasks[t].schedule < |s'.schedules|
        && s'.schedules[s'.tasks[t].schedule].lastStatus != Some(Running)
        && TimeReached(s'.schedules[s'.tasks[t].schedule].nextRun, s'.now)
    {
      if t < |s.tasks| {
        assert TaskSound(s, s.tasks[t]);
        if (step.Claim? || step.Finish?) && step.t != t {
          ActiveElsewhere(s, step.t, t);
        }
      } else {
        TickAddsDueTask(s, t);
      }
    }
  }

  lemma ActiveElsewhere(s: State, t: nat, u: nat)
    requires OneTask(s) && t < |s.tasks| && u < |s.tasks| && t != u
    requires !s.tasks[t].phase.Done? && !s.tasks[u].phase.Done?
    ensures s.tasks[t].schedule != s.tasks[u].schedule
  {
    var first, second := if t < u then t else u, if t < u then u else t;
    assert s.tasks[first].schedule != s.tasks[second].schedule;
  }

  lemma StepKeepsMarks(s: State, step: Step)
    requires Exclusive(s) && Enabled(s, step) && Prompt(s, step)
    ensures RunningIsMarked(Apply(s, step))
  {
    if step.Finish? {
      assert TaskSound(s, s.tasks[step.t]);
    }
  }

  lemma StepKeepsSpacing(s: State, step: Step)
    requires Exclusive(s) && Enabled(s, step) && Prompt(s, step)
    ensures Spaced(Apply(s, step))
  {
    var s' := Apply(s, step);
    if step.Finish? {
      assert TaskSound(s, s.tasks[step.t]);
    }
    if |s'.executions| > |s.executions| {
      var e := |s.executions|;
      forall d | 0 <= d < e && s.executions[d].schedule == s'.executions[e].schedule
        ensures s.executions[d].due.Some? && s.executions[d].due.value <= s.now
      {
        assert ExecutionSound(s, s.executions[d]);
      }
    }
  }

  lemma StepKeepsDue(s: State, step: Step)
    requires Exclusive(s) && Enabled(s, step) && Prompt(s, step)
    ensures DueRemembered(Apply(s, step))
  {
    var s' := Apply(s, step);
    if step.Finish? {
      var x := s.tasks[step.t].phase.execution;
      assert TaskSound(s, s.tasks[step.t]) && ExecutionSound(s, s.executions[x]);
      forall d | 0 <= d < |s.executions| && d != x && s.executions[d].schedule == s.tasks[step.t].schedule
        ensures s.executions[d].due.Some? ==> s.executions[d].due.value <= s.now
      {
        assert ExecutionSound(s, s.executions[d]);
      }
    }
  }

  lemma StepKeepsExclusive(s: State, step: Step)
    requires Exclusive(s) && Enabled(s, step) && Prompt(s, step)
    ensures Exclusive(Apply(s, step))
  {
    StepKeepsSound(s, step);
    StepKeepsOneTask(s, step);
    StepKeepsSpawnedDue(s, step);
    StepKeepsMarks(s, step);
    StepKeepsSpacing(s, step);
    StepKeepsDue(s, step);
  }

  ghost predicate PromptRun(s: State, steps: seq<Step>)
    requires IsRun(s, steps)
    decreases |steps|
  {
    steps == [] || (Prompt(s, steps[0]) && PromptRun(Apply(s, steps[0]), steps[1..]))
  }

  lemma {:induction false} RunKeepsExclusive(s: State, steps: seq<Step>)
    requires Exclusive(s) && IsRun(s, steps) && PromptRun(s, steps)
    ensures Exclusive(After(s, steps))
    decreases |steps|
  {
    if steps != [] {
      StepKeepsExclusive(s, steps[0]);
      RunKeepsExclusive(Apply(s, steps[0]), steps[1..]);
    }
  }

  /** The state before the scheduler has run anything. */
  ghost predicate Initial(s: State) {
    && s.executions == [] && s.tasks == []
    && forall id :: 0 <= id < |s.schedules| ==> s.schedules[id].lastStatus.None? && s.schedules[id].nextRun.None?
  }

  ghost function RunningOf(s: State, id: nat): set<nat> {
    set e: nat | e < |s.executions| && s.executions[e].schedule == id && s.executions[e].status.Running?
  }

  lemma AtMostOne(xs: set<nat>)
    requires forall a, b :: a in xs && b in xs ==> a == b
    ensures |xs| <= 1
  {
    if a :| a in xs {
      assert xs == {a};
    }
  }

  /** Exclusion: each schedule has at most one running execution, in every state of every such run. */
  lemma AtMostOneRunning(s: State, steps: seq<Step>, id: nat)
    requires Initial(s) && IsRun(s, steps) && PromptRun(s, steps)
    ensures |RunningOf(After(s, steps), id)| <= 1
  {
    RunKeepsExclusive(s, steps);
    var t := After(s, steps);
    forall a, b | a in RunningOf(t, id) && b in RunningOf(t, id) ensures a == b {
      assert ExecutionSound(t, t.executions[a]) && ExecutionSound(t, t.executions[b]);
    }
    AtMostOne(RunningOf(t, id));
  }

  ghost predicate DueByInterval(s: State) {
    forall e :: 0 <= e < |s.executions| && s.executions[e].due.Some? && s.executions[e].completedAt.Some? ==>
      s.executions[e].due.value == s.executions[e].completedAt.value + s.executions[e].interval as real
  }

  lemma {:induction false} IntervalsDecideDue(s: State, steps: seq<Step>)
    requires DueByInterval(s) && IsRun(s, steps)
    ensures DueByInterval(After(s, steps))
    decreases |steps|
  {
    if steps != [] {
      IntervalsDecideDue(Apply(s, steps[0]), steps[1..]);
    }
  }

  /**
   Each start is at or after every earlier completion of the schedule plus the interval that
   completion's task had read, whatever is edited in between.
   */
  lemma StartsWaitOutTheInterval(s: State, steps: seq<Step>, d: nat, e: nat)
    requires Initial(s) && IsRun(s, steps) && PromptRun(s, steps)
    requires d < e < |After(s, steps).executions|
    requires After(s, steps).executions[d].schedule == After(s, steps).executions[e].schedule
    ensures var earlier, later := After(s, steps).executions[d], After(s, steps).executions[e];
      earlier.completedAt.Some? && later.startedAt >= earlier.completedAt.value + earlier.interval as real
  {
    RunKeepsExclusive(s, steps);
    IntervalsDecideDue(s, steps);
    var t := After(s, steps);
    assert ExecutionSound(t, t.executions[d]);
  }

  /** Of the schedules that were there at the start. */
  ghost predicate ClaimedIntervals(s: State, intervals: seq<int>) {
    && |intervals| <= |s.schedules|
    && (forall id :: 0 <= id < |intervals| ==> Interval(s.schedules[id]) == intervals[id])
    && (forall e :: 0 <= e < |s.executions| && s.executions[e].schedule < |intervals| ==>
          s.executions[e].interval == intervals[s.executions[e].schedule])
  }

  /** Without edits that interval is the schedule's own, a day where it is missing or zero. */
  lemma {:induction false} UneditedIntervalsStay(s: State, steps: seq<Step>, intervals: seq<int>)
    requires ClaimedIntervals(s, intervals) && IsRun(s, steps) && forall step <- steps :: !step.Edit?
    ensures ClaimedIntervals(After(s, steps), intervals)
    decreases |steps|
  {
    if steps != [] {
      UneditedIntervalsStay(Apply(s, steps[0]), steps[1..], intervals);
    }
  }

  // ----- a crash is never recovered from -----

  /** Marked running, with nobody left working on it: where a crashed or killed task leaves its schedule. */
  ghost predicate Orphaned(s: State, id: nat) {
    && id < |s.schedules| && s.schedules[id].lastStatus == Some(Running)
    && forall t :: 0 <= t < |s.tasks| && s.tasks[t].schedule == id ==> s.tasks[t].phase.Done?
  }

  function ExecutionsOf(s: State, id: nat): set<nat> {
    set e: nat | e < |s.executions| && s.executions[e].schedule == id
  }

  lemma CrashOrphans(s: State, t: nat)
    requires Exclusive(s) && Enabled(s, Crash(t))
    ensures Orphaned(Apply(s, Crash(t)), s.tasks[t].schedule)
  {
    assert TaskSound(s, s.tasks[t]);
    forall u | 0 <= u < |s.tasks| && u != t && s.tasks[u].schedule == s.tasks[t].schedule
      ensures s.tasks[u].phase.Done?
    {
      if !s.tasks[u].phase.Done? {
        ActiveElsewhere(s, t, u);
      }
    }
  }

  lemma StepKeepsOrphan(s: State, step: Step, id: nat)
    requires Orphaned(s, id) && Enabled(s, step) && step != Trigger(id)
    ensures Orphaned(Apply(s, step), id) && ExecutionsOf(Apply(s, step), id) == ExecutionsOf(s, id)
  {
    var s' := Apply(s, step);
    forall t | 0 <= t < |s'.tasks| && s'.tasks[t].schedule == id ensures s'.tasks[t].phase.Done? {
      if t >= |s.tasks| && step.LoopTick? {
        TickAddsDueTask(s, t);
      }
    }
  }

  /** Once orphaned, a schedule is never run by the loop again, however long the run and whatever is edited. */
  lemma {:induction false} OrphanNeverRunsAgain(s: State, steps: seq<Step>, id: nat)
    requires Orphaned(s, id) && IsRun(s, steps) && Trigger(id) !in steps
    ensures Orphaned(After(s, steps), id) && ExecutionsOf(After(s, steps), id) == ExecutionsOf(s, id)
    decreases |steps|
  {
    if steps != [] {
      StepKeepsOrphan(s, steps[0], id);
      OrphanNeverRunsAgain(Apply(s, steps[0]), steps[1..], id);
    }
  }

  // ----- deletion -----

  lemma StepKeepsDeleted(s: State, step: Step, id: nat)
    requires Sound(s) && Enabled(s, step) && id < |s.schedules| && s.schedules[id].deleted
    ensures id < |Apply(s, step).schedules| && Apply(s, step).schedules[id].deleted
    ensures ExecutionsOf(Apply(s, step), id) == ExecutionsOf(s, id)
    ensures forall e <- ExecutionsOf(s, id) :: Apply(s, step).executions[e] == s.executions[e]
  {
    if step.Finish? {
      assert TaskSound(s, s.tasks[step.t]);
    }
  }

  /** A deleted schedule never starts again, whatever is triggered, and a job under way writes nothing more. */
  lemma {:induction false} DeletedNeverRunsAgain(s: State, steps: seq<Step>, id: nat)
    requires Sound(s) && IsRun(s, steps) && id < |s.schedules| && s.schedules[id].deleted
    ensures ExecutionsOf(After(s, steps), id) == ExecutionsOf(s, id)
    ensures forall e <- ExecutionsOf(s, id) :: After(s, steps).executions[e] == s.executions[e]
    decreases |steps|
  {
    if steps != [] {
      hide Sound;
      StepKeepsSound(s, steps[0]);
      StepKeepsDeleted(s, steps[0], id);
      DeletedNeverRunsAgain(Apply(s, steps[0]), steps[1..], id);
    }
  }

  // ----- why both assumptions are needed -----

  function Idle(): State {
    State(0.0, [Schedule(false, true, None, None, None, None)], [], [])
  }

  lemma RunFirst(s: State, step: Step, rest: seq<Step>)
    requires Enabled(s, step) && IsRun(Apply(s, step), rest)
    ensures IsRun(s, [step] + rest) && After(s, [step] + rest) == After(Apply(s, step), rest)
  {
    assert ([step] + rest)[1..] == rest;
  }

  lemma TickSpawnsIdle(s: State)
    requires |s.schedules| == 1 && IsDue(s.schedules[0], s.now)
    ensures Apply(s, LoopTick) == s.(tasks := s.tasks + [Task(0, Spawned)])
  {
    assert DueTasks(s, 1) == DueTasks(s, 0) + [Task(0, Spawned)] == [Task(0, Spawned)];
  }

  function TwoSpawned(): State { Idle().(tasks := [Task(0, Spawned), Task(0, Spawned)]) }

  lemma TwoSpawnedRunTwice()
    ensures IsRun(TwoSpawned(), [Claim(0)] + ([Claim(1)] + []))
    ensures RunningOf(After(TwoSpawned(), [Claim(0)] + ([Claim(1)] + [])), 0) == {0, 1}
  {
    var s := Apply(TwoSpawned(), Claim(0));
    RunFirst(s, Claim(1), []);
    RunFirst(TwoSpawned(), Claim(0), [Claim(1)] + []);
  }

  /** A second look at the schedules before the first task has claimed runs the job twice at once. */
  lemma SlowClaimRunsTwice()
    ensures var steps := [LoopTick] + ([LoopTick] + ([Claim(0)] + ([Claim(1)] + [])));
      && Initial(Idle()) && IsRun(Idle(), steps)
      && RunningOf(After(Idle(), steps), 0) == {0, 1}
  {
    hide Apply, After, IsRun, RunningOf;
    var claims := [Claim(0)] + ([Claim(1)] + []);
    TwoSpawnedRunTwice();
    TickSpawnsIdle(Idle());
    var s := Apply(Idle(), LoopTick);
    TickSpawnsIdle(s);
    assert Apply(s, LoopTick) == TwoSpawned();
    RunFirst(s, LoopTick, claims);
    RunFirst(Idle(), LoopTick, [LoopTick] + claims);
  }

  /** So does a manual trigger while the job is running. */
  lemma ManualTriggerRunsTwice()
    ensures var steps := [Trigger(0)] + ([Trigger(0)] + []);
      Initial(Idle()) && IsRun(Idle(), steps) && RunningOf(After(Idle(), steps), 0) == {0, 1}
  {
    RunFirst(Apply(Idle(), Trigger(0)), Trigger(0), []);
    RunFirst(Idle(), Trigger(0), [Trigger(0)] + []);
  }

  // ----- the service -----

  /** `SchedulerService` with its tables; a coroutine is cut where it awaits. */
  class SchedulerService {
    var clock: real
    var schedules: seq<Schedule>
    var executions: seq<Execution>
    var tasks: seq<Task>

    constructor (now: real, schedules: seq<Schedule>)
      ensures View() == State(now, schedules, [], [])
    {
      clock := now;
      this.schedules := schedules;
      executions := [];
      tasks := [];
    }

    ghost function View(): State
      reads this
    {
      State(clock, schedules, executions, tasks)
    }

    /** One pass of `_main_scheduler_loop` over the enabled schedules. */
    method CheckSchedules()
      modifies this`tasks
      ensures View() == Apply(old(View()), LoopTick)
    {
      for id := 0 to |schedules|
        invariant tasks == old(tasks) + DueTasks(old(View()), id)
      {
        var schedule := schedules[id];
        if !schedule.deleted && schedule.enabled {
          var isDue := false;
          if schedule.nextRun.None? || schedule.nextRun.value <= clock {
            isDue := true;
          }
          if isDue && schedule.lastStatus != Some(Running) {
            tasks := tasks + [Task(id, Spawned)];
          }
        }
      }
    }

    /** A spawned task up to its first commit: re-read the schedule and, if still enabled, claim it. */
    method RunDueSchedule(t: nat)
      requires Enabled(View(), Step.Claim(t))
      modifies this
      ensures View() == Apply(old(View()), Step.Claim(t))
    {
      var id := tasks[t].schedule;
      if !schedules[id].deleted && schedules[id].enabled {
        var execution := CreateExecution(id);
        tasks := tasks[t := tasks[t].(phase := Working(execution))];
      } else {
        tasks := tasks[t := tasks[t].(phase := Done)];
      }
    }

    /** `trigger_job_now`: an unknown id is an error; a known one is claimed whatever its status. */
    method TriggerJobNow(id: nat) returns (r: Result<nat, ScheduleError>)
      modifies this
      ensures r == Err(ScheduleNotFound) <==> !Exists(old(View()), id)
      ensures r.Err? ==> View() == old(View())
      ensures r.Ok? ==> View() == Apply(old(View()), Trigger(id)) && r == Ok(|old(executions)|)
    {
      if id >= |schedules| || schedules[id].deleted {
        return Err(ScheduleNotFound);
      }
      var execution := CreateExecution(id);
      tasks := tasks + [Task(id, Working(execution))];
      return Ok(execution);
    }

    method CreateSchedule(enabled: bool, interval: Option<int>) returns (id: nat)
      modifies this`schedules
      ensures View() == Apply(old(View()), Create(enabled, interval))
      ensures !Exists(old(View()), id) && Exists(View(), id)
    {
      id := |schedules|;
      schedules := schedules + [Schedule(false, enabled, interval, None, None, None)];
    }

    /** The update keeps every field that is not given. */
    method UpdateSchedule(id: nat, enabled: Option<bool>, interval: Option<int>) returns (r: Result<(), ScheduleError>)
      modifies this`schedules
      ensures r == Err(ScheduleNotFound) <==> !Exists(old(View()), id)
      ensures r.Err? ==> View() == old(View())
      ensures r.Ok? ==> var before := old(schedules)[id];
        View() == Apply(old(View()), Edit(
          id,
          if enabled.Some? then enabled.value else before.enabled,
          if interval.Some? then interval else before.interval))
    {
      if id >= |schedules| || schedules[id].deleted {
        return Err(ScheduleNotFound);
      }
      if interval.Some? {
        schedules := schedules[id := schedules[id].(interval := interval)];
      }
      if enabled.Some? {
        schedules := schedules[id := schedules[id].(enabled := enabled.value)];
      }
      return Ok(());
    }

    method DeleteSchedule(id: nat) returns (r: Result<(), ScheduleError>)
      modifies this`schedules
      ensures r == Err(ScheduleNotFound) <==> !Exists(old(View()), id)
      ensures r.Err? ==> View() == old(View())
      ensures r.Ok? ==> View() == Apply(old(View()), Delete(id))
    {
      if id >= |schedules| || schedules[id].deleted {
        return Err(ScheduleNotFound);
      }
      schedules := schedules[id := schedules[id].(deleted := true)];
      return Ok(());
    }

    method CreateExecution(id: nat) returns (execution: nat)
      requires id < |schedules|
      modifies this`schedules, this`executions
      ensures View() == Started(old(View()), id) && execution == |old(executions)|
    {
      execution := |executions|;
      executions := executions + [Execution(id, clock, Interval(schedules[id]), Running, None, None)];
      schedules := schedules[id := schedules[id].(lastStatus := Some(Running), lastRun := Some(clock))];
    }

    /** The rest of `_execute_schedule` once the job has returned or raised. */
    method CompleteExecution(t: nat, success: bool)
      requires Enabled(View(), Finish(t, success))
      modifies this
      ensures View() == Apply(old(View()), Finish(t, success))
    {
      var id, e := tasks[t].schedule, tasks[t].phase.execution;
      if schedules[id].deleted {
        tasks := tasks[t := tasks[t].(phase := Done)];
        return;
      }
      var completedAt := clock;
      var interval := executions[e].interval;
      var nextRun := completedAt + interval as real;
      var status := if success then Success else Failed;
      executions := executions[e := executions[e].(
        completedAt := Some(completedAt), status := status, due := Some(nextRun))];
      schedules := schedules[id := schedules[id].(
        lastStatus := Some(status), lastRun := Some(executions[e].startedAt), nextRun := Some(nextRun))];
      tasks := tasks[t := tasks[t].(phase := Done)];
    }
  }
}
