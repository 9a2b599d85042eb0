/** Safety, progress, termination and rate bounds of the limiter, over all runs. */
module RateLimiterProofs {
  import opened Wrappers
  import opened Sums
  import opened RateLimiterProtocol

  // ----- every step keeps the invariant -----

  lemma InitEstablishesInvariant(c: Config, clock: real)
    requires c.Valid()
    ensures Inv(c, Init(c, clock))
  {}

  lemma MoveKeepsTotals(s: State, t: nat, task: Task)
    requires t < |s.tasks|
    ensures Total(PermitUse, s.tasks[t := task])
         == Total(PermitUse, s.tasks) - PermitUse(s.tasks[t]) + PermitUse(task)
    ensures Total(CallsOf, s.tasks[t := task])
         == Total(CallsOf, s.tasks) - s.tasks[t].calls + task.calls
  {
    TotalUpdate(PermitUse, s.tasks, t, task);
    TotalUpdate(CallsOf, s.tasks, t, task);
  }

  function TaskOf(step: Step): Option<nat> {
    match step
    case Arrive => None
    case Tick(_) => None
    case Acquire(t) => Some(t)
    case TakeLock(t) => Some(t)
    case Measure(t) => Some(t)
    case WakeFromPacing(t) => Some(t)
    case Stamp(t) => Some(t)
    case Conclude(t, _) => Some(t)
    case WakeFromBackoff(t) => Some(t)
    case Cancel(t) => Some(t)
  }

  lemma StepMovesOneTask(c: Config, s: State, step: Step)
    requires Enabled(s, step)
    ensures var tasks, tasks' := s.tasks, Apply(c, s, step).tasks;
      match TaskOf(step)
      case None => tasks' == if step.Arrive? then tasks + [Task(Queued, 0, 0)] else tasks
      case Some(t) => t < |tasks| == |tasks'| && tasks' == tasks[t := tasks'[t]]
  {
    hide BackoffDelay;
  }

  lemma StepKeepsPermits(c: Config, s: State, step: Step)
    requires PermitsConserved(c, s) && Enabled(s, step)
    ensures PermitsConserved(c, Apply(c, s, step))
  {
    hide BackoffDelay, Total;
    var s' := Apply(c, s, step);
    match TaskOf(step)
    case None =>
      if step.Arrive? {
        TotalPush(PermitUse, s.tasks, Task(Queued, 0, 0));
      }
    case Some(t) =>
      assert s'.tasks == s.tasks[t := s'.tasks[t]];
      MoveKeepsTotals(s, t, s'.tasks[t]);
  }

  lemma StepKeepsCalls(c: Config, s: State, step: Step)
    requires |s.starts| == Total(CallsOf, s.tasks) && Enabled(s, step)
    ensures |Apply(c, s, step).starts| == Total(CallsOf, Apply(c, s, step).tasks)
  {
    hide BackoffDelay, Total;
    var s' := Apply(c, s, step);
    match TaskOf(step)
    case None =>
      if step.Arrive? {
        TotalPush(CallsOf, s.tasks, Task(Queued, 0, 0));
      }
    case Some(t) =>
      assert s'.tasks == s.tasks[t := s'.tasks[t]];
      MoveKeepsTotals(s, t, s'.tasks[t]);
  }

  lemma StepKeepsLock(c: Config, s: State, step: Step)
    requires LockConsistent(s) && Enabled(s, step)
    ensures LockConsistent(Apply(c, s, step))
  {
    var s' := Apply(c, s, step);
    hide BackoffDelay;
    assert forall t :: TaskOf(step) == Some(t) ==> (HoldsLock(s.tasks[t].phase) <==> s.lock == Some(t));
    forall t | 0 <= t < |s'.tasks|
      ensures HoldsLock(s'.tasks[t].phase) <==> s'.lock == Some(t)
    {
      assert t < |s.tasks| ==> (HoldsLock(s.tasks[t].phase) <==> s.lock == Some(t));
    }
  }

  lemma StepKeepsStarts(c: Config, s: State, step: Step)
    requires c.Valid() && StartsConsistent(c, s) && WaitsConsistent(c, s) && Enabled(s, step)
    ensures StartsConsistent(c, Apply(c, s, step))
  {
    hide BackoffDelay;
    var s' := Apply(c, s, step);
    if s'.starts != s.starts {
      assert s'.starts == s.starts + [s.now];
      assert s.starts != [] ==> s.now - s.starts[|s.starts| - 1] >= c.minInterval;
    }
  }

  lemma StepKeepsWaits(c: Config, s: State, step: Step)
    requires LockConsistent(s) && WaitsConsistent(c, s) && Enabled(s, step)
    ensures WaitsConsistent(c, Apply(c, s, step))
  {
    hide BackoffDelay;
    // Only a stamp moves the timestamp, and only the lock holder stamps: nobody else is waiting on it.
    assert forall t :: TaskOf(step) == Some(t) ==> (HoldsLock(s.tasks[t].phase) <==> s.lock == Some(t));
  }

  lemma MovedTaskIsConsistent(c: Config, s: State, step: Step, t: nat)
    requires Enabled(s, step) && TaskOf(step) == Some(t) && TaskConsistent(c, s.now, s.tasks[t])
    ensures t < |Apply(c, s, step).tasks|
    ensures TaskConsistent(c, Apply(c, s, step).now, Apply(c, s, step).tasks[t])
  {}

  lemma StepKeepsTasks(c: Config, s: State, step: Step)
    requires TasksConsistent(c, s) && Enabled(s, step)
    ensures TasksConsistent(c, Apply(c, s, step))
  {
    var s' := Apply(c, s, step);
    StepMovesOneTask(c, s, step);
    assert s'.now >= s.now;
    hide Apply;
    forall t | 0 <= t < |s'.tasks|
      ensures TaskConsistent(c, s'.now, s'.tasks[t])
    {
      assert t < |s.tasks| ==> TaskConsistent(c, s.now, s.tasks[t]);
      if TaskOf(step) == Some(t) {
        MovedTaskIsConsistent(c, s, step, t);
      }
    }
  }

  lemma StepKeepsInvariant(c: Config, s: State, step: Step)
    requires c.Valid() && Inv(c, s) && Enabled(s, step)
    ensures Inv(c, Apply(c, s, step))
  {
    StepKeepsPermits(c, s, step);
    StepKeepsCalls(c, s, step);
    StepKeepsLock(c, s, step);
    StepKeepsStarts(c, s, step);
    StepKeepsWaits(c, s, step);
    StepKeepsTasks(c, s, step);
  }

  lemma {:induction false} RunKeepsInvariant(c: Config, s: State, steps: seq<Step>)
    requires c.Valid() && Inv(c, s) && IsRun(c, s, steps)
    ensures Inv(c, After(c, s, steps))
    decreases |steps|
  {
    if steps != [] {
      StepKeepsInvariant(c, s, steps[0]);
      RunKeepsInvariant(c, Apply(c, s, steps[0]), steps[1..]);
    }
  }

  // ----- safety over whole runs -----

  ghost function Those(s: State, held: Phase -> bool): set<nat> {
    set t: nat | t < |s.tasks| && held(s.tasks[t].phase)
  }

  lemma OneMoreHolder(tasks: seq<Task>, n: nat, held: Phase -> bool)
    requires |tasks| == n + 1
    ensures |set t: nat | t < |tasks| && held(tasks[t].phase)|
         == |set t: nat | t < |tasks[..n]| && held(tasks[..n][t].phase)| + if held(tasks[n].phase) then 1 else 0
  {
    var before := set t: nat | t < |tasks[..n]| && held(tasks[..n][t].phase);
    var all := set t: nat | t < |tasks| && held(tasks[t].phase);
    assert all == if held(tasks[n].phase) then before + {n} else before;
  }

  lemma {:induction false} UseIsCardinality(tasks: seq<Task>, use: Task -> int, held: Phase -> bool)
    requires forall t <- tasks :: use(t) == if held(t.phase) then 1 else 0
    ensures Total(use, tasks) == |set t: nat | t < |tasks| && held(tasks[t].phase)|
  {
    if tasks != [] {
      hide Total;
      var n := |tasks| - 1;
      var front := tasks[..n];
      assert tasks == front + [tasks[n]];
      UseIsCardinality(front, use, held);
      TotalPush(use, front, tasks[n]);
      OneMoreHolder(tasks, n, held);
    }
  }

  predicate InFlight(p: Phase) { p.Calling? }

  /**
   Every run from a fresh limiter: permits are conserved, so at most `maxConcurrency` requests are in
   flight; at most one task is inside the pacing region; a task in backoff holds nothing; and no
   task starts more than `maxRetries + 1` requests.
   */
  lemma SafeOverRuns(c: Config, clock: real, steps: seq<Step>)
    requires c.Valid() && IsRun(c, Init(c, clock), steps)
    ensures var s := After(c, Init(c, clock), steps);
      && s.permits >= 0
      && s.permits + |Those(s, HoldsPermit)| == c.maxConcurrency
      && |Those(s, InFlight)| <= c.maxConcurrency
      && Those(s, HoldsLock) <= Those(s, HoldsPermit)
      && (forall t, u :: t in Those(s, HoldsLock) && u in Those(s, HoldsLock) ==> t == u)
      && (forall t :: 0 <= t < |s.tasks| ==> s.tasks[t].calls <= c.maxRetries + 1)
      && (forall t :: 0 <= t < |s.tasks| && s.tasks[t].phase == Finished(Raised(true)) ==>
            s.tasks[t].calls == c.maxRetries + 1)
      && (forall t :: 0 <= t < |s.tasks| && s.tasks[t].phase.BackingOff? ==>
            t !in Those(s, HoldsPermit) && s.tasks[t].phase.until <= s.now + c.backoffMax)
  {
    hide After, IsRun, Apply, StartsConsistent, WaitsConsistent;
    InitEstablishesInvariant(c, clock);
    RunKeepsInvariant(c, Init(c, clock), steps);
    var s := After(c, Init(c, clock), steps);
    UseIsCardinality(s.tasks, PermitUse, HoldsPermit);
    UseIsCardinality(s.tasks, InFlightUse, InFlight);
    TotalAtMost(InFlightUse, PermitUse, s.tasks);
    assert forall t :: 0 <= t < |s.tasks| ==> TaskConsistent(c, s.now, s.tasks[t]);
  }

  // ----- the rate bound -----

  lemma {:induction false} SpacedStartsSpread(gap: real, starts: seq<real>, i: nat, j: nat)
    requires Spaced(gap, starts) && i <= j < |starts|
    ensures starts[j] - starts[i] >= (j - i) as real * gap
    decreases j - i
  {
    if i < j {
      SpacedStartsSpread(gap, starts, i, j - 1);
      assert (j - i) as real * gap == (j - 1 - i) as real * gap + gap;
    }
  }

  /** The i-th and j-th request of any run start at least (j - i) intervals apart. */
  lemma StartsAreSpaced(c: Config, clock: real, steps: seq<Step>, i: nat, j: nat)
    requires c.Valid() && IsRun(c, Init(c, clock), steps)
    requires i <= j < |After(c, Init(c, clock), steps).starts|
    ensures var starts := After(c, Init(c, clock), steps).starts;
      starts[j] - starts[i] >= (j - i) as real * c.minInterval
  {
    InitEstablishesInvariant(c, clock);
    RunKeepsInvariant(c, Init(c, clock), steps);
    SpacedStartsSpread(c.minInterval, After(c, Init(c, clock), steps).starts, i, j);
  }

  /** No window of length `window` contains more than floor(window / minInterval) + 1 starts. */
  lemma WindowHoldsFewStarts(c: Config, clock: real, steps: seq<Step>, i: nat, j: nat, window: real)
    requires c.Valid() && c.minInterval > 0.0 && IsRun(c, Init(c, clock), steps)
    requires i <= j < |After(c, Init(c, clock), steps).starts|
    requires var starts := After(c, Init(c, clock), steps).starts; starts[j] - starts[i] <= window
    ensures j - i + 1 <= (window / c.minInterval).Floor + 1
  {
    StartsAreSpaced(c, clock, steps, i, j);
    var n := (j - i) as real;
    assert n * c.minInterval <= window;
    DivideBound(n, c.minInterval, window);
  }

  lemma DivideBound(n: real, gap: real, window: real)
    requires gap > 0.0 && n * gap <= window
    ensures n <= window / gap
  {
    assert n == (n * gap) / gap <= window / gap;
  }

  // ----- progress and termination -----

  lemma {:induction false} SomeTaskUsesAPermit(tasks: seq<Task>) returns (t: nat)
    requires Total(PermitUse, tasks) > 0
    ensures t < |tasks| && HoldsPermit(tasks[t].phase)
  {
    if HoldsPermit(tasks[0].phase) {
      t := 0;
    } else {
      var u := SomeTaskUsesAPermit(tasks[1..]);
      t := u + 1;
    }
  }

  ghost predicate Unfinished(s: State, t: nat) {
    t < |s.tasks| && !s.tasks[t].phase.Finished?
  }

  /** The step a task outside both queues takes next, and how long it must wait before it can. */
  function OwnWait(s: State, t: nat): real
    requires t < |s.tasks|
  {
    match s.tasks[t].phase
    case Pacing(wake) => if wake <= s.now then 0.0 else wake - s.now
    case BackingOff(until) => if until <= s.now then 0.0 else until - s.now
    case _ => 0.0
  }

  function OwnStep(s: State, t: nat): Step
    requires t < |s.tasks|
  {
    match s.tasks[t].phase
    case Queued => Acquire(t)
    case AwaitingLock => TakeLock(t)
    case Measuring => Measure(t)
    case Pacing(_) => WakeFromPacing(t)
    case Stamping => Stamp(t)
    case Calling => Conclude(t, Success)
    case BackingOff(_) => WakeFromBackoff(t)
    case Finished(_) => Cancel(t)
  }

  /**
   No deadlock.  An unfinished task can always move once some time has passed, unless it is queued
   for a permit or for the lock; then some permit holder `u` can move.  So waiting never forms a
   cycle, whichever waiter the queues serve next.
   */
  lemma Progress(c: Config, s: State, t: nat) returns (wait: real, u: nat)
    requires c.Valid() && Inv(c, s) && Unfinished(s, t)
    ensures wait >= 0.0 && Unfinished(s, u) && Enabled(s, Tick(wait))
    ensures Enabled(Apply(c, s, Tick(wait)), OwnStep(s, u))
    ensures u == t
         || (s.tasks[t].phase.Queued? && HoldsPermit(s.tasks[u].phase))
         || (s.tasks[t].phase.AwaitingLock? && HoldsLock(s.tasks[u].phase))
  {
    u := t;
    if s.tasks[u].phase.Queued? && s.permits == 0 {
      u := SomeTaskUsesAPermit(s.tasks);
    }
    if s.tasks[u].phase.AwaitingLock? && s.lock.Some? {
      u := s.lock.value;
    }
    wait := OwnWait(s, u);
  }

  function Rank(p: Phase): nat {
    match p
    case BackingOff(_) => 8
    case Queued => 7
    case AwaitingLock => 6
    case Measuring => 5
    case Pacing(_) => 4
    case Stamping => 3
    case Calling => 2
    case Finished(_) => 0
  }

  /** How many more moves a task can make at most. */
  function Work(c: Config, t: Task): int {
    if t.phase.Finished? then 0 else 8 * (c.maxRetries - t.attempt) + Rank(t.phase)
  }

  function WorkOf(c: Config): Task -> int { t => Work(c, t) }

  function TaskMoves(steps: seq<Step>): nat {
    if steps == [] then 0 else (if TaskOf(steps[0]).Some? then 1 else 0) + TaskMoves(steps[1..])
  }

  lemma MoveUsesWork(c: Config, s: State, step: Step, t: nat)
    requires Enabled(s, step) && TaskOf(step) == Some(t) && TaskConsistent(c, s.now, s.tasks[t])
    ensures t < |Apply(c, s, step).tasks|
    ensures Work(c, Apply(c, s, step).tasks[t]) + 1 <= Work(c, s.tasks[t])
  {
    hide BackoffDelay;
  }

  lemma TaskMoveUsesWork(c: Config, s: State, step: Step)
    requires Inv(c, s) && Enabled(s, step) && !step.Arrive?
    ensures Total(WorkOf(c), Apply(c, s, step).tasks) + (if TaskOf(step).Some? then 1 else 0)
         <= Total(WorkOf(c), s.tasks)
  {
    var s' := Apply(c, s, step);
    StepMovesOneTask(c, s, step);
    hide Apply, Total, Work;
    match TaskOf(step)
    case None =>
    case Some(t) =>
      assert TaskConsistent(c, s.now, s.tasks[t]);
      MoveUsesWork(c, s, step, t);
      TotalUpdate(WorkOf(c), s.tasks, t, s'.tasks[t]);
  }

  /**
   Every run terminates: once no new call arrives, the tasks together make at most as many moves as
   their remaining work, however time passes and however the requests end.
   */
  lemma {:induction false} RunsTerminate(c: Config, s: State, steps: seq<Step>)
    requires c.Valid() && Inv(c, s) && IsRun(c, s, steps)
    requires forall step <- steps :: !step.Arrive?
    ensures TaskMoves(steps) + Total(WorkOf(c), After(c, s, steps).tasks) <= Total(WorkOf(c), s.tasks)
    decreases |steps|
  {
    if steps != [] {
      TaskMoveUsesWork(c, s, steps[0]);
      StepKeepsInvariant(c, s, steps[0]);
      RunsTerminate(c, Apply(c, s, steps[0]), steps[1..]);
    }
  }

  lemma {:induction false} WorkIsNonNegative(c: Config, now: real, tasks: seq<Task>)
    requires forall t :: 0 <= t < |tasks| ==> TaskConsistent(c, now, tasks[t])
    ensures Total(WorkOf(c), tasks) >= 0
    ensures Total(WorkOf(c), tasks) == 0 ==> forall t :: 0 <= t < |tasks| ==> tasks[t].phase.Finished?
  {
    if tasks != [] {
      assert TaskConsistent(c, now, tasks[0]);
      forall t | 0 <= t < |tasks[1..]| ensures TaskConsistent(c, now, tasks[1..][t]) {
        assert tasks[1..][t] == tasks[t + 1];
      }
      WorkIsNonNegative(c, now, tasks[1..]);
      assert forall t :: 0 < t < |tasks| ==> tasks[t] == tasks[1..][t - 1];
    }
  }

  /** From a state the limiter can reach, its remaining work bounds the moves of every later run. */
  lemma MovesAreBounded(c: Config, s: State, steps: seq<Step>)
    requires c.Valid() && Inv(c, s) && IsRun(c, s, steps)
    requires forall step <- steps :: !step.Arrive?
    ensures TaskMoves(steps) <= Total(WorkOf(c), s.tasks)
    ensures TaskMoves(steps) == Total(WorkOf(c), s.tasks) ==>
      forall t :: 0 <= t < |After(c, s, steps).tasks| ==> After(c, s, steps).tasks[t].phase.Finished?
  {
    RunsTerminate(c, s, steps);
    RunKeepsInvariant(c, s, steps);
    WorkIsNonNegative(c, After(c, s, steps).now, After(c, s, steps).tasks);
  }

  // ----- how a call ends -----

  lemma {:induction false} FinishedStays(c: Config, s: State, steps: seq<Step>, t: nat)
    requires IsRun(c, s, steps) && t < |s.tasks| && s.tasks[t].phase.Finished?
    ensures t < |After(c, s, steps).tasks| && After(c, s, steps).tasks[t] == s.tasks[t]
    ensures forall step <- steps :: TaskOf(step) != Some(t)
    decreases |steps|
  {
    if steps != [] {
      FinishedStays(c, Apply(c, s, steps[0]), steps[1..], t);
    }
  }

  /** A call returns exactly when one of its own requests has succeeded, in any run. */
  lemma {:induction false} ReturnsIffARequestSucceeded(c: Config, s: State, steps: seq<Step>, t: nat)
    requires IsRun(c, s, steps) && Unfinished(s, t)
    ensures t < |After(c, s, steps).tasks|
    ensures After(c, s, steps).tasks[t].phase == Finished(Returned) <==> Conclude(t, Success) in steps
    decreases |steps|
  {
    if steps != [] {
      var s' := Apply(c, s, steps[0]);
      assert Conclude(t, Success) in steps <==>
        steps[0] == Conclude(t, Success) || Conclude(t, Success) in steps[1..];
      if Unfinished(s', t) {
        ReturnsIffARequestSucceeded(c, s', steps[1..], t);
      } else {
        FinishedStays(c, s', steps[1..], t);
      }
    }
  }

  // ----- backoff -----

  lemma {:induction false} DoublingGrows(base: real, m: nat, n: nat)
    requires base >= 0.0 && m <= n
    ensures base <= Doubled(base, m) <= Doubled(base, n)
    decreases n
  {
    if n > 0 {
      DoublingGrows(base, if m == n then m - 1 else m, n - 1);
      if m == n {
        DoublingGrows(base, 0, n - 1);
      }
    }
  }

  /**
   A pause never exceeds the cap.  A server hint below the cap is obeyed exactly; without a hint the
   pause starts from the base, shrinks from one retry to a later one only if a smaller jitter is
   drawn, and, before it reaches the cap, doubles up to the jitter.
   */
  lemma BackoffIsBounded(c: Config, m: nat, n: nat, hint: Option<real>, jitter: real, later: real)
    requires c.Valid() && 1 <= m <= n && 0.0 <= jitter <= later
    ensures BackoffDelay(c, n, hint, jitter) <= c.backoffMax
    ensures hint.Some? && hint.value <= c.backoffMax ==> BackoffDelay(c, n, hint, jitter) == hint.value
    ensures hint.None? ==>
      Min(c.backoffMax, c.backoffBase) <= BackoffDelay(c, m, hint, jitter) <= BackoffDelay(c, n, hint, later)
    ensures hint.None? && BackoffDelay(c, n + 1, None, later) < c.backoffMax ==>
      BackoffDelay(c, n + 1, None, later) - later == 2.0 * (BackoffDelay(c, n, None, jitter) - jitter)
  {
    DoublingGrows(c.backoffBase, m - 1, n - 1);
    DoublingGrows(c.backoffBase, n - 1, n);
  }
}
