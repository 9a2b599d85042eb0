/**
 The request queue of `AsyncRateLimiter` as a transition system.

 Any number of `execute` calls share one semaphore, one pacing lock, one timestamp and one clock.
 A task is always at one of the points where its coroutine can be suspended, and a step moves one
 task to its next such point, lets time pass, starts another call, or cancels one.  Which waiter is
 served, how long time passes and how a request ends are all left open, so a run of this system
 covers every interleaving.
 */
module RateLimiterProtocol {
  import opened Wrappers
  import opened Sums

  /** The limiter's settings after the constructor has clamped them. */
  datatype Config = Config(
    maxConcurrency: nat,
    minInterval: real,
    maxRetries: nat,
    backoffBase: real,
    backoffMax: real)
  {
    ghost predicate Valid() {
      maxConcurrency >= 1 && minInterval >= 0.0 && backoffBase >= 0.1 && backoffMax >= 1.0
    }
  }

  datatype Outcome = Returned | Raised(retryable: bool) | Cancelled

  datatype Phase =
    | Queued                 // waiting for a permit
    | AwaitingLock           // has a permit, waiting for the pacing lock
    | Measuring              // has the lock, about to read the clock
    | Pacing(wake: real)     // has the lock, asleep until `wake`
    | Stamping               // has the lock, about to record the request time
    | Calling                // the request is in flight
    | BackingOff(until: real) // asleep between two attempts
    | Finished(outcome: Outcome)

  /** `attempt` counts retries decided so far, `calls` the requests actually started. */
  datatype Task = Task(phase: Phase, attempt: nat, calls: nat)

  datatype State = State(
    now: real,
    permits: int,
    lock: Option<nat>,
    last: real,
    tasks: seq<Task>,
    starts: seq<real>)

  /** What awaiting the request can do; the jitter and the server's hint are arbitrary inputs. */
  datatype CallResult = Success | Failure(retryable: bool, retryAfter: Option<real>, jitter: real)

  datatype Step =
    | Arrive
    | Tick(elapsed: real)
    | Acquire(t: nat)
    | TakeLock(t: nat)
    | Measure(t: nat)
    | WakeFromPacing(t: nat)
    | Stamp(t: nat)
    | Conclude(t: nat, result: CallResult)
    | WakeFromBackoff(t: nat)
    | Cancel(t: nat)

  // ----- the step function -----

  function Min(a: real, b: real): real { if a <= b then a else b }

  function Doubled(base: real, times: nat): real {
    if times == 0 then base else 2.0 * Doubled(base, times - 1)
  }

  /** The pause before retry number `attempt` (1 for the first retry). */
  function BackoffDelay(c: Config, attempt: nat, retryAfter: Option<real>, jitter: real): real
    requires attempt >= 1
  {
    match retryAfter
    case Some(hint) => Min(c.backoffMax, hint)
    case None => Min(c.backoffMax, Doubled(c.backoffBase, attempt - 1) + jitter)
  }

  function Init(c: Config, clock: real): State {
    State(clock, c.maxConcurrency, None, 0.0, [], [])
  }

  predicate HoldsPermit(p: Phase) {
    p.AwaitingLock? || HoldsLock(p) || p.Calling?
  }

  predicate HoldsLock(p: Phase) {
    p.Measuring? || p.Pacing? || p.Stamping?
  }

  predicate Enabled(s: State, step: Step) {
    match step
    case Arrive => true
    case Tick(elapsed) => elapsed >= 0.0
    case Acquire(t) => t < |s.tasks| && s.tasks[t].phase.Queued? && s.permits > 0
    case TakeLock(t) => t < |s.tasks| && s.tasks[t].phase.AwaitingLock? && s.lock == None
    case Measure(t) => t < |s.tasks| && s.tasks[t].phase.Measuring?
    case WakeFromPacing(t) =>
      t < |s.tasks| && s.tasks[t].phase.Pacing? && s.tasks[t].phase.wake <= s.now
    case Stamp(t) => t < |s.tasks| && s.tasks[t].phase.Stamping?
    case Conclude(t, _) => t < |s.tasks| && s.tasks[t].phase.Calling?
    case WakeFromBackoff(t) =>
      t < |s.tasks| && s.tasks[t].phase.BackingOff? && s.tasks[t].phase.until <= s.now
    case Cancel(t) => t < |s.tasks| && !s.tasks[t].phase.Finished?
  }

  function Move(s: State, t: nat, task: Task): State
    requires t < |s.tasks|
  {
    s.(tasks := s.tasks[t := task])
  }

  function StartRequest(s: State, t: nat): State
    requires t < |s.tasks|
  {
    var task := s.tasks[t];
    Move(s, t, task.(phase := Calling, calls := task.calls + 1)).(starts := s.starts + [s.now])
  }

  function Concluded(c: Config, s: State, t: nat, result: CallResult): State
    requires t < |s.tasks|
  {
    var task := s.tasks[t];
    var released := s.(permits := s.permits + 1);
    match result
    case Success => Move(released, t, task.(phase := Finished(Returned)))
    case Failure(retryable, retryAfter, jitter) =>
      if !retryable || task.attempt >= c.maxRetries then
        Move(released, t, task.(phase := Finished(Raised(retryable))))
      else
        var attempt := task.attempt + 1;
        var delay := BackoffDelay(c, attempt, retryAfter, jitter);
        Move(released, t, task.(phase := BackingOff(s.now + delay), attempt := attempt))
  }

  function Apply(c: Config, s: State, step: Step): State
    requires Enabled(s, step)
  {
    match step
    case Arrive => s.(tasks := s.tasks + [Task(Queued, 0, 0)])
    case Tick(elapsed) => s.(now := s.now + elapsed)
    case Acquire(t) =>
      var taken := s.(permits := s.permits - 1);
      if c.minInterval <= 0.0 then StartRequest(taken, t)
      else Move(taken, t, s.tasks[t].(phase := AwaitingLock))
    case TakeLock(t) => Move(s, t, s.tasks[t].(phase := Measuring)).(lock := Some(t))
    case Measure(t) =>
      var elapsed := s.now - s.last;
      if elapsed < c.minInterval then
        Move(s, t, s.tasks[t].(phase := Pacing(s.now + (c.minInterval - elapsed))))
      else Move(s, t, s.tasks[t].(phase := Stamping))
    case WakeFromPacing(t) => Move(s, t, s.tasks[t].(phase := Stamping))
    case Stamp(t) => StartRequest(s.(last := s.now, lock := None), t)
    case Conclude(t, result) => Concluded(c, s, t, result)
    case WakeFromBackoff(t) => Move(s, t, s.tasks[t].(phase := Queued))
    case Cancel(t) =>
      var p := s.tasks[t].phase;
      Move(s, t, s.tasks[t].(phase := Finished(Cancelled))).(
        permits := if HoldsPermit(p) then s.permits + 1 else s.permits,
        lock := if HoldsLock(p) then None else s.lock)
  }

  // ----- runs -----

  ghost predicate IsRun(c: Config, s: State, steps: seq<Step>)
    decreases |steps|
  {
    steps == [] || (Enabled(s, steps[0]) && IsRun(c, Apply(c, s, steps[0]), steps[1..]))
  }

  ghost function After(c: Config, s: State, steps: seq<Step>): State
    requires IsRun(c, s, steps)
    decreases |steps|
  {
    if steps == [] then s else After(c, Apply(c, s, steps[0]), steps[1..])
  }

  // ----- what every step keeps -----

  function PermitUse(t: Task): int { if HoldsPermit(t.phase) then 1 else 0 }

  function InFlightUse(t: Task): int { if t.phase.Calling? then 1 else 0 }

  /** Free permits plus permit holders is always the configured maximum. */
  ghost predicate PermitsConserved(c: Config, s: State) {
    s.permits >= 0 && s.permits + Total(PermitUse, s.tasks) == c.maxConcurrency
  }

  /** The lock field names exactly the task whose phase is inside the locked region. */
  ghost predicate LockConsistent(s: State) {
    && (s.lock.Some? ==> s.lock.value < |s.tasks|)
    && forall t :: 0 <= t < |s.tasks| ==> (HoldsLock(s.tasks[t].phase) <==> s.lock == Some(t))
  }

  ghost predicate Spaced(gap: real, starts: seq<real>) {
    forall i :: 0 < i < |starts| ==> starts[i] - starts[i - 1] >= gap
  }

  /** The recorded starts are spaced, in the past, and end at the shared timestamp. */
  ghost predicate StartsConsistent(c: Config, s: State) {
    && Spaced(c.minInterval, s.starts)
    && (s.starts != [] ==>
          s.starts[|s.starts| - 1] <= s.now
          && (c.minInterval > 0.0 ==> s.last == s.starts[|s.starts| - 1]))
  }

  /** A task about to stamp has waited out the interval since the shared timestamp. */
  ghost predicate WaitsConsistent(c: Config, s: State) {
    forall t :: 0 <= t < |s.tasks| ==> match s.tasks[t].phase
      case Pacing(wake) => c.minInterval > 0.0 && wake == s.last + c.minInterval
      case Stamping => c.minInterval > 0.0 && s.now >= s.last + c.minInterval
      case AwaitingLock => c.minInterval > 0.0
      case Measuring => c.minInterval > 0.0
      case _ => true
  }

  /** What one task's counters can be at each phase. */
  ghost predicate TaskConsistent(c: Config, now: real, t: Task) {
    && t.attempt <= c.maxRetries
    && match t.phase
       case Calling => t.calls == t.attempt + 1
       case BackingOff(until) => t.calls == t.attempt && until <= now + c.backoffMax
       case Finished(Returned) => t.calls == t.attempt + 1
       case Finished(Raised(retryable)) =>
         t.calls == t.attempt + 1 && (retryable ==> t.attempt == c.maxRetries)
       case Finished(Cancelled) => t.calls <= t.attempt + 1
       case _ => t.calls == t.attempt
  }

  ghost predicate TasksConsistent(c: Config, s: State) {
    forall t :: 0 <= t < |s.tasks| ==> TaskConsistent(c, s.now, s.tasks[t])
  }

  function CallsOf(t: Task): int { t.calls }

  ghost predicate Inv(c: Config, s: State) {
    && PermitsConserved(c, s)
    && LockConsistent(s)
    && StartsConsistent(c, s)
    && WaitsConsistent(c, s)
    && TasksConsistent(c, s)
    && |s.starts| == Total(CallsOf, s.tasks)
  }
}
