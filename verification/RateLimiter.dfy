/**
 `AsyncRateLimiter` itself.  The coroutine `execute` is cut at its suspension points: each method is
 what runs between two of them, updates the limiter's fields in place, and is proved to take
 exactly one step of the protocol.
 */
module RateLimiter {
  import opened Wrappers
  import opened RateLimiterProtocol
  import opened RateLimiterProofs

  function MaxInt(a: int, b: int): int { if a >= b then a else b }

  function MaxReal(a: real, b: real): real { if a >= b then a else b }

  /** Each setting is the caller's value, or exactly its minimum where the caller's is smaller. */
  ghost predicate KeepsArguments(c: Config, maxConcurrency: int, minInterval: real, maxRetries: int,
                                 backoffBase: real, backoffMax: real)
  {
    && (c.maxConcurrency == if maxConcurrency < 1 then 1 else maxConcurrency)
    && (c.minInterval == if minInterval < 0.0 then 0.0 else minInterval)
    && (c.maxRetries == if maxRetries < 0 then 0 else maxRetries)
    && (c.backoffBase == if backoffBase < 0.1 then 0.1 else backoffBase)
    && (c.backoffMax == if backoffMax < 1.0 then 1.0 else backoffMax)
  }

  class AsyncRateLimiter {
    const settings: Config

    var clock: real
    var semaphoreValue: int
    var pacingLock: Option<nat>
    var lastRequestTime: real
    var callers: seq<Task>
    ghost var starts: seq<real>

    ghost function View(): State
      reads this
    {
      State(clock, semaphoreValue, pacingLock, lastRequestTime, callers, starts)
    }

    ghost predicate Valid()
      reads this
    {
      settings.Valid() && Inv(settings, View())
    }

    constructor (now: real, maxConcurrency: int, minInterval: real, maxRetries: int,
                 backoffBase: real, backoffMax: real)
      ensures Valid() && View() == Init(settings, now)
      ensures KeepsArguments(settings, maxConcurrency, minInterval, maxRetries, backoffBase, backoffMax)
    {
      settings := Config(MaxInt(1, maxConcurrency), MaxReal(0.0, minInterval), MaxInt(0, maxRetries),
                         MaxReal(0.1, backoffBase), MaxReal(1.0, backoffMax));
      clock := now;
      semaphoreValue := MaxInt(1, maxConcurrency);
      pacingLock := None;
      lastRequestTime := 0.0;
      callers := [];
      starts := [];
      new;
      InitEstablishesInvariant(settings, now);
    }

    /** A new `execute` call; the result identifies it. */
    method Execute() returns (t: nat)
      requires Valid()
      modifies this
      ensures Valid() && View() == Apply(settings, old(View()), Arrive)
      ensures Unfinished(View(), t)
    {
      StepKeepsInvariant(settings, View(), Arrive);
      t := |callers|;
      callers := callers + [Task(Queued, 0, 0)];
    }

    method Advance(elapsed: real)
      requires Valid() && elapsed >= 0.0
      modifies this
      ensures Valid() && View() == Apply(settings, old(View()), Tick(elapsed))
    {
      StepKeepsInvariant(settings, View(), Tick(elapsed));
      clock := clock + elapsed;
    }

    /** Entering `async with self._semaphore`, and `_pace` up to the lock. */
    method AcquirePermit(t: nat)
      requires Valid() && Enabled(View(), Acquire(t))
      modifies this
      ensures Valid() && View() == Apply(settings, old(View()), Acquire(t))
    {
      StepKeepsInvariant(settings, View(), Acquire(t));
      semaphoreValue := semaphoreValue - 1;
      if settings.minInterval <= 0.0 {
        SendRequest(t);
      } else {
        callers := callers[t := callers[t].(phase := AwaitingLock)];
      }
    }

    method TakePacingLock(t: nat)
      requires Valid() && Enabled(View(), TakeLock(t))
      modifies this
      ensures Valid() && View() == Apply(settings, old(View()), TakeLock(t))
    {
      StepKeepsInvariant(settings, View(), TakeLock(t));
      pacingLock := Some(t);
      callers := callers[t := callers[t].(phase := Measuring)];
    }

    /** Read the clock and decide whether to sleep. */
    method MeasureGap(t: nat)
      requires Valid() && Enabled(View(), Measure(t))
      modifies this
      ensures Valid() && View() == Apply(settings, old(View()), Measure(t))
    {
      StepKeepsInvariant(settings, View(), Measure(t));
      var elapsed := clock - lastRequestTime;
      if elapsed < settings.minInterval {
        var delay := settings.minInterval - elapsed;
        callers := callers[t := callers[t].(phase := Pacing(clock + delay))];
      } else {
        callers := callers[t := callers[t].(phase := Stamping)];
      }
    }

    method FinishPacingSleep(t: nat)
      requires Valid() && Enabled(View(), WakeFromPacing(t))
      modifies this
      ensures Valid() && View() == Apply(settings, old(View()), WakeFromPacing(t))
    {
      StepKeepsInvariant(settings, View(), WakeFromPacing(t));
      callers := callers[t := callers[t].(phase := Stamping)];
    }

    /** Record the request time, release the lock and start the request: no await lies between. */
    method StampAndCall(t: nat)
      requires Valid() && Enabled(View(), Stamp(t))
      modifies this
      ensures Valid() && View() == Apply(settings, old(View()), Stamp(t))
    {
      StepKeepsInvariant(settings, View(), Stamp(t));
      lastRequestTime := clock;
      pacingLock := None;
      SendRequest(t);
    }

    method SendRequest(t: nat)
      requires t < |callers|
      modifies this`callers, this`starts
      ensures View() == StartRequest(old(View()), t)
    {
      callers := callers[t := callers[t].(phase := Calling, calls := callers[t].calls + 1)];
      starts := starts + [clock];
    }

    /** The awaited request returned or raised; leaving the `async with` releases the permit. */
    method ConcludeCall(t: nat, result: CallResult)
      requires Valid() && Enabled(View(), Conclude(t, result))
      modifies this
      ensures Valid() && View() == Apply(settings, old(View()), Conclude(t, result))
    {
      hide Inv, BackoffDelay;
      StepKeepsInvariant(settings, View(), Conclude(t, result));
      var attempt := callers[t].attempt;
      match result {
        case Success =>
          callers := callers[t := callers[t].(phase := Finished(Returned))];
        case Failure(retryable, retryAfter, jitter) =>
          if !retryable || attempt >= settings.maxRetries {
            callers := callers[t := callers[t].(phase := Finished(Raised(retryable)))];
          } else {
            attempt := attempt + 1;
            var delay := BackoffDelay(settings, attempt, retryAfter, jitter);
            callers := callers[t := callers[t].(phase := BackingOff(clock + delay), attempt := attempt)];
          }
      }
      semaphoreValue := semaphoreValue + 1;
    }

    method FinishBackoff(t: nat)
      requires Valid() && Enabled(View(), WakeFromBackoff(t))
      modifies this
      ensures Valid() && View() == Apply(settings, old(View()), WakeFromBackoff(t))
    {
      StepKeepsInvariant(settings, View(), WakeFromBackoff(t));
      callers := callers[t := callers[t].(phase := Queued)];
    }

    /** Cancellation unwinds whichever `async with` blocks the task is inside. */
    method CancelCall(t: nat)
      requires Valid() && Enabled(View(), Cancel(t))
      modifies this
      ensures Valid() && View() == Apply(settings, old(View()), Cancel(t))
    {
      StepKeepsInvariant(settings, View(), Cancel(t));
      var phase := callers[t].phase;
      callers := callers[t := callers[t].(phase := Finished(Cancelled))];
      if HoldsLock(phase) {
        pacingLock := None;
      }
      if HoldsPermit(phase) {
        semaphoreValue := semaphoreValue + 1;
      }
    }
  }

  /** The module-level registry behind `get_shared_rate_limiter`. */
  class LimiterRegistry {
    var limiters: map<string, AsyncRateLimiter>

    constructor ()
      ensures limiters == map[]
    {
      limiters := map[];
    }

    /** One limiter per key: the first caller's settings win and later ones are ignored. */
    method GetShared(key: string, now: real, maxConcurrency: int, minInterval: real, maxRetries: int,
                     backoffBase: real, backoffMax: real) returns (limiter: AsyncRateLimiter)
      modifies this
      ensures key in limiters && limiters[key] == limiter
      ensures key in old(limiters) ==> limiters == old(limiters)
      ensures key !in old(limiters) ==>
        limiters == old(limiters)[key := limiter] && fresh(limiter)
        && limiter.Valid() && limiter.View() == Init(limiter.settings, now)
        && KeepsArguments(limiter.settings, maxConcurrency, minInterval, maxRetries, backoffBase, backoffMax)
    {
      if key !in limiters {
        var created := new AsyncRateLimiter(
          now, maxConcurrency, minInterval, maxRetries, backoffBase, backoffMax);
        limiters := limiters[key := created];
      }
      limiter := limiters[key];
    }

    method Reset()
      modifies this
      ensures limiters == map[]
    {
      limiters := map[];
    }
  }
}
