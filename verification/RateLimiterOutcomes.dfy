/** How a call of the limiter ends and how long it pauses, read off the run it took part in. */
module RateLimiterOutcomes {
  import opened Wrappers
  import opened RateLimiterProtocol
  import opened RateLimiterProofs

  // ----- the four ways to end -----

  /** One of the call's requests failed with an error that is not worth retrying. */
  ghost predicate FailsForGood(step: Step, t: nat) {
    step.Conclude? && step.t == t && step.result.Failure? && !step.result.retryable
  }

  ghost predicate SomeFailsForGood(steps: seq<Step>, t: nat) {
    exists step <- steps :: FailsForGood(step, t)
  }

  predicate FailsForNow(step: Step, t: nat) {
    step.Conclude? && step.t == t && step.result.Failure? && step.result.retryable
  }

  /** How many of the call's requests failed with an error worth retrying. */
  function Setbacks(steps: seq<Step>, t: nat): nat {
    if steps == [] then 0 else (if FailsForNow(steps[0], t) then 1 else 0) + Setbacks(steps[1..], t)
  }

  lemma {:induction false} NoStepsNoSetbacks(steps: seq<Step>, t: nat)
    requires forall step <- steps :: TaskOf(step) != Some(t)
    ensures Setbacks(steps, t) == 0
    ensures !SomeFailsForGood(steps, t) && Cancel(t) !in steps
  {
    if steps != [] {
      assert TaskOf(steps[0]) != Some(t);
      NoStepsNoSetbacks(steps[1..], t);
    }
  }

  /** What one step does to an unfinished task's end and to its retries. */
  lemma StepOutcome(c: Config, s: State, step: Step, t: nat)
    requires Enabled(s, step) && Unfinished(s, t) && s.tasks[t].attempt <= c.maxRetries
    ensures t < |Apply(c, s, step).tasks|
    ensures var phase, tried := Apply(c, s, step).tasks[t].phase, Apply(c, s, step).tasks[t].attempt;
      && (phase == Finished(Raised(false)) <==> FailsForGood(step, t))
      && (phase == Finished(Cancelled) <==> step == Cancel(t))
      && (phase == Finished(Raised(true)) <==> FailsForNow(step, t) && s.tasks[t].attempt == c.maxRetries)
      && (!phase.Finished? ==>
            tried == s.tasks[t].attempt + (if FailsForNow(step, t) then 1 else 0) && tried <= c.maxRetries)
  {
    hide BackoffDelay;
  }

  /** A call raises an error that is not worth retrying exactly when one of its requests failed so: at once. */
  lemma {:induction false} RaisesAtOnceIff(c: Config, s: State, steps: seq<Step>, t: nat)
    requires IsRun(c, s, steps) && Unfinished(s, t) && s.tasks[t].attempt <= c.maxRetries
    ensures t < |After(c, s, steps).tasks|
    ensures After(c, s, steps).tasks[t].phase == Finished(Raised(false)) <==> SomeFailsForGood(steps, t)
    ensures After(c, s, steps).tasks[t].phase == Finished(Cancelled) <==> Cancel(t) in steps
    decreases |steps|
  {
    if steps != [] {
      var s' := Apply(c, s, steps[0]);
      StepOutcome(c, s, steps[0], t);
      assert forall step :: step in steps <==> step == steps[0] || step in steps[1..];
      hide FailsForGood, FailsForNow;
      if Unfinished(s', t) {
        RaisesAtOnceIff(c, s', steps[1..], t);
      } else {
        FinishedStays(c, s', steps[1..], t);
        NoStepsNoSetbacks(steps[1..], t);
      }
    }
  }

  /**
   A call raises an error worth retrying exactly when, after the retries it has already used, so many
   of its requests failed so that none is left: the (maxRetries + 1)-th for a new call.
   */
  lemma {:induction false} RaisesWhenExhaustedIff(c: Config, s: State, steps: seq<Step>, t: nat)
    requires IsRun(c, s, steps) && Unfinished(s, t) && s.tasks[t].attempt <= c.maxRetries
    ensures t < |After(c, s, steps).tasks|
    ensures After(c, s, steps).tasks[t].phase == Finished(Raised(true))
      <==> s.tasks[t].attempt + Setbacks(steps, t) == c.maxRetries + 1
    ensures s.tasks[t].attempt + Setbacks(steps, t) <= c.maxRetries + 1
    decreases |steps|
  {
    if steps != [] {
      var s' := Apply(c, s, steps[0]);
      StepOutcome(c, s, steps[0], t);
      hide FailsForGood, FailsForNow;
      if Unfinished(s', t) {
        RaisesWhenExhaustedIff(c, s', steps[1..], t);
      } else {
        FinishedStays(c, s', steps[1..], t);
        NoStepsNoSetbacks(steps[1..], t);
      }
    }
  }

  lemma FourOutcomes(p: Phase)
    ensures p.Finished? <==>
      p == Finished(Returned) || p == Finished(Raised(false)) || p == Finished(Raised(true)) || p == Finished(Cancelled)
  {
    if p.Finished? && p.outcome.Raised? {
      assert p.outcome == Raised(p.outcome.retryable);
    }
  }

  /** So a call still under way has met only setbacks, fewer than it may, and has not been cancelled. */
  lemma UnfinishedIff(c: Config, s: State, steps: seq<Step>, t: nat)
    requires IsRun(c, s, steps) && Unfinished(s, t) && s.tasks[t].attempt <= c.maxRetries
    ensures Unfinished(After(c, s, steps), t)
      <==> Conclude(t, Success) !in steps && Cancel(t) !in steps
           && !SomeFailsForGood(steps, t)
           && s.tasks[t].attempt + Setbacks(steps, t) <= c.maxRetries
  {
    ReturnsIffARequestSucceeded(c, s, steps, t);
    RaisesAtOnceIff(c, s, steps, t);
    RaisesWhenExhaustedIff(c, s, steps, t);
    hide After, IsRun, SomeFailsForGood;
    FourOutcomes(After(c, s, steps).tasks[t].phase);
  }

  // ----- the pause before a retry -----

  /** The pause owed after the n-th request failed: the server's hint or the doubled base, cut at the cap. */
  ghost predicate PauseOwed(c: Config, n: nat, hint: Option<real>, jitter: real, pause: real)
    requires n >= 1
  {
    if hint.Some? then pause == if hint.value <= c.backoffMax then hint.value else c.backoffMax
    else
      var wanted := c.backoffBase * TwoTo(n - 1) as real + jitter;
      pause == if wanted <= c.backoffMax then wanted else c.backoffMax
  }

  function TwoTo(n: nat): nat { if n == 0 then 1 else 2 * TwoTo(n - 1) }

  lemma {:induction false} DoubledIsPower(base: real, n: nat)
    ensures Doubled(base, n) == base * TwoTo(n) as real
  {
    if n > 0 {
      DoubledIsPower(base, n - 1);
      assert base * (2.0 * TwoTo(n - 1) as real) == 2.0 * (base * TwoTo(n - 1) as real);
    }
  }

  lemma DelayIsOwed(c: Config, n: nat, hint: Option<real>, jitter: real)
    requires n >= 1
    ensures PauseOwed(c, n, hint, jitter, BackoffDelay(c, n, hint, jitter))
  {
    DoubledIsPower(c.backoffBase, n - 1);
  }

  /** Asleep until a time, or cancelled, since the request count was `calls`. */
  ghost predicate Paused(s: State, t: nat, until: real, calls: nat) {
    && t < |s.tasks| && s.tasks[t].calls == calls
    && (s.tasks[t].phase == BackingOff(until) || s.tasks[t].phase == Finished(Cancelled))
  }

  /** It has slept through, or it is still paused. */
  lemma {:induction false} PauseHolds(c: Config, s: State, steps: seq<Step>, t: nat, until: real, calls: nat)
    requires IsRun(c, s, steps) && Paused(s, t, until, calls)
    ensures After(c, s, steps).now >= until || Paused(After(c, s, steps), t, until, calls)
    decreases |steps|
  {
    if steps != [] {
      var s' := Apply(c, s, steps[0]);
      if Paused(s', t, until, calls) {
        PauseHolds(c, s', steps[1..], t, until, calls);
      } else {
        assert s'.now >= until;
        TimeNeverFalls(c, s', steps[1..]);
      }
    }
  }

  lemma {:induction false} TimeNeverFalls(c: Config, s: State, steps: seq<Step>)
    requires IsRun(c, s, steps)
    ensures After(c, s, steps).now >= s.now
    decreases |steps|
  {
    if steps != [] {
      TimeNeverFalls(c, Apply(c, s, steps[0]), steps[1..]);
    }
  }

  /**
   A call whose n-th request failed with an error worth retrying, and that has a retry left, starts no
   further request before the pause owed for the n-th failure has passed, whatever else happens.
   */
  lemma PauseIsWaitedOut(c: Config, s: State, t: nat, hint: Option<real>, jitter: real, steps: seq<Step>)
    returns (pause: real)
    requires TasksConsistent(c, s)
    requires Enabled(s, Conclude(t, Failure(true, hint, jitter))) && s.tasks[t].calls <= c.maxRetries
    requires IsRun(c, Apply(c, s, Conclude(t, Failure(true, hint, jitter))), steps)
    ensures s.tasks[t].calls >= 1 && PauseOwed(c, s.tasks[t].calls, hint, jitter, pause)
    ensures Apply(c, s, Conclude(t, Failure(true, hint, jitter))).tasks[t].phase == BackingOff(s.now + pause)
    ensures var u := After(c, Apply(c, s, Conclude(t, Failure(true, hint, jitter))), steps);
      t < |u.tasks| && (u.tasks[t].calls != s.tasks[t].calls ==> u.now >= s.now + pause)
  {
    assert TaskConsistent(c, s.now, s.tasks[t]);
    var n := s.tasks[t].calls;
    pause := BackoffDelay(c, n, hint, jitter);
    DelayIsOwed(c, n, hint, jitter);
    hide BackoffDelay, PauseOwed;
    var s' := Apply(c, s, Conclude(t, Failure(true, hint, jitter)));
    PauseHolds(c, s', steps, t, s.now + pause, n);
    TasksStay(c, s', steps);
  }

  lemma {:induction false} TasksStay(c: Config, s: State, steps: seq<Step>)
    requires IsRun(c, s, steps)
    ensures |After(c, s, steps).tasks| >= |s.tasks|
    decreases |steps|
  {
    if steps != [] {
      TasksStay(c, Apply(c, s, steps[0]), steps[1..]);
    }
  }
}
