/**
 Running an investigation: searches, then one step after another, then a report; whatever raises
 along the way turns it into a failed investigation with every unfinished step failed.
 */
module Investigation {
  import opened Wrappers

  datatype Status = Pending | Running | Completed | Failed

  datatype StepKind = SourceSearch | ClaimExtraction | NarrativeComparison | OtherKind

  datatype Comparison = Comparison(supports: nat, contradicts: nat, confidence: real)

  /** What the three searches return. */
  datatype Findings = Findings(documents: seq<nat>, events: seq<nat>, claims: seq<nat>, comparison: Comparison)

  datatype Output =
    | Sources(documents: seq<nat>, events: seq<nat>)
    | Claims(claims: seq<nat>)
    | Narratives(comparison: Comparison)
    | NoHandler

  datatype Step = Step(kind: StepKind, status: Status, output: Option<Output>, error: Option<string>)

  datatype Summary = Found(findings: Findings) | FailedDueTo(error: string)

  datatype Investigation = Investigation(
    question: string,
    status: Status,
    summary: Option<Summary>,
    confidence: Option<real>,
    report: Option<nat>)

  datatype Report = Report(question: string, findings: Findings)

  datatype State = State(investigation: Investigation, steps: seq<Step>, reports: seq<Report>)

  /** Where the `try` block raises, if anywhere: in a search, in a flush around a step, or at the report. */
  datatype Fault = NoFault | AtSearch | AtClaims | AtCompare | AtStepStart(k: nat) | AtStepEnd(k: nat) | AtReport

  datatype Attempt = Attempt(findings: Findings, fault: Fault, error: string)

  // ----- one execution, as a function -----

  function OutputFor(kind: StepKind, f: Findings): Output {
    match kind
    case SourceSearch => Sources(f.documents, f.events)
    case ClaimExtraction => Claims(f.claims)
    case NarrativeComparison => Narratives(f.comparison)
    case OtherKind => NoHandler
  }

  /** How many of `n` steps are completed before the fault. */
  function Reached(fault: Fault, n: nat): (r: nat)
    ensures r <= n
  {
    match fault
    case NoFault => n
    case AtReport => n
    case AtStepStart(k) => if k < n then k else n
    case AtStepEnd(k) => if k < n then k + 1 else n
    case _ => 0
  }

  /** A fault at a step the investigation does not have never happens. */
  predicate Interrupted(fault: Fault, n: nat) {
    match fault
    case NoFault => false
    case AtStepStart(k) => k < n
    case AtStepEnd(k) => k < n
    case _ => true
  }

  function CompletedStep(s: Step, f: Findings): Step {
    s.(status := Completed, output := Some(OutputFor(s.kind, f)))
  }

  predicate Unfinished(status: Status) { status.Pending? || status.Running? }

  function FailedStep(s: Step, error: string): Step {
    if Unfinished(s.status) then s.(status := Failed, error := Some(error)) else s
  }

  /** A step after the attempt, given where the attempt stopped. */
  function StepAfter(s: Step, i: nat, x: Attempt, n: nat): Step {
    if i < Reached(x.fault, n) then CompletedStep(s, x.findings)
    else if x.fault == AtStepStart(i) then FailedStep(s.(status := Running), x.error)
    else FailedStep(s, x.error)
  }

  function Executed(s: State, x: Attempt): State {
    var n := |s.steps|;
    var steps := seq(n, i requires 0 <= i < n => StepAfter(s.steps[i], i, x, n));
    if !Interrupted(x.fault, n) then
      State(s.investigation.(status := Completed, summary := Some(Found(x.findings)),
                             confidence := Some(x.findings.comparison.confidence), report := Some(|s.reports|)),
            steps, s.reports + [Report(s.investigation.question, x.findings)])
    else
      var confidence :=
        if x.fault.AtReport? then Some(x.findings.comparison.confidence) else s.investigation.confidence;
      State(s.investigation.(status := Failed, summary := Some(FailedDueTo(x.error)), confidence := confidence),
            steps, s.reports)
  }

  // ----- what every execution guarantees -----

  /** Completed: every step completed with the output of its kind, and a report of these findings linked. */
  ghost predicate CleanlyCompleted(s: State, f: Findings) {
    && s.investigation.status == Completed
    && (forall i :: 0 <= i < |s.steps| ==>
          s.steps[i].status == Completed && s.steps[i].output == Some(OutputFor(s.steps[i].kind, f)))
    && s.investigation.report.Some? && s.investigation.report.value < |s.reports|
    && s.reports[s.investigation.report.value].findings == f
  }

  ghost predicate NothingUnfinished(s: State) {
    && !Unfinished(s.investigation.status)
    && forall i :: 0 <= i < |s.steps| ==> !Unfinished(s.steps[i].status)
  }

  /** Completed steps come first. */
  ghost predicate CompletedFirst(steps: seq<Step>) {
    forall i, j :: 0 <= i < j < |steps| && steps[j].status == Completed ==> steps[i].status == Completed
  }

  /** From any state whatever: the attempt ends completed or failed, and nothing is left unfinished. */
  lemma EveryAttemptIsDecided(s: State, x: Attempt)
    ensures NothingUnfinished(Executed(s, x))
    ensures !Interrupted(x.fault, |s.steps|) ==> CleanlyCompleted(Executed(s, x), x.findings)
    ensures Interrupted(x.fault, |s.steps|) ==>
      Executed(s, x).investigation.status == Failed
      && Executed(s, x).investigation.summary == Some(FailedDueTo(x.error)) && Executed(s, x).reports == s.reports
  {}

  ghost predicate Fresh(s: State) {
    s.investigation.status == Pending && forall i :: 0 <= i < |s.steps| ==> s.steps[i].status == Pending
  }

  /** A prefix of completed steps; all others failed and carry the error. */
  ghost predicate FailedAfter(steps: seq<Step>, x: Attempt) {
    forall i :: 0 <= i < |steps| ==>
      if i < Reached(x.fault, |steps|) then steps[i].status == Completed
      else steps[i].status == Failed && steps[i].error == Some(x.error)
  }

  lemma FreshFailsAfter(s: State, x: Attempt)
    ensures Fresh(s) && Interrupted(x.fault, |s.steps|) ==> FailedAfter(Executed(s, x).steps, x)
  {}

  /**
   Executing again keeps the completed steps in front iff it does not break off at the start of a
   step whose successor an earlier execution had completed.
   */
  lemma RepetitionKeepsPrefixIff(s: State, x: Attempt)
    requires CompletedFirst(s.steps)
    ensures CompletedFirst(Executed(s, x).steps)
      <==> !(x.fault.AtStepStart? && x.fault.k + 1 < |s.steps| && s.steps[x.fault.k + 1].status == Completed)
  {
    var t := Executed(s, x).steps;
    if x.fault.AtStepStart? && x.fault.k + 1 < |s.steps| && s.steps[x.fault.k + 1].status == Completed {
      var k := x.fault.k;
      assert t[k].status == Failed && t[k + 1].status == Completed;
    }
    if i, j :| 0 <= i < j < |t| && t[j].status == Completed && t[i].status != Completed {
      assert s.steps[j].status == Completed;
      assert s.steps[i].status == Completed;
      assert s.steps[i + 1].status == Completed;
      assert x.fault == AtStepStart(i);
    }
  }

  /** It happens: all steps complete before the report fails, and the next execution fails at once. */
  lemma RepetitionCanBreakPrefix(s: State, first: Attempt, second: Attempt)
    requires Fresh(s) && |s.steps| >= 2 && first.fault == AtReport && second.fault == AtStepStart(0)
    ensures CompletedFirst(Executed(s, first).steps)
    ensures !CompletedFirst(Executed(Executed(s, first), second).steps)
  {
    RepetitionKeepsPrefixIff(s, first);
    RepetitionKeepsPrefixIff(Executed(s, first), second);
  }

  /** Whether an execution gets past a step: a fault in a flush after it is too late to undo it. */
  predicate GetsPast(fault: Fault, i: nat) {
    match fault
    case NoFault => true
    case AtReport => true
    case AtStepStart(k) => i < k
    case AtStepEnd(k) => i <= k
    case _ => false
  }

  /**
   What an execution does to a step, whatever state it finds it in: one it gets past is completed; one
   that was unfinished, or at whose start it broke off, fails with its error; any other stays as it was.
   */
  lemma ExecutionOfStep(s: State, x: Attempt, i: nat)
    requires i < |s.steps|
    ensures |Executed(s, x).steps| == |s.steps|
    ensures var before, after := s.steps[i], Executed(s, x).steps[i];
      if GetsPast(x.fault, i) then after == before.(status := Completed, output := after.output)
      else if before.status == Pending || before.status == Running || x.fault == AtStepStart(i) then
        after == before.(status := Failed, error := Some(x.error))
      else after == before
  {}

  /** A failed execution shows its error; what it had found by the report is all it keeps besides. */
  lemma FailureKeepsTheRest(s: State, x: Attempt)
    requires Interrupted(x.fault, |s.steps|)
    ensures var t := Executed(s, x);
      && t.investigation == s.investigation.(
           status := Failed, summary := Some(FailedDueTo(x.error)), confidence := t.investigation.confidence)
      && (x.fault == AtReport ==> t.investigation.confidence == Some(x.findings.comparison.confidence))
      && (x.fault != AtReport ==> t.investigation.confidence == s.investigation.confidence)
      && t.reports == s.reports
  {}

  /** What a completed step and a completed investigation show of the findings. */
  lemma FindingsAreShown(s: State, x: Attempt, i: nat)
    requires x.fault.NoFault? && i < |s.steps|
    ensures var t := Executed(s, x);
      && (s.steps[i].kind == SourceSearch ==>
            t.steps[i].output == Some(Sources(x.findings.documents, x.findings.events)))
      && (s.steps[i].kind == ClaimExtraction ==> t.steps[i].output == Some(Claims(x.findings.claims)))
      && (s.steps[i].kind == NarrativeComparison ==> t.steps[i].output == Some(Narratives(x.findings.comparison)))
      && (s.steps[i].kind == OtherKind ==> t.steps[i].output == Some(NoHandler))
      && t.investigation.summary == Some(Found(x.findings))
      && t.investigation.confidence == Some(x.findings.comparison.confidence)
      && t.reports == s.reports + [Report(s.investigation.question, x.findings)]
      && t.investigation.report == Some(|s.reports|)
  {}

  // ----- any number of executions -----

  function After(s: State, attempts: seq<Attempt>): State {
    if attempts == [] then s else Executed(After(s, attempts[..|attempts| - 1]), attempts[|attempts| - 1])
  }

  function Successes(attempts: seq<Attempt>, n: nat): nat {
    if attempts == [] then 0
    else
      var last := attempts[|attempts| - 1];
      Successes(attempts[..|attempts| - 1], n) + if Interrupted(last.fault, n) then 0 else 1
  }

  /** Over any number of executions: one report per completed one, none lost, and the last one decides. */
  lemma {:induction false} OneReportPerCompletion(s: State, attempts: seq<Attempt>)
    ensures var t := After(s, attempts);
      && |t.steps| == |s.steps|
      && s.reports <= t.reports && |t.reports| == |s.reports| + Successes(attempts, |s.steps|)
      && (attempts != [] ==>
            NothingUnfinished(t)
            && (t.investigation.status == Completed <==>
                  !Interrupted(attempts[|attempts| - 1].fault, |s.steps|)))
  {
    if attempts != [] {
      OneReportPerCompletion(s, attempts[..|attempts| - 1]);
      EveryAttemptIsDecided(After(s, attempts[..|attempts| - 1]), attempts[|attempts| - 1]);
    }
  }

  // ----- the service -----

  class InvestigationService {
    var investigation: Investigation
    var steps: seq<Step>
    var reports: seq<Report>

    /** `launch_investigation`: the row and its three pending steps. */
    constructor (question: string)
      ensures Fresh(View()) && reports == []
      ensures investigation == Investigation(question, Pending, None, None, None)
      ensures |steps| == 3 && steps[0].kind == SourceSearch
      ensures steps[1].kind == ClaimExtraction && steps[2].kind == NarrativeComparison
    {
      investigation := Investigation(question, Pending, None, None, None);
      steps := [
        Step(SourceSearch, Pending, None, None),
        Step(ClaimExtraction, Pending, None, None),
        Step(NarrativeComparison, Pending, None, None)];
      reports := [];
    }

    ghost function View(): State
      reads this
    {
      State(investigation, steps, reports)
    }

    method ExecuteInvestigation(x: Attempt)
      modifies this
      ensures View() == Executed(old(View()), x)
      ensures NothingUnfinished(View())
      ensures investigation.status == Completed ==> CleanlyCompleted(View(), x.findings)
      ensures investigation.status == Failed && Fresh(old(View())) ==> FailedAfter(steps, x)
    {
      hide NothingUnfinished, CleanlyCompleted, FailedAfter, OutputFor;
      ghost var before := View();
      EveryAttemptIsDecided(before, x);
      FreshFailsAfter(before, x);
      investigation := investigation.(status := Running);
      var raised := x.fault.AtSearch? || x.fault.AtClaims? || x.fault.AtCompare?;
      if !raised {
        raised := RunSteps(x);
      }
      if !raised {
        investigation := investigation.(status := Completed);
        investigation := investigation.(summary := Some(Found(x.findings)));
        investigation := investigation.(confidence := Some(x.findings.comparison.confidence));
        if x.fault.AtReport? {
          raised := true;
        } else {
          reports := reports + [Report(investigation.question, x.findings)];
          investigation := investigation.(report := Some(|reports| - 1));
        }
      }
      if raised {
        investigation := investigation.(status := Failed);
        investigation := investigation.(summary := Some(FailedDueTo(x.error)));
        FailRemaining(x.error);
      }
    }

    /** The loop over the steps; true when one of its flushes raises. */
    method RunSteps(x: Attempt) returns (raised: bool)
      requires !x.fault.AtSearch? && !x.fault.AtClaims? && !x.fault.AtCompare?
      modifies this`steps
      ensures |steps| == |old(steps)|
      ensures raised <==> Interrupted(x.fault, |steps|) && !x.fault.AtReport?
      ensures forall i :: 0 <= i < |steps| ==>
        if i < Reached(x.fault, |steps|) then steps[i] == CompletedStep(old(steps)[i], x.findings)
        else if x.fault == AtStepStart(i) then steps[i] == old(steps)[i].(status := Running)
        else steps[i] == old(steps)[i]
    {
      for k := 0 to |steps|
        invariant |steps| == |old(steps)|
        invariant k <= Reached(x.fault, |steps|)
        invariant x.fault.AtStepEnd? ==> k <= x.fault.k
        invariant forall i :: 0 <= i < k ==> steps[i] == CompletedStep(old(steps)[i], x.findings)
        invariant forall i :: k <= i < |steps| ==> steps[i] == old(steps)[i]
      {
        steps := steps[k := steps[k].(status := Running)];
        if x.fault == AtStepStart(k) {
          return true;
        }
        var output: Output;
        match steps[k].kind {
          case SourceSearch => output := Sources(x.findings.documents, x.findings.events);
          case ClaimExtraction => output := Claims(x.findings.claims);
          case NarrativeComparison => output := Narratives(x.findings.comparison);
          case OtherKind => output := NoHandler;
        }
        steps := steps[k := steps[k].(output := Some(output))];
        steps := steps[k := steps[k].(status := Completed)];
        if x.fault == AtStepEnd(k) {
          return true;
        }
      }
      return false;
    }

    /** Fail any running or pending step. */
    method FailRemaining(error: string)
      modifies this`steps
      ensures |steps| == |old(steps)|
      ensures forall i :: 0 <= i < |steps| ==> steps[i] == FailedStep(old(steps)[i], error)
    {
      for k := 0 to |steps|
        invariant |steps| == |old(steps)|
        invariant forall i :: 0 <= i < k ==> steps[i] == FailedStep(old(steps)[i], error)
        invariant forall i :: k <= i < |steps| ==> steps[i] == old(steps)[i]
      {
        if steps[k].status.Pending? || steps[k].status.Running? {
          steps := steps[k := steps[k].(status := Failed)];
          steps := steps[k := steps[k].(error := Some(error))];
        }
      }
    }
  }
}
