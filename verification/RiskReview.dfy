/** The second opinion: two models scoring the same moment differ by at most twenty points. */
module RiskReview {
  import opened Wrappers
  import opened Sums
  import opened RiskScoring
  import opened RiskEngine
  import opened RiskHistory

  /** The request a review makes of the engine for a stored assessment. */
  function ShadowRequest(primary: Assessment): Request {
    Request(primary.risk, primary.scopeType, primary.scopeId, Some(primary.assessedAt))
  }

  /** Asking again as of the time an assessment was made gives the same assessment. */
  lemma AssessmentRepeats(s: Store, q: Request, reply: ModelReply, now: real, choice: Choice)
    requires Calculated(s, q, reply, now, choice).Ok?
    ensures Calculated(s, ShadowRequest(Calculated(s, q, reply, now, choice).value), reply, now, choice)
         == Calculated(s, q, reply, now, choice)
    ensures var a := Calculated(s, q, reply, now, choice).value;
      a.risk == q.risk && a.scopeType == q.scopeType && a.scopeId == q.scopeId
  {
    hide RealTotal, Contributions, LatestAssessment;
  }

  lemma AssessmentIsClamped(s: Store, q: Request, reply: ModelReply, now: real, choice: Choice)
    requires Calculated(s, q, reply, now, choice).Ok?
    ensures var a := Calculated(s, q, reply, now, choice).value;
      && 0 <= a.baseScore <= 100 && -10 <= a.adjustment <= 10
      && a.finalScore == ClampInt(0, 100, a.baseScore + a.adjustment)
      && (!reply.Recommends? ==> a.adjustment == 0 && a.finalScore == a.baseScore)
      && (reply.Recommends? && -10 <= reply.adjustment <= 10 ==> a.adjustment == reply.adjustment)
      && (reply.Recommends? && reply.adjustment > 10 ==> a.adjustment == 10)
      && (reply.Recommends? && reply.adjustment < -10 ==> a.adjustment == -10)
  {
    hide RealTotal, Contributions, LatestAssessment, RoundHalfEven;
  }

  lemma ClampedScoresAreClose(base: int, a: int, b: int)
    requires 0 <= base <= 100 && -10 <= a <= 10 && -10 <= b <= 10
    ensures var d := Abs(ClampInt(0, 100, base + a) - ClampInt(0, 100, base + b));
      && d <= Abs(a - b) <= 20
      && (d == 20 <==> Abs(a - b) == 20 && 10 <= base <= 90)
  {}

  /**
   Whatever the second model says, and whatever later-dated readings and assessments came in
   between, the shadow score shares the primary's base and differs by at most twenty points; it
   differs by twenty exactly when the two models pull fully apart with room on both sides.
   */
  lemma SecondOpinionIsWithinTwenty(s: Store, q: Request, reply: ModelReply, now: real, run: seq<Action>,
                                    secondary: ModelReply, later: real, choice: Choice, second: Choice)
    requires Calculated(s, q, reply, now, choice).Ok?
    requires NothingBackdated(run, Calculated(s, q, reply, now, choice).value.assessedAt)
    requires choice.observations == second.observations
          || TiesAgree(s, q, Calculated(s, q, reply, now, choice).value.assessedAt)
    ensures var primary := Calculated(s, q, reply, now, choice).value;
      var t := After(Acted(s, Assess(q, reply, now, true, choice)), run);
      var shadow := Calculated(t, ShadowRequest(primary), secondary, later, second);
      && |s.assessments| < |t.assessments| && t.assessments[|s.assessments|] == primary
      && shadow.Ok?
      && shadow.value.baseScore == primary.baseScore
      && shadow.value.confidence == primary.confidence
      && shadow.value.contributions == primary.contributions
      && Abs(primary.finalScore - shadow.value.finalScore) <= 20
      && (Abs(primary.finalScore - shadow.value.finalScore) == 20 <==>
            Abs(primary.adjustment - shadow.value.adjustment) == 20 && 10 <= primary.baseScore <= 90)
  {
    hide Calculated, ClampInt;
    var primary := Calculated(s, q, reply, now, choice).value;
    var stored := Acted(s, Assess(q, reply, now, true, choice));
    RunsKeepThePast(stored, run, primary.assessedAt);
    var t := After(stored, run);
    assert SamePast(s, t, primary.assessedAt);
    AssessmentRepeats(s, q, reply, now, choice);
    assert TiesAgree(s, q, primary.assessedAt) ==> TiesAgree(s, ShadowRequest(primary), primary.assessedAt);
    AssessmentSeesOnlyThePast(s, t, ShadowRequest(primary), reply, secondary, now, later, choice, second);
    var shadow := Calculated(t, ShadowRequest(primary), secondary, later, second).value;
    AssessmentIsClamped(s, q, reply, now, choice);
    AssessmentIsClamped(t, ShadowRequest(primary), secondary, later, second);
    ClampedScoresAreClose(primary.baseScore, primary.adjustment, shadow.adjustment);
  }

  /** So a tolerance of twenty or more can never report disagreement. */
  lemma WideToleranceAlwaysAgrees(s: Store, q: Request, reply: ModelReply, now: real, run: seq<Action>,
                                  secondary: ModelReply, later: real, choice: Choice, second: Choice,
                                  tolerance: int)
    requires Calculated(s, q, reply, now, choice).Ok? && tolerance >= 20
    requires NothingBackdated(run, Calculated(s, q, reply, now, choice).value.assessedAt)
    requires choice.observations == second.observations
          || TiesAgree(s, q, Calculated(s, q, reply, now, choice).value.assessedAt)
    ensures var primary := Calculated(s, q, reply, now, choice).value;
      var t := After(Acted(s, Assess(q, reply, now, true, choice)), run);
      var shadow := Calculated(t, ShadowRequest(primary), secondary, later, second);
      shadow.Ok? && ClassifyAgreement(primary.finalScore, shadow.value.finalScore, tolerance)
  {
    SecondOpinionIsWithinTwenty(s, q, reply, now, run, secondary, later, choice, second);
  }
}
