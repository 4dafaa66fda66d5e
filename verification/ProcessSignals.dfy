/** When a run requests its signals, arms its timers and gives up, told by its events alone. */
module ProcessSignals {
  import opened Numbers
  import opened ProcessRunner

  /** The child cannot be signalled any more: it never started, or its exit was seen. */
  predicate Gone(pidKnown: bool, es: seq<Timed>) {
    !pidKnown || exists i :: 0 <= i < |es| && (es[i].event.Exit? || es[i].event.Reaped?)
  }

  /** Event f is the first one that is not clean, and it does not end the run. */
  predicate FailsAt(l: Limits, pidKnown: bool, es: seq<Timed>, f: nat) {
    && f < |es| && Clean(l, es[..f]) && !Clean(l, es[..f + 1])
    && !es[f].event.Close? && (es[f].event.ChildError? ==> pidKnown)
  }

  /** The event ends a failed run, whatever its timers. */
  predicate Ends(pidKnown: bool, e: Event) {
    e.Close? || (e.ChildError? && !pidKnown)
  }

  /** Neither an end nor a grace timer among the events after f and before k. */
  predicate InGrace(pidKnown: bool, es: seq<Timed>, f: nat, k: nat)
    requires k <= |es|
  {
    forall j :: f < j < k ==> !Ends(pidKnown, es[j].event) && !es[j].event.GraceTimer?
  }

  /** Neither an end nor a kill timer among the events after g and before k. */
  predicate InKillGrace(pidKnown: bool, es: seq<Timed>, g: nat, k: nat)
    requires k <= |es|
  {
    forall j :: g < j < k ==> !Ends(pidKnown, es[j].event) && !es[j].event.KillTimer?
  }

  /** Event g is the grace timer of a run that failed at f. */
  predicate GraceAt(l: Limits, pidKnown: bool, es: seq<Timed>, f: nat, g: nat) {
    FailsAt(l, pidKnown, es, f) && f < g < |es| && es[g].event.GraceTimer? && InGrace(pidKnown, es, f, g)
  }

  /** Event k is the kill timer of a run that failed at f and whose grace timer was event g. */
  predicate KillAt(l: Limits, pidKnown: bool, es: seq<Timed>, f: nat, g: nat, k: nat) {
    GraceAt(l, pidKnown, es, f, g) && g < k < |es| && es[k].event.KillTimer? && InKillGrace(pidKnown, es, g, k)
  }

  /** The exit code the child object has, `None` before it has one. */
  function LastCode(es: seq<Timed>): Option<int> {
    if |es| == 0 then None
    else if es[|es| - 1].event.Reaped? then es[|es| - 1].event.code
    else LastCode(es[..|es| - 1])
  }

  predicate ErrorAfter(es: seq<Timed>, f: nat) {
    exists j :: f < j < |es| && es[j].event.ChildError?
  }

  /** A signal is requested at event i, and the request fails. */
  predicate RequestFailsAt(pidKnown: bool, es: seq<Timed>, i: nat)
    requires i < |es|
  {
    && !Gone(pidKnown, es[..i])
    && match es[i].event
       case Data(_, _, killOk) => !killOk
       case ChildError(killOk) => !killOk
       case StreamError(killOk) => !killOk
       case ExecutionTimer(killOk) => !killOk
       case GraceTimer(killOk) => !killOk
       case _ => false
  }

  lemma GoneSnoc(pidKnown: bool, es: seq<Timed>, t: Timed)
    ensures Gone(pidKnown, es + [t]) <==> Gone(pidKnown, es) || t.event.Exit? || t.event.Reaped?
  {
    var all := es + [t];
    assert all[|es|] == t && forall i :: 0 <= i < |es| ==> all[i] == es[i];
  }

  lemma StepReach(s: RunState, l: Limits, now: int, e: Event)
    ensures var v := Step(s, l, now, e);
            && v.pidKnown == s.pidKnown
            && (Unreachable(v) <==> Unreachable(s) || e.Reaped? || (e.Exit? && s.result.None?))
            && v.exitCode == if e.Reaped? then e.code else s.exitCode
  {
  }

  /** The state knows that the child is gone exactly when the events say so. */
  lemma {:induction false} GoneExactly(l: Limits, pidKnown: bool, start: int, es: seq<Timed>)
    ensures var s := Run(l, pidKnown, start, es);
            && s.pidKnown == pidKnown && s.exitCode == LastCode(es)
            && (s.result.None? ==> (Unreachable(s) <==> Gone(pidKnown, es)))
  {
    if |es| > 0 {
      var before, t := es[..|es| - 1], es[|es| - 1];
      GoneExactly(l, pidKnown, start, before);
      StepReach(Run(l, pidKnown, start, before), l, t.now, t.event);
      GoneSnoc(pidKnown, before, t);
      assert before + [t] == es;
      StepUnsettled(Run(l, pidKnown, start, before), l, t.now, t.event);
    }
  }

  lemma StepUnsettled(s: RunState, l: Limits, now: int, e: Event)
    ensures s.result.Some? ==> Step(s, l, now, e).result == s.result
  {
  }

  // ----- The failing event -----------------------------------------------------------------------------------

  /** The state of a run that failed with the event at and waits for its grace timer; asked says that SIGTERM was requested,
      refused that a request failed. */
  predicate Graceful(s: RunState, l: Limits, at: Timed, asked: bool, refused: bool) {
    && s.result.None? && s.failureReason == Some(Blame(at.event))
    && s.graceTimer == Some(at.now + l.terminationGraceMs) && s.killTimer.None? && s.executionTimer.None?
    && s.signals == (if asked then [SIGTERM] else [])
    && (s.terminationRequestFailed <==> refused)
  }

  predicate Refused(pidKnown: bool, es: seq<Timed>, f: nat)
    requires f < |es|
  {
    RequestFailsAt(pidKnown, es, f) || ErrorAfter(es, f)
  }

  lemma FailingStep(s: RunState, l: Limits, t: Timed)
    requires Unfailed(s) && !s.terminationRequestFailed && s.signals == [] && Watching(s)
    requires !Unfailed(Step(s, l, t.now, t.event)) && !t.event.Close? && (t.event.ChildError? ==> s.pidKnown)
    ensures t.event.Data? || t.event.ChildError? || t.event.StreamError? || t.event.ExecutionTimer?
    ensures Graceful(Step(s, l, t.now, t.event), l, t, !Unreachable(s), !Unreachable(s) && !t.event.killOk)
  {
  }

  lemma {:induction false} CleanRequestsNothing(l: Limits, pidKnown: bool, start: int, es: seq<Timed>)
    requires Clean(l, es)
    ensures !Run(l, pidKnown, start, es).terminationRequestFailed && Run(l, pidKnown, start, es).signals == []
  {
    UnfailedExactlyWhenClean(l, pidKnown, start, es);
    SignalsBounded(l, pidKnown, start, es);
    if |es| > 0 {
      CleanRequestsNothing(l, pidKnown, start, es[..|es| - 1]);
      UnfailedExactlyWhenClean(l, pidKnown, start, es[..|es| - 1]);
      QuietStep(Run(l, pidKnown, start, es[..|es| - 1]), l, es[|es| - 1].now, es[|es| - 1].event);
    }
  }

  lemma QuietStep(s: RunState, l: Limits, now: int, e: Event)
    requires Watching(s) && Unfailed(s) && Unfailed(Step(s, l, now, e))
    ensures Step(s, l, now, e).terminationRequestFailed == s.terminationRequestFailed
  {
  }

  lemma NoErrorYet(es: seq<Timed>)
    requires |es| > 0
    ensures !ErrorAfter(es, |es| - 1)
  {
  }

  lemma FailureArmsAtOnce(l: Limits, pidKnown: bool, start: int, es: seq<Timed>)
    requires |es| > 0 && FailsAt(l, pidKnown, es, |es| - 1)
    ensures Graceful(Run(l, pidKnown, start, es), l, es[|es| - 1], !Gone(pidKnown, es[..|es| - 1]), Refused(pidKnown, es, |es| - 1))
  {
    var before, t := es[..|es| - 1], es[|es| - 1];
    assert es[..|es| - 1 + 1] == es;
    UnfailedExactlyWhenClean(l, pidKnown, start, before);
    UnfailedExactlyWhenClean(l, pidKnown, start, es);
    CleanRequestsNothing(l, pidKnown, start, before);
    GoneExactly(l, pidKnown, start, before);
    FailingStep(Run(l, pidKnown, start, before), l, t);
    NoErrorYet(es);
  }

  lemma GracefulStep(s: RunState, l: Limits, at: Timed, asked: bool, refused: bool, now: int, e: Event)
    requires Graceful(s, l, at, asked, refused) && !e.GraceTimer? && !Ends(s.pidKnown, e)
    ensures Graceful(Step(s, l, now, e), l, at, asked, refused || e.ChildError?)
  {
  }

  lemma ErrorSnoc(es: seq<Timed>, t: Timed, f: nat)
    requires f < |es|
    ensures ErrorAfter(es + [t], f) <==> ErrorAfter(es, f) || t.event.ChildError?
  {
    var all := es + [t];
    assert all[|es|] == t && forall i :: 0 <= i < |es| ==> all[i] == es[i];
  }

  /** What happened up to f does not depend on the last event. */
  lemma FailsBefore(l: Limits, pidKnown: bool, es: seq<Timed>, f: nat)
    requires FailsAt(l, pidKnown, es, f) && f < |es| - 1
    ensures var before := es[..|es| - 1];
            && FailsAt(l, pidKnown, before, f) && before[f] == es[f] && Gone(pidKnown, before[..f]) == Gone(pidKnown, es[..f])
            && (Refused(pidKnown, es, f) <==> Refused(pidKnown, before, f) || es[|es| - 1].event.ChildError?)
  {
    var before := es[..|es| - 1];
    assert before[..f] == es[..f] && before[..f + 1] == es[..f + 1];
    ErrorSnoc(before, es[|es| - 1], f);
    assert before + [es[|es| - 1]] == es;
  }

  lemma GraceBefore(pidKnown: bool, es: seq<Timed>, f: nat, k: nat)
    requires k < |es| && InGrace(pidKnown, es, f, k)
    ensures InGrace(pidKnown, es[..|es| - 1], f, k)
  {
    assert forall j :: 0 <= j < k ==> es[..|es| - 1][j] == es[j];
  }

  /** After the first failure at f, until an end or the grace timer, the run waits for the grace timer, due that long after
      the failure; SIGTERM was requested at f unless the child was gone by then, and nothing else was. */
  lemma {:induction false} FailureArms(l: Limits, pidKnown: bool, start: int, es: seq<Timed>, f: nat)
    requires FailsAt(l, pidKnown, es, f) && InGrace(pidKnown, es, f, |es|)
    ensures Graceful(Run(l, pidKnown, start, es), l, es[f], !Gone(pidKnown, es[..f]), Refused(pidKnown, es, f))
  {
    if f == |es| - 1 {
      FailureArmsAtOnce(l, pidKnown, start, es);
    } else {
      var before, t := es[..|es| - 1], es[|es| - 1];
      FailsBefore(l, pidKnown, es, f);
      GraceBefore(pidKnown, es, f, |es| - 1);
      FailureArms(l, pidKnown, start, before, f);
      PidKept(l, pidKnown, start, before);
      GracefulStep(Run(l, pidKnown, start, before), l, es[f], !Gone(pidKnown, es[..f]), Refused(pidKnown, before, f), t.now, t.event);
    }
  }

  lemma PidKept(l: Limits, pidKnown: bool, start: int, es: seq<Timed>)
    ensures Run(l, pidKnown, start, es).pidKnown == pidKnown
  {
    GoneExactly(l, pidKnown, start, es);
  }

  // ----- The grace timer ---------------------------------------------------------------------------------------

  /** The state of a run that failed with the event at, whose grace timer was the event grace, and that waits for its kill
      timer; asked and killed say which signals were requested. */
  predicate Killing(s: RunState, l: Limits, at: Timed, asked: bool, grace: Timed, killed: bool, refused: bool) {
    && s.result.None? && s.failureReason == Some(Blame(at.event))
    && s.graceTimer.None? && s.killTimer == Some(grace.now + l.killGraceMs) && s.executionTimer.None?
    && s.signals == (if asked then [SIGTERM] else []) + (if killed then [SIGKILL] else [])
    && (s.terminationRequestFailed <==> refused)
  }

  lemma GraceStep(s: RunState, l: Limits, at: Timed, asked: bool, refused: bool, t: Timed)
    requires Graceful(s, l, at, asked, refused) && t.event.GraceTimer?
    ensures Killing(Step(s, l, t.now, t.event), l, at, asked, t, !Unreachable(s), refused || (!Unreachable(s) && !t.event.killOk))
  {
  }

  lemma GraceArmsAtOnce(l: Limits, pidKnown: bool, start: int, es: seq<Timed>, f: nat)
    requires |es| > 0 && GraceAt(l, pidKnown, es, f, |es| - 1)
    ensures var g := |es| - 1;
            Killing(Run(l, pidKnown, start, es), l, es[f], !Gone(pidKnown, es[..f]), es[g], !Gone(pidKnown, es[..g]),
                    Refused(pidKnown, es, f) || RequestFailsAt(pidKnown, es, g))
  {
    var before, t := es[..|es| - 1], es[|es| - 1];
    FailsBefore(l, pidKnown, es, f);
    GraceBefore(pidKnown, es, f, |es| - 1);
    FailureArms(l, pidKnown, start, before, f);
    GoneExactly(l, pidKnown, start, before);
    GraceStep(Run(l, pidKnown, start, before), l, es[f], !Gone(pidKnown, es[..f]), Refused(pidKnown, before, f), t);
  }

  lemma KillingStep(s: RunState, l: Limits, at: Timed, asked: bool, grace: Timed, killed: bool, refused: bool, now: int, e: Event)
    requires Killing(s, l, at, asked, grace, killed, refused) && !e.KillTimer? && !Ends(s.pidKnown, e)
    ensures Killing(Step(s, l, now, e), l, at, asked, grace, killed, refused || e.ChildError?)
  {
  }

  lemma KillBefore(l: Limits, pidKnown: bool, es: seq<Timed>, f: nat, g: nat)
    requires GraceAt(l, pidKnown, es, f, g) && g < |es| - 1
    ensures var before := es[..|es| - 1];
            && GraceAt(l, pidKnown, before, f, g) && before[g] == es[g] && Gone(pidKnown, before[..g]) == Gone(pidKnown, es[..g])
            && RequestFailsAt(pidKnown, before, g) == RequestFailsAt(pidKnown, es, g)
            && (InKillGrace(pidKnown, es, g, |es|) ==> InKillGrace(pidKnown, before, g, |before|))
  {
    var before := es[..|es| - 1];
    FailsBefore(l, pidKnown, es, f);
    GraceBefore(pidKnown, es, f, g);
    assert before[..g] == es[..g];
    assert forall j :: 0 <= j < |before| ==> before[j] == es[j];
  }

  /** From the grace timer g on, until an end or the kill timer, the run waits for the kill timer, due that long after g;
      SIGKILL was requested at g unless the child was gone by then. */
  lemma {:induction false} GraceArms(l: Limits, pidKnown: bool, start: int, es: seq<Timed>, f: nat, g: nat)
    requires GraceAt(l, pidKnown, es, f, g) && InKillGrace(pidKnown, es, g, |es|)
    ensures Killing(Run(l, pidKnown, start, es), l, es[f], !Gone(pidKnown, es[..f]), es[g], !Gone(pidKnown, es[..g]),
                    Refused(pidKnown, es, f) || RequestFailsAt(pidKnown, es, g))
  {
    if g == |es| - 1 {
      GraceArmsAtOnce(l, pidKnown, start, es, f);
    } else {
      var before, t := es[..|es| - 1], es[|es| - 1];
      FailsBefore(l, pidKnown, es, f);
      KillBefore(l, pidKnown, es, f, g);
      GraceArms(l, pidKnown, start, before, f, g);
      PidKept(l, pidKnown, start, before);
      KillingStep(Run(l, pidKnown, start, before), l, es[f], !Gone(pidKnown, es[..f]), es[g], !Gone(pidKnown, es[..g]),
                  Refused(pidKnown, before, f) || RequestFailsAt(pidKnown, before, g), t.now, t.event);
    }
  }

  // ----- How a run ends --------------------------------------------------------------------------------------

  /** What the kill timer makes of a run that failed at f and whose grace timer was event g. */
  function GivenUp(pidKnown: bool, es: seq<Timed>, f: nat, g: nat): RunResult
    requires f < |es| && g < |es|
  {
    RunResult(LastCode(es), [], [], es[f].event.ExecutionTimer?, Some(Blame(es[f].event)), Unconfirmed,
              Refused(pidKnown, es, f) || RequestFailsAt(pidKnown, es, g))
  }

  lemma KillTimerFires(l: Limits, pidKnown: bool, start: int, es: seq<Timed>, f: nat, g: nat, now: int)
    requires GraceAt(l, pidKnown, es, f, g) && InKillGrace(pidKnown, es, g, |es|)
    ensures var v := Step(Run(l, pidKnown, start, es), l, now, KillTimer);
            && v.result == Some(GivenUp(pidKnown, es, f, g))
            && v.signals == (if Gone(pidKnown, es[..f]) then [] else [SIGTERM]) + (if Gone(pidKnown, es[..g]) then [] else [SIGKILL])
  {
    GraceArms(l, pidKnown, start, es, f, g);
    GoneExactly(l, pidKnown, start, es);
    FailingEventIs(l, pidKnown, es, f);
    KillTimerStep(Run(l, pidKnown, start, es), l, es[f], !Gone(pidKnown, es[..f]), es[g], !Gone(pidKnown, es[..g]),
                  Refused(pidKnown, es, f) || RequestFailsAt(pidKnown, es, g), now);
  }

  lemma RunNext(l: Limits, pidKnown: bool, start: int, es: seq<Timed>, k: nat)
    requires k < |es|
    ensures Run(l, pidKnown, start, es[..k + 1]) == Step(Run(l, pidKnown, start, es[..k]), l, es[k].now, es[k].event)
  {
    assert es[..k + 1][..k] == es[..k];
  }

  /** The run was given up on: this result, and a signal at f and at g unless the child was gone by then. */
  predicate GivesUp(result: Option<RunResult>, signals: seq<Signal>, pidKnown: bool, es: seq<Timed>, f: nat, g: nat, k: nat)
    requires f < k && g < k < |es|
  {
    && result == Some(GivenUp(pidKnown, es[..k], f, g))
    && signals == (if Gone(pidKnown, es[..f]) then [] else [SIGTERM]) + (if Gone(pidKnown, es[..g]) then [] else [SIGKILL])
  }

  lemma KillTimerEndsAtOnce(l: Limits, pidKnown: bool, start: int, es: seq<Timed>, f: nat, g: nat, k: nat)
    requires KillAt(l, pidKnown, es, f, g, k)
    ensures var s := Run(l, pidKnown, start, es[..k + 1]); s.result.Some? && GivesUp(s.result, s.signals, pidKnown, es, f, g, k)
  {
    GraceInPrefix(l, pidKnown, es, f, g, k);
    KillTimerFires(l, pidKnown, start, es[..k], f, g, es[k].now);
    RunNext(l, pidKnown, start, es, k);
  }

  lemma OutcomeStays(l: Limits, pidKnown: bool, start: int, es: seq<Timed>, i: nat)
    requires i <= |es| && Run(l, pidKnown, start, es[..i]).result.Some?
    ensures Run(l, pidKnown, start, es).result == Run(l, pidKnown, start, es[..i]).result
    ensures Run(l, pidKnown, start, es).signals == Run(l, pidKnown, start, es[..i]).signals
  {
    SettlesOnce(l, pidKnown, start, es, i);
    SettledKeepsSignals(l, pidKnown, start, es, i);
  }

  /** The kill timer ends the run unconfirmed, with the exit code the child object has, if any, and no output. */
  lemma KillTimerEnds(l: Limits, pidKnown: bool, start: int, es: seq<Timed>, f: nat, g: nat, k: nat)
    requires KillAt(l, pidKnown, es, f, g, k)
    ensures var s := Run(l, pidKnown, start, es); GivesUp(s.result, s.signals, pidKnown, es, f, g, k)
  {
    KillTimerEndsAtOnce(l, pidKnown, start, es, f, g, k);
    OutcomeStays(l, pidKnown, start, es, k + 1);
  }

  lemma KillTimerStep(s: RunState, l: Limits, at: Timed, asked: bool, grace: Timed, killed: bool, refused: bool, now: int)
    requires Killing(s, l, at, asked, grace, killed, refused)
    ensures var v := Step(s, l, now, KillTimer);
            && v.signals == s.signals
            && v.result == Some(RunResult(s.exitCode, [], [], Blame(at.event) == Timeout, Some(Blame(at.event)), Unconfirmed, refused))
  {
  }

  lemma FailingEventIs(l: Limits, pidKnown: bool, es: seq<Timed>, f: nat)
    requires FailsAt(l, pidKnown, es, f)
    ensures Blame(es[f].event) == Timeout <==> es[f].event.ExecutionTimer?
  {
  }

  lemma GraceInPrefix(l: Limits, pidKnown: bool, es: seq<Timed>, f: nat, g: nat, k: nat)
    requires GraceAt(l, pidKnown, es, f, g) && g < k <= |es| && InKillGrace(pidKnown, es, g, k)
    ensures GraceAt(l, pidKnown, es[..k], f, g) && InKillGrace(pidKnown, es[..k], g, k)
    ensures es[..k][f] == es[f] && es[..k][..f] == es[..f] && es[..k][g] == es[g] && es[..k][..g] == es[..g]
  {
    var before := es[..k];
    assert before[..f] == es[..f] && before[..f + 1] == es[..f + 1] && before[..g] == es[..g];
    assert forall j :: 0 <= j < k ==> before[j] == es[j];
  }

  lemma {:induction false} SettledKeepsSignals(l: Limits, pidKnown: bool, start: int, es: seq<Timed>, i: nat)
    requires i <= |es| && Run(l, pidKnown, start, es[..i]).result.Some?
    ensures Run(l, pidKnown, start, es).signals == Run(l, pidKnown, start, es[..i]).signals
  {
    if i == |es| {
      assert es[..i] == es;
    } else {
      var before, t := es[..|es| - 1], es[|es| - 1];
      assert before[..i] == es[..i];
      SettledKeepsSignals(l, pidKnown, start, before, i);
      SettlesOnce(l, pidKnown, start, before, i);
      NoSignalAfterExitOrSettlement(l, pidKnown, start, before, t);
      assert before + [t] == es;
    }
  }

  predicate WaitsForGrace(l: Limits, pidKnown: bool, es: seq<Timed>, f: nat) {
    FailsAt(l, pidKnown, es, f) && InGrace(pidKnown, es, f, |es|)
  }

  predicate WaitsForKill(l: Limits, pidKnown: bool, es: seq<Timed>, f: nat, g: nat) {
    GraceAt(l, pidKnown, es, f, g) && InKillGrace(pidKnown, es, g, |es|)
  }

  /** Where an unsettled run stands: clean so far, waiting for its grace timer, or waiting for its kill timer. */
  lemma {:induction false} Stage(l: Limits, pidKnown: bool, start: int, es: seq<Timed>) returns (f: nat, g: nat)
    requires Run(l, pidKnown, start, es).result.None?
    ensures Clean(l, es) || WaitsForGrace(l, pidKnown, es, f) || WaitsForKill(l, pidKnown, es, f, g)
  {
    f, g := 0, 0;
    if |es| > 0 {
      var before, t := es[..|es| - 1], es[|es| - 1];
      var s := Run(l, pidKnown, start, before);
      StepUnsettled(s, l, t.now, t.event);
      f, g := Stage(l, pidKnown, start, before);
      GoneExactly(l, pidKnown, start, before);
      StillRuns(s, l, t.now, t.event);
      if Clean(l, before) {
        if !Clean(l, es) {
          f := |before|;
          FirstFailure(l, pidKnown, es);
        }
      } else if WaitsForGrace(l, pidKnown, before, f) {
        if t.event.GraceTimer? {
          g := |before|;
        }
        GraceStage(l, pidKnown, es, f);
      } else {
        GraceArms(l, pidKnown, start, before, f, g);
        KillStage(l, pidKnown, es, f, g);
      }
    }
  }

  lemma FirstFailure(l: Limits, pidKnown: bool, es: seq<Timed>)
    requires |es| > 0 && Clean(l, es[..|es| - 1]) && !Clean(l, es) && !Ends(pidKnown, es[|es| - 1].event)
    ensures WaitsForGrace(l, pidKnown, es, |es| - 1)
  {
    assert es[..|es| - 1 + 1] == es;
  }

  lemma GraceStage(l: Limits, pidKnown: bool, es: seq<Timed>, f: nat)
    requires |es| > 0 && WaitsForGrace(l, pidKnown, es[..|es| - 1], f) && !Ends(pidKnown, es[|es| - 1].event)
    ensures if es[|es| - 1].event.GraceTimer? then WaitsForKill(l, pidKnown, es, f, |es| - 1) else WaitsForGrace(l, pidKnown, es, f)
  {
    var before := es[..|es| - 1];
    FailsLater(l, pidKnown, es, f);
    assert forall j :: 0 <= j < |before| ==> before[j] == es[j];
  }

  lemma KillStage(l: Limits, pidKnown: bool, es: seq<Timed>, f: nat, g: nat)
    requires |es| > 0 && WaitsForKill(l, pidKnown, es[..|es| - 1], f, g)
    requires !Ends(pidKnown, es[|es| - 1].event) && !es[|es| - 1].event.KillTimer?
    ensures WaitsForKill(l, pidKnown, es, f, g)
  {
    var before := es[..|es| - 1];
    FailsLater(l, pidKnown, es, f);
    assert forall j :: 0 <= j < |before| ==> before[j] == es[j];
  }

  lemma FailsLater(l: Limits, pidKnown: bool, es: seq<Timed>, f: nat)
    requires |es| > 0 && FailsAt(l, pidKnown, es[..|es| - 1], f)
    ensures FailsAt(l, pidKnown, es, f)
  {
    var before := es[..|es| - 1];
    assert before[..f] == es[..f] && before[..f + 1] == es[..f + 1];
  }

  lemma StillRuns(s: RunState, l: Limits, now: int, e: Event)
    requires s.result.None? && Step(s, l, now, e).result.None?
    ensures !Ends(s.pidKnown, e) && (s.killTimer.Some? ==> !e.KillTimer?)
  {
  }

  lemma {:induction false} SettlingEvent(l: Limits, pidKnown: bool, start: int, es: seq<Timed>) returns (k: nat)
    requires Run(l, pidKnown, start, es).result.Some?
    ensures k < |es| && Run(l, pidKnown, start, es[..k]).result.None?
    ensures Run(l, pidKnown, start, es[..k + 1]).result == Run(l, pidKnown, start, es).result
  {
    var before := es[..|es| - 1];
    if Run(l, pidKnown, start, before).result.Some? {
      k := SettlingEvent(l, pidKnown, start, before);
      assert before[..k] == es[..k] && before[..k + 1] == es[..k + 1];
      StepUnsettled(Run(l, pidKnown, start, before), l, es[|es| - 1].now, es[|es| - 1].event);
    } else {
      k := |before|;
      assert es[..k + 1] == es;
    }
  }

  /** What the settling event says of the result. */
  predicate EndsBy(r: RunResult, pidKnown: bool, es: seq<Timed>, k: nat)
    requires k < |es|
  {
    match es[k].event
    case Close(code) => r.termination == Closed && r.exitCode == code
    case ChildError(_) => !pidKnown && r.termination == NotStarted && r.exitCode == None && r.failureReason == Some(SpawnFailed)
    case KillTimer => r.termination == Unconfirmed && r.exitCode == LastCode(es[..k])
    case _ => false
  }

  lemma EndStep(s: RunState, l: Limits, now: int, e: Event)
    requires s.result.None? && Step(s, l, now, e).result.Some?
    ensures var r := Step(s, l, now, e).result.value;
            match e
            case Close(code) => r.termination == Closed && r.exitCode == code
            case ChildError(_) => !s.pidKnown && r.termination == NotStarted && r.exitCode == None && r.failureReason == Some(SpawnFailed)
            case KillTimer => s.killTimer.Some? && r.termination == Unconfirmed && r.exitCode == s.exitCode
            case _ => false
  {
  }

  /** A settled run was settled by its close, by the error of a child that never started, or by its kill timer. */
  lemma EndsExactly(l: Limits, pidKnown: bool, start: int, es: seq<Timed>) returns (k: nat)
    requires Run(l, pidKnown, start, es).result.Some?
    ensures k < |es| && EndsBy(Run(l, pidKnown, start, es).result.value, pidKnown, es, k)
    ensures es[k].event.KillTimer? ==> exists f: nat, g: nat :: KillAt(l, pidKnown, es, f, g, k)
  {
    k := SettlingEvent(l, pidKnown, start, es);
    var before, t := es[..k], es[k];
    assert es[..k + 1][..k] == before;
    GoneExactly(l, pidKnown, start, before);
    EndStep(Run(l, pidKnown, start, before), l, t.now, t.event);
    if t.event.KillTimer? {
      var f, g := Stage(l, pidKnown, start, before);
      UnfailedExactlyWhenClean(l, pidKnown, start, before);
      if WaitsForGrace(l, pidKnown, before, f) {
        FailureArms(l, pidKnown, start, before, f);
      }
      GraceInWhole(l, pidKnown, es, f, g, k);
    }
  }

  lemma GraceInWhole(l: Limits, pidKnown: bool, es: seq<Timed>, f: nat, g: nat, k: nat)
    requires k < |es| && es[k].event.KillTimer?
    requires GraceAt(l, pidKnown, es[..k], f, g) && InKillGrace(pidKnown, es[..k], g, k)
    ensures KillAt(l, pidKnown, es, f, g, k)
  {
    assert es[..k][..f] == es[..f] && es[..k][..f + 1] == es[..f + 1];
    assert forall j :: 0 <= j < k ==> es[..k][j] == es[j];
  }

  /** A started child that is given up on was asked to terminate and then killed, unless it was gone at one of the two
      moments. */
  lemma KilledBeforeGivenUp(l: Limits, start: int, es: seq<Timed>) returns (f: nat, g: nat)
    requires Run(l, true, start, es).result.Some? && Run(l, true, start, es).result.value.termination == Unconfirmed
    ensures GraceAt(l, true, es, f, g)
    ensures !Gone(true, es[..f]) && !Gone(true, es[..g]) ==> Run(l, true, start, es).signals == [SIGTERM, SIGKILL]
  {
    var k := EndsExactly(l, true, start, es);
    f, g :| KillAt(l, true, es, f, g, k);
    KillTimerEnds(l, true, start, es, f, g, k);
  }

  /** However the run goes on, once its grace timer has fired SIGKILL is among the requests unless the child was gone. */
  lemma {:induction false} KillRequestStays(l: Limits, pidKnown: bool, start: int, es: seq<Timed>, f: nat, g: nat)
    requires GraceAt(l, pidKnown, es, f, g)
    ensures SIGKILL in Run(l, pidKnown, start, es).signals <==> !Gone(pidKnown, es[..g])
    ensures SIGTERM in Run(l, pidKnown, start, es).signals <==> !Gone(pidKnown, es[..f])
  {
    if InKillGrace(pidKnown, es, g, |es|) {
      GraceArms(l, pidKnown, start, es, f, g);
    } else {
      var before, t := es[..|es| - 1], es[|es| - 1];
      assert g < |es| - 1;
      FailsBefore(l, pidKnown, es, f);
      KillBefore(l, pidKnown, es, f, g);
      KillRequestStays(l, pidKnown, start, before, f, g);
      LaterSignals(l, pidKnown, start, es, f, g);
    }
  }

  lemma LaterSignals(l: Limits, pidKnown: bool, start: int, es: seq<Timed>, f: nat, g: nat)
    requires |es| > 0 && GraceAt(l, pidKnown, es[..|es| - 1], f, g)
    ensures Run(l, pidKnown, start, es).signals == Run(l, pidKnown, start, es[..|es| - 1]).signals
  {
    var before, t := es[..|es| - 1], es[|es| - 1];
    var s := Run(l, pidKnown, start, before);
    assert before + [t] == es;
    if s.result.Some? {
      NoSignalAfterExitOrSettlement(l, pidKnown, start, before, t);
    } else {
      StageIsUnique(l, pidKnown, start, before, f, g);
      QuietAfterGrace(s, l, t.now, t.event);
    }
  }

  lemma QuietAfterGrace(s: RunState, l: Limits, now: int, e: Event)
    requires s.result.None? && s.failureReason.Some? && s.graceTimer.None? && s.executionTimer.None?
    ensures Step(s, l, now, e).signals == s.signals
  {
  }

  /** A run whose grace timer has fired never waits for it again. */
  lemma {:induction false} StageIsUnique(l: Limits, pidKnown: bool, start: int, es: seq<Timed>, f: nat, g: nat)
    requires GraceAt(l, pidKnown, es, f, g) && Run(l, pidKnown, start, es).result.None?
    ensures var s := Run(l, pidKnown, start, es); s.failureReason.Some? && s.graceTimer.None? && s.executionTimer.None?
  {
    if g == |es| - 1 {
      GraceArmsAtOnce(l, pidKnown, start, es, f);
    } else {
      var before, t := es[..|es| - 1], es[|es| - 1];
      KillBefore(l, pidKnown, es, f, g);
      StepUnsettled(Run(l, pidKnown, start, before), l, t.now, t.event);
      StageIsUnique(l, pidKnown, start, before, f, g);
      StaysPastGrace(Run(l, pidKnown, start, before), l, t.now, t.event);
    }
  }

  lemma StaysPastGrace(s: RunState, l: Limits, now: int, e: Event)
    requires s.result.None? && s.failureReason.Some? && s.graceTimer.None? && s.executionTimer.None?
    requires Step(s, l, now, e).result.None?
    ensures var v := Step(s, l, now, e); v.failureReason.Some? && v.graceTimer.None? && v.executionTimer.None?
  {
  }

  // ----- The whole result ------------------------------------------------------------------------------------

  lemma CloseStep(s: RunState, l: Limits, now: int, code: Option<int>)
    requires s.result.None?
    ensures var failed := s.failureReason.Some?;
            Step(s, l, now, Close(code)).result ==
            Some(RunResult(code, if failed then [] else Flatten(s.stdout), if failed then [] else Flatten(s.stderr),
                           s.failureReason == Some(Timeout), s.failureReason, Closed, s.terminationRequestFailed))
  {
  }

  /** A run that closes after clean events has delivered everything and failed nothing. */
  lemma CleanResult(l: Limits, pidKnown: bool, start: int, es: seq<Timed>, k: nat)
    requires k < |es| && Clean(l, es[..k]) && es[k].event.Close?
    ensures Run(l, pidKnown, start, es).result ==
            Some(RunResult(es[k].event.code, Delivered(es[..k], Stdout), Delivered(es[..k], Stderr), false, None, Closed, false))
  {
    UnfailedExactlyWhenClean(l, pidKnown, start, es[..k]);
    OutputBounded(l, pidKnown, start, es[..k]);
    CleanRequestsNothing(l, pidKnown, start, es[..k]);
    CloseStep(Run(l, pidKnown, start, es[..k]), l, es[k].now, es[k].event.code);
    RunNext(l, pidKnown, start, es, k);
    SettlesOnce(l, pidKnown, start, es, k + 1);
  }

  /** A failed run that closes before its grace timer, or between its grace and its kill timer, has no output, the reason of
      its first failure and the exit code it closed with. */
  lemma FailedResult(l: Limits, pidKnown: bool, start: int, es: seq<Timed>, f: nat, g: nat, k: nat)
    requires k < |es| && es[k].event.Close?
    requires WaitsForGrace(l, pidKnown, es[..k], f) || WaitsForKill(l, pidKnown, es[..k], f, g)
    ensures var refused := Refused(pidKnown, es[..k], f) || (!WaitsForGrace(l, pidKnown, es[..k], f) && RequestFailsAt(pidKnown, es[..k], g));
            Run(l, pidKnown, start, es).result ==
            Some(RunResult(es[k].event.code, [], [], es[f].event.ExecutionTimer?, Some(Blame(es[f].event)), Closed, refused))
  {
    var before := es[..k];
    if WaitsForGrace(l, pidKnown, before, f) {
      FailureArms(l, pidKnown, start, before, f);
    } else {
      GraceArms(l, pidKnown, start, before, f, g);
    }
    FailingEventIs(l, pidKnown, before, f);
    CloseStep(Run(l, pidKnown, start, before), l, es[k].now, es[k].event.code);
    RunNext(l, pidKnown, start, es, k);
    SettlesOnce(l, pidKnown, start, es, k + 1);
  }
}
