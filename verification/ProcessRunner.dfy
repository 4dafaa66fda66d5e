/** One `NodeProcessRunner.run` call: child events, three timers, at most one result. */
module ProcessRunner {
  import opened Numbers

  type Bytes = seq<bv8>

  datatype Failure = Timeout | StdoutLimit | StderrLimit | SpawnFailed | ProcessError
  datatype Termination = Closed | NotStarted | Unconfirmed
  datatype Signal = SIGTERM | SIGKILL
  datatype Stream = Stdout | Stderr

  datatype Limits = Limits(
    timeoutMs: nat, maxStdoutBytes: nat, maxStderrBytes: nat, terminationGraceMs: nat, killGraceMs: nat)

  datatype RunResult = RunResult(
    exitCode: Option<int>, stdout: Bytes, stderr: Bytes, timedOut: bool,
    failureReason: Option<Failure>, termination: Termination, terminationRequestFailed: bool)

  /** A timer field holds the moment it is due, `None` when it is not armed. `signals` records every kill request. */
  datatype RunState = RunState(
    stdout: seq<Bytes>, stderr: seq<Bytes>, stdoutBytes: nat, stderrBytes: nat,
    exited: bool, failureReason: Option<Failure>, terminationRequestFailed: bool,
    executionTimer: Option<int>, graceTimer: Option<int>, killTimer: Option<int>,
    exitCode: Option<int>, signalled: bool, pidKnown: bool,
    signals: seq<Signal>, result: Option<RunResult>)

  /** killOk says whether a kill request made while handling the event would succeed. */
  datatype Event =
    | Data(stream: Stream, chunk: Bytes, killOk: bool)
    | Reaped(code: Option<int>)          // the child object learns its exit code or signal
    | Exit
    | Close(code: Option<int>)
    | ChildError(killOk: bool)
    | StreamError(killOk: bool)
    | ExecutionTimer(killOk: bool)
    | GraceTimer(killOk: bool)
    | KillTimer

  // ----- Limits -----------------------------------------------------------------------------------

  /** `boundedInteger`; a value that is not a safe integer is `None`, and so is the error it throws. */
  function BoundedInteger(value: Option<int>, maximum: nat): Option<nat> {
    if value.None? || value.value < 1 || value.value > maximum then None else Some(value.value)
  }

  predicate ValidLimits(l: Limits) {
    && 1 <= l.timeoutMs <= 2147483647
    && 1 <= l.maxStdoutBytes <= 64 * 1024 * 1024 && 1 <= l.maxStderrBytes <= 64 * 1024 * 1024
    && 1 <= l.terminationGraceMs <= 60000 && 1 <= l.killGraceMs <= 60000
  }

  function CheckLimits(timeout: Option<int>, out: Option<int>, err: Option<int>, grace: Option<int>, kill: Option<int>):
    (l: Option<Limits>)
    ensures l.Some? ==> ValidLimits(l.value)
    ensures l.None? ==> forall v :: ValidLimits(v) ==>
              (timeout, out, err, grace, kill) != (Some(v.timeoutMs), Some(v.maxStdoutBytes), Some(v.maxStderrBytes),
                                                   Some(v.terminationGraceMs), Some(v.killGraceMs))
  {
    var t := BoundedInteger(timeout, 2147483647);
    var o := BoundedInteger(out, 64 * 1024 * 1024);
    var e := BoundedInteger(err, 64 * 1024 * 1024);
    var g := BoundedInteger(grace, 60000);
    var k := BoundedInteger(kill, 60000);
    if t.Some? && o.Some? && e.Some? && g.Some? && k.Some? then
      Some(Limits(t.value, o.value, e.value, g.value, k.value))
    else None
  }

  // ----- The handlers as functions on the state -----------------------------------------------------

  function Spawned(l: Limits, pidKnown: bool, now: int): RunState {
    RunState([], [], 0, 0, false, None, false, Some(now + l.timeoutMs), None, None, None, false, pidKnown, [], None)
  }

  function Flatten(chunks: seq<Bytes>): Bytes {
    if |chunks| == 0 then [] else Flatten(chunks[..|chunks| - 1]) + chunks[|chunks| - 1]
  }

  function Finish(s: RunState, termination: Termination, exitCode: Option<int>): RunState {
    if s.result.Some? then s
    else
      var failed := s.failureReason.Some?;
      s.(executionTimer := None, graceTimer := None, killTimer := None, stdout := [], stderr := [],
         result := Some(RunResult(exitCode, if failed then [] else Flatten(s.stdout), if failed then [] else Flatten(s.stderr),
                                  s.failureReason == Some(Timeout), s.failureReason, termination, s.terminationRequestFailed)))
  }

  predicate Unreachable(s: RunState) {
    s.exited || s.exitCode.Some? || s.signalled || !s.pidKnown
  }

  function RequestSignal(s: RunState, signal: Signal, killOk: bool): RunState {
    if s.result.Some? || Unreachable(s) then s
    else s.(signals := s.signals + [signal], terminationRequestFailed := s.terminationRequestFailed || !killOk)
  }

  function Stop(s: RunState, l: Limits, reason: Failure, now: int, killOk: bool): RunState {
    if s.result.Some? || s.failureReason.Some? then s
    else
      RequestSignal(s.(failureReason := Some(reason), stdout := [], stderr := [], executionTimer := None,
                       graceTimer := Some(now + l.terminationGraceMs)), SIGTERM, killOk)
  }

  function Collect(s: RunState, l: Limits, chunk: Bytes, stream: Stream, now: int, killOk: bool): RunState {
    if s.result.Some? || s.failureReason.Some? then s
    else if stream.Stdout? then
      if |chunk| > l.maxStdoutBytes - s.stdoutBytes then Stop(s, l, StdoutLimit, now, killOk)
      else s.(stdoutBytes := s.stdoutBytes + |chunk|, stdout := s.stdout + [chunk])
    else
      if |chunk| > l.maxStderrBytes - s.stderrBytes then Stop(s, l, StderrLimit, now, killOk)
      else s.(stderrBytes := s.stderrBytes + |chunk|, stderr := s.stderr + [chunk])
  }

  function Step(s: RunState, l: Limits, now: int, e: Event): RunState {
    match e
    case Data(stream, chunk, killOk) => Collect(s, l, chunk, stream, now, killOk)
    case Reaped(code) => s.(exitCode := code, signalled := s.signalled || code.None?)
    case Exit => if s.result.Some? then s else s.(exited := true)
    case Close(code) => Finish(s, Closed, code)
    case ChildError(killOk) =>
      if s.result.Some? then s
      else if !s.pidKnown then Finish(s.(failureReason := Some(SpawnFailed)), NotStarted, None)
      else if s.failureReason.Some? then s.(terminationRequestFailed := true)
      else Stop(s, l, ProcessError, now, killOk)
    case StreamError(killOk) => Stop(s, l, ProcessError, now, killOk)
    case ExecutionTimer(killOk) => if s.executionTimer.None? then s else Stop(s, l, Timeout, now, killOk)
    case GraceTimer(killOk) =>
      if s.graceTimer.None? then s
      else RequestSignal(s.(graceTimer := None, killTimer := Some(now + l.killGraceMs)), SIGKILL, killOk)
    case KillTimer =>
      if s.killTimer.None? then s else Finish(s.(killTimer := None), Unconfirmed, s.exitCode)
  }

  // ----- The handlers as the object the source builds -------------------------------------------------

  class ProcessRun {
    const limits: Limits
    const pidKnown: bool
    var stdout: seq<Bytes>
    var stderr: seq<Bytes>
    var stdoutBytes: nat
    var stderrBytes: nat
    var exited: bool
    var failureReason: Option<Failure>
    var terminationRequestFailed: bool
    var executionTimer: Option<int>
    var graceTimer: Option<int>
    var killTimer: Option<int>
    var exitCode: Option<int>
    var signalled: bool
    var signals: seq<Signal>
    var result: Option<RunResult>

    ghost function State(): RunState
      reads this
    {
      RunState(stdout, stderr, stdoutBytes, stderrBytes, exited, failureReason, terminationRequestFailed,
               executionTimer, graceTimer, killTimer, exitCode, signalled, pidKnown, signals, result)
    }

    constructor (l: Limits, pidKnown: bool, now: int)
      ensures limits == l && State() == Spawned(l, pidKnown, now)
    {
      limits, this.pidKnown := l, pidKnown;
      stdout, stderr, stdoutBytes, stderrBytes, exited := [], [], 0, 0, false;
      failureReason, terminationRequestFailed := None, false;
      executionTimer, graceTimer, killTimer := Some(now + l.timeoutMs), None, None;
      exitCode, signalled, signals, result := None, false, [], None;
    }

    method FinishRun(termination: Termination, code: Option<int>)
      modifies this
      ensures State() == Finish(old(State()), termination, code)
    {
      if result.Some? {
        return;
      }
      var out, err := [], [];
      if failureReason.None? {
        out := FlattenChunks(stdout);
        err := FlattenChunks(stderr);
      }
      executionTimer, graceTimer, killTimer := None, None, None;
      stdout, stderr := [], [];
      result := Some(RunResult(code, out, err, failureReason == Some(Timeout), failureReason, termination,
                               terminationRequestFailed));
    }

    method SendSignal(signal: Signal, killOk: bool)
      modifies this
      ensures State() == RequestSignal(old(State()), signal, killOk)
    {
      if result.Some? || exited || exitCode.Some? || signalled || !pidKnown {
        return;
      }
      signals := signals + [signal];
      if !killOk {
        terminationRequestFailed := true;
      }
    }

    method StopRun(reason: Failure, now: int, killOk: bool)
      modifies this
      ensures State() == Stop(old(State()), limits, reason, now, killOk)
    {
      if result.Some? || failureReason.Some? {
        return;
      }
      failureReason := Some(reason);
      stdout, stderr := [], [];
      executionTimer := None;
      graceTimer := Some(now + limits.terminationGraceMs);
      SendSignal(SIGTERM, killOk);
    }

    method OnData(stream: Stream, chunk: Bytes, now: int, killOk: bool)
      modifies this
      ensures State() == Step(old(State()), limits, now, Data(stream, chunk, killOk))
    {
      if result.Some? || failureReason.Some? {
        return;
      }
      var size := if stream.Stdout? then stdoutBytes else stderrBytes;
      var maximum := if stream.Stdout? then limits.maxStdoutBytes else limits.maxStderrBytes;
      if |chunk| > maximum - size {
        StopRun(if stream.Stdout? then StdoutLimit else StderrLimit, now, killOk);
        return;
      }
      if stream.Stdout? {
        stdoutBytes := stdoutBytes + |chunk|;
        stdout := stdout + [chunk];
      } else {
        stderrBytes := stderrBytes + |chunk|;
        stderr := stderr + [chunk];
      }
    }

    method OnReaped(code: Option<int>, ghost now: int)
      modifies this
      ensures State() == Step(old(State()), limits, now, Reaped(code))
    {
      exitCode := code;
      signalled := signalled || code.None?;
    }

    method OnExit(ghost now: int)
      modifies this
      ensures State() == Step(old(State()), limits, now, Exit)
    {
      if result.None? {
        exited := true;
      }
    }

    method OnClose(code: Option<int>, ghost now: int)
      modifies this
      ensures State() == Step(old(State()), limits, now, Close(code))
    {
      FinishRun(Closed, code);
    }

    method OnError(now: int, killOk: bool)
      modifies this
      ensures State() == Step(old(State()), limits, now, ChildError(killOk))
    {
      if result.Some? {
        return;
      }
      if !pidKnown {
        failureReason := Some(SpawnFailed);
        FinishRun(NotStarted, None);
      } else if failureReason.Some? {
        terminationRequestFailed := true;
      } else {
        StopRun(ProcessError, now, killOk);
      }
    }

    method OnStreamError(now: int, killOk: bool)
      modifies this
      ensures State() == Step(old(State()), limits, now, StreamError(killOk))
    {
      StopRun(ProcessError, now, killOk);
    }

    method OnExecutionTimer(now: int, killOk: bool)
      modifies this
      ensures State() == Step(old(State()), limits, now, ExecutionTimer(killOk))
    {
      if executionTimer.Some? {
        StopRun(Timeout, now, killOk);
      }
    }

    method OnGraceTimer(now: int, killOk: bool)
      modifies this
      ensures State() == Step(old(State()), limits, now, GraceTimer(killOk))
    {
      if graceTimer.Some? {
        graceTimer := None;
        killTimer := Some(now + limits.killGraceMs);
        SendSignal(SIGKILL, killOk);
      }
    }

    method OnKillTimer(ghost now: int)
      modifies this
      ensures State() == Step(old(State()), limits, now, KillTimer)
    {
      if killTimer.Some? {
        killTimer := None;
        FinishRun(Unconfirmed, exitCode);
      }
    }
  }

  /** `Buffer.concat`. */
  method FlattenChunks(chunks: seq<Bytes>) returns (all: Bytes)
    ensures all == Flatten(chunks)
  {
    all := [];
    for i := 0 to |chunks|
      invariant all == Flatten(chunks[..i])
    {
      assert chunks[..i + 1][..i] == chunks[..i];
      all := all + chunks[i];
    }
    assert chunks[..|chunks|] == chunks;
  }

  // ----- Schedules ---------------------------------------------------------------------------------------

  datatype Timed = Timed(now: int, event: Event)

  /** The state after the events es of a child spawned at start. */
  function Run(l: Limits, pidKnown: bool, start: int, es: seq<Timed>): RunState {
    if |es| == 0 then Spawned(l, pidKnown, start)
    else Step(Run(l, pidKnown, start, es[..|es| - 1]), l, es[|es| - 1].now, es[|es| - 1].event)
  }

  predicate DueAt(timer: Option<int>, now: int) {
    timer == Some(now)
  }

  predicate NotOverdue(timer: Option<int>, now: int) {
    timer.Some? ==> now <= timer.value
  }

  /** Nothing happens after an armed timer is due, and a timer's own event happens exactly when it is due. */
  predicate OnTime(s: RunState, now: int, e: Event) {
    && NotOverdue(s.executionTimer, now) && NotOverdue(s.graceTimer, now) && NotOverdue(s.killTimer, now)
    && (e.ExecutionTimer? ==> DueAt(s.executionTimer, now))
    && (e.GraceTimer? ==> DueAt(s.graceTimer, now))
    && (e.KillTimer? ==> DueAt(s.killTimer, now))
  }

  predicate Punctual(l: Limits, pidKnown: bool, start: int, es: seq<Timed>) {
    |es| == 0 ||
    (&& Punctual(l, pidKnown, start, es[..|es| - 1])
     && OnTime(Run(l, pidKnown, start, es[..|es| - 1]), es[|es| - 1].now, es[|es| - 1].event))
  }

  function Deadline(l: Limits, start: int): int {
    start + l.timeoutMs + l.terminationGraceMs + l.killGraceMs
  }

  /** Exactly one timer is armed until the run settles, and it is due before the deadline. */
  predicate TimersInv(s: RunState, l: Limits, start: int) {
    if s.result.Some? then s.executionTimer.None? && s.graceTimer.None? && s.killTimer.None?
    else if s.failureReason.None? then
      s.executionTimer == Some(start + l.timeoutMs) && s.graceTimer.None? && s.killTimer.None?
    else
      && s.executionTimer.None?
      && (s.graceTimer.Some? <==> s.killTimer.None?)
      && (s.graceTimer.Some? ==> s.graceTimer.value <= start + l.timeoutMs + l.terminationGraceMs)
      && (s.killTimer.Some? ==> s.killTimer.value <= Deadline(l, start))
  }

  lemma StepKeepsTimers(s: RunState, l: Limits, start: int, now: int, e: Event)
    requires TimersInv(s, l, start) && OnTime(s, now, e)
    ensures TimersInv(Step(s, l, now, e), l, start)
  {
  }

  lemma {:induction false} OneTimerArmed(l: Limits, pidKnown: bool, start: int, es: seq<Timed>)
    requires Punctual(l, pidKnown, start, es)
    ensures TimersInv(Run(l, pidKnown, start, es), l, start)
  {
    if |es| > 0 {
      var before, last := es[..|es| - 1], es[|es| - 1];
      OneTimerArmed(l, pidKnown, start, before);
      StepKeepsTimers(Run(l, pidKnown, start, before), l, start, last.now, last.event);
    }
  }

  /** How many timers can still fire. */
  function TimersLeft(s: RunState): nat {
    if s.result.Some? then 0 else if s.killTimer.Some? then 1 else if s.graceTimer.Some? then 2 else 3
  }

  /** Whatever the child does, the run has settled before anything can happen past the deadline. */
  lemma SettledByDeadline(l: Limits, pidKnown: bool, start: int, es: seq<Timed>)
    requires Punctual(l, pidKnown, start, es) && |es| > 0 && es[|es| - 1].now > Deadline(l, start)
    ensures Run(l, pidKnown, start, es[..|es| - 1]).result.Some?
  {
    OneTimerArmed(l, pidKnown, start, es[..|es| - 1]);
  }

  lemma RunSnoc(l: Limits, pidKnown: bool, start: int, es: seq<Timed>, t: Timed)
    ensures Run(l, pidKnown, start, es + [t]) == Step(Run(l, pidKnown, start, es), l, t.now, t.event)
    ensures Punctual(l, pidKnown, start, es + [t])
            <==> Punctual(l, pidKnown, start, es) && OnTime(Run(l, pidKnown, start, es), t.now, t.event)
  {
  }

  /** The event of the armed timer. */
  function ArmedTimer(s: RunState): Timed {
    if s.executionTimer.Some? then Timed(s.executionTimer.value, ExecutionTimer(true))
    else if s.graceTimer.Some? then Timed(s.graceTimer.value, GraceTimer(true))
    else Timed(if s.killTimer.Some? then s.killTimer.value else 0, KillTimer)
  }

  lemma FiringAdvances(s: RunState, l: Limits, start: int)
    requires TimersInv(s, l, start) && s.result.None?
    ensures var t := ArmedTimer(s);
            && OnTime(s, t.now, t.event) && t.now <= Deadline(l, start)
            && TimersLeft(Step(s, l, t.now, t.event)) < TimersLeft(s)
  {
  }

  /** Until the run settles its armed timer can always fire, so waiting alone brings the result by the deadline. */
  lemma {:induction false} TimersAloneSettle(l: Limits, pidKnown: bool, start: int, es: seq<Timed>)
    returns (all: seq<Timed>)
    requires Punctual(l, pidKnown, start, es)
    ensures es <= all && Punctual(l, pidKnown, start, all) && Run(l, pidKnown, start, all).result.Some?
    ensures |all| <= |es| + TimersLeft(Run(l, pidKnown, start, es))
    ensures forall i :: |es| <= i < |all| ==>
              all[i].now <= Deadline(l, start)
              && (all[i].event.ExecutionTimer? || all[i].event.GraceTimer? || all[i].event.KillTimer?)
    decreases TimersLeft(Run(l, pidKnown, start, es))
  {
    var s := Run(l, pidKnown, start, es);
    if s.result.Some? {
      all := es;
    } else {
      var t := ArmedTimer(s);
      OneTimerArmed(l, pidKnown, start, es);
      FiringAdvances(s, l, start);
      RunSnoc(l, pidKnown, start, es, t);
      all := TimersAloneSettle(l, pidKnown, start, es + [t]);
      assert all[|es|] == (es + [t])[|es|];
    }
  }

  // ----- Signals ---------------------------------------------------------------------------------------

  predicate SignalInv(s: RunState) {
    && (s.signals == [] || s.signals == [SIGTERM] || s.signals == [SIGTERM, SIGKILL])
    && (s.graceTimer.Some? || s.killTimer.Some? ==> s.failureReason.Some?)
    && (s.graceTimer.Some? ==> s.signals != [SIGTERM, SIGKILL])
    && (s.result.None? ==> s.failureReason != Some(SpawnFailed))
    && (s.result.None? && s.failureReason.None? ==> s.signals == [])
    && (s.result.None? && s.failureReason.Some? && s.signals == [] ==> Unreachable(s))
  }

  /** At most one SIGTERM and then at most one SIGKILL are requested. */
  lemma {:induction false} SignalsBounded(l: Limits, pidKnown: bool, start: int, es: seq<Timed>)
    ensures SignalInv(Run(l, pidKnown, start, es))
  {
    if |es| > 0 {
      var before, t := es[..|es| - 1], es[|es| - 1];
      SignalsBounded(l, pidKnown, start, before);
      StepKeepsSignals(Run(l, pidKnown, start, before), l, t.now, t.event);
    }
  }

  lemma StopKeepsSignals(s: RunState, l: Limits, reason: Failure, now: int, killOk: bool)
    requires SignalInv(s) && !reason.SpawnFailed?
    ensures var v := Stop(s, l, reason, now, killOk);
            SignalInv(v) && (v.signals != s.signals ==> s.result.None? && !Unreachable(s))
  {
  }

  lemma GraceKeepsSignals(s: RunState, l: Limits, now: int, killOk: bool)
    requires SignalInv(s)
    ensures var v := Step(s, l, now, GraceTimer(killOk));
            SignalInv(v) && (v.signals != s.signals ==> s.result.None? && !Unreachable(s))
  {
  }

  lemma QuietKeepsSignals(s: RunState, l: Limits, now: int, e: Event)
    requires SignalInv(s) && (e.Reaped? || e.Exit? || e.Close? || e.KillTimer?)
    ensures SignalInv(Step(s, l, now, e)) && Step(s, l, now, e).signals == s.signals
  {
  }

  lemma ErrorKeepsSignals(s: RunState, l: Limits, now: int, killOk: bool)
    requires SignalInv(s)
    ensures var v := Step(s, l, now, ChildError(killOk));
            SignalInv(v) && (v.signals != s.signals ==> s.result.None? && !Unreachable(s))
  {
    StopKeepsSignals(s, l, ProcessError, now, killOk);
  }

  lemma StepKeepsSignals(s: RunState, l: Limits, now: int, e: Event)
    requires SignalInv(s)
    ensures SignalInv(Step(s, l, now, e))
    ensures Step(s, l, now, e).signals != s.signals ==> s.result.None? && !Unreachable(s)
  {
    match e {
      case Data(stream, _, killOk) => StopKeepsSignals(s, l, if stream.Stdout? then StdoutLimit else StderrLimit, now, killOk);
      case ChildError(killOk) => ErrorKeepsSignals(s, l, now, killOk);
      case StreamError(killOk) => StopKeepsSignals(s, l, ProcessError, now, killOk);
      case ExecutionTimer(killOk) => StopKeepsSignals(s, l, Timeout, now, killOk);
      case GraceTimer(killOk) => GraceKeepsSignals(s, l, now, killOk);
      case _ => QuietKeepsSignals(s, l, now, e);
    }
  }

  /** No request goes to a child that has exited, never started, or whose run has settled. */
  lemma NoSignalAfterExitOrSettlement(l: Limits, pidKnown: bool, start: int, es: seq<Timed>, t: Timed)
    requires var s := Run(l, pidKnown, start, es); s.result.Some? || Unreachable(s)
    ensures Run(l, pidKnown, start, es + [t]).signals == Run(l, pidKnown, start, es).signals
  {
    RunSnoc(l, pidKnown, start, es, t);
    SignalsBounded(l, pidKnown, start, es);
    StepKeepsSignals(Run(l, pidKnown, start, es), l, t.now, t.event);
  }

  // ----- Results -----------------------------------------------------------------------------------------

  lemma ResultStays(s: RunState, l: Limits, now: int, e: Event)
    requires s.result.Some?
    ensures Step(s, l, now, e).result == s.result
  {
  }

  /** A result, once there, never changes. */
  lemma {:induction false} SettlesOnce(l: Limits, pidKnown: bool, start: int, es: seq<Timed>, i: nat)
    requires i <= |es| && Run(l, pidKnown, start, es[..i]).result.Some?
    ensures Run(l, pidKnown, start, es).result == Run(l, pidKnown, start, es[..i]).result
  {
    if i == |es| {
      assert es[..i] == es;
    } else {
      var front, t := es[..|es| - 1], es[|es| - 1];
      assert front[..i] == es[..i];
      SettlesOnce(l, pidKnown, start, front, i);
      ResultStays(Run(l, pidKnown, start, front), l, t.now, t.event);
    }
  }

  /** Everything the child wrote to a stream, in order. */
  function Delivered(es: seq<Timed>, stream: Stream): Bytes {
    if |es| == 0 then []
    else
      var e := es[|es| - 1].event;
      Delivered(es[..|es| - 1], stream) + if e.Data? && e.stream == stream then e.chunk else []
  }

  /** out and err are what the child has written so far. */
  predicate OutputInv(s: RunState, l: Limits, out: Bytes, err: Bytes) {
    && s.stdoutBytes <= l.maxStdoutBytes && s.stderrBytes <= l.maxStderrBytes
    && (s.result.None? && s.failureReason.None? ==>
          && Flatten(s.stdout) == out && |out| == s.stdoutBytes
          && Flatten(s.stderr) == err && |err| == s.stderrBytes)
    && (s.failureReason.Some? ==> s.stdout == [] && s.stderr == [])
  }

  lemma FlattenSnoc(chunks: seq<Bytes>, chunk: Bytes)
    ensures Flatten(chunks + [chunk]) == Flatten(chunks) + chunk
  {
  }

  lemma StopDropsOutput(s: RunState, l: Limits, reason: Failure, now: int, killOk: bool, out: Bytes, err: Bytes)
    requires s.stdoutBytes <= l.maxStdoutBytes && s.stderrBytes <= l.maxStderrBytes
    requires s.result.None? && s.failureReason.None?
    ensures OutputInv(Stop(s, l, reason, now, killOk), l, out, err)
  {
  }

  lemma CollectKeepsOutput(s: RunState, l: Limits, out: Bytes, err: Bytes, e: Event, now: int)
    requires OutputInv(s, l, out, err) && e.Data?
    ensures var v := Collect(s, l, e.chunk, e.stream, now, e.killOk);
            if e.stream.Stdout? then OutputInv(v, l, out + e.chunk, err) else OutputInv(v, l, out, err + e.chunk)
  {
    if s.result.None? && s.failureReason.None? {
      if e.stream.Stdout? {
        StopDropsOutput(s, l, StdoutLimit, now, e.killOk, out + e.chunk, err);
        FlattenSnoc(s.stdout, e.chunk);
      } else {
        StopDropsOutput(s, l, StderrLimit, now, e.killOk, out, err + e.chunk);
        FlattenSnoc(s.stderr, e.chunk);
      }
    }
  }

  lemma OtherKeepsOutput(s: RunState, l: Limits, out: Bytes, err: Bytes, now: int, e: Event)
    requires OutputInv(s, l, out, err) && !e.Data?
    ensures OutputInv(Step(s, l, now, e), l, out, err)
  {
  }

  /** The collected bytes are the delivered bytes and never exceed a cap. */
  lemma {:induction false} OutputBounded(l: Limits, pidKnown: bool, start: int, es: seq<Timed>)
    ensures OutputInv(Run(l, pidKnown, start, es), l, Delivered(es, Stdout), Delivered(es, Stderr))
  {
    if |es| > 0 {
      var before, t := es[..|es| - 1], es[|es| - 1];
      var s, out, err := Run(l, pidKnown, start, before), Delivered(before, Stdout), Delivered(before, Stderr);
      OutputBounded(l, pidKnown, start, before);
      assert out + [] == out && err + [] == err;
      if t.event.Data? {
        CollectKeepsOutput(s, l, out, err, t.event, t.now);
      } else {
        OtherKeepsOutput(s, l, out, err, t.now, t.event);
      }
    }
  }

  /** A failure has no output; without one the run closed, with everything delivered and the exit code it closed with. */
  predicate Exact(l: Limits, out: Bytes, err: Bytes, e: Event, r: RunResult) {
    && (r.failureReason.Some? ==> r.stdout == [] && r.stderr == [])
    && (r.failureReason.None? ==>
          && e == Close(r.exitCode) && r.termination == Closed
          && r.stdout == out && r.stderr == err && |out| <= l.maxStdoutBytes && |err| <= l.maxStderrBytes)
    && (r.timedOut <==> r.failureReason == Some(Timeout))
    && (r.termination == NotStarted <==> r.failureReason == Some(SpawnFailed))
  }

  lemma StepSettles(s: RunState, l: Limits, out: Bytes, err: Bytes, now: int, e: Event)
    requires OutputInv(s, l, out, err) && SignalInv(s) && s.result.None? && Step(s, l, now, e).result.Some?
    ensures e.Close? || e.ChildError? || e.KillTimer?
    ensures Exact(l, out, err, e, Step(s, l, now, e).result.value)
  {
  }

  /** The result of a run whose settling event is t, after the events es. */
  lemma SettlementIsExact(l: Limits, pidKnown: bool, start: int, es: seq<Timed>, t: Timed)
    requires Run(l, pidKnown, start, es).result.None? && Run(l, pidKnown, start, es + [t]).result.Some?
    ensures Exact(l, Delivered(es, Stdout), Delivered(es, Stderr), t.event, Run(l, pidKnown, start, es + [t]).result.value)
  {
    OutputBounded(l, pidKnown, start, es);
    SignalsBounded(l, pidKnown, start, es);
    RunSnoc(l, pidKnown, start, es, t);
    StepSettles(Run(l, pidKnown, start, es), l, Delivered(es, Stdout), Delivered(es, Stderr), t.now, t.event);
  }

  /** The event neither reports a failure nor ends the run; the grace and the kill timer are not armed without a failure. */
  predicate Harmless(e: Event) {
    e.Data? || e.Reaped? || e.Exit? || e.GraceTimer? || e.KillTimer?
  }

  /** Nothing went wrong and both streams kept to their caps. */
  predicate Clean(l: Limits, es: seq<Timed>) {
    |es| == 0 ||
    (&& Clean(l, es[..|es| - 1]) && Harmless(es[|es| - 1].event)
     && |Delivered(es, Stdout)| <= l.maxStdoutBytes && |Delivered(es, Stderr)| <= l.maxStderrBytes)
  }

  predicate Unfailed(s: RunState) {
    s.result.None? && s.failureReason.None?
  }

  /** An unfailed run waits for its execution timer only. */
  predicate Watching(s: RunState) {
    Unfailed(s) ==> s.executionTimer.Some? && s.graceTimer.None? && s.killTimer.None?
  }

  /** The chunk, if the event is one, still fits its stream's cap. */
  predicate Fits(l: Limits, out: Bytes, err: Bytes, e: Event) {
    e.Data? ==> if e.stream.Stdout? then |out + e.chunk| <= l.maxStdoutBytes else |err + e.chunk| <= l.maxStderrBytes
  }

  lemma StepStaysUnfailed(s: RunState, l: Limits, out: Bytes, err: Bytes, now: int, e: Event)
    requires OutputInv(s, l, out, err) && Watching(s)
    ensures Watching(Step(s, l, now, e))
    ensures Unfailed(Step(s, l, now, e)) <==> Unfailed(s) && Harmless(e) && Fits(l, out, err, e)
  {
  }

  lemma CleanBytes(l: Limits, es: seq<Timed>)
    requires Clean(l, es)
    ensures |Delivered(es, Stdout)| <= l.maxStdoutBytes && |Delivered(es, Stderr)| <= l.maxStderrBytes
  {
  }

  /** For any events at all, the run is unsettled and unfailed exactly when it has been clean. */
  lemma {:induction false} UnfailedExactlyWhenClean(l: Limits, pidKnown: bool, start: int, es: seq<Timed>)
    ensures Watching(Run(l, pidKnown, start, es))
    ensures Unfailed(Run(l, pidKnown, start, es)) <==> Clean(l, es)
  {
    if |es| > 0 {
      var before, t := es[..|es| - 1], es[|es| - 1];
      var s, out, err := Run(l, pidKnown, start, before), Delivered(before, Stdout), Delivered(before, Stderr);
      UnfailedExactlyWhenClean(l, pidKnown, start, before);
      OutputBounded(l, pidKnown, start, before);
      StepStaysUnfailed(s, l, out, err, t.now, t.event);
      if Clean(l, before) {
        CleanBytes(l, before);
      }
    }
  }

  /** A run ends without a failure exactly when it closes after clean events. */
  lemma {:induction false} EndsUnfailedExactly(l: Limits, pidKnown: bool, start: int, es: seq<Timed>)
    ensures var r := Run(l, pidKnown, start, es).result;
            r.Some? && r.value.failureReason.None? <==>
            exists i :: 0 <= i < |es| && es[i].event.Close? && Clean(l, es[..i])
  {
    forall i | 0 <= i < |es| && es[i].event.Close? && Clean(l, es[..i])
      ensures Run(l, pidKnown, start, es).result.Some? && Run(l, pidKnown, start, es).result.value.failureReason.None?
    {
      UnfailedExactlyWhenClean(l, pidKnown, start, es[..i]);
      assert es[..i + 1][..i] == es[..i];
      SettlesOnce(l, pidKnown, start, es, i + 1);
    }
    var r := Run(l, pidKnown, start, es).result;
    if r.Some? && r.value.failureReason.None? {
      var i := ClosingEvent(l, pidKnown, start, es);
    }
  }

  lemma {:induction false} ClosingEvent(l: Limits, pidKnown: bool, start: int, es: seq<Timed>) returns (i: nat)
    requires var r := Run(l, pidKnown, start, es).result; r.Some? && r.value.failureReason.None?
    ensures i < |es| && es[i].event.Close? && Clean(l, es[..i])
  {
    var before, t := es[..|es| - 1], es[|es| - 1];
    var s := Run(l, pidKnown, start, before);
    UnfailedExactlyWhenClean(l, pidKnown, start, before);
    StepEndsUnfailed(s, l, t.now, t.event);
    if s.result.Some? {
      i := ClosingEvent(l, pidKnown, start, before);
      assert before[..i] == es[..i];
    } else {
      i := |before|;
    }
  }

  lemma StepEndsUnfailed(s: RunState, l: Limits, now: int, e: Event)
    requires Watching(s)
    ensures s.result.Some? ==> Step(s, l, now, e).result == s.result
    ensures var r := Step(s, l, now, e).result;
            s.result.None? && r.Some? && r.value.failureReason.None? ==> e.Close? && Unfailed(s)
  {
  }

  /** What a run fails with when this event is the first that is not clean. */
  function Blame(e: Event): Failure {
    match e
    case Data(Stdout, _, _) => StdoutLimit
    case Data(Stderr, _, _) => StderrLimit
    case ExecutionTimer(_) => Timeout
    case _ => ProcessError
  }

  lemma StepKeepsFailure(s: RunState, l: Limits, now: int, e: Event)
    requires s.pidKnown
    ensures Step(s, l, now, e).pidKnown
    ensures s.failureReason.Some? ==> Step(s, l, now, e).failureReason == s.failureReason
    ensures (Unfailed(s) && Watching(s) && !Unfailed(Step(s, l, now, e)) && !e.Close? ==>
               Step(s, l, now, e).failureReason == Some(Blame(e)))
  {
  }

  lemma {:induction false} PidStaysKnown(l: Limits, start: int, es: seq<Timed>)
    ensures Run(l, true, start, es).pidKnown
  {
    if |es| > 0 {
      PidStaysKnown(l, start, es[..|es| - 1]);
      StepKeepsFailure(Run(l, true, start, es[..|es| - 1]), l, es[|es| - 1].now, es[|es| - 1].event);
    }
  }

  /** The first event that is not clean decides the failure of a started child: a timeout exactly for the execution timer. */
  lemma {:induction false} FirstFailureDecides(l: Limits, start: int, es: seq<Timed>, i: nat)
    requires i < |es| && Clean(l, es[..i]) && !Clean(l, es[..i + 1]) && !es[i].event.Close?
    ensures Run(l, true, start, es).failureReason == Some(Blame(es[i].event))
  {
    var before, t := es[..|es| - 1], es[|es| - 1];
    PidStaysKnown(l, start, before);
    StepKeepsFailure(Run(l, true, start, before), l, t.now, t.event);
    if i < |before| {
      assert before[..i] == es[..i] && before[..i + 1] == es[..i + 1];
      FirstFailureDecides(l, start, before, i);
    } else {
      assert es[..i + 1] == es;
      UnfailedExactlyWhenClean(l, true, start, before);
      UnfailedExactlyWhenClean(l, true, start, es);
    }
  }
}
