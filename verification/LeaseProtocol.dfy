/** Any number of `requestJson` and `getCalendar` callers interleaved at their `await`s over one lease client.
    The scheduler runs ready continuations first come, first served, as the microtask queue does; the issuer,
    the network and new callers act at any moment. */
module LeaseProtocol {
  import opened Numbers
  import opened AuthClient

  datatype Kind = ReadOnly | Calendar

  /** Where a caller is suspended; ticket is the moment its continuation was queued. */
  datatype Phase =
    | Start(ticket: nat)                                       // about to call getTokenLease
    | Waiting(issue: nat, since: nat)                          // awaiting a pending issue
    | Ready(lease: Lease, ticket: nat)                         // getTokenLease returned
    | InFlight(lease: Lease)                                   // request sent
    | Answered(lease: Lease, refreshable: bool, ticket: nat)   // response or transport failure arrived
    | Done

  /** first is the generation the caller invalidated before its second attempt. */
  datatype Caller = Caller(kind: Kind, attempt: nat, first: nat, phase: Phase)

  datatype Event = Issued(generation: nat) | Evicted(generation: nat) | Expired(generation: nat)
                 | Sent(caller: nat, generation: nat)

  datatype World = World(
    client: ClientState, callers: seq<Caller>, settledAt: seq<nat>, clock: nat, margin: int, log: seq<Event>)

  datatype Action = Arrive(kind: Kind) | Call(c: nat, now: int, issuedAt: int) | IssuerReplies(id: nat, response: TokenResponse)
                  | Wake(c: nat) | Send(c: nat) | Answer(c: nat, refreshable: bool) | Handle(c: nat)

  function Init(margin: int): World {
    World(ClientState(None, None, 0, []), [], [], 0, margin, [])
  }

  // ----- Scheduling -------------------------------------------------------------------------------

  predicate Settled(w: World, id: nat) {
    id < |w.client.issues| && id < |w.settledAt| && !w.client.issues[id].Outstanding?
  }

  predicate Runnable(w: World, p: Phase) {
    p.Start? || p.Ready? || p.Answered? || (p.Waiting? && Settled(w, p.issue))
  }

  /** A waiter that joined before settlement is queued when the issue settles. */
  function Ticket(w: World, p: Phase): nat
    requires Runnable(w, p)
  {
    if !p.Waiting? then p.ticket
    else if p.since < w.settledAt[p.issue] then w.settledAt[p.issue] else p.since
  }

  predicate NextInLine(w: World, c: nat) {
    && c < |w.callers| && Runnable(w, w.callers[c].phase)
    && forall d :: 0 <= d < |w.callers| && Runnable(w, w.callers[d].phase)
                   ==> Ticket(w, w.callers[c].phase) <= Ticket(w, w.callers[d].phase)
  }

  predicate Enabled(w: World, a: Action) {
    && |w.settledAt| == |w.client.issues|
    && match a
    case Arrive(_) => true
    case Call(c, _, _) => NextInLine(w, c) && w.callers[c].phase.Start?
    case IssuerReplies(id, _) => id < |w.client.issues| && w.client.issues[id].Outstanding?
    case Wake(c) => NextInLine(w, c) && w.callers[c].phase.Waiting?
    case Send(c) => NextInLine(w, c) && w.callers[c].phase.Ready?
    case Answer(c, _) => c < |w.callers| && w.callers[c].phase.InFlight?
    case Handle(c) => NextInLine(w, c) && w.callers[c].phase.Answered?
  }

  // ----- The atomic steps ---------------------------------------------------------------------------

  function Move(w: World, c: nat, p: Phase): World
    requires c < |w.callers|
  {
    w.(callers := w.callers[c := w.callers[c].(phase := p)], clock := w.clock + 1)
  }

  function DoCall(w: World, c: nat, now: int, issuedAt: int): World
    requires c < |w.callers|
  {
    var (client, entry) := Enter(w.client, now, issuedAt, w.margin);
    match entry
    case Cached(lease) => Move(w, c, Ready(lease, w.clock))
    case Await(id) =>
      var started := |client.issues| > |w.client.issues|;
      Move(w, c, Waiting(id, w.clock)).(
        client := client, settledAt := if started then w.settledAt + [0] else w.settledAt,
        log := if started && w.client.cached.Some? then w.log + [Expired(w.client.cached.value.generation)] else w.log)
  }

  function DoReply(w: World, id: nat, response: TokenResponse): World
    requires id < |w.client.issues| && w.client.issues[id].Outstanding? && |w.settledAt| == |w.client.issues|
  {
    var client := Settle(w.client, id, response);
    w.(client := client, settledAt := w.settledAt[id := w.clock], clock := w.clock + 1,
       log := if client.issues[id].Resolved? then w.log + [Issued(client.generation)] else w.log)
  }

  function DoWake(w: World, c: nat): World
    requires c < |w.callers| && w.callers[c].phase.Waiting? && Settled(w, w.callers[c].phase.issue)
  {
    var issue := w.client.issues[w.callers[c].phase.issue];
    Move(w, c, if issue.Resolved? then Ready(issue.lease, w.clock) else Done).(
      client := Finish(w.client, w.callers[c].phase.issue))
  }

  function DoSend(w: World, c: nat): World
    requires c < |w.callers| && w.callers[c].phase.Ready?
  {
    var lease := w.callers[c].phase.lease;
    if w.callers[c].kind.Calendar? && !(lease.validBearer && 1 <= lease.generation <= MAX_SAFE_INTEGER) then
      Move(w, c, Done)
    else
      Move(w, c, InFlight(lease)).(log := w.log + [Sent(c, lease.generation)])
  }

  function DoHandle(w: World, c: nat): World
    requires c < |w.callers| && w.callers[c].phase.Answered?
  {
    var caller := w.callers[c];
    if !caller.phase.refreshable then Move(w, c, Done)
    else
      var g := caller.phase.lease.generation;
      var (client, evicted) := Invalidate(w.client, g);
      var next := if caller.attempt == 1 then Caller(caller.kind, 2, g, Start(w.clock)) else caller.(phase := Done);
      w.(callers := w.callers[c := next], clock := w.clock + 1, client := client,
         log := if evicted then w.log + [Evicted(g)] else w.log)
  }

  function Do(w: World, a: Action): World
    requires Enabled(w, a)
  {
    match a
    case Arrive(kind) => w.(callers := w.callers + [Caller(kind, 1, 0, Start(w.clock))], clock := w.clock + 1)
    case Call(c, now, issuedAt) => DoCall(w, c, now, issuedAt)
    case IssuerReplies(id, response) => DoReply(w, id, response)
    case Wake(c) => DoWake(w, c)
    case Send(c) => DoSend(w, c)
    case Answer(c, refreshable) => Move(w, c, Answered(w.callers[c].phase.lease, refreshable, w.clock))
    case Handle(c) => DoHandle(w, c)
  }

  // ----- Invariant: the client ------------------------------------------------------------------------

  predicate ClientInv(w: World) {
    var s := w.client;
    && |w.settledAt| == |s.issues|
    && s.generation <= MAX_SAFE_INTEGER
    && (s.pending.Some? ==> s.pending.value < |s.issues|)
    && (s.cached.Some? ==> s.cached.value.generation == s.generation >= 1)
    && (forall id :: 0 <= id < |s.issues| ==> w.settledAt[id] < w.clock)
    && (forall id :: 0 <= id < |s.issues| && s.issues[id].Outstanding? ==> s.pending == Some(id))
    && (forall id :: 0 <= id < |s.issues| && s.issues[id].Resolved? ==> 1 <= s.issues[id].lease.generation <= s.generation)
    && (s.pending.Some? && s.issues[s.pending.value].Resolved? ==> s.cached == Some(s.issues[s.pending.value].lease))
  }

  // ----- Invariant: the log ---------------------------------------------------------------------------

  /** The last generation issued, zero before the first. */
  function Latest(log: seq<Event>): nat {
    if |log| == 0 then 0
    else if log[|log| - 1].Issued? then log[|log| - 1].generation
    else Latest(log[..|log| - 1])
  }

  predicate Released(log: seq<Event>, g: nat) {
    Evicted(g) in log || Expired(g) in log
  }

  /** What may follow a log: generations are issued one by one, each only after its predecessor was released. */
  predicate MayFollow(log: seq<Event>, e: Event) {
    match e
    case Issued(g) => g == Latest(log) + 1 && (g > 1 ==> Released(log, g - 1))
    case Evicted(g) => 1 <= g == Latest(log) && Evicted(g) !in log
    case Expired(g) => 1 <= g == Latest(log)
    case Sent(_, g) => 1 <= g <= Latest(log)
  }

  predicate Chained(log: seq<Event>) {
    |log| == 0 || (Chained(log[..|log| - 1]) && MayFollow(log[..|log| - 1], log[|log| - 1]))
  }

  predicate LogInv(w: World) {
    var s := w.client;
    && Chained(w.log)
    && Latest(w.log) == s.generation
    && (s.cached.Some? ==> Evicted(s.generation) !in w.log)
    && (s.cached.None? && s.generation >= 1 ==> Evicted(s.generation) in w.log)
    && (s.pending.Some? && s.pending.value < |s.issues| && s.issues[s.pending.value].Outstanding? && s.generation >= 1 ==>
          Released(w.log, s.generation))
  }

  // ----- Invariant: the callers -----------------------------------------------------------------------

  predicate HoldsLease(p: Phase) {
    p.Ready? || p.InFlight? || p.Answered?
  }

  predicate Queued(w: World, p: Phase) {
    && ((p.Start? || p.Ready? || p.Answered?) ==> p.ticket < w.clock)
    && (p.Waiting? ==> p.since < w.clock && p.issue < |w.client.issues|)
    && (HoldsLease(p) ==> 1 <= p.lease.generation <= w.client.generation)
  }

  /** Someone who will clear the pending slot is queued for it since before it settled. */
  ghost predicate PendingHasWaiter(w: World) {
    w.client.pending.Some? ==>
      exists c :: 0 <= c < |w.callers| && EarlyWaiter(w, w.client.pending.value, w.callers[c].phase)
  }

  predicate EarlyWaiter(w: World, id: nat, p: Phase) {
    p.Waiting? && p.issue == id && (Settled(w, id) ==> p.since < w.settledAt[id])
  }

  /** Until the slot is cleared, an answer to the lease it resolved to is queued after its first waiter. */
  predicate AnswersComeLater(w: World, p: Phase) {
    (&& p.Answered? && w.client.pending.Some? && Settled(w, w.client.pending.value)
     && w.client.issues[w.client.pending.value].Resolved?
     && p.lease.generation == w.client.issues[w.client.pending.value].lease.generation)
    ==> w.settledAt[w.client.pending.value] < p.ticket
  }

  ghost predicate CallersInv(w: World) {
    && (forall c :: 0 <= c < |w.callers| ==> Queued(w, w.callers[c].phase) && AnswersComeLater(w, w.callers[c].phase))
    && PendingHasWaiter(w)
  }

  /** A caller on its second attempt can only be handed a lease newer than its first. */
  predicate Refreshing(w: World, r: Caller) {
    && (r.attempt == 1 || r.attempt == 2)
    && (r.attempt == 2 ==>
          && 1 <= r.first <= w.client.generation
          && (r.phase.Start? || r.phase.Waiting? ==> w.client.cached.Some? ==> r.first < w.client.generation)
          && ((r.phase.Waiting? && Settled(w, r.phase.issue) && w.client.issues[r.phase.issue].Resolved?) ==>
                r.first < w.client.issues[r.phase.issue].lease.generation)
          && (HoldsLease(r.phase) ==> r.first < r.phase.lease.generation))
  }

  predicate RefreshInv(w: World) {
    forall c :: 0 <= c < |w.callers| ==> Refreshing(w, w.callers[c])
  }

  // ----- Invariant: what each caller has sent -----------------------------------------------------------

  /** The generations caller c has sent a request with, in order. */
  function SendsOf(log: seq<Event>, c: nat): seq<nat> {
    if |log| == 0 then []
    else
      var e := log[|log| - 1];
      SendsOf(log[..|log| - 1], c) + if e.Sent? && e.caller == c then [e.generation] else []
  }

  predicate SendsMatch(r: Caller, sends: seq<nat>) {
    var before := if r.attempt == 2 then [r.first] else [];
    match r.phase
    case Done => |sends| <= 2 && (|sends| == 2 ==> sends[0] < sends[1])
    case InFlight(lease) => sends == before + [lease.generation]
    case Answered(lease, _, _) => sends == before + [lease.generation]
    case _ => sends == before
  }

  predicate SendsInv(w: World) {
    && (forall c :: 0 <= c < |w.callers| ==> SendsMatch(w.callers[c], SendsOf(w.log, c)))
    && (forall i :: 0 <= i < |w.log| && w.log[i].Sent? ==> w.log[i].caller < |w.callers|)
  }

  ghost predicate Inv(w: World) {
    ClientInv(w) && LogInv(w) && CallersInv(w) && RefreshInv(w) && SendsInv(w)
  }

  // ----- Each step keeps the invariant ------------------------------------------------------------------

  lemma SendsOfExtended(log: seq<Event>, e: Event, c: nat)
    ensures SendsOf(log + [e], c) == SendsOf(log, c) + if e.Sent? && e.caller == c then [e.generation] else []
  {
  }

  lemma {:induction false} NoSends(log: seq<Event>, c: nat)
    requires forall i :: 0 <= i < |log| && log[i].Sent? ==> log[i].caller != c
    ensures SendsOf(log, c) == []
  {
    if |log| > 0 {
      NoSends(log[..|log| - 1], c);
    }
  }

  lemma ChainExtended(log: seq<Event>, e: Event)
    requires Chained(log) && MayFollow(log, e)
    ensures Chained(log + [e])
    ensures Latest(log + [e]) == if e.Issued? then e.generation else Latest(log)
    ensures forall x :: x in log + [e] <==> x in log || x == e
  {
  }

  lemma {:induction false} EvictionsWereIssued(log: seq<Event>, g: nat)
    requires Chained(log) && g > Latest(log)
    ensures Evicted(g) !in log
  {
    if |log| > 0 {
      var before := log[..|log| - 1];
      LatestGrows(before, log[|log| - 1]);
      EvictionsWereIssued(before, g);
      assert log == before + [log[|log| - 1]];
    }
  }

  lemma LatestGrows(log: seq<Event>, e: Event)
    requires MayFollow(log, e)
    ensures Latest(log) <= Latest(log + [e])
  {
  }

  /** An eviction never meets a pending slot that still holds the evicted lease: its first waiter ran before. */
  lemma EvictionFindsSlotCleared(w: World, c: nat)
    requires ClientInv(w) && CallersInv(w) && Enabled(w, Handle(c))
    requires w.client.pending.Some? && w.client.issues[w.client.pending.value].Resolved?
    ensures w.callers[c].phase.lease.generation != w.client.generation
  {
  }

  lemma CallKeepsClient(w: World, c: nat, now: int, issuedAt: int)
    requires ClientInv(w) && c < |w.callers|
    ensures ClientInv(DoCall(w, c, now, issuedAt))
  {
  }

  lemma ReplyKeepsClient(w: World, id: nat, response: TokenResponse)
    requires ClientInv(w) && id < |w.client.issues| && w.client.issues[id].Outstanding?
    ensures ClientInv(DoReply(w, id, response))
  {
  }

  lemma WakeKeepsClient(w: World, c: nat)
    requires ClientInv(w) && c < |w.callers| && w.callers[c].phase.Waiting? && Settled(w, w.callers[c].phase.issue)
    ensures ClientInv(DoWake(w, c))
  {
  }

  lemma SendKeepsClient(w: World, c: nat)
    requires ClientInv(w) && c < |w.callers| && w.callers[c].phase.Ready?
    ensures ClientInv(DoSend(w, c))
  {
  }

  lemma HandleKeepsClient(w: World, c: nat)
    requires ClientInv(w) && CallersInv(w) && Enabled(w, Handle(c))
    ensures ClientInv(DoHandle(w, c))
  {
  }

  lemma CallKeepsRefresh(w: World, c: nat, now: int, issuedAt: int)
    requires ClientInv(w) && CallersInv(w) && RefreshInv(w) && c < |w.callers| && w.callers[c].phase.Start?
    ensures RefreshInv(DoCall(w, c, now, issuedAt))
  {
  }

  lemma ReplyKeepsRefresh(w: World, id: nat, response: TokenResponse)
    requires ClientInv(w) && CallersInv(w) && RefreshInv(w) && id < |w.client.issues| && w.client.issues[id].Outstanding?
    ensures RefreshInv(DoReply(w, id, response))
  {
  }

  lemma WakeKeepsRefresh(w: World, c: nat)
    requires ClientInv(w) && CallersInv(w) && RefreshInv(w) && Enabled(w, Wake(c))
    ensures RefreshInv(DoWake(w, c))
  {
  }

  lemma HandleKeepsRefresh(w: World, c: nat)
    requires ClientInv(w) && CallersInv(w) && RefreshInv(w) && Enabled(w, Handle(c))
    ensures RefreshInv(DoHandle(w, c))
  {
  }

  /** Sending, answering and arriving leave the client alone. */
  lemma QuietKeepsRefresh(w: World, a: Action)
    requires ClientInv(w) && RefreshInv(w) && Enabled(w, a) && (a.Arrive? || a.Send? || a.Answer?)
    ensures RefreshInv(Do(w, a))
  {
  }

  lemma CallKeepsCallers(w: World, c: nat, now: int, issuedAt: int)
    requires ClientInv(w) && CallersInv(w) && c < |w.callers| && w.callers[c].phase.Start?
    ensures CallersInv(DoCall(w, c, now, issuedAt))
  {
    var v := DoCall(w, c, now, issuedAt);
    forall d | 0 <= d < |v.callers|
      ensures Queued(v, v.callers[d].phase) && AnswersComeLater(v, v.callers[d].phase)
    {
      assert Queued(w, w.callers[d].phase) && AnswersComeLater(w, w.callers[d].phase);
    }
    if v.client.pending.Some? {
      if w.client.pending == v.client.pending {
        WaiterStays(w, v, c);
      } else {
        assert EarlyWaiter(v, v.client.pending.value, v.callers[c].phase);
      }
    }
  }

  /** A step of a caller that is not waiting leaves the early waiter where it was. */
  lemma WaiterStays(w: World, v: World, c: nat)
    requires ClientInv(w) && PendingHasWaiter(w) && w.client.pending.Some? && v.client.pending == w.client.pending
    requires |w.callers| <= |v.callers| && c < |v.callers| && (c < |w.callers| ==> !w.callers[c].phase.Waiting?)
    requires forall d :: 0 <= d < |w.callers| && d != c ==> v.callers[d] == w.callers[d]
    requires var id := w.client.pending.value;
             Settled(v, id) ==> Settled(w, id) && v.settledAt[id] == w.settledAt[id]
    ensures PendingHasWaiter(v)
  {
  }

  lemma ReplyKeepsCallers(w: World, id: nat, response: TokenResponse)
    requires ClientInv(w) && CallersInv(w) && id < |w.client.issues| && w.client.issues[id].Outstanding?
    ensures CallersInv(DoReply(w, id, response))
  {
  }

  lemma WakeKeepsCallers(w: World, c: nat)
    requires ClientInv(w) && CallersInv(w) && Enabled(w, Wake(c))
    ensures CallersInv(DoWake(w, c))
  {
    var v := DoWake(w, c);
    forall d | 0 <= d < |v.callers|
      ensures Queued(v, v.callers[d].phase) && AnswersComeLater(v, v.callers[d].phase)
    {
      assert Queued(w, w.callers[d].phase) && AnswersComeLater(w, w.callers[d].phase);
    }
    if v.client.pending.Some? {
      var id := w.client.pending.value;
      var d :| 0 <= d < |w.callers| && EarlyWaiter(w, id, w.callers[d].phase);
      assert EarlyWaiter(v, id, v.callers[d].phase);
    }
  }

  lemma HandleKeepsCallers(w: World, c: nat)
    requires ClientInv(w) && CallersInv(w) && Enabled(w, Handle(c))
    ensures CallersInv(DoHandle(w, c))
  {
    var v := DoHandle(w, c);
    forall d | 0 <= d < |v.callers|
      ensures Queued(v, v.callers[d].phase) && AnswersComeLater(v, v.callers[d].phase)
    {
      assert Queued(w, w.callers[d].phase) && AnswersComeLater(w, w.callers[d].phase);
    }
    if v.client.pending.Some? {
      WaiterStays(w, v, c);
    }
  }

  lemma QuietKeepsCallers(w: World, a: Action)
    requires ClientInv(w) && CallersInv(w) && Enabled(w, a) && (a.Arrive? || a.Send? || a.Answer?)
    ensures CallersInv(Do(w, a))
  {
    var v := Do(w, a);
    forall d | 0 <= d < |v.callers|
      ensures Queued(v, v.callers[d].phase) && AnswersComeLater(v, v.callers[d].phase)
    {
      if d < |w.callers| {
        assert Queued(w, w.callers[d].phase) && AnswersComeLater(w, w.callers[d].phase);
      }
    }
    if v.client.pending.Some? {
      WaiterStays(w, v, if a.Arrive? then |w.callers| else a.c);
    }
  }

  lemma CallKeepsLog(w: World, c: nat, now: int, issuedAt: int)
    requires ClientInv(w) && LogInv(w) && c < |w.callers|
    ensures LogInv(DoCall(w, c, now, issuedAt))
  {
  }

  lemma ReplyKeepsLog(w: World, id: nat, response: TokenResponse)
    requires ClientInv(w) && LogInv(w) && id < |w.client.issues| && w.client.issues[id].Outstanding?
    ensures LogInv(DoReply(w, id, response))
  {
    ChainExtended(w.log, Issued(w.client.generation + 1));
    EvictionsWereIssued(w.log, w.client.generation + 1);
  }

  lemma WakeKeepsLog(w: World, c: nat)
    requires ClientInv(w) && LogInv(w)
    requires c < |w.callers| && w.callers[c].phase.Waiting? && Settled(w, w.callers[c].phase.issue)
    ensures LogInv(DoWake(w, c))
  {
  }

  lemma SendKeepsLog(w: World, c: nat)
    requires ClientInv(w) && LogInv(w) && c < |w.callers| && w.callers[c].phase.Ready?
    requires 1 <= w.callers[c].phase.lease.generation <= w.client.generation
    ensures LogInv(DoSend(w, c))
  {
  }

  lemma HandleKeepsLog(w: World, c: nat)
    requires ClientInv(w) && LogInv(w) && c < |w.callers| && w.callers[c].phase.Answered?
    ensures LogInv(DoHandle(w, c))
  {
  }

  lemma SendsUnchanged(log: seq<Event>, e: Event, count: nat)
    requires !e.Sent?
    ensures forall d: nat :: d < count ==> SendsOf(log + [e], d) == SendsOf(log, d)
  {
  }

  /** A step of caller c that logs at most an event other than a send. */
  lemma SendsFramed(w: World, v: World, c: nat, e: Event)
    requires SendsInv(w) && c < |w.callers| == |v.callers|
    requires v.log == w.log || (v.log == w.log + [e] && !e.Sent?)
    requires forall d :: 0 <= d < |w.callers| && d != c ==> v.callers[d] == w.callers[d]
    requires SendsMatch(v.callers[c], SendsOf(w.log, c))
    ensures SendsInv(v)
  {
    if v.log != w.log {
      SendsUnchanged(w.log, e, |w.callers|);
    }
    forall d | 0 <= d < |v.callers|
      ensures SendsMatch(v.callers[d], SendsOf(v.log, d))
    {
      assert SendsOf(v.log, d) == SendsOf(w.log, d);
      if d != c {
        assert v.callers[d] == w.callers[d];
      }
    }
  }

  lemma CallKeepsSends(w: World, c: nat, now: int, issuedAt: int)
    requires ClientInv(w) && SendsInv(w) && c < |w.callers| && w.callers[c].phase.Start?
    ensures SendsInv(DoCall(w, c, now, issuedAt))
  {
    var v := DoCall(w, c, now, issuedAt);
    var e := Expired(if w.client.cached.Some? then w.client.cached.value.generation else 0);
    assert SendsMatch(w.callers[c], SendsOf(w.log, c));
    SendsFramed(w, v, c, e);
  }

  lemma ReplyKeepsSends(w: World, id: nat, response: TokenResponse)
    requires ClientInv(w) && SendsInv(w) && id < |w.client.issues| && w.client.issues[id].Outstanding?
    ensures SendsInv(DoReply(w, id, response))
  {
  }

  lemma WakeKeepsSends(w: World, c: nat)
    requires ClientInv(w) && SendsInv(w) && Enabled(w, Wake(c))
    ensures SendsInv(DoWake(w, c))
  {
  }

  lemma SendKeepsSends(w: World, c: nat)
    requires ClientInv(w) && SendsInv(w) && c < |w.callers| && w.callers[c].phase.Ready?
    ensures SendsInv(DoSend(w, c))
  {
    var v, lease := DoSend(w, c), w.callers[c].phase.lease;
    var e := Sent(c, lease.generation);
    assert SendsMatch(w.callers[c], SendsOf(w.log, c));
    if v.log == w.log {
      SendsFramed(w, v, c, e);
    } else {
      SentIsMatched(w, v, c, lease);
    }
  }

  lemma SentIsMatched(w: World, v: World, c: nat, lease: Lease)
    requires SendsInv(w) && c < |w.callers| && w.callers[c].phase.Ready?
    requires v.callers == w.callers[c := w.callers[c].(phase := InFlight(lease))] && v.log == w.log + [Sent(c, lease.generation)]
    ensures SendsInv(v)
  {
    forall d | 0 <= d < |v.callers|
      ensures SendsMatch(v.callers[d], SendsOf(v.log, d))
    {
      assert SendsMatch(w.callers[d], SendsOf(w.log, d));
      SendsOfExtended(w.log, Sent(c, lease.generation), d);
    }
  }

  lemma HandleKeepsSends(w: World, c: nat)
    requires ClientInv(w) && SendsInv(w) && RefreshInv(w) && c < |w.callers| && w.callers[c].phase.Answered?
    ensures SendsInv(DoHandle(w, c))
  {
    assert Refreshing(w, w.callers[c]);
    assert SendsMatch(w.callers[c], SendsOf(w.log, c));
    SendsFramed(w, DoHandle(w, c), c, Evicted(w.callers[c].phase.lease.generation));
  }

  lemma ArriveAndAnswerKeepSends(w: World, a: Action)
    requires ClientInv(w) && SendsInv(w) && Enabled(w, a) && (a.Arrive? || a.Answer?)
    ensures SendsInv(Do(w, a))
  {
    NoSends(w.log, |w.callers|);
  }

  lemma ArriveKeeps(w: World, a: Action)
    requires Inv(w) && Enabled(w, a) && a.Arrive?
    ensures Inv(Do(w, a))
  {
    QuietKeepsCallers(w, a);
    QuietKeepsRefresh(w, a);
    ArriveAndAnswerKeepSends(w, a);
  }

  lemma AnswerKeeps(w: World, a: Action)
    requires Inv(w) && Enabled(w, a) && a.Answer?
    ensures Inv(Do(w, a))
  {
    QuietKeepsCallers(w, a);
    QuietKeepsRefresh(w, a);
    ArriveAndAnswerKeepSends(w, a);
  }

  lemma CallKeeps(w: World, a: Action)
    requires Inv(w) && Enabled(w, a) && a.Call?
    ensures Inv(Do(w, a))
  {
    CallKeepsClient(w, a.c, a.now, a.issuedAt);
    CallKeepsLog(w, a.c, a.now, a.issuedAt);
    CallKeepsCallers(w, a.c, a.now, a.issuedAt);
    CallKeepsRefresh(w, a.c, a.now, a.issuedAt);
    CallKeepsSends(w, a.c, a.now, a.issuedAt);
  }

  lemma ReplyKeeps(w: World, a: Action)
    requires Inv(w) && Enabled(w, a) && a.IssuerReplies?
    ensures Inv(Do(w, a))
  {
    ReplyKeepsClient(w, a.id, a.response);
    ReplyKeepsLog(w, a.id, a.response);
    ReplyKeepsCallers(w, a.id, a.response);
    ReplyKeepsRefresh(w, a.id, a.response);
    ReplyKeepsSends(w, a.id, a.response);
  }

  lemma WakeKeeps(w: World, a: Action)
    requires Inv(w) && Enabled(w, a) && a.Wake?
    ensures Inv(Do(w, a))
  {
    WakeKeepsClient(w, a.c);
    WakeKeepsLog(w, a.c);
    WakeKeepsCallers(w, a.c);
    WakeKeepsRefresh(w, a.c);
    WakeKeepsSends(w, a.c);
  }

  lemma SendKeeps(w: World, a: Action)
    requires Inv(w) && Enabled(w, a) && a.Send?
    ensures Inv(Do(w, a))
  {
    assert Queued(w, w.callers[a.c].phase);
    SendKeepsClient(w, a.c);
    SendKeepsLog(w, a.c);
    QuietKeepsCallers(w, a);
    QuietKeepsRefresh(w, a);
    SendKeepsSends(w, a.c);
  }

  lemma HandleKeeps(w: World, a: Action)
    requires Inv(w) && Enabled(w, a) && a.Handle?
    ensures Inv(Do(w, a))
  {
    HandleKeepsClient(w, a.c);
    HandleKeepsLog(w, a.c);
    HandleKeepsCallers(w, a.c);
    HandleKeepsRefresh(w, a.c);
    HandleKeepsSends(w, a.c);
  }

  /** Every atomic step of every interleaving keeps the invariant. */
  lemma StepKeepsInvariant(w: World, a: Action)
    requires Inv(w) && Enabled(w, a)
    ensures Inv(Do(w, a))
  {
    match a {
      case Arrive(_) => ArriveKeeps(w, a);
      case Call(_, _, _) => CallKeeps(w, a);
      case IssuerReplies(_, _) => ReplyKeeps(w, a);
      case Wake(_) => WakeKeeps(w, a);
      case Send(_) => SendKeeps(w, a);
      case Answer(_, _) => AnswerKeeps(w, a);
      case Handle(_) => HandleKeeps(w, a);
    }
  }
}
