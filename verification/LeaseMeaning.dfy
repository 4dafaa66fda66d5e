/** What every step of the lease protocol does, told by clock readings, expiry dates, leases and logged events. */
module LeaseMeaning {
  import opened Numbers
  import opened AuthClient
  import opened LeaseProtocol
  import opened LeaseTheorems

  // ----- The cache ----------------------------------------------------------------------------------------

  /** A call is served from the cache exactly when the cached lease expires later than now plus the margin; otherwise it
      joins the pending issue, or opens the only new one, and only then a cached lease is logged as expired. */
  lemma CacheDecides(ws: seq<World>, acts: seq<Action>, i: nat)
    requires Execution(ws, acts) && i < |acts| && acts[i].Call?
    ensures var s, log, v, a := ws[i].client, ws[i].log, ws[i + 1], acts[i];
            var alive := s.cached.Some? && s.cached.value.expiresAt.Some? && a.now + ws[i].margin < s.cached.value.expiresAt.value;
            && v.client.cached == s.cached && v.client.generation == s.generation
            && (alive ==> v.client == s && v.log == log && v.callers[a.c].phase == Ready(s.cached.value, ws[i].clock))
            && (!alive && s.pending.Some? ==>
                  v.client == s && v.log == log && v.callers[a.c].phase == Waiting(s.pending.value, ws[i].clock))
            && (!alive && s.pending.None? ==>
                  && v.client.pending == Some(|s.issues|) && v.client.issues == s.issues + [Outstanding(a.issuedAt)]
                  && v.callers[a.c].phase == Waiting(|s.issues|, ws[i].clock)
                  && v.log == if s.cached.Some? then log + [Expired(s.cached.value.generation)] else log)
  {
  }

  /** The log says that a lease expired only when its expiry date was invalid or no later than now plus the margin. */
  lemma ExpiredMeansExpired(ws: seq<World>, acts: seq<Action>, i: nat, g: nat)
    requires Execution(ws, acts) && i < |acts| && ws[i + 1].log == ws[i].log + [Expired(g)]
    ensures acts[i].Call? && ws[i].client.cached.Some? && ws[i].client.cached.value.generation == g
    ensures var expiry := ws[i].client.cached.value.expiresAt;
            expiry.None? || expiry.value <= acts[i].now + ws[i].margin
  {
    var log := ws[i].log;
    assert ws[i + 1].log[|log|] == Expired(g);
  }

  // ----- Where leases come from -----------------------------------------------------------------------------

  /** The date t milliseconds after the epoch: cut to whole milliseconds toward the epoch, none beyond the time range. */
  predicate DatedAt(date: Option<int>, t: real) {
    && (date.None? <==> Abs(t) > 8640000000000000.0)
    && (date.Some? ==>
          && Abs(date.value as real) <= Abs(t) < Abs(date.value as real) + 1.0
          && (t >= 0.0 ==> date.value >= 0) && (t <= 0.0 ==> date.value <= 0))
  }

  lemma ExpiryIsDated(issuedAt: int, expiresIn: real)
    ensures DatedAt(ExpiryDate(issuedAt, expiresIn), issuedAt as real + expiresIn * 1000.0)
  {
  }

  /** A token that is good for a positive time becomes the next lease, dated that many seconds after its issue started;
      any other answer, or an exhausted counter, rejects the issue and leaves the cache alone. */
  lemma ReplyDecides(ws: seq<World>, acts: seq<Action>, i: nat)
    requires Execution(ws, acts) && i < |acts| && acts[i].IssuerReplies?
    ensures var s, v, id, r := ws[i].client, ws[i + 1].client, acts[i].id, acts[i].response;
            && v.pending == s.pending && |v.issues| == |s.issues|
            && (forall j :: 0 <= j < |s.issues| && j != id ==> v.issues[j] == s.issues[j])
            && if r.Token? && r.expiresIn > 0.0 && s.generation != 9007199254740991 then
                 && v.issues[id].Resolved? && v.cached == Some(v.issues[id].lease)
                 && v.issues[id].lease.generation == v.generation == s.generation + 1
                 && v.issues[id].lease.validBearer == r.validBearer
                 && DatedAt(v.issues[id].lease.expiresAt, s.issues[id].issuedAt as real + r.expiresIn * 1000.0)
                 && ws[i + 1].log == ws[i].log + [Issued(v.generation)]
               else
                 v.issues[id].Rejected? && v.cached == s.cached && v.generation == s.generation && ws[i + 1].log == ws[i].log
  {
    if acts[i].response.Token? {
      ExpiryIsDated(ws[i].client.issues[acts[i].id].issuedAt, acts[i].response.expiresIn);
    }
  }

  /** Issues are only appended, and a settled one stays as it is. */
  lemma IssuesGrow(ws: seq<World>, acts: seq<Action>, i: nat, id: nat)
    requires Execution(ws, acts) && i < |acts| && id < |ws[i + 1].client.issues|
    ensures |ws[i].client.issues| <= |ws[i + 1].client.issues|
    ensures id >= |ws[i].client.issues| ==>
              && acts[i].Call? && id == |ws[i].client.issues| && ws[i + 1].client.issues[id] == Outstanding(acts[i].issuedAt)
    ensures id < |ws[i].client.issues| && ws[i + 1].client.issues[id] != ws[i].client.issues[id] ==>
              acts[i].IssuerReplies? && acts[i].id == id
  {
  }

  /** The call that opened an issue that is still outstanding. */
  lemma {:induction false} OpenedBy(ws: seq<World>, acts: seq<Action>, i: nat, id: nat) returns (k: nat)
    requires Execution(ws, acts) && i < |ws| && id < |ws[i].client.issues| && ws[i].client.issues[id].Outstanding?
    ensures k < i && acts[k].Call? && |ws[k].client.issues| == id && acts[k].issuedAt == ws[i].client.issues[id].issuedAt
  {
    IssuesGrow(ws, acts, i - 1, id);
    if id == |ws[i - 1].client.issues| {
      k := i - 1;
    } else {
      SettledStays(ws, acts, i - 1, id);
      k := OpenedBy(ws, acts, i - 1, id);
    }
  }

  lemma SettledStays(ws: seq<World>, acts: seq<Action>, i: nat, id: nat)
    requires Execution(ws, acts) && i < |acts| && id < |ws[i].client.issues|
    ensures id < |ws[i + 1].client.issues|
    ensures !ws[i].client.issues[id].Outstanding? ==> ws[i + 1].client.issues[id] == ws[i].client.issues[id]
    ensures ws[i + 1].client.issues[id].Outstanding? ==> ws[i + 1].client.issues[id] == ws[i].client.issues[id]
  {
    if acts[i].IssuerReplies? {
      ReplyDecides(ws, acts, i);
    }
  }

  /** The answer that resolved an issue. */
  lemma {:induction false} ResolvedBy(ws: seq<World>, acts: seq<Action>, i: nat, id: nat) returns (j: nat)
    requires Execution(ws, acts) && i < |ws| && id < |ws[i].client.issues| && ws[i].client.issues[id].Resolved?
    ensures j < i && acts[j].IssuerReplies? && acts[j].id == id && id < |ws[j + 1].client.issues|
    ensures ws[j + 1].client.issues[id] == ws[i].client.issues[id]
  {
    IssuesGrow(ws, acts, i - 1, id);
    if id < |ws[i - 1].client.issues| && ws[i - 1].client.issues[id] == ws[i].client.issues[id] {
      j := ResolvedBy(ws, acts, i - 1, id);
    } else {
      j := i - 1;
    }
  }

  predicate Known(s: ClientState, lease: Lease) {
    exists id :: 0 <= id < |s.issues| && s.issues[id] == Resolved(lease)
  }

  /** Nobody holds a lease that no issue resolved to. */
  predicate LeasesKnown(w: World) {
    && (w.client.cached.Some? ==> Known(w.client, w.client.cached.value))
    && forall c :: 0 <= c < |w.callers| && HoldsLease(w.callers[c].phase) ==> Known(w.client, w.callers[c].phase.lease)
  }

  lemma KnownStays(ws: seq<World>, acts: seq<Action>, i: nat, lease: Lease)
    requires Execution(ws, acts) && i < |acts| && Known(ws[i].client, lease)
    ensures Known(ws[i + 1].client, lease)
  {
    var id :| 0 <= id < |ws[i].client.issues| && ws[i].client.issues[id] == Resolved(lease);
    SettledStays(ws, acts, i, id);
    assert ws[i + 1].client.issues[id] == Resolved(lease);
  }

  /** A step hands a caller only the lease it held, the cached one or the one its issue resolved to. */
  lemma HeldFrom(w: World, a: Action, c: nat)
    requires Enabled(w, a) && LeasesKnown(w) && c < |Do(w, a).callers| && HoldsLease(Do(w, a).callers[c].phase)
    ensures Known(w.client, Do(w, a).callers[c].phase.lease)
  {
    var v := Do(w, a);
    if c < |w.callers| && v.callers[c] != w.callers[c] && a.Wake? {
      var id := w.callers[c].phase.issue;
      assert w.client.issues[id] == Resolved(v.callers[c].phase.lease);
    }
  }

  lemma {:induction false} LeasesStayKnown(ws: seq<World>, acts: seq<Action>, i: nat)
    requires Execution(ws, acts) && i < |ws|
    ensures LeasesKnown(ws[i])
  {
    if i > 0 {
      var w, v := ws[i - 1], ws[i];
      LeasesStayKnown(ws, acts, i - 1);
      forall c | 0 <= c < |v.callers| && HoldsLease(v.callers[c].phase)
        ensures Known(v.client, v.callers[c].phase.lease)
      {
        HeldFrom(w, acts[i - 1], c);
        KnownStays(ws, acts, i - 1, v.callers[c].phase.lease);
      }
      if v.client.cached.Some? {
        CachedFrom(ws, acts, i - 1);
      }
    }
  }

  lemma CachedFrom(ws: seq<World>, acts: seq<Action>, i: nat)
    requires Execution(ws, acts) && i < |acts| && LeasesKnown(ws[i]) && ws[i + 1].client.cached.Some?
    ensures Known(ws[i + 1].client, ws[i + 1].client.cached.value)
  {
    if ws[i + 1].client.cached == ws[i].client.cached {
      KnownStays(ws, acts, i, ws[i].client.cached.value);
    } else {
      ReplyDecides(ws, acts, i);
      assert ws[i + 1].client.issues[acts[i].id] == Resolved(ws[i + 1].client.cached.value);
    }
  }

  /** Every lease a caller holds, in any schedule, was issued for a token the issuer gave out, and expires that token's
      lifetime after the clock reading of the call that opened its issue. */
  lemma HeldLeaseIsDated(ws: seq<World>, acts: seq<Action>, i: nat, c: nat) returns (k: nat, j: nat)
    requires Execution(ws, acts) && i < |ws| && c < |ws[i].callers| && HoldsLease(ws[i].callers[c].phase)
    ensures k < j < i && acts[k].Call? && acts[j].IssuerReplies? && acts[j].response.Token? && acts[j].response.expiresIn > 0.0
    ensures var lease := ws[i].callers[c].phase.lease;
            && DatedAt(lease.expiresAt, acts[k].issuedAt as real + acts[j].response.expiresIn * 1000.0)
            && lease.validBearer == acts[j].response.validBearer
  {
    LeasesStayKnown(ws, acts, i);
    var lease := ws[i].callers[c].phase.lease;
    var id :| 0 <= id < |ws[i].client.issues| && ws[i].client.issues[id] == Resolved(lease);
    j := ResolvedBy(ws, acts, i, id);
    ReplyDecides(ws, acts, j);
    k := OpenedBy(ws, acts, j, id);
  }

  // ----- The queue ----------------------------------------------------------------------------------------------

  /** A new caller can always arrive, and starts its first attempt. */
  lemma ArrivalDecides(w: World, kind: Kind)
    requires |w.settledAt| == |w.client.issues|
    ensures Enabled(w, Arrive(kind))
    ensures Do(w, Arrive(kind)).callers == w.callers + [Caller(kind, 1, 0, Start(w.clock))]
    ensures Do(w, Arrive(kind)).client == w.client && Do(w, Arrive(kind)).log == w.log
  {
  }

  /** A waiter is queued from the moment it joined or its issue settled, whichever is later. */
  lemma WaiterIsQueued(w: World, p: Phase)
    requires Runnable(w, p) && p.Waiting?
    ensures Ticket(w, p) >= p.since && Ticket(w, p) >= w.settledAt[p.issue]
    ensures Ticket(w, p) == p.since || Ticket(w, p) == w.settledAt[p.issue]
  {
  }

  /** Of the callers that can continue only one that was queued first does. */
  lemma FirstComeFirstServed(ws: seq<World>, acts: seq<Action>, i: nat, d: nat)
    requires Execution(ws, acts) && i < |acts| && (acts[i].Call? || acts[i].Wake? || acts[i].Send? || acts[i].Handle?)
    requires d < |ws[i].callers| && Runnable(ws[i], ws[i].callers[d].phase)
    ensures acts[i].c < |ws[i].callers| && Runnable(ws[i], ws[i].callers[acts[i].c].phase)
    ensures Ticket(ws[i], ws[i].callers[acts[i].c].phase) <= Ticket(ws[i], ws[i].callers[d].phase)
  {
  }

  // ----- Callers ----------------------------------------------------------------------------------------------

  /** A waiter gets the lease its issue resolved to, or is done when the issue was rejected, and clears its own slot. */
  lemma WakeDecides(ws: seq<World>, acts: seq<Action>, i: nat)
    requires Execution(ws, acts) && i < |acts| && acts[i].Wake?
    ensures var s, v, c := ws[i].client, ws[i + 1], acts[i].c;
            var id := ws[i].callers[c].phase.issue;
            && (s.issues[id].Resolved? ==> v.callers[c].phase == Ready(s.issues[id].lease, ws[i].clock))
            && (s.issues[id].Rejected? ==> v.callers[c].phase == Done)
            && v.client.pending == (if s.pending == Some(id) then None else s.pending)
            && v.client.cached == s.cached && v.client.issues == s.issues && v.client.generation == s.generation
            && v.log == ws[i].log
  {
  }

  /** A lease is sent, and the sending logged, unless a calendar caller finds its bearer or generation invalid. */
  lemma SendDecides(ws: seq<World>, acts: seq<Action>, i: nat)
    requires Execution(ws, acts) && i < |acts| && acts[i].Send?
    ensures var v, c, r := ws[i + 1], acts[i].c, ws[i].callers[acts[i].c];
            var lease := r.phase.lease;
            && v.client == ws[i].client
            && if r.kind == ReadOnly || (lease.validBearer && 1 <= lease.generation <= 9007199254740991) then
                 v.callers[c] == r.(phase := InFlight(lease)) && v.log == ws[i].log + [Sent(c, lease.generation)]
               else v.callers[c] == r.(phase := Done) && v.log == ws[i].log
  {
  }

  /** An answer that does not ask for a new token ends the caller. One that does takes the caller's lease out of the cache,
      if it is still there, and leads to a second attempt after the first. */
  lemma HandleDecides(ws: seq<World>, acts: seq<Action>, i: nat)
    requires Execution(ws, acts) && i < |acts| && acts[i].Handle?
    ensures var w, v, c, r := ws[i], ws[i + 1], acts[i].c, ws[i].callers[acts[i].c];
            var g := r.phase.lease.generation;
            var held := w.client.cached.Some? && w.client.cached.value.generation == g;
            && v.client.pending == w.client.pending && v.client.issues == w.client.issues
            && v.client.generation == w.client.generation
            && (!r.phase.refreshable ==> v.callers[c].phase == Done && v.client == w.client && v.log == w.log)
            && (r.phase.refreshable ==>
                  && v.client.cached == (if held then None else w.client.cached)
                  && v.log == (if held then w.log + [Evicted(g)] else w.log)
                  && (r.attempt == 1 ==> v.callers[c] == Caller(r.kind, 2, g, Start(w.clock)))
                  && (r.attempt == 2 ==> v.callers[c].phase == Done))
  {
    ReachableKeepsInvariant(ws, acts, i);
    assert Refreshing(ws[i], ws[i].callers[acts[i].c]);
  }

  /** The attempt of caller c ends with this step and without a request: its issue was rejected, or its bearer was invalid. */
  predicate StepFails(w: World, a: Action, c: nat)
    requires c < |w.callers|
  {
    var p := w.callers[c].phase;
    || (a == Wake(c) && p.Waiting? && p.issue < |w.client.issues| && w.client.issues[p.issue].Rejected?)
    || (a == Send(c) && p.Ready? && w.callers[c].kind == Calendar
        && !(p.lease.validBearer && 1 <= p.lease.generation <= 9007199254740991))
  }

  predicate AttemptFails(ws: seq<World>, acts: seq<Action>, j: nat, c: nat)
    requires |ws| == |acts| + 1 && j < |acts| && c < |ws[j].callers|
  {
    StepFails(ws[j], acts[j], c)
  }

  /** Before its second request a caller is on its second attempt and has sent one. */
  predicate SecondPending(r: Caller, sends: seq<nat>) {
    r.attempt == 2 && (r.phase.Start? || r.phase.Waiting? || r.phase.Ready? || |sends| == 2)
  }

  predicate BeforeRequest(p: Phase) {
    p.Start? || p.Waiting? || p.Ready?
  }

  lemma BeforeRequestStep(w: World, a: Action, c: nat)
    requires Enabled(w, a) && c < |w.callers| && BeforeRequest(w.callers[c].phase)
    ensures c < |Do(w, a).callers|
    ensures BeforeRequest(Do(w, a).callers[c].phase) || Do(w, a).callers[c].phase.InFlight? || StepFails(w, a, c)
  {
  }

  lemma SecondStays(w: World, a: Action, c: nat)
    requires Enabled(w, a) && c < |w.callers| && w.callers[c].attempt == 2
    ensures c < |Do(w, a).callers| && Do(w, a).callers[c].attempt == 2
  {
  }

  lemma SecondAttemptStep(ws: seq<World>, acts: seq<Action>, k: nat, c: nat)
    requires Execution(ws, acts) && k < |acts| && c < |ws[k].callers|
    requires SecondPending(ws[k].callers[c], SendsOf(ws[k].log, c))
    ensures c < |ws[k + 1].callers|
    ensures SecondPending(ws[k + 1].callers[c], SendsOf(ws[k + 1].log, c)) || AttemptFails(ws, acts, k, c)
  {
    SecondStays(ws[k], acts[k], c);
    if BeforeRequest(ws[k].callers[c].phase) {
      BeforeRequestStep(ws[k], acts[k], c);
      SendsAreMatched(ws, acts, k + 1, c);
    } else {
      AtMostTwoSends(ws, acts, k + 1, c);
      SendsNeverShrink(ws[k], acts[k], c);
    }
  }

  lemma SendsAreMatched(ws: seq<World>, acts: seq<Action>, k: nat, c: nat)
    requires Execution(ws, acts) && k < |ws| && c < |ws[k].callers|
    ensures SendsMatch(ws[k].callers[c], SendsOf(ws[k].log, c))
  {
    ReachableKeepsInvariant(ws, acts, k);
  }

  lemma SendsNeverShrink(w: World, a: Action, c: nat)
    requires Enabled(w, a)
    ensures |SendsOf(Do(w, a).log, c)| >= |SendsOf(w.log, c)|
  {
    var v := Do(w, a);
    if v.log != w.log {
      assert v.log == w.log + [v.log[|w.log|]];
      SendsOfExtended(w.log, v.log[|w.log|], c);
    }
  }

  predicate FailsWithin(ws: seq<World>, acts: seq<Action>, i: nat, k: nat, c: nat)
    requires |ws| == |acts| + 1 && k <= |acts|
  {
    exists j :: i < j < k && c < |ws[j].callers| && AttemptFails(ws, acts, j, c)
  }

  lemma FailsLonger(ws: seq<World>, acts: seq<Action>, i: nat, k: nat, c: nat)
    requires |ws| == |acts| + 1 && k < |acts| && FailsWithin(ws, acts, i, k, c)
    ensures FailsWithin(ws, acts, i, k + 1, c)
  {
  }

  predicate Pending(ws: seq<World>, k: nat, c: nat)
    requires k < |ws|
  {
    c < |ws[k].callers| && SecondPending(ws[k].callers[c], SendsOf(ws[k].log, c))
  }

  lemma SecondBegins(ws: seq<World>, acts: seq<Action>, i: nat, c: nat)
    requires Execution(ws, acts) && i < |acts| && acts[i] == Handle(c) && c < |ws[i].callers|
    requires ws[i].callers[c].phase.Answered? && ws[i].callers[c].phase.refreshable && ws[i].callers[c].attempt == 1
    ensures Pending(ws, i + 1, c)
  {
    HandleDecides(ws, acts, i);
  }

  lemma PendingNext(ws: seq<World>, acts: seq<Action>, i: nat, k: nat, c: nat)
    requires Execution(ws, acts) && i < k < |acts|
    requires Pending(ws, k, c) || FailsWithin(ws, acts, i, k, c)
    ensures Pending(ws, k + 1, c) || FailsWithin(ws, acts, i, k + 1, c)
  {
    if Pending(ws, k, c) {
      SecondAttemptStep(ws, acts, k, c);
    } else {
      FailsLonger(ws, acts, i, k, c);
    }
  }

  lemma {:induction false} SecondStaysPending(ws: seq<World>, acts: seq<Action>, i: nat, c: nat, k: nat)
    requires Execution(ws, acts) && i < k < |ws| && acts[i] == Handle(c) && c < |ws[i].callers|
    requires ws[i].callers[c].phase.Answered? && ws[i].callers[c].phase.refreshable && ws[i].callers[c].attempt == 1
    ensures Pending(ws, k, c) || FailsWithin(ws, acts, i, k, c)
  {
    if k == i + 1 {
      SecondBegins(ws, acts, i, c);
    } else {
      SecondStaysPending(ws, acts, i, c, k - 1);
      PendingNext(ws, acts, i, k - 1, c);
    }
  }

  /** A caller whose first answer asks for a new token sends a second request before it is done, unless its second attempt
      fails to get a usable lease. */
  lemma RefreshableAnswerRetries(ws: seq<World>, acts: seq<Action>, i: nat, c: nat, k: nat)
    requires Execution(ws, acts) && i < k < |ws| && acts[i] == Handle(c) && c < |ws[i].callers|
    requires ws[i].callers[c].phase.Answered? && ws[i].callers[c].phase.refreshable && ws[i].callers[c].attempt == 1
    ensures c < |ws[k].callers| && ws[k].callers[c].phase.Done? ==> |SendsOf(ws[k].log, c)| == 2 || FailsWithin(ws, acts, i, k, c)
  {
    SecondStaysPending(ws, acts, i, c, k);
  }
}
