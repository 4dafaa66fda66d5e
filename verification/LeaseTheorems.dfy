/** What every interleaving of lease callers guarantees. */
module LeaseTheorems {
  import opened Numbers
  import opened AuthClient
  import opened LeaseProtocol

  /** ws are the successive worlds of a schedule acts from a new client. */
  ghost predicate Execution(ws: seq<World>, acts: seq<Action>) {
    && |ws| == |acts| + 1 && ws[0] == Init(ws[0].margin)
    && forall i :: 0 <= i < |acts| ==> Enabled(ws[i], acts[i]) && ws[i + 1] == Do(ws[i], acts[i])
  }

  lemma {:induction false} ReachableKeepsInvariant(ws: seq<World>, acts: seq<Action>, i: nat)
    requires Execution(ws, acts) && i < |ws|
    ensures Inv(ws[i])
  {
    if i > 0 {
      ReachableKeepsInvariant(ws, acts, i - 1);
      StepKeepsInvariant(ws[i - 1], acts[i - 1]);
    }
  }

  // ----- Single flight ----------------------------------------------------------------------------------

  /** At every moment at most one issuer call is outstanding, and it is the one the pending slot names. */
  lemma SingleFlight(ws: seq<World>, acts: seq<Action>, i: nat, id: nat, other: nat)
    requires Execution(ws, acts) && i < |ws|
    requires id < |ws[i].client.issues| && other < |ws[i].client.issues|
    requires ws[i].client.issues[id].Outstanding? && ws[i].client.issues[other].Outstanding?
    ensures id == other && ws[i].client.pending == Some(id)
  {
    ReachableKeepsInvariant(ws, acts, i);
  }

  /** The pending slot is emptied only by a waiter of the very issue it names, after that issue settled. */
  lemma SlotClearedOnlyByOwnWaiter(ws: seq<World>, acts: seq<Action>, i: nat)
    requires Execution(ws, acts) && i < |acts|
    requires ws[i].client.pending.Some? && ws[i + 1].client.pending != ws[i].client.pending
    ensures ws[i + 1].client.pending == None && acts[i].Wake?
    ensures var p := ws[i].callers[acts[i].c].phase;
            p.Waiting? && Some(p.issue) == ws[i].client.pending && Settled(ws[i], p.issue)
  {
  }

  /** Whether issues succeeded or failed, once nobody waits the next call without a usable lease opens a new issue. */
  lemma ClientCanIssueAgain(ws: seq<World>, acts: seq<Action>, i: nat, now: int, issuedAt: int)
    requires Execution(ws, acts) && i < |ws|
    requires forall c :: 0 <= c < |ws[i].callers| ==> !ws[i].callers[c].phase.Waiting?
    requires var s := ws[i].client; s.cached.Some? ==> !Usable(s.cached.value, now, ws[i].margin)
    ensures var s := ws[i].client;
            Enter(s, now, issuedAt, ws[i].margin) ==
            (s.(pending := Some(|s.issues|), issues := s.issues + [Outstanding(issuedAt)]), Await(|s.issues|))
  {
    ReachableKeepsInvariant(ws, acts, i);
  }

  // ----- The lease chain ----------------------------------------------------------------------------------

  lemma {:induction false} ChainPrefix(log: seq<Event>, i: nat)
    requires Chained(log) && i < |log|
    ensures Chained(log[..i]) && MayFollow(log[..i], log[i])
    ensures Latest(log[..i]) <= Latest(log)
  {
    var n := |log| - 1;
    LatestGrows(log[..n], log[n]);
    assert log[..n] + [log[n]] == log;
    if i < n {
      ChainPrefix(log[..n], i);
      assert log[..n][..i] == log[..i];
    }
  }

  lemma {:induction false} EveryGenerationIssued(log: seq<Event>, g: nat)
    requires Chained(log) && 1 <= g <= Latest(log)
    ensures Issued(g) in log
  {
    var n := |log| - 1;
    if log[n] != Issued(g) {
      EveryGenerationIssued(log[..n], g);
    }
  }

  /** Generations strictly increase; each is evicted at most once, after it was issued; and the next one is issued
      only after this one was evicted or found inside the expiry margin. */
  lemma LeaseChain(ws: seq<World>, acts: seq<Action>, k: nat, i: nat, j: nat)
    requires Execution(ws, acts) && k < |ws| && i < j < |ws[k].log|
    ensures var log := ws[k].log;
            && (log[i].Issued? && log[j].Issued? ==> log[i].generation < log[j].generation)
            && (log[i].Evicted? ==> log[j] != log[i])
            && (log[j].Evicted? ==> Issued(log[j].generation) in log[..j])
            && (log[j].Issued? && log[j].generation > 1 ==> Released(log[..j], log[j].generation - 1))
  {
    ReachableKeepsInvariant(ws, acts, k);
    var log := ws[k].log;
    ChainPrefix(log, j);
    assert log[..j][i] == log[i];
    if log[j].Evicted? {
      EveryGenerationIssued(log[..j], log[j].generation);
    }
    if log[i].Issued? {
      IssuedAtMostLatest(log[..j], i);
    }
  }

  lemma IssuedAtMostLatest(log: seq<Event>, i: nat)
    requires Chained(log) && i < |log| && log[i].Issued?
    ensures log[i].generation <= Latest(log)
  {
  }

  /** The cache loses a lease only to a caller that held it and was told its token is no longer good. */
  lemma EvictedOnlyByItsHolder(ws: seq<World>, acts: seq<Action>, i: nat)
    requires Execution(ws, acts) && i < |acts|
    requires ws[i].client.cached.Some? && ws[i + 1].client.cached.None?
    ensures acts[i].Handle?
    ensures var p := ws[i].callers[acts[i].c].phase;
            p.refreshable && p.lease.generation == ws[i].client.cached.value.generation == ws[i].client.generation
    ensures ws[i + 1].log == ws[i].log + [Evicted(ws[i].client.generation)]
  {
    ReachableKeepsInvariant(ws, acts, i);
  }

  // ----- Callers --------------------------------------------------------------------------------------------

  /** Every caller sends at most twice, and the retry always carries a strictly newer generation. */
  lemma AtMostTwoSends(ws: seq<World>, acts: seq<Action>, k: nat, c: nat)
    requires Execution(ws, acts) && k < |ws|
    ensures var sends := SendsOf(ws[k].log, c);
            |sends| <= 2 && (|sends| == 2 ==> sends[0] < sends[1])
  {
    ReachableKeepsInvariant(ws, acts, k);
    var w := ws[k];
    if c < |w.callers| {
      assert SendsMatch(w.callers[c], SendsOf(w.log, c)) && Refreshing(w, w.callers[c]);
    } else {
      NoSends(w.log, c);
    }
  }

  /** How many atomic steps a caller can still take. */
  function Rank(r: Caller): nat {
    (match r.phase
     case Done => 0
     case Answered(_, _, _) => 1
     case InFlight(_) => 2
     case Ready(_, _) => 3
     case Waiting(_, _) => 4
     case Start(_) => 5)
    + if r.attempt == 1 && !r.phase.Done? then 5 else 0
  }

  function TotalRank(callers: seq<Caller>): nat {
    if |callers| == 0 then 0 else TotalRank(callers[..|callers| - 1]) + Rank(callers[|callers| - 1])
  }

  lemma {:induction false} RankUpdate(callers: seq<Caller>, c: nat, r: Caller)
    requires c < |callers|
    ensures TotalRank(callers[c := r]) + Rank(callers[c]) == TotalRank(callers) + Rank(r)
  {
    var n := |callers| - 1;
    if c == n {
      assert callers[c := r][..n] == callers[..n];
    } else {
      RankUpdate(callers[..n], c, r);
      assert callers[c := r][..n] == callers[..n][c := r];
    }
  }

  /** The caller a step belongs to gets closer to the end; nobody else moves. */
  lemma CallerAdvances(w: World, a: Action)
    requires RefreshInv(w) && Enabled(w, a) && !a.Arrive? && !a.IssuerReplies?
    ensures a.c < |w.callers| == |Do(w, a).callers|
    ensures Do(w, a).callers == w.callers[a.c := Do(w, a).callers[a.c]]
    ensures Rank(Do(w, a).callers[a.c]) < Rank(w.callers[a.c])
  {
  }

  function OpenIssues(s: ClientState): nat {
    if s.pending.Some? && s.pending.value < |s.issues| && s.issues[s.pending.value].Outstanding? then 1 else 0
  }

  /** Steps still possible without new callers: twice the ranks, plus one for an unanswered issuer call. */
  function Potential(w: World): nat {
    2 * TotalRank(w.callers) + OpenIssues(w.client)
  }

  lemma StepUsesPotential(w: World, a: Action)
    requires Inv(w) && Enabled(w, a)
    ensures Potential(Do(w, a)) + 1 <= Potential(w) + if a.Arrive? then 21 else 0
  {
    var v := Do(w, a);
    if a.Arrive? {
      assert v.callers[..|w.callers|] == w.callers;
    } else if a.IssuerReplies? {
      assert w.client.pending == Some(a.id);
    } else {
      CallerAdvances(w, a);
      RankUpdate(w.callers, a.c, v.callers[a.c]);
    }
  }

  function Arrivals(acts: seq<Action>): nat {
    if |acts| == 0 then 0 else Arrivals(acts[..|acts| - 1]) + if acts[|acts| - 1].Arrive? then 1 else 0
  }

  /** No schedule runs for ever: n callers take at most 21 * n atomic steps, their arrivals and issuer replies included. */
  lemma {:induction false} SchedulesAreFinite(ws: seq<World>, acts: seq<Action>)
    requires Execution(ws, acts)
    ensures |acts| + Potential(ws[|acts|]) <= 21 * Arrivals(acts)
  {
    if |acts| > 0 {
      var n := |acts| - 1;
      SchedulesAreFinite(ws[..n + 1], acts[..n]);
      ReachableKeepsInvariant(ws, acts, n);
      StepUsesPotential(ws[n], acts[n]);
    }
  }

  lemma {:induction false} FirstInLine(w: World, n: nat) returns (c: int)
    requires n <= |w.callers|
    ensures -1 <= c < n
    ensures c == -1 ==> forall d :: 0 <= d < n ==> !Runnable(w, w.callers[d].phase)
    ensures c >= 0 ==> Runnable(w, w.callers[c].phase) && forall d :: 0 <= d < n && Runnable(w, w.callers[d].phase) ==>
              Ticket(w, w.callers[c].phase) <= Ticket(w, w.callers[d].phase)
  {
    if n == 0 {
      return -1;
    }
    c := FirstInLine(w, n - 1);
    var p := w.callers[n - 1].phase;
    if Runnable(w, p) && (c == -1 || Ticket(w, p) < Ticket(w, w.callers[c].phase)) {
      c := n - 1;
    }
  }

  /** Nobody is stuck: while some caller is not done, a step other than a new arrival is possible. */
  lemma NobodyStuck(w: World, c: nat) returns (a: Action)
    requires Inv(w) && c < |w.callers| && !w.callers[c].phase.Done?
    ensures Enabled(w, a) && !a.Arrive?
  {
    var first := FirstInLine(w, |w.callers|);
    if first >= 0 {
      match w.callers[first].phase {
        case Start(_) => a := Call(first, 0, 0);
        case Waiting(_, _) => a := Wake(first);
        case Ready(_, _) => a := Send(first);
        case Answered(_, _, _) => a := Handle(first);
      }
    } else if w.callers[c].phase.InFlight? {
      a := Answer(c, false);
    } else {
      assert Queued(w, w.callers[c].phase);
      a := IssuerReplies(w.callers[c].phase.issue, Malformed);
    }
  }
}
