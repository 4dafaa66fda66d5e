/** The token lease cache: one cached lease, one pending issue, compare-and-evict invalidation. */
module AuthClient {
  import opened Numbers

  const MAX_SAFE_INTEGER: nat := 9007199254740991
  const MAX_TIME_VALUE: real := 8640000000000000.0

  /** expiresAt is `None` for an invalid date, which no comparison finds usable. */
  datatype Lease = Lease(generation: nat, expiresAt: Option<int>, validBearer: bool)

  /** What the issuer answered: a parsed token, or anything the parser refuses or the transport throws. */
  datatype TokenResponse = Token(expiresIn: real, validBearer: bool) | Malformed

  /** A promise of `issueAndCacheToken`. */
  datatype Issue = Outstanding(issuedAt: int) | Resolved(lease: Lease) | Rejected

  /** Promises are named by their position in issues, so identity of promises is equality of numbers. */
  datatype ClientState = ClientState(
    cached: Option<Lease>, pending: Option<nat>, generation: nat, issues: seq<Issue>)

  /** What one synchronous entry into `getTokenLease` leads to. */
  datatype Entry = Cached(lease: Lease) | Await(issue: nat)

  /** `new Date(issuedAt + expiresIn * 1000)`: truncated to whole milliseconds, invalid beyond the time range. */
  function ExpiryDate(issuedAt: int, expiresIn: real): Option<int> {
    var t := issuedAt as real + expiresIn * 1000.0;
    if Abs(t) > MAX_TIME_VALUE then None
    else Some(if t >= 0.0 then t.Floor else -((-t).Floor))
  }

  predicate Usable(lease: Lease, now: int, margin: int) {
    lease.expiresAt.Some? && now + margin < lease.expiresAt.value
  }

  // ----- The client as functions on its state ---------------------------------------------------

  /** issuedAt is the clock when the issue starts, read after now. */
  function Enter(s: ClientState, now: int, issuedAt: int, margin: int): (ClientState, Entry) {
    if s.cached.Some? && Usable(s.cached.value, now, margin) then (s, Cached(s.cached.value))
    else if s.pending.Some? then (s, Await(s.pending.value))
    else (s.(pending := Some(|s.issues|), issues := s.issues + [Outstanding(issuedAt)]), Await(|s.issues|))
  }

  function Settle(s: ClientState, id: nat, response: TokenResponse): ClientState
    requires id < |s.issues| && s.issues[id].Outstanding?
  {
    if response.Malformed? || response.expiresIn <= 0.0 || s.generation == MAX_SAFE_INTEGER then
      s.(issues := s.issues[id := Rejected])
    else
      var lease := Lease(s.generation + 1, ExpiryDate(s.issues[id].issuedAt, response.expiresIn), response.validBearer);
      s.(generation := s.generation + 1, cached := Some(lease), issues := s.issues[id := Resolved(lease)])
  }

  function Finish(s: ClientState, id: nat): ClientState {
    if s.pending == Some(id) then s.(pending := None) else s
  }

  function Invalidate(s: ClientState, generation: nat): (ClientState, bool) {
    if s.cached.None? || s.cached.value.generation != generation then (s, false)
    else (s.(cached := None), true)
  }

  // ----- The client as the object whose fields the source updates ----------------------------------

  class TokenLeaseClient {
    var cachedLease: Option<Lease>
    var pendingIssue: Option<nat>
    var generation: nat
    var issues: seq<Issue>
    const expirySafetyMarginMs: int
    const ready: bool

    ghost function State(): ClientState
      reads this
    {
      ClientState(cachedLease, pendingIssue, generation, issues)
    }

    /** configured says that the configuration is enabled and ready. */
    constructor (margin: int, configured: bool)
      ensures State() == ClientState(None, None, 0, []) && expirySafetyMarginMs == margin && ready == configured
    {
      cachedLease, pendingIssue, generation, issues := None, None, 0, [];
      expirySafetyMarginMs, ready := margin, configured;
    }

    /** `getTokenLease` up to its `await`; `None` is the error for a configuration that is not ready. */
    method EnterGetTokenLease(now: int, issuedAt: int) returns (entry: Option<Entry>)
      modifies this
      ensures !ready ==> entry == None && State() == old(State())
      ensures ready ==> entry.Some? && (State(), entry.value) == Enter(old(State()), now, issuedAt, expirySafetyMarginMs)
      ensures ready ==>
                (entry.value.Cached? <==>
                   && old(cachedLease).Some? && old(cachedLease).value.expiresAt.Some?
                   && now + expirySafetyMarginMs < old(cachedLease).value.expiresAt.value)
      ensures ready && entry.value.Cached? ==> Some(entry.value.lease) == old(cachedLease) && State() == old(State())
    {
      if !ready {
        return None;
      }
      if cachedLease.Some? && Usable(cachedLease.value, now, expirySafetyMarginMs) {
        return Some(Cached(cachedLease.value));
      }
      if pendingIssue.None? {
        pendingIssue := Some(|issues|);
        issues := issues + [Outstanding(issuedAt)];
      }
      return Some(Await(pendingIssue.value));
    }

    /** The continuation of `issueAndCacheToken` once the issuer has answered or thrown. */
    method SettleIssue(id: nat, response: TokenResponse)
      requires id < |issues| && issues[id].Outstanding?
      modifies this
      ensures State() == Settle(old(State()), id, response)
    {
      if response.Malformed? || response.expiresIn <= 0.0 {
        issues := issues[id := Rejected];
        return;
      }
      var expiresAt := ExpiryDate(issues[id].issuedAt, response.expiresIn);
      if generation == MAX_SAFE_INTEGER {
        issues := issues[id := Rejected];
        return;
      }
      generation := generation + 1;
      var lease := Lease(generation, expiresAt, response.validBearer);
      cachedLease := Some(lease);
      issues := issues[id := Resolved(lease)];
    }

    /** The `finally` block a waiter of issue id runs when it wakes. */
    method FinishGetTokenLease(id: nat)
      modifies this
      ensures State() == Finish(old(State()), id)
    {
      if pendingIssue == Some(id) {
        pendingIssue := None;
      }
    }

    method InvalidateTokenLease(staleGeneration: nat) returns (evicted: bool)
      modifies this
      ensures (State(), evicted) == Invalidate(old(State()), staleGeneration)
    {
      if cachedLease.None? || cachedLease.value.generation != staleGeneration {
        return false;
      }
      cachedLease := None;
      return true;
    }
  }
}
