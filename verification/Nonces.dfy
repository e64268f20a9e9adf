/** Replay protection: signed requests carry a time and a nonce; the server checks the time against a window
    and consumes the nonce, which is forgotten after a while. */
module Nonces {

  type Table = map<string, int>

  /** TimestampWindowSec and NonceTTLSec. */
  datatype Policy = Policy(window: int, ttl: int)

  /** What reaches the nonces table, in the order in which it does. A request is checked against one clock
      reading and consumes its nonce at a later one; `authentic` stands for the checks in between. */
  datatype Event =
    | Request(timestamp: int, nonce: string, authentic: bool, seen: int, now: int)
    | CleanUp(now: int)

  function Forget(t: Table, before: int): Table { map n | n in t && t[n] >= before :: t[n] }

  /** ConsumeNonce: forget old nonces, then insert unless present. */
  function Consume(t: Table, nonce: string, ttl: int, now: int): (Table, bool) {
    var kept := Forget(t, now - ttl);
    if nonce in kept then (kept, false) else (kept[nonce := now], true)
  }

  /** The time check of verifyTokenBody. */
  predicate InWindow(p: Policy, timestamp: int, seen: int) {
    timestamp >= 0 && p.window >= 0 && -p.window <= seen - timestamp <= p.window
  }

  const DEFAULT_SECONDS := 300

  /** startNonceCleaner replaces a TTL that is not positive. */
  function CleanerTtl(p: Policy): int { if p.ttl <= 0 then DEFAULT_SECONDS else p.ttl }

  function Handle(p: Policy, t: Table, e: Event): (Table, bool) {
    match e
    case CleanUp(now) => (Forget(t, now - CleanerTtl(p) * 2), false)
    case Request(timestamp, nonce, authentic, seen, now) =>
      if InWindow(p, timestamp, seen) && authentic then Consume(t, nonce, p.ttl, now) else (t, false)
  }

  function After(p: Policy, es: seq<Event>): Table {
    if es == [] then map[] else Handle(p, After(p, es[..|es| - 1]), es[|es| - 1]).0
  }

  predicate Accepted(p: Policy, es: seq<Event>, i: nat)
    requires i < |es|
  {
    Handle(p, After(p, es[..i]), es[i]).1
  }

  /** Readings never go back, and a request consumes its nonce at most `delay` seconds after its time was checked. */
  ghost predicate Timely(es: seq<Event>, delay: int) {
    && (forall i, j :: 0 <= i < j < |es| ==> es[i].now <= es[j].now)
    && (forall i :: 0 <= i < |es| && es[i].Request? ==> es[i].seen <= es[i].now <= es[i].seen + delay)
  }

  /** The same signed time and nonce are accepted at two places of the run. */
  ghost predicate Replayed(p: Policy, es: seq<Event>, i: nat, j: nat) {
    && i < j < |es| && es[i].Request? && es[j].Request?
    && es[i].timestamp == es[j].timestamp && es[i].nonce == es[j].nonce
    && Accepted(p, es, i) && Accepted(p, es, j)
  }

  /** A consumed nonce is remembered until the clock has moved on by more than the TTL. */
  lemma {:induction false} NonceStays(p: Policy, es: seq<Event>, delay: int, i: nat, j: nat)
    requires Timely(es, delay) && i < j <= |es| && es[i].Request? && Accepted(p, es, i)
    requires p.ttl >= 0 && es[j - 1].now <= es[i].now + p.ttl
    ensures es[i].nonce in After(p, es[..j]) && After(p, es[..j])[es[i].nonce] == es[i].now
  {
    assert es[..j][..j - 1] == es[..j - 1];
    if j > i + 1 { NonceStays(p, es, delay, i, j - 1); }
  }

  /** The nonce has been consumed by one of the first `k` events, at `since` or later. */
  ghost predicate UsedSince(p: Policy, es: seq<Event>, k: nat, nonce: string, since: int)
    requires k <= |es|
  {
    exists j :: 0 <= j < k && es[j].Request? && es[j].nonce == nonce && Accepted(p, es, j) && es[j].now >= since
  }

  /** Readings never go back. */
  ghost predicate InOrder(es: seq<Event>) { forall i, j :: 0 <= i < j < |es| ==> es[i].now <= es[j].now }

  lemma HandleRemembers(p: Policy, t: Table, e: Event, nonce: string, since: int)
    requires since >= e.now - p.ttl
    ensures var (s, ok) := Handle(p, t, e);
      nonce in s && s[nonce] >= since <==>
        || (nonce in t && t[nonce] >= since)
        || (ok && e.Request? && e.nonce == nonce && e.now >= since)
  {
  }

  lemma UsedByOneMore(p: Policy, es: seq<Event>, k: nat, nonce: string, since: int)
    requires 0 < k <= |es|
    ensures UsedSince(p, es, k, nonce, since) <==>
      || UsedSince(p, es, k - 1, nonce, since)
      || (es[k - 1].Request? && es[k - 1].nonce == nonce && Accepted(p, es, k - 1) && es[k - 1].now >= since)
  {
    hide Accepted;
  }

  /** The table remembers exactly the nonces consumed within the TTL, whatever the cleaner does. */
  lemma {:induction false} TableRemembers(p: Policy, es: seq<Event>, k: nat, nonce: string, since: int)
    requires InOrder(es) && k <= |es| && (k > 0 ==> since >= es[k - 1].now - p.ttl)
    ensures nonce in After(p, es[..k]) && After(p, es[..k])[nonce] >= since <==> UsedSince(p, es, k, nonce, since)
  {
    hide Handle, UsedSince;
    if k == 0 {
      NothingUsed(p, es, nonce, since);
    } else {
      TableRemembers(p, es, k - 1, nonce, since);
      assert es[..k][..k - 1] == es[..k - 1];
      HandleRemembers(p, After(p, es[..k - 1]), es[k - 1], nonce, since);
      UsedByOneMore(p, es, k, nonce, since);
    }
  }

  lemma NothingUsed(p: Policy, es: seq<Event>, nonce: string, since: int)
    ensures !UsedSince(p, es, 0, nonce, since)
  {
  }

  /** Exactly the requests that are accepted: authentic ones, dated within the window, whose nonce was not consumed
      within the TTL before. */
  lemma AcceptedIff(p: Policy, es: seq<Event>, i: nat)
    requires InOrder(es) && i < |es| && es[i].Request?
    ensures var e := es[i];
      Accepted(p, es, i) <==>
        && e.authentic && 0 <= e.timestamp && e.timestamp - p.window <= e.seen <= e.timestamp + p.window
        && forall j :: 0 <= j < i && es[j].Request? && es[j].nonce == e.nonce && Accepted(p, es, j) ==>
             es[j].now < e.now - p.ttl
  {
    var since := es[i].now - p.ttl;
    TableRemembers(p, es, i, es[i].nonce, since);
    assert !UsedSince(p, es, i, es[i].nonce, since) <==>
      forall j :: 0 <= j < i && es[j].Request? && es[j].nonce == es[i].nonce && Accepted(p, es, j) ==>
        es[j].now < since;
  }

  /** No event changes the time of a nonce that it does not consume. The cleaner leaves none older than twice the
      TTL, or than ten minutes if that is not positive. */
  lemma HandleKeepsTimes(p: Policy, t: Table, e: Event)
    ensures var (s, ok) := Handle(p, t, e);
      && (forall n :: n in s && !(ok && e.Request? && n == e.nonce) ==> n in t && s[n] == t[n])
      && (ok ==> e.Request? && e.nonce in s && s[e.nonce] == e.now)
      && (e.CleanUp? ==>
           forall n :: n in s <==> n in t && t[n] >= e.now - (if p.ttl <= 0 then 600 else p.ttl * 2))
  {
  }

  /** With a TTL of at least twice the window plus the delay nothing is accepted twice in any run. */
  lemma NoReplay(p: Policy, es: seq<Event>, delay: int, i: nat, j: nat)
    requires Timely(es, delay) && delay >= 0 && p.ttl >= 2 * p.window + delay
    ensures !Replayed(p, es, i, j)
  {
    if Replayed(p, es, i, j) { NonceStays(p, es, delay, i, j); }
  }

  /** For requests that are not dated ahead of the server when first accepted, the window plus the delay is enough. */
  lemma NoReplayOfPastRequests(p: Policy, es: seq<Event>, delay: int, i: nat, j: nat)
    requires Timely(es, delay) && delay >= 0 && p.ttl >= p.window + delay
    requires i < |es| && es[i].Request? && es[i].timestamp <= es[i].seen
    ensures !Replayed(p, es, i, j)
  {
    if Replayed(p, es, i, j) { NonceStays(p, es, delay, i, j); }
  }

  /** Anything shorter lets a request through twice: first as early, then as late as the window allows. */
  lemma ShortTtlReplays(p: Policy, delay: int) returns (es: seq<Event>)
    requires p.window >= 0 && delay >= 0 && p.ttl < 2 * p.window + delay
    ensures Timely(es, delay) && Replayed(p, es, 0, 1)
  {
    var first := Request(p.window, "n", true, 0, 0);
    var again := Request(p.window, "n", true, 2 * p.window, 2 * p.window + delay);
    es := [first, again];
    assert es[..0] == [] && es[..1] == [first];
    assert After(p, [first]) == map["n" := 0] by { assert [first][..0] == []; }
  }

  lemma ShortTtlReplaysPastRequests(p: Policy, delay: int) returns (es: seq<Event>)
    requires p.window >= 0 && delay >= 0 && p.ttl < p.window + delay
    ensures Timely(es, delay) && Replayed(p, es, 0, 1) && es[0].timestamp <= es[0].seen
  {
    var first := Request(0, "n", true, 0, 0);
    var again := Request(0, "n", true, p.window, p.window + delay);
    es := [first, again];
    assert es[..0] == [] && es[..1] == [first];
    assert After(p, [first]) == map["n" := 0] by { assert [first][..0] == []; }
  }

  /** Exactly when the policy is safe, for all runs at once. */
  lemma ReplaySafeIff(p: Policy, delay: int)
    requires p.window >= 0 && delay >= 0
    ensures p.ttl >= 2 * p.window + delay <==> forall es, i, j :: Timely(es, delay) ==> !Replayed(p, es, i, j)
  {
    if p.ttl >= 2 * p.window + delay {
      forall es, i, j | Timely(es, delay) ensures !Replayed(p, es, i, j) { NoReplay(p, es, delay, i, j); }
    } else {
      var es := ShortTtlReplays(p, delay);
      assert Timely(es, delay) && Replayed(p, es, 0, 1);
    }
  }

  /** The default configuration, 300 seconds for both, is not enough for requests dated ahead of the server. */
  lemma DefaultsReplay() returns (es: seq<Event>)
    ensures Timely(es, 0) && Replayed(Policy(DEFAULT_SECONDS, DEFAULT_SECONDS), es, 0, 1)
  {
    es := ShortTtlReplays(Policy(DEFAULT_SECONDS, DEFAULT_SECONDS), 0);
  }

  class NonceStore {
    var nonces: Table

    method CleanOldNonces(before: int)
      modifies this
      ensures nonces == Forget(old(nonces), before)
    {
      nonces := map n | n in nonces && nonces[n] >= before :: nonces[n];
    }

    method ConsumeNonce(nonce: string, ttl: int, now: int) returns (inserted: bool)
      modifies this
      ensures (nonces, inserted) == Consume(old(nonces), nonce, ttl, now)
    {
      CleanOldNonces(now - ttl);
      if nonce in nonces { return false; }
      nonces := nonces[nonce := now];
      inserted := true;
    }

    /** verifyTokenBody, from the time check to the nonce. */
    method Verify(p: Policy, timestamp: int, nonce: string, authentic: bool, seen: int,
                  now: int) returns (accepted: bool)
      modifies this
      ensures (nonces, accepted) == Handle(p, old(nonces), Request(timestamp, nonce, authentic, seen, now))
    {
      if timestamp < 0 || p.window < 0 { return false; }
      var diff := seen - timestamp;
      if diff < -p.window || diff > p.window { return false; }
      if !authentic { return false; }
      accepted := ConsumeNonce(nonce, p.ttl, now);
    }
  }
}
