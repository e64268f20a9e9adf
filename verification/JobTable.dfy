/** The table as the Store object changes it, and the order in which it hands out work. */
module JobTable {
  import opened Common
  import opened Jobs
  import opened JobEffects

  const LIST_LIMIT := 100
  const LIST_MAXIMUM := 500

  /** boundedLimit */
  function Bounded(limit: int): (r: nat)
    ensures 1 <= r <= 500
    ensures r == limit <==> 1 <= limit <= 500
    ensures r != limit ==> r == 100
  {
    if limit <= 0 || limit > LIST_MAXIMUM then LIST_LIMIT else limit
  }

  /** The first `limit` due jobs, in order: nothing due is missing unless the list is full and it comes later. */
  ghost predicate IsListing(t: Table, now: int, limit: nat, list: seq<string>) {
    && |list| <= limit
    && (forall i :: 0 <= i < |list| ==> list[i] in t && Due(t[list[i]], now))
    && (forall i, j :: 0 <= i < j < |list| ==> Precedes(t, list[i], list[j]))
    && (forall id :: id in t && Due(t[id], now) && id !in list ==>
        |list| == limit && forall i :: 0 <= i < |list| ==> Precedes(t, list[i], id))
  }

  lemma HeadIsUnique(t: Table, now: int, a: string, b: string)
    requires IsHead(t, now, a) && IsHead(t, now, b)
    ensures a == b
  {
    PrecedesIsOrder(t, a, b, a);
  }

  /** Failing exhausted jobs changes neither which jobs are due nor their order. */
  lemma ExpireKeepsHead(t: Table, now: int, id: string)
    ensures IsHead(Expire(t, now), now, id) <==> IsHead(t, now, id)
  {
    var s := Expire(t, now);
    assert s.Keys == t.Keys;
    forall a, b | a in t && b in t ensures Precedes(s, a, b) == Precedes(t, a, b) && Due(s[a], now) == Due(t[a], now) {}
    if IsHead(t, now, id) {
      forall other | other in s && other != id && Due(s[other], now) ensures Precedes(s, id, other) {
        assert Precedes(t, id, other);
      }
    }
    if IsHead(s, now, id) {
      forall other | other in t && other != id && Due(t[other], now) ensures Precedes(t, id, other) {
        assert Due(s[other], now) && Precedes(s, id, other);
      }
    }
  }

  /** A Claim takes exactly the first job that ListRecoverable shows at the same time, and finds nothing
      exactly when the list is empty. */
  lemma ClaimTakesListedHead(t: Table, now: int, limit: int, list: seq<string>)
    requires IsListing(t, now, Bounded(limit), list)
    ensures list == [] <==> NothingDue(t, now)
    ensures list != [] ==> IsHead(Expire(t, now), now, list[0])
  {
    if list != [] {
      forall other | other in t && other != list[0] && Due(t[other], now) ensures Precedes(t, list[0], other) {
        if other in list {
          var i :| 0 <= i < |list| && list[i] == other;
          assert 0 < i;
        }
      }
      ExpireKeepsHead(t, now, list[0]);
    }
  }

  /** What is listed: each time the earliest of those that wait and are not listed yet, until the list is full
      or nobody is left. */
  ghost predicate ListsEarliest(t: Table, now: int, limit: nat, list: seq<string>) {
    && |list| <= limit
    && (forall i :: 0 <= i < |list| ==> IsEarliest(t, Waiting(t, now) - (set j | 0 <= j < i :: list[j]), list[i]))
    && (|list| < limit ==> Waiting(t, now) <= set id | id in list)
  }

  lemma ListingIsEarliest(t: Table, now: int, limit: nat, list: seq<string>)
    requires IsListing(t, now, limit, list)
    ensures ListsEarliest(t, now, limit, list)
  {
    forall i | 0 <= i < |list| ensures IsEarliest(t, Waiting(t, now) - (set j | 0 <= j < i :: list[j]), list[i]) {
      var ids := Waiting(t, now) - (set j | 0 <= j < i :: list[j]);
      forall other | other in ids && other != list[i] ensures Precedes(t, list[i], other) {
        if other in list { var j :| 0 <= j < |list| && list[j] == other; }
      }
      forall j | 0 <= j < i ensures list[j] != list[i] { PrecedesIsOrder(t, list[j], list[i], list[i]); }
      FirstIsEarliest(t, ids, list[i]);
    }
  }

  class Store {
    var rows: Table

    /** The due job outside `skip` that comes first. */
    method FindNext(now: int, skip: seq<string>) returns (first: Option<string>)
      ensures first.None? ==> forall id :: id in rows && Due(rows[id], now) ==> id in skip
      ensures first.Some? ==> first.value in rows && Due(rows[first.value], now) && first.value !in skip
      ensures first.Some? ==> forall id :: id in rows && Due(rows[id], now) && id !in skip && id != first.value ==>
        Precedes(rows, first.value, id)
      ensures first.Some? ==> IsEarliest(rows, Waiting(rows, now) - (set id | id in skip), first.value)
    {
      first := None;
      var rest := rows.Keys;
      while rest != {}
        invariant rest <= rows.Keys
        invariant first.Some? ==> first.value in rows && Due(rows[first.value], now) && first.value !in skip
        invariant first.None? ==> forall id :: id in rows && id !in rest && Due(rows[id], now) ==> id in skip
        invariant first.Some? ==>
          forall id :: id in rows && id !in rest && Due(rows[id], now) && id !in skip && id != first.value ==>
                    Precedes(rows, first.value, id)
        decreases |rest|
      {
        var id :| id in rest;
        rest := rest - {id};
        if Due(rows[id], now) && id !in skip {
          if first.None? || Precedes(rows, id, first.value) {
            ghost var was := first;
            first := Some(id);
            if was.Some? {
              forall other | other in rows && other !in rest && Due(rows[other], now) && other !in skip && other != id
                ensures Precedes(rows, id, other)
              {
                PrecedesIsOrder(rows, id, was.value, other);
              }
            }
          } else {
            PrecedesIsOrder(rows, first.value, id, id);
          }
        }
      }
      if first.Some? { FirstIsEarliest(rows, Waiting(rows, now) - (set id | id in skip), first.value); }
    }

    method ListRecoverable(now: int, limit: int) returns (list: seq<string>)
      ensures IsListing(rows, now, Bounded(limit), list) && ListsEarliest(rows, now, Bounded(limit), list)
    {
      list := [];
      while |list| < Bounded(limit)
        invariant |list| <= Bounded(limit)
        invariant forall i :: 0 <= i < |list| ==> list[i] in rows && Due(rows[list[i]], now)
        invariant forall i, j :: 0 <= i < j < |list| ==> Precedes(rows, list[i], list[j])
        invariant forall id, i :: id in rows && Due(rows[id], now) && id !in list && 0 <= i < |list| ==>
          Precedes(rows, list[i], id)
      {
        var next := FindNext(now, list);
        if next.None? { break; }
        list := list + [next.value];
      }
      ListingIsEarliest(rows, now, Bounded(limit), list);
    }

    /** Two statements: fail what is exhausted, then take the head, which is the earliest of the jobs that wait. */
    method Claim(owner: string, duration: int, now: int) returns (ok: bool, claimed: Option<string>)
      modifies this
      ensures !ok <==> Blank(owner) || duration <= 0
      ensures !ok ==> rows == old(rows) && claimed.None?
      ensures ok && claimed.None? ==> NothingDue(old(rows), now) && rows == Expire(old(rows), now)
      ensures ok && claimed.Some? ==>
        var t := Expire(old(rows), now);
        && IsHead(old(rows), now, claimed.value) && IsHead(t, now, claimed.value)
        && rows == t[claimed.value := ClaimedJob(t[claimed.value], owner, now, now + Seconds(duration))]
      ensures ok ==> (claimed.None? <==> Waiting(old(rows), now) == {})
      ensures ok && claimed.Some? ==> IsEarliest(old(rows), Waiting(old(rows), now), claimed.value)
    {
      if Blank(owner) || duration <= 0 { return false, None; }
      ok := true;
      rows := map id | id in rows :: ExpireJob(rows[id], now);
      claimed := FindNext(now, []);
      if claimed.Some? {
        ExpireKeepsHead(old(rows), now, claimed.value);
        HeadIsEarliest(old(rows), now, claimed.value);
        rows := rows[claimed.value := ClaimedJob(rows[claimed.value], owner, now, now + Seconds(duration))];
      }
    }

    method RenewLease(id: string, owner: string, duration: int, now: int) returns (ok: bool)
      modifies this
      ensures Blank(id) || Blank(owner) || duration <= 0 ==> !ok && rows == old(rows)
      ensures !Blank(id) && !Blank(owner) && duration > 0 ==>
        (rows, ok) == Renew(old(rows), id, owner, now, now + Seconds(duration))
    {
      if Blank(id) || Blank(owner) || duration <= 0 { return false; }
      ok := Leased(rows, id, owner, now);
      if ok { rows := rows[id := rows[id].(until := Some(now + Seconds(duration)))]; }
    }

    method ReleaseLease(id: string, owner: string, now: int) returns (ok: bool)
      modifies this
      ensures Blank(id) || Blank(owner) ==> !ok && rows == old(rows)
      ensures !Blank(id) && !Blank(owner) ==> (rows, ok) == Release(old(rows), id, owner, now)
    {
      if Blank(id) || Blank(owner) { return false; }
      ok := Leased(rows, id, owner, now);
      if !ok { return; }
      var job := rows[id];
      var spent := job.attempts >= job.maxAttempts;
      rows := rows[id := job.(
        status := if spent then Failed else Queued, owner := None, until := None,
        nextAt := if spent then None else Some(now),
        errorCode := if spent then EXHAUSTED else job.errorCode,
        finishedAt := if spent then Some(now) else None)];
    }

    method RetryAt(id: string, owner: string, code: string, nextAt: int, now: int) returns (ok: bool)
      modifies this
      ensures Blank(id) || Blank(owner) ==> !ok && rows == old(rows)
      ensures !Blank(id) && !Blank(owner) ==> (rows, ok) == Retry(old(rows), id, owner, code, nextAt, now)
    {
      if Blank(id) || Blank(owner) || nextAt < now { return false; }
      ok := Leased(rows, id, owner, now);
      if !ok { return; }
      var job := rows[id];
      var spent := job.attempts >= job.maxAttempts;
      rows := rows[id := job.(
        status := if spent then Failed else Queued, owner := None, until := None,
        nextAt := if spent then None else Some(nextAt),
        errorCode := if code == "" then None else Some(code),
        finishedAt := if spent then Some(now) else None)];
    }

    method UpdateStatus(id: string, status: Status, now: int) returns (ok: bool)
      modifies this
      ensures (rows, ok) == SetStatus(old(rows), id, status, now)
    {
      ok := id in rows;
      if !ok { return; }
      var job := rows[id];
      var start, finish: Option<int> := None, None;
      if status == Running { start := Some(now); }
      if Terminal(status) { finish := Some(now); }
      job := job.(status := status, startedAt := if job.startedAt.Some? then job.startedAt
        else start, finishedAt := finish);
      if Terminal(status) { job := job.(owner := None, until := None, nextAt := None); }
      rows := rows[id := job];
    }

    method DeleteJob(id: string) returns (ok: bool)
      modifies this
      ensures rows == old(rows) - {id} && (ok <==> id in old(rows))
    {
      ok := id in rows;
      rows := rows - {id};
    }

    method CreateJob(id: string, job: Job) returns (outcome: Creation)
      requires KeysAreUnique(rows)
      modifies this
      ensures KeysAreUnique(rows)
      ensures (rows, outcome) == Create(old(rows), id, job)
    {
      if !Creatable(job) { return Rejected; }
      var rest := rows.Keys;
      while rest != {}
        invariant rest <= rows.Keys
        invariant forall other :: other in rows && other !in rest ==> IdempotencyKey(rows[other]) != IdempotencyKey(job)
        decreases |rest|
      {
        var other :| other in rest;
        rest := rest - {other};
        if IdempotencyKey(rows[other]) == IdempotencyKey(job) { return Existing(other); }
      }
      if id in rows { return Rejected; }
      rows := rows[id := WithDefaults(job)];
      outcome := Created(id);
    }
  }
}
