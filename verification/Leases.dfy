/** The job board that workers share: what each call of the PersistentStore contract does to it, as the
    in-memory reference store defines it. Times are the readings that callers send along. */
module Leases {
  import opened Common

  datatype Status = Queued | Running | Retrying | Succeeded | Failed

  /** A zero time is None. Lease versions are the fencing tokens. */
  datatype Job = Job(
    domain: string, key: string, status: Status, attempts: nat, maxAttempts: int, availableAt: Option<int>,
    owner: string, version: nat, expiresAt: Option<int>, lastError: string, result: string)

  /** Jobs by identifier, in order of creation, and the register of idempotency keys. */
  datatype Board = Board(jobs: map<nat, Job>, order: seq<nat>, keys: map<(string, string), nat>, next: nat)

  datatype JobUpdate = JobUpdate(
    id: nat, owner: string, now: int, version: nat,
    status: Status, availableAt: Option<int>, lastError: string, result: string)

  const EMPTY := Board(map[], [], map[], 0)

  predicate Beyond(time: Option<int>, now: int) { time.Some? && time.value > now }

  predicate Unexpired(job: Job, now: int) { job.status == Running && Beyond(job.expiresAt, now) }

  predicate Eligible(job: Job, now: int) {
    match job.status
    case Queued => !Beyond(job.availableAt, now)
    case Retrying => !Beyond(job.availableAt, now)
    case Running => !Beyond(job.expiresAt, now)
    case Succeeded => false
    case Failed => false
  }

  /** Another job of the same domain holds an unexpired lease. */
  predicate DomainLeased(b: Board, id: nat, now: int)
    requires id in b.jobs
  {
    exists other :: other in b.jobs && other != id && b.jobs[other].domain == b.jobs[id].domain
      && Unexpired(b.jobs[other], now)
  }

  predicate Claimable(b: Board, id: nat, now: int) {
    id in b.jobs && Eligible(b.jobs[id], now) && !DomainLeased(b, id, now)
  }

  function FirstClaimable(b: Board, order: seq<nat>, now: int): (r: Option<nat>)
    ensures r.Some? ==> r.value in b.jobs
  {
    if order == [] then None
    else if Claimable(b, order[0], now) then Some(order[0])
    else FirstClaimable(b, order[1..], now)
  }

  /** The job found is claimable and none before it is; nothing is found only if nothing is claimable. */
  lemma {:induction false} FirstClaimableIsFirst(b: Board, order: seq<nat>, now: int) returns (at: nat)
    ensures at <= |order| && forall i :: 0 <= i < at ==> !Claimable(b, order[i], now)
    ensures FirstClaimable(b, order, now) == if at == |order| then None else Some(order[at])
    ensures at < |order| ==> Claimable(b, order[at], now)
  {
    at := 0;
    if order != [] && !Claimable(b, order[0], now) {
      at := FirstClaimableIsFirst(b, order[1..], now);
      at := at + 1;
    }
  }

  function Create(b: Board, domain: string, key: string, maxAttempts: int, createdAt: int): (Board, nat, bool) {
    if (domain, key) in b.keys then (b, b.keys[(domain, key)], false)
    else
      var id := b.next + 1;
      var job := Job(domain, key, Queued, 0, maxAttempts, Some(createdAt), "", 0, None, "", "");
      (Board(b.jobs[id := job], b.order + [id], b.keys[(domain, key) := id], id), id, true)
  }

  function Taken(job: Job, owner: string, until: int): Job {
    job.(status := Running, owner := owner, version := job.version + 1, expiresAt := Some(until),
      attempts := job.attempts + 1)
  }

  function Claim(b: Board, owner: string, now: int, until: int): (Board, Option<nat>) {
    match FirstClaimable(b, b.order, now)
    case None => (b, None)
    case Some(id) => (b.(jobs := b.jobs[id := Taken(b.jobs[id], owner, until)]), Some(id))
  }

  /** The caller is the one that holds the job's unexpired lease, at the job's present version. */
  predicate Holds(b: Board, id: nat, owner: string, version: nat, now: int) {
    id in b.jobs && Unexpired(b.jobs[id], now) && b.jobs[id].owner == owner && b.jobs[id].version == version
  }

  function Renew(b: Board, id: nat, owner: string, now: int, version: nat, until: int): (Board, nat, bool) {
    if !Holds(b, id, owner, version, now) then (b, version, false)
    else
      (b.(jobs := b.jobs[id := b.jobs[id].(version := version + 1, expiresAt := Some(until))]), version + 1, true)
  }

  function Settled(job: Job, u: JobUpdate): Job {
    job.(status := u.status, availableAt := u.availableAt, lastError := u.lastError, result := u.result, owner := "",
      expiresAt := None)
  }

  function Update(b: Board, u: JobUpdate): (Board, bool) {
    if !Holds(b, u.id, u.owner, u.version, u.now) then (b, false)
    else (b.(jobs := b.jobs[u.id := Settled(b.jobs[u.id], u)]), true)
  }

  /** What the board keeps under every call: identifiers are listed once, and (domain, key) names one job. */
  ghost predicate Orderly(b: Board) {
    && (forall i :: 0 <= i < |b.order| ==> b.order[i] in b.jobs && b.order[i] <= b.next)
    && (forall i, j :: 0 <= i < j < |b.order| ==> b.order[i] < b.order[j])
    && (forall id :: id in b.jobs ==> id in b.order && Registered(b, id))
    && (forall k :: k in b.keys ==> b.keys[k] in b.jobs && (b.jobs[b.keys[k]].domain, b.jobs[b.keys[k]].key) == k)
  }

  ghost predicate Registered(b: Board, id: nat)
    requires id in b.jobs
  {
    var k := (b.jobs[id].domain, b.jobs[id].key);
    k in b.keys && b.keys[k] == id
  }

  /** Two jobs of one domain never both hold an unexpired lease. */
  ghost predicate Exclusive(b: Board, now: int) {
    forall x, y :: (x in b.jobs && y in b.jobs && b.jobs[x].domain == b.jobs[y].domain
                    && Unexpired(b.jobs[x], now) && Unexpired(b.jobs[y], now)) ==> x == y
  }

  lemma CreateKeepsOrder(b: Board, domain: string, key: string, maxAttempts: int, createdAt: int)
    requires Orderly(b)
    ensures Orderly(Create(b, domain, key, maxAttempts, createdAt).0)
  {
    var (c, id, created) := Create(b, domain, key, maxAttempts, createdAt);
    if created {
      assert c.order[|b.order|] == id;
      forall other | other in c.jobs ensures other in c.order && Registered(c, other) {
        if other != id { assert other in b.order && Registered(b, other); }
      }
    }
  }

  /** Changing anything of a job but its domain and key leaves the board in order. */
  lemma ChangeKeepsOrder(b: Board, id: nat, job: Job)
    requires Orderly(b) && id in b.jobs && job.domain == b.jobs[id].domain && job.key == b.jobs[id].key
    ensures Orderly(b.(jobs := b.jobs[id := job]))
  {
    var c := b.(jobs := b.jobs[id := job]);
    forall other | other in c.jobs ensures other in c.order && Registered(c, other) {
      assert other in b.order && Registered(b, other);
    }
  }

  lemma ClaimKeepsOrder(b: Board, owner: string, now: int, until: int)
    requires Orderly(b)
    ensures Orderly(Claim(b, owner, now, until).0)
  {
    var first := FirstClaimable(b, b.order, now);
    if first.Some? { ChangeKeepsOrder(b, first.value, Taken(b.jobs[first.value], owner, until)); }
  }

  lemma RenewKeepsOrder(b: Board, id: nat, owner: string, now: int, version: nat, until: int)
    requires Orderly(b)
    ensures Orderly(Renew(b, id, owner, now, version, until).0)
  {
    if Holds(b, id, owner, version, now) {
      ChangeKeepsOrder(b, id, b.jobs[id].(version := version + 1, expiresAt := Some(until)));
    }
  }

  lemma UpdateKeepsOrder(b: Board, u: JobUpdate)
    requires Orderly(b)
    ensures Orderly(Update(b, u).0)
  {
    if Holds(b, u.id, u.owner, u.version, u.now) { ChangeKeepsOrder(b, u.id, Settled(b.jobs[u.id], u)); }
  }
}
