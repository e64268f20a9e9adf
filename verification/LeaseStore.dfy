/** The in-memory store, which updates its fields call by call. Every method is proved equal to the board
    function that the protocol theorems are about; the lemmas beside those functions (CreateKeepsOrder,
    ClaimKeepsOrder, ChangeKeepsOrder) say that each call leaves the store in order. */
module LeaseStore {
  import opened Common
  import opened Leases

  class MemoryStore {
    var jobs: map<nat, Job>
    var jobOrder: seq<nat>
    var keys: map<(string, string), nat>
    var nextID: nat

    function Contents(): Board
      reads this
    {
      Board(jobs, jobOrder, keys, nextID)
    }

    constructor ()
      ensures Contents() == EMPTY && Orderly(Contents())
    {
      jobs, jobOrder, keys, nextID := map[], [], map[], 0;
    }

    method CreateJob(domain: string, key: string, maxAttempts: int, createdAt: int) returns (id: nat, created: bool)
      modifies this
      ensures (Contents(), id, created) == Create(old(Contents()), domain, key, maxAttempts, createdAt)
    {
      if (domain, key) in keys { return keys[(domain, key)], false; }
      nextID := nextID + 1;
      id, created := nextID, true;
      jobs := jobs[id := Job(domain, key, Queued, 0, maxAttempts, Some(createdAt), "", 0, None, "", "")];
      jobOrder := jobOrder + [id];
      keys := keys[(domain, key) := id];
    }

    /** domainLeased: looks at the other jobs in whatever order the map yields them. */
    method CheckDomainLeased(id: nat, now: int) returns (leased: bool)
      requires id in jobs
      ensures leased == DomainLeased(Contents(), id, now)
    {
      var rest := jobs.Keys;
      while rest != {}
        invariant rest <= jobs.Keys
        invariant forall other ::
          other in jobs && other !in rest && other != id && jobs[other].domain == jobs[id].domain ==>
          !Unexpired(jobs[other], now)
        decreases |rest|
      {
        var other :| other in rest;
        rest := rest - {other};
        if other != id && jobs[other].domain == jobs[id].domain && Unexpired(jobs[other], now) { return true; }
      }
      leased := false;
    }

    method ClaimJob(owner: string, now: int, until: int) returns (claimed: Option<nat>)
      requires forall i :: 0 <= i < |jobOrder| ==> jobOrder[i] in jobs
      modifies this`jobs
      ensures (Contents(), claimed) == Claim(old(Contents()), owner, now, until)
    {
      assert jobOrder[0..] == jobOrder;
      for i := 0 to |jobOrder|
        invariant FirstClaimable(Contents(), jobOrder, now) == FirstClaimable(Contents(), jobOrder[i..], now)
        invariant jobs == old(jobs)
      {
        var id := jobOrder[i];
        var leased := CheckDomainLeased(id, now);
        assert jobOrder[i..][1..] == jobOrder[i + 1..];
        if Eligible(jobs[id], now) && !leased {
          jobs := jobs[id := Taken(jobs[id], owner, until)];
          return Some(id);
        }
      }
      claimed := None;
    }

    method RenewLease(id: nat, owner: string, now: int, version: nat, until: int) returns (newVersion: nat, ok: bool)
      modifies this`jobs
      ensures (Contents(), newVersion, ok) == Renew(old(Contents()), id, owner, now, version, until)
    {
      if id !in jobs { return version, false; }
      var job := jobs[id];
      if job.status != Running || job.owner != owner || job.version != version || !Beyond(job.expiresAt, now) {
        return version, false;
      }
      job := job.(version := job.version + 1, expiresAt := Some(until));
      jobs := jobs[id := job];
      return job.version, true;
    }

    method UpdateJob(u: JobUpdate) returns (ok: bool)
      modifies this`jobs
      ensures (Contents(), ok) == Update(old(Contents()), u)
    {
      if u.id !in jobs { return false; }
      var job := jobs[u.id];
      if job.status != Running || job.owner != u.owner || job.version != u.version || !Beyond(job.expiresAt, u.now) {
        return false;
      }
      job := job.(status := u.status, availableAt := u.availableAt, lastError := u.lastError, result := u.result);
      job := job.(owner := "", expiresAt := None);
      jobs := jobs[u.id := job];
      ok := true;
    }
  }
}
