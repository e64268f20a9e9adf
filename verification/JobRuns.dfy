/** Any interleaving of statements on the jobs table. Claim contributes two separate steps, and other
    callers may run between them. */
module JobRuns {
  import opened Common
  import opened Jobs

  datatype Step =
    | Creating(id: string, job: Job)
    | Expiring(now: int)
    | Claiming(id: string, owner: string, now: int, until: int)
    | Renewing(id: string, owner: string, now: int, until: int)
    | Releasing(id: string, owner: string, now: int)
    | Retrying(id: string, owner: string, code: string, nextAt: int, now: int)
    | Setting(id: string, status: Status, now: int)
    | Deleting(id: string)

  /** Claiming is the second statement of Claim when it finds a job; when it finds none nothing happens. */
  ghost predicate Enabled(t: Table, step: Step) {
    step.Claiming? ==> IsHead(t, step.now, step.id) && !Blank(step.owner) && step.until > step.now
  }

  ghost function Next(t: Table, step: Step): Table
    requires Enabled(t, step)
  {
    match step
    case Creating(id, job) => Create(t, id, job).0
    case Expiring(now) => Expire(t, now)
    case Claiming(id, owner, now, until) => t[id := ClaimedJob(t[id], owner, now, until)]
    case Renewing(id, owner, now, until) => Renew(t, id, owner, now, until).0
    case Releasing(id, owner, now) => Release(t, id, owner, now).0
    case Retrying(id, owner, code, nextAt, now) => Retry(t, id, owner, code, nextAt, now).0
    case Setting(id, status, now) => SetStatus(t, id, status, now).0
    case Deleting(id) => t - {id}
  }

  /** tables[i] is the table before steps[i]. */
  ghost predicate IsRun(tables: seq<Table>, steps: seq<Step>) {
    && |tables| == |steps| + 1
    && forall i :: 0 <= i < |steps| ==> Enabled(tables[i], steps[i]) && tables[i + 1] == Next(tables[i], steps[i])
  }

  // ---- attempts ----

  predicate Bounded(t: Table) {
    forall id :: id in t ==> 0 <= t[id].attempts <= t[id].maxAttempts && 1 <= t[id].maxAttempts
  }

  function Claims(steps: seq<Step>, id: string): nat {
    if steps == [] then 0
    else Claims(steps[..|steps| - 1], id) + if steps[|steps| - 1].Claiming? && steps[|steps| - 1].id == id then 1 else 0
  }

  lemma NextCounts(t: Table, step: Step, id: string)
    requires Enabled(t, step) && id in t && Bounded(t) && step != Deleting(id)
    ensures var s := Next(t, step);
      && Bounded(s) && id in s && s[id].maxAttempts == t[id].maxAttempts
      && s[id].attempts == t[id].attempts + (if step.Claiming? && step.id == id then 1 else 0)
  {
  }

  /** Whatever happens to a job short of deletion, manual status changes included, its attempts are the initial
      ones plus the number of times it was claimed, and stay within its bound. */
  lemma {:induction false} AttemptsCountClaims(tables: seq<Table>, steps: seq<Step>, id: string)
    requires IsRun(tables, steps) && Bounded(tables[0]) && id in tables[0]
    requires Deleting(id) !in steps
    ensures Bounded(tables[|steps|]) && id in tables[|steps|]
    ensures var last := tables[|steps|];
      last[id].attempts == tables[0][id].attempts + Claims(steps,
        id) <= last[id].maxAttempts == tables[0][id].maxAttempts
  {
    if steps != [] {
      var n := |steps| - 1;
      AttemptsCountClaims(tables[..n + 1], steps[..n], id);
      NextCounts(tables[n], steps[n], id);
    }
  }

  // ---- nothing is stranded ----

  /** A queued job has attempts left and no lease; a running one has an owner and a deadline. */
  predicate WellFormed(job: Job) {
    && 0 <= job.attempts <= job.maxAttempts && 1 <= job.maxAttempts
    && (job.status == Queued ==> job.attempts < job.maxAttempts && job.owner.None? && job.until.None?)
    && (job.status == Running ==>
         job.owner.Some? && !Blank(job.owner.value) && job.until.Some? && job.nextAt.None? && job.attempts >= 1)
    && (Terminal(job.status) ==> job.owner.None? && job.until.None? && job.nextAt.None?)
  }

  predicate AllWellFormed(t: Table) { forall id :: id in t ==> WellFormed(t[id]) }

  /** The steps of ordinary workers: jobs start queued and untried, and nobody sets a status by hand. */
  predicate Ordinary(step: Step) {
    && !step.Setting?
    && (step.Creating? ==>
        step.job.status == Queued && step.job.attempts == 0 && step.job.owner.None? && step.job.until.None?)
  }

  lemma NextKeepsWellFormed(t: Table, step: Step)
    requires Enabled(t, step) && Ordinary(step) && AllWellFormed(t)
    ensures AllWellFormed(Next(t, step))
  {
  }

  lemma {:induction false} OrdinaryRunsAreWellFormed(tables: seq<Table>, steps: seq<Step>)
    requires IsRun(tables, steps) && AllWellFormed(tables[0])
    requires forall i :: 0 <= i < |steps| ==> Ordinary(steps[i])
    ensures AllWellFormed(tables[|steps|])
  {
    if steps != [] {
      var n := |steps| - 1;
      OrdinaryRunsAreWellFormed(tables[..n + 1], steps[..n]);
      NextKeepsWellFormed(tables[n], steps[n]);
    }
  }

  /** From some time on, and until it is touched, every job that has not ended is due or about to be failed
      for having no attempts left: no job is ever stranded. */
  lemma NothingIsStranded(tables: seq<Table>, steps: seq<Step>, id: string) returns (from: int)
    requires IsRun(tables, steps) && AllWellFormed(tables[0])
    requires forall i :: 0 <= i < |steps| ==> Ordinary(steps[i])
    requires id in tables[|steps|] && !Terminal(tables[|steps|][id].status)
    ensures var job := tables[|steps|][id];
      forall now :: now >= from ==> Due(job, now) || (Spent(job, now) && ExpireJob(job, now).status == Failed)
  {
    OrdinaryRunsAreWellFormed(tables, steps);
    var job := tables[|steps|][id];
    from := Coalesce(if job.status == Queued then job.nextAt else job.until, 0);
  }

  // ---- fencing ----

  /** Steps that act for `owner` on `id`, or that are not bound by leases at all. */
  predicate MayTouch(step: Step, id: string, owner: string) {
    match step
    case Renewing(i, o, _, _) => i == id && o == owner
    case Releasing(i, o, _) => i == id && o == owner
    case Retrying(i, o, _, _, _) => i == id && o == owner
    case Setting(i, _, _) => i == id
    case Deleting(i) => i == id
    case _ => false
  }

  function ReadingOf(step: Step, default: int): int {
    match step
    case Creating(_, _) => default
    case Expiring(now) => now
    case Claiming(_, _, now, _) => now
    case Renewing(_, _, now, _) => now
    case Releasing(_, _, now) => now
    case Retrying(_, _, _, _, now) => now
    case Setting(_, _, now) => now
    case Deleting(_) => default
  }

  /** As long as its lease has not run out, a job does not change unless its owner acts or somebody sets its
      status by hand or deletes it: no claim, expiry or other owner's call touches it. */
  lemma {:induction false} LeaseProtects(tables: seq<Table>, steps: seq<Step>, id: string, owner: string, until: int)
    requires IsRun(tables, steps)
    requires id in tables[0] && tables[0][id].status == Running && tables[0][id].owner == Some(owner)
      && tables[0][id].until == Some(until)
    requires forall i :: 0 <= i < |steps| ==> !MayTouch(steps[i], id, owner) && ReadingOf(steps[i], until - 1) < until
    ensures id in tables[|steps|] && tables[|steps|][id] == tables[0][id]
  {
    if steps != [] {
      var n := |steps| - 1;
      LeaseProtects(tables[..n + 1], steps[..n], id, owner, until);
      assert !MayTouch(steps[n], id, owner);
    }
  }

  /** A finished job stays exactly as it is under every lease operation and every claim. */
  lemma {:induction false} TerminalStays(tables: seq<Table>, steps: seq<Step>, id: string)
    requires IsRun(tables, steps) && id in tables[0] && Terminal(tables[0][id].status)
    requires forall i :: 0 <= i < |steps| ==> !steps[i].Setting? && steps[i] != Deleting(id)
    ensures id in tables[|steps|] && tables[|steps|][id] == tables[0][id]
  {
    if steps != [] {
      var n := |steps| - 1;
      TerminalStays(tables[..n + 1], steps[..n], id);
      assert !steps[n].Setting? && steps[n] != Deleting(id);
    }
  }

  // ---- setting a status by hand ----

  /** Queued although its attempts are used up. */
  predicate Stranded(job: Job) { job.status == Queued && job.attempts == job.maxAttempts }

  /** From some time on, and until it is touched, the job is due or about to be failed. */
  ghost predicate ActsFrom(job: Job, from: int) { forall now :: now >= from ==> Due(job, now) || Spent(job, now) }

  lemma {:induction false} RunsStayBounded(tables: seq<Table>, steps: seq<Step>)
    requires IsRun(tables, steps) && Bounded(tables[0])
    ensures Bounded(tables[|steps|])
  {
    if steps != [] {
      var n := |steps| - 1;
      RunsStayBounded(tables[..n + 1], steps[..n]);
      assert Bounded(Next(tables[n], steps[n]));
    }
  }

  /** In every run, manual status changes included, a job that has not ended is from some time on due or
      about to be failed, exactly if it is not queued with its attempts used up. */
  lemma ComesToActIff(tables: seq<Table>, steps: seq<Step>, id: string)
    requires IsRun(tables, steps) && Bounded(tables[0])
    requires id in tables[|steps|] && !Terminal(tables[|steps|][id].status)
    ensures var job := tables[|steps|][id]; (exists from :: ActsFrom(job, from)) <==> !Stranded(job)
  {
    RunsStayBounded(tables, steps);
    var job := tables[|steps|][id];
    if Stranded(job) {
      forall from ensures !ActsFrom(job, from) { assert !Due(job, from); }
    } else {
      assert ActsFrom(job, Coalesce(if job.status == Queued then job.nextAt else job.until, 0));
    }
  }

  /** A stranded job stays exactly as it is under every step except a change of its own status by hand
      and its deletion. */
  lemma {:induction false} StrandedStays(tables: seq<Table>, steps: seq<Step>, id: string)
    requires IsRun(tables, steps) && id in tables[0] && Stranded(tables[0][id])
    requires forall i :: 0 <= i < |steps| ==> !(steps[i].Setting? && steps[i].id == id) && steps[i] != Deleting(id)
    ensures id in tables[|steps|] && tables[|steps|][id] == tables[0][id]
  {
    if steps != [] {
      var n := |steps| - 1;
      StrandedStays(tables[..n + 1], steps[..n], id);
      assert !(steps[n].Setting? && steps[n].id == id) && steps[n] != Deleting(id);
    }
  }

  /** Read off the call and the job before it: a job out of attempts is set to queued by hand, or a job is
      created that way. */
  ghost predicate Strands(t: Table, step: Step, id: string) {
    if id in t
    then step.Setting? && step.id == id && step.status == Queued && t[id].attempts == t[id].maxAttempts
    else step.Creating? && step.id == id && Create(t, id, step.job).1.Created? && Stranded(WithDefaults(step.job))
  }

  lemma StepStrandsIff(t: Table, step: Step, id: string)
    requires Enabled(t, step) && Bounded(t) && !(id in t && Stranded(t[id]))
    ensures id in Next(t, step) && Stranded(Next(t, step)[id]) <==> Strands(t, step, id)
  {
  }

  /** In every run a job is stranded at some time exactly if some step strands it by one of the two calls:
      no claim, renewal, release, retry, expiry or deletion ever does. */
  lemma {:induction false} StrandedIff(tables: seq<Table>, steps: seq<Step>, id: string)
    requires IsRun(tables, steps) && Bounded(tables[0]) && !(id in tables[0] && Stranded(tables[0][id]))
    ensures (exists i :: 0 <= i < |tables| && id in tables[i] && Stranded(tables[i][id])) <==>
            exists i :: 0 <= i < |steps| && Strands(tables[i], steps[i], id)
  {
    if steps != [] {
      var n := |steps| - 1;
      var earlier := tables[..n + 1];
      StrandedIff(earlier, steps[..n], id);
      RunsStayBounded(earlier, steps[..n]);
      if i :| 0 <= i < |earlier| && id in earlier[i] && Stranded(earlier[i][id]) {
        var k :| 0 <= k < n && Strands(earlier[k], steps[..n][k], id);
        assert Strands(tables[k], steps[k], id) && tables[i] == earlier[i];
      } else {
        assert !(id in earlier[n] && Stranded(earlier[n][id]));
        assert forall k :: 0 <= k < n ==> !Strands(earlier[k], steps[..n][k], id);
        StepStrandsIff(tables[n], steps[n], id);
        if Strands(tables[n], steps[n], id) { assert tables[n + 1] == Next(tables[n], steps[n]); }
        forall k | 0 <= k < n ensures !Strands(tables[k], steps[k], id) {
          assert !Strands(earlier[k], steps[..n][k], id);
        }
        forall i | 0 <= i <= n ensures !(id in tables[i] && Stranded(tables[i][id])) { assert earlier[i] == tables[i]; }
      }
    }
  }
}
