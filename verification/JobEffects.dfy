/** What the statements on the jobs table do, column by column, and which job comes first. */
module JobEffects {
  import opened Common
  import opened Jobs
  import opened JobRuns

  // ---- which job comes first ----

  /** The time a job waits for: COALESCE(next_attempt_at, created_at). */
  function Time(job: Job): int { if job.nextAt.Some? then job.nextAt.value else job.createdAt }

  /** The jobs that Claim and ListRecoverable look for: attempts left, and queued with its time come, or running
      with its lease run out. A null time has always come. */
  function Waiting(t: Table, now: int): set<string> {
    set id | id in t && t[id].attempts < t[id].maxAttempts &&
      ((t[id].status == Queued && (t[id].nextAt.Some? ==> t[id].nextAt.value <= now))
       || (t[id].status == Running && (t[id].until.Some? ==> t[id].until.value <= now)))
  }

  /** The least time, among those the least creation time, and among those the least identifier. */
  ghost predicate IsEarliest(t: Table, ids: set<string>, id: string)
    requires ids <= t.Keys
  {
    && id in ids
    && (forall other :: other in ids ==> Time(t[id]) <= Time(t[other]))
    && (forall other :: other in ids && Time(t[other]) == Time(t[id]) ==> t[id].createdAt <= t[other].createdAt)
    && (forall other :: other in ids && Time(t[other]) == Time(t[id]) && t[other].createdAt == t[id].createdAt ==>
          other == id || LexLess(id, other))
  }

  lemma WaitingIsDue(t: Table, now: int, id: string)
    ensures id in Waiting(t, now) <==> id in t && Due(t[id], now)
  {
  }

  /** A job that precedes all others of a set is its earliest. */
  lemma FirstIsEarliest(t: Table, ids: set<string>, id: string)
    requires ids <= t.Keys && id in ids && forall other :: other in ids && other != id ==> Precedes(t, id, other)
    ensures IsEarliest(t, ids, id)
  {
    forall other | other in ids && other != id
      ensures Time(t[id]) <= Time(t[other])
      ensures Time(t[other]) == Time(t[id]) ==> t[id].createdAt <= t[other].createdAt
      ensures Time(t[other]) == Time(t[id]) && t[other].createdAt == t[id].createdAt ==> LexLess(id, other)
    {
      assert Precedes(t, id, other);
    }
  }

  /** The next job is the earliest of those that wait. */
  lemma HeadIsEarliest(t: Table, now: int, id: string)
    requires IsHead(t, now, id)
    ensures IsEarliest(t, Waiting(t, now), id)
  {
    forall other | other in Waiting(t, now) && other != id ensures Precedes(t, id, other) {
      WaitingIsDue(t, now, other);
    }
    FirstIsEarliest(t, Waiting(t, now), id);
  }

  // ---- columns ----

  /** The columns that no statement changes. */
  predicate SameJob(a: Job, b: Job) {
    && a.domain == b.domain && a.operation == b.operation && a.key == b.key
    && a.maxAttempts == b.maxAttempts && a.createdAt == b.createdAt
  }

  /** Neither owner nor deadline. */
  predicate Unleased(job: Job) { job.owner == None && job.until == None }

  /** All rows but that of `id` are as they were. */
  ghost predicate OthersStay(t: Table, s: Table, id: string) {
    s.Keys == t.Keys && forall other :: other in t && other != id ==> s[other] == t[other]
  }

  /** The caller holds the job's unexpired lease. */
  predicate HeldBy(t: Table, id: string, owner: string, now: int) {
    id in t && t[id].status == Running && t[id].owner == Some(owner) && t[id].until.Some? && now < t[id].until.value
  }

  /** The first statement of Claim: exactly the running jobs without attempts left whose lease has run out fail,
      as exhausted. */
  lemma ExpireEffect(t: Table, now: int, id: string)
    requires id in t
    ensures var (a, b) := (t[id], Next(t, Expiring(now))[id]);
      var spent := a.status == Running && a.attempts >= a.maxAttempts && (a.until.Some? ==> a.until.value <= now);
      && Next(t, Expiring(now)).Keys == t.Keys
      && (!spent ==> b == a)
      && (spent ==>
            && SameJob(a, b) && b.attempts == a.attempts && b.nextAt == a.nextAt && b.startedAt == a.startedAt
            && b.status == Failed && Unleased(b) && b.errorCode == Some("attempts_exhausted")
            && b.finishedAt == Some(now))
  {
  }

  /** The second: the job runs, for this owner until this time, with one attempt more. */
  lemma ClaimEffect(t: Table, id: string, owner: string, now: int, until: int)
    requires Enabled(t, Claiming(id, owner, now, until))
    ensures var s := Next(t, Claiming(id, owner, now, until));
      && OthersStay(t, s, id)
      && SameJob(t[id], s[id]) && s[id].status == Running && s[id].attempts == t[id].attempts + 1
      && s[id].owner == Some(owner) && s[id].until == Some(until) && s[id].nextAt == None
      && s[id].startedAt == (if t[id].startedAt.Some? then t[id].startedAt else Some(now))
      && s[id].finishedAt == t[id].finishedAt && s[id].errorCode == t[id].errorCode
  {
  }

  /** The holder's renewal moves the deadline and nothing else; anybody else's is refused. */
  lemma RenewEffect(t: Table, id: string, owner: string, now: int, until: int)
    ensures var (s, ok) := Renew(t, id, owner, now, until);
      && s == Next(t, Renewing(id, owner, now, until))
      && (ok <==> HeldBy(t, id, owner, now))
      && (!ok ==> s == t)
      && (ok ==> OthersStay(t, s, id) && s[id].until == Some(until) && s[id].(until := t[id].until) == t[id])
  {
    if HeldBy(t, id, owner, now) { assert t[id].(until := Some(until)).(until := t[id].until) == t[id]; }
  }

  /** What a job is given back as: queued for `nextAt` while attempts are left, and failed when they are not. */
  predicate GivenBack(a: Job, b: Job, nextAt: int, now: int) {
    && SameJob(a, b) && b.attempts == a.attempts && b.startedAt == a.startedAt && Unleased(b)
    && (a.attempts < a.maxAttempts ==> b.status == Queued && b.nextAt == Some(nextAt) && b.finishedAt == None)
    && (a.attempts >= a.maxAttempts ==> b.status == Failed && b.nextAt == None && b.finishedAt == Some(now))
  }

  lemma ReleaseEffect(t: Table, id: string, owner: string, now: int)
    ensures var (s, ok) := Release(t, id, owner, now);
      && s == Next(t, Releasing(id, owner, now))
      && (ok <==> HeldBy(t, id, owner, now))
      && (!ok ==> s == t)
      && (ok ==>
            && OthersStay(t, s, id) && GivenBack(t[id], s[id], now, now)
            && s[id].errorCode == if t[id].attempts < t[id].maxAttempts then t[id].errorCode
                 else Some("attempts_exhausted"))
  {
  }

  lemma RetryEffect(t: Table, id: string, owner: string, code: string, nextAt: int, now: int)
    ensures var (s, ok) := Retry(t, id, owner, code, nextAt, now);
      && s == Next(t, Retrying(id, owner, code, nextAt, now))
      && (ok <==> HeldBy(t, id, owner, now) && now <= nextAt)
      && (!ok ==> s == t)
      && (ok ==>
            && OthersStay(t, s, id) && GivenBack(t[id], s[id], nextAt, now)
            && s[id].errorCode == if code == "" then None else Some(code))
  {
  }

  /** A change by hand: whoever asks, whatever the lease; only an end clears lease and time. */
  lemma SetEffect(t: Table, id: string, status: Status, now: int)
    ensures var (s, ok) := SetStatus(t, id, status, now);
      var ends := status == Succeeded || status == Failed || status == Cancelled;
      && s == Next(t, Setting(id, status, now))
      && (ok <==> id in t)
      && (!ok ==> s == t)
      && (ok ==>
            && OthersStay(t, s, id) && SameJob(t[id], s[id]) && s[id].status == status
            && s[id].attempts == t[id].attempts && s[id].errorCode == t[id].errorCode
            && (ends ==> Unleased(s[id]) && s[id].nextAt == None && s[id].finishedAt == Some(now))
            && (!ends ==> s[id].owner == t[id].owner && s[id].until == t[id].until && s[id].nextAt == t[id].nextAt
                          && s[id].finishedAt == None)
            && s[id].startedAt == (if t[id].startedAt.Some? then t[id].startedAt
                                   else if status == Running then Some(now) else None))
  {
  }

  /** A valid job is inserted as given, with three attempts unless it says otherwise, exactly if its key and its
      identifier are unused; a used key names the job that has it. */
  lemma CreateEffect(t: Table, id: string, job: Job)
    ensures var (s, outcome) := Create(t, id, job);
      var attempts := if job.maxAttempts == 0 then 3 else job.maxAttempts;
      var valid := !Blank(job.operation) && !Blank(job.key) && 1 <= attempts && 0 <= job.attempts <= attempts;
      var used := exists other :: other in t && SameKey(t[other], job);
      && s == Next(t, Creating(id, job))
      && (outcome == Created(id) <==> valid && !used && id !in t)
      && (outcome.Created? ==> outcome.id == id && s == t[id := job.(maxAttempts := attempts)])
      && (outcome.Existing? <==> valid && used)
      && (outcome.Existing? ==> outcome.id in t && SameKey(t[outcome.id], job))
      && (!outcome.Created? ==> s == t)
  {
    if other :| other in t && SameKey(t[other], job) { assert IdempotencyKey(t[other]) == IdempotencyKey(job); }
    if other :| other in t && IdempotencyKey(t[other]) == IdempotencyKey(job) { assert SameKey(t[other], job); }
  }

  predicate SameKey(a: Job, b: Job) { a.domain == b.domain && a.operation == b.operation && a.key == b.key }

  /** A string is blank exactly if every character is white space. */
  lemma BlankIs(s: string)
    ensures Blank(s) <==> forall c :: c in s ==> c in {' ', '\t', '\n', '\U{0B}', '\U{0C}', '\r', '\U{85}', '\U{A0}'}
  {
    forall i | 0 <= i < |s| ensures s[i] in s {}
  }
}
