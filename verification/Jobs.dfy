/** The certificate_jobs table: every SQL statement is one atomic, guarded change. Bookkeeping columns
    (error text and time, requester, updated_at) are left out. Times are whole seconds. */
module Jobs {
  import opened Common

  datatype Status = Queued | Running | Succeeded | Failed | Cancelled

  datatype Job = Job(
    domain: string, operation: string, key: string, status: Status, attempts: int, maxAttempts: int,
    nextAt: Option<int>, owner: Option<string>, until: Option<int>, errorCode: Option<string>,
    createdAt: int, startedAt: Option<int>, finishedAt: Option<int>)

  type Table = map<string, Job>

  const SECOND := 1_000_000_000
  const EXHAUSTED := Some("attempts_exhausted")

  predicate Terminal(s: Status) { s == Succeeded || s == Failed || s == Cancelled }

  predicate Reached(time: Option<int>, now: int) { time.None? || time.value <= now }

  /** The condition shared by Claim and ListRecoverable. */
  predicate Due(job: Job, now: int) {
    && job.attempts < job.maxAttempts
    && ((job.status == Queued && Reached(job.nextAt, now)) || (job.status == Running && Reached(job.until, now)))
  }

  /** Running, out of attempts, and its lease has run out. */
  predicate Spent(job: Job, now: int) {
    job.status == Running && job.attempts >= job.maxAttempts && Reached(job.until, now)
  }

  function Coalesce(time: Option<int>, default: int): int { if time.Some? then time.value else default }

  /** ORDER BY COALESCE(next_attempt_at, created_at), created_at, id */
  predicate Precedes(t: Table, a: string, b: string)
    requires a in t && b in t
  {
    var (x, y) := (Coalesce(t[a].nextAt, t[a].createdAt), Coalesce(t[b].nextAt, t[b].createdAt));
    x < y || (x == y && (t[a].createdAt < t[b].createdAt || (t[a].createdAt == t[b].createdAt && LexLess(a, b))))
  }

  lemma PrecedesIsOrder(t: Table, a: string, b: string, c: string)
    requires a in t && b in t && c in t
    ensures !Precedes(t, a, a)
    ensures Precedes(t, a, b) && Precedes(t, b, c) ==> Precedes(t, a, c)
    ensures a != b ==> Precedes(t, a, b) || Precedes(t, b, a)
  {
    LexIrreflexive(a);
    LexConnected(a, b);
    if LexLess(a, b) && LexLess(b, c) { LexTransitive(a, b, c); }
  }

  /** The due job that comes before every other due job. */
  ghost predicate IsHead(t: Table, now: int, id: string) {
    id in t && Due(t[id], now) && forall other :: other in t && other != id && Due(t[other], now) ==>
      Precedes(t, id, other)
  }

  ghost predicate NothingDue(t: Table, now: int) { forall id :: id in t ==> !Due(t[id], now) }

  // ---- the statements ----

  function ExpireJob(job: Job, now: int): Job {
    if Spent(job, now) then job.(status := Failed, owner := None, until := None, errorCode := EXHAUSTED,
      finishedAt := Some(now))
    else job
  }

  /** The first statement of Claim. */
  function Expire(t: Table, now: int): Table { map id | id in t :: ExpireJob(t[id], now) }

  function ClaimedJob(job: Job, owner: string, now: int, until: int): Job {
    job.(status := Running, attempts := job.attempts + 1, owner := Some(owner), until := Some(until), nextAt := None,
         startedAt := Some(Coalesce(job.startedAt, now)))
  }

  predicate Leased(t: Table, id: string, owner: string, now: int) {
    id in t && t[id].status == Running && t[id].owner == Some(owner) && t[id].until.Some? && t[id].until.value > now
  }

  function Renew(t: Table, id: string, owner: string, now: int, until: int): (Table, bool) {
    if Leased(t, id, owner, now) then (t[id := t[id].(until := Some(until))], true) else (t, false)
  }

  function Requeued(job: Job, nextAt: int, now: int): Job {
    if job.attempts >= job.maxAttempts
    then job.(status := Failed, owner := None, until := None, nextAt := None, finishedAt := Some(now))
    else job.(status := Queued, owner := None, until := None, nextAt := Some(nextAt), finishedAt := None)
  }

  function Release(t: Table, id: string, owner: string, now: int): (Table, bool) {
    if !Leased(t, id, owner, now) then (t, false)
    else
      var job := Requeued(t[id], now, now);
      (t[id := if job.status == Failed then job.(errorCode := EXHAUSTED) else job], true)
  }

  /** retryAt; refuses a time in the past. */
  function Retry(t: Table, id: string, owner: string, code: string, nextAt: int, now: int): (Table, bool) {
    if nextAt < now || !Leased(t, id, owner, now) then (t, false)
    else (t[id := Requeued(t[id], nextAt, now).(errorCode := if code == "" then None else Some(code))], true)
  }

  /** UpdateCertificateJobStatus: not guarded by any lease. */
  function SetStatus(t: Table, id: string, status: Status, now: int): (Table, bool) {
    if id !in t then (t, false)
    else
      var job := t[id];
      var moved := job.(status := status,
        startedAt := if job.startedAt.Some? then job.startedAt else if status == Running then Some(now) else None,
        finishedAt := if Terminal(status) then Some(now) else None);
      (t[id := if Terminal(status) then moved.(owner := None, until := None, nextAt := None) else moved], true)
  }

  function IdempotencyKey(job: Job): (string, string, string) { (job.domain, job.operation, job.key) }

  /** The unique index of the table. */
  ghost predicate KeysAreUnique(t: Table) {
    forall a, b :: a in t && b in t && IdempotencyKey(t[a]) == IdempotencyKey(t[b]) ==> a == b
  }

  const DEFAULT_ATTEMPTS := 3

  function WithDefaults(job: Job): Job {
    if job.maxAttempts == 0 then job.(maxAttempts := DEFAULT_ATTEMPTS) else job
  }

  predicate Creatable(job: Job) {
    && !Blank(job.operation) && !Blank(job.key)
    && 1 <= WithDefaults(job).maxAttempts && 0 <= job.attempts <= WithDefaults(job).maxAttempts
  }

  datatype Creation = Created(id: string) | Existing(id: string) | Rejected

  /** INSERT, or the job that already has the same domain, operation and key. */
  ghost function Create(t: Table, id: string, job: Job): (Table, Creation) {
    if !Creatable(job) then (t, Rejected)
    else if exists other :: other in t && IdempotencyKey(t[other]) == IdempotencyKey(job) then
      var other :| other in t && IdempotencyKey(t[other]) == IdempotencyKey(job);
      (t, Existing(other))
    else if id in t then (t, Rejected)
    else (t[id := WithDefaults(job)], Created(id))
  }

  /** durationSeconds: whole seconds, rounded up. */
  function Seconds(duration: int): (r: int)
    requires duration > 0
    ensures (r - 1) * SECOND < duration <= r * SECOND
  {
    var seconds := duration / SECOND;
    if duration % SECOND != 0 || seconds < 1 then seconds + 1 else seconds
  }

  /** A string of white space only, which the code treats as missing. */
  predicate Blank(s: string) {
    forall i :: 0 <= i < |s| ==> s[i] == ' ' || '\t' <= s[i] <= '\r' || s[i] == '\U{85}' || s[i] == '\U{A0}'
  }
}
