/** What the steps of workers do to the job board and to their executions, field by field. */
module LeaseEffects {
  import opened Common
  import opened Backoff
  import opened Leases
  import opened LeaseProtocol

  /** Every job but `id` is as it was, in the same place. */
  ghost predicate OthersStay(b: Board, c: Board, id: nat) {
    && c.order == b.order && c.keys == b.keys && c.next == b.next && c.jobs.Keys == b.jobs.Keys
    && forall other :: other in b.jobs && other != id ==> c.jobs[other] == b.jobs[other]
  }

  /** What a job keeps from its creation on. */
  predicate SameJob(a: Job, b: Job) {
    a.domain == b.domain && a.key == b.key && a.maxAttempts == b.maxAttempts
  }

  /** The job can be taken: it waits and its time has come, or it runs and its lease has run out. */
  predicate Ready(job: Job, now: int) {
    || ((job.status == Queued || job.status == Retrying) && (job.availableAt.Some? ==> job.availableAt.value <= now))
    || (job.status == Running && (job.expiresAt.Some? ==> job.expiresAt.value <= now))
  }

  /** The job runs, and its lease has not run out. */
  predicate Leased(job: Job, now: int) { job.status == Running && job.expiresAt.Some? && now < job.expiresAt.value }

  ghost predicate Takeable(b: Board, id: nat, now: int) {
    && id in b.jobs && Ready(b.jobs[id], now)
    && forall other :: other in b.jobs && other != id && b.jobs[other].domain == b.jobs[id].domain ==>
         !Leased(b.jobs[other], now)
  }

  lemma TakeableIsClaimable(b: Board, id: nat, now: int)
    ensures Takeable(b, id, now) <==> Claimable(b, id, now)
  {
  }

  // ---- calls ----

  /** A domain and key that were never used make a job, queued and untried; used ones name theirs. */
  lemma CreateEffect(b: Board, domain: string, key: string, maxAttempts: int, createdAt: int)
    ensures var (c, id, created) := Create(b, domain, key, maxAttempts, createdAt);
      && (created <==> (domain, key) !in b.keys)
      && (!created ==> c == b && id == b.keys[(domain, key)])
      && (created ==>
            && id == b.next + 1 && c.next == id && c.order == b.order + [id] && id in c.jobs
            && c.jobs.Keys == b.jobs.Keys + {id} && c.keys == b.keys[(domain, key) := id]
            && (forall other :: other in b.jobs && other != id ==> c.jobs[other] == b.jobs[other])
            && c.jobs[id] == Job(domain, key, Queued, 0, maxAttempts, Some(createdAt), "", 0, None, "", ""))
  {
  }

  /** The first job that can be taken runs for this owner until this time, with one attempt and one version more;
      without one nothing changes. */
  lemma ClaimEffect(b: Board, owner: string, now: int, until: int) returns (at: nat)
    ensures at <= |b.order| && forall i :: 0 <= i < at ==> !Takeable(b, b.order[i], now)
    ensures var (c, claimed) := Claim(b, owner, now, until);
      && (claimed.Some? <==> at < |b.order|)
      && (claimed.None? ==> c == b)
      && (claimed.Some? ==>
            && claimed.value == b.order[at] && Takeable(b, claimed.value, now) && OthersStay(b, c, claimed.value)
            && TakenBy(b.jobs[claimed.value], c.jobs[claimed.value], owner, until))
  {
    at := FirstClaimableIsFirst(b, b.order, now);
    forall i | 0 <= i < |b.order|
      ensures Takeable(b, b.order[i], now) <==> Claimable(b, b.order[i], now)
    {
      TakeableIsClaimable(b, b.order[i], now);
    }
  }

  predicate TakenBy(a: Job, b: Job, owner: string, until: int) {
    && SameJob(a, b) && b.status == Running && b.owner == owner && b.expiresAt == Some(until)
    && b.attempts == a.attempts + 1 && b.version == a.version + 1
    && b.availableAt == a.availableAt && b.lastError == a.lastError && b.result == a.result
  }

  /** The caller holds the lease, at the version it names. */
  predicate HeldBy(b: Board, id: nat, owner: string, version: nat, now: int) {
    id in b.jobs && Leased(b.jobs[id], now) && b.jobs[id].owner == owner && b.jobs[id].version == version
  }

  /** The holder's renewal moves the expiry and raises the version; anybody else's is refused. */
  lemma RenewEffect(b: Board, id: nat, owner: string, now: int, version: nat, until: int)
    ensures var (c, newVersion, ok) := Renew(b, id, owner, now, version, until);
      && (ok <==> HeldBy(b, id, owner, version, now))
      && (!ok ==> c == b && newVersion == version)
      && (ok ==>
            && OthersStay(b, c, id) && newVersion == version + 1
            && c.jobs[id].version == newVersion && c.jobs[id].expiresAt == Some(until)
            && c.jobs[id].(version := version, expiresAt := b.jobs[id].expiresAt) == b.jobs[id])
  {
    if HeldBy(b, id, owner, version, now) {
      var (c, _, _) := Renew(b, id, owner, now, version, until);
      assert c.jobs[id].(version := version, expiresAt := b.jobs[id].expiresAt) == b.jobs[id];
    }
  }

  /** The holder's update stores what it says and ends the lease; anybody else's is refused. */
  lemma UpdateEffect(b: Board, u: JobUpdate)
    ensures var (c, ok) := Update(b, u);
      && (ok <==> HeldBy(b, u.id, u.owner, u.version, u.now))
      && (!ok ==> c == b)
      && (ok ==>
            && OthersStay(b, c, u.id) && Freed(b.jobs[u.id], c.jobs[u.id])
            && c.jobs[u.id].status == u.status && c.jobs[u.id].availableAt == u.availableAt
            && c.jobs[u.id].lastError == u.lastError && c.jobs[u.id].result == u.result)
  {
  }

  /** The lease is gone; version and attempts stay. */
  predicate Freed(a: Job, b: Job) {
    SameJob(a, b) && b.owner == "" && b.expiresAt == None && b.version == a.version && b.attempts == a.attempts
  }

  // ---- steps ----

  /** Every execution but `run` is as it was. */
  predicate OtherRunsStay(w: World, v: World, run: nat) {
    |v.runs| == |w.runs| && forall i :: 0 <= i < |w.runs| && i != run ==> v.runs[i] == w.runs[i]
  }

  lemma CreatingEffect(cfg: Config, w: World, step: Step)
    requires step.Creating?
    ensures var v := Next(cfg, w, step);
      && v.runs == w.runs && v.log == w.log
      && (step.fate.Unsent? ==> v.board == w.board)
      && (!step.fate.Unsent? ==> v.board == Create(w.board, step.domain, step.key, cfg.maxAttempts, step.at).0)
  {
  }

  /** A claim that arrives is logged with the version it grants; the worker learns of it if the answer arrives. */
  lemma ClaimingEffect(cfg: Config, w: World, step: Step)
    requires step.Claiming?
    ensures var v := Next(cfg, w, step);
      var (board, claimed) := Claim(w.board, step.owner, step.at, step.at + cfg.leaseDuration);
      && (step.fate.Unsent? || claimed.None? ==> v == w)
      && (!step.fate.Unsent? && claimed.Some? ==>
            && claimed.value in w.board.jobs && v.board == board
            && v.log == w.log + [Grant(claimed.value, w.board.jobs[claimed.value].version + 1, true)]
            && (step.fate.Lost? ==> v.runs == w.runs)
            && (step.fate.Answered? ==>
                  && |v.runs| == |w.runs| + 1 && v.runs[..|w.runs|] == w.runs
                  && var (e, job) := (v.runs[|w.runs|], w.board.jobs[claimed.value]);
                  && e.job == claimed.value && e.owner == step.owner && e.version == job.version + 1
                  && e.attempts == job.attempts + 1 && e.maxAttempts == job.maxAttempts && e.phase == Working
                  && e.born == |w.log|))
  {
  }

  /** Only a working execution renews. It goes on working, with the new version, exactly if the renewal is accepted
      and the answer arrives. */
  lemma RenewingEffect(cfg: Config, w: World, step: Step)
    requires step.Renewing? && step.run < |w.runs|
    ensures var (v, e) := (Next(cfg, w, step), w.runs[step.run]);
      var f := if step.run < |v.runs| then v.runs[step.run] else e;
      var accepted := !step.fate.Unsent? && HeldBy(w.board, e.job, e.owner, e.version, step.at);
      && (!e.phase.Working? ==> v == w)
      && (e.phase.Working? ==>
            && OtherRunsStay(w, v, step.run)
            && f.phase == (if accepted && step.fate.Answered? then Working else LeaseLost)
            && f.version == (if accepted && step.fate.Answered? then e.version + 1 else e.version)
            && f.(phase := e.phase, version := e.version) == e
            && (!accepted ==> v.board == w.board && v.log == w.log)
            && (accepted ==>
                  && v.board == Renew(w.board, e.job, e.owner, step.at, e.version, step.at + cfg.leaseDuration).0
                  && v.log == w.log + [Grant(e.job, e.version + 1, false)]))
  {
    var (v, e) := (Next(cfg, w, step), w.runs[step.run]);
    RenewEffect(w.board, e.job, e.owner, step.at, e.version, step.at + cfg.leaseDuration);
    if e.phase.Working? {
      var f := v.runs[step.run];
      assert f.(phase := e.phase, version := e.version) == e;
    }
  }

  /** The last update is applied exactly if one is sent and arrives from the holder of the lease. */
  predicate Applies(w: World, step: Step)
    requires step.Finishing? && step.run < |w.runs|
  {
    var e := w.runs[step.run];
    && (e.phase.Working? || (e.phase.LeaseLost? && step.ending.Canceled?)) && !step.fate.Unsent?
    && HeldBy(w.board, e.job, e.owner, e.version, step.at)
  }

  /** The attempts that a job may have, and whether the failure may be tried again. */
  predicate TriesAgain(cfg: Config, e: Execution, kind: ErrorClass) {
    kind != Permanent && if e.maxAttempts > 0 then e.attempts < e.maxAttempts else e.attempts < cfg.maxAttempts
  }

  /** What an applied update leaves: success with the result; a failure that is tried again after the delay, or that
      is final, with the message; or, when the worker was told to stop, a job queued from now on, with the cause. */
  lemma FinishingEffect(cfg: Config, w: World, step: Step)
    requires step.Finishing? && step.run < |w.runs|
    ensures var (v, e) := (Next(cfg, w, step), w.runs[step.run]);
      && OtherRunsStay(w, v, step.run) && v.runs[step.run] == e.(phase := Ended)
      && (|v.log| > |w.log| <==> Applies(w, step))
      && (!Applies(w, step) ==> v.board == w.board && v.log == w.log)
      && (Applies(w, step) ==>
            && OthersStay(w.board, v.board, e.job) && Freed(w.board.jobs[e.job], v.board.jobs[e.job])
            && v.log == w.log + [Settle(e.job, e.version, step.run, v.board.jobs[e.job].status)]
            && EndsAs(cfg, e, step.ending, step.later, v.board.jobs[e.job]))
  {
    var e := w.runs[step.run];
    var update := LastUpdate(cfg, e, step.ending, step.at, step.later);
    if update.Some? { UpdateEffect(w.board, update.value); }
  }

  /** The job as the ending leaves it. */
  predicate EndsAs(cfg: Config, e: Execution, ending: Ending, later: int, job: Job) {
    match ending
    case Succeeds(result) =>
      job.status == Succeeded && job.result == result && job.lastError == "" && job.availableAt == None
    case Fails(kind, message) =>
      && job.lastError == message && job.result == ""
      && (TriesAgain(cfg, e, kind) ==>
            job.status == Retrying && job.availableAt == Some(later + Delay(cfg.initial, cfg.max, e.attempts)))
      && (!TriesAgain(cfg, e, kind) ==> job.status == Failed && job.availableAt == None)
    case Canceled(cause) =>
      job.status == Queued && job.availableAt == Some(later) && job.lastError == cause && job.result == ""
  }
}
