/** How a run leaves the job that it was started for, and the row that it was issuing. */
module ServiceEndings {
  import opened Common
  import opened FileTree
  import opened ServiceRuns
  import opened GenerationEffects
  import Runs = CertRuns
  import Effects = JobEffects
  import G = Generations
  import J = Jobs

  // ---- the stores that a step leaves alone ----

  /** The jobs table is as at the start in every world seen before the last. */
  ghost predicate JobsUntouched(p: Path, jobs: J.Table) {
    p.seen != [] && forall i :: 0 <= i < |p.seen| - 1 ==> p.seen[i].jobs == jobs
  }

  /** No step so far has changed the jobs table. */
  ghost predicate JobsAt(p: Path, jobs: J.Table) {
    p.world.jobs == jobs && p.seen != [] && forall i :: 0 <= i < |p.seen| ==> p.seen[i].jobs == jobs
  }

  lemma SetGensKeepsJobs(p: Path, gens: G.Table, jobs: J.Table)
    requires JobsAt(p, jobs)
    ensures JobsAt(SetGens(p, gens), jobs)
  {
  }

  lemma FailRowKeepsJobs(p: Path, id: nat, faults: set<Fault>, jobs: J.Table)
    requires JobsAt(p, jobs)
    ensures JobsAt(FailRow(p, id, faults), jobs)
  {
  }

  lemma FinalizeKeepsJobs(p: Path, input: Input, id: nat, gen: Id, m: Manifest, faults: set<Fault>, jobs: J.Table)
    requires JobsAt(p, jobs)
    ensures JobsAt(Finalize(p, input, id, gen, m, faults).0, jobs)
  {
    var gens := G.SetStatus(p.world.gens, id, G.Issued, Ref(gen)).0;
    SetGensKeepsJobs(p, gens, jobs);
    SetGensKeepsJobs(SetGens(p, gens), G.SetArtifact(gens, id, ArtifactOf(input, m)).0, jobs);
  }

  lemma {:induction false} RecoverKeepsJobs(pki: Pki, domain: string, p: Path, input: Input, rows: seq<nat>,
                                            faults: set<Fault>, jobs: J.Table)
    requires JobsAt(p, jobs)
    ensures JobsAt(Recover(pki, domain, p, input, rows, faults).0, jobs)
    decreases |rows|
  {
    if rows != [] {
      var id := rows[0];
      var current := ReadCurrent(pki, domain, p.world.tree);
      FailRowKeepsJobs(p, id, faults, jobs);
      RecoverKeepsJobs(pki, domain, p, input, rows[1..], faults, jobs);
      RecoverKeepsJobs(pki, domain, FailRow(p, id, faults), input, rows[1..], faults, jobs);
      if current.Reading? { FinalizeKeepsJobs(p, input, id, current.gen, current.loaded.manifest, faults, jobs); }
    }
  }

  lemma AfterPublishKeepsJobs(p: Path, disk: Runs.Io, jobs: J.Table)
    requires JobsAt(p, jobs)
    ensures JobsAt(AfterPublish(p, disk), jobs)
  {
  }

  // ---- the job's row ----

  /** The job has ended in this status. */
  predicate Concluded(a: J.Job, b: J.Job, status: J.Status, now: int) {
    && Effects.SameJob(a, b) && b.attempts == a.attempts && b.errorCode == a.errorCode && b.startedAt == a.startedAt
    && b.status == status && b.owner == None && b.until == None && b.nextAt == None && b.finishedAt == Some(now)
  }

  /** A failure worth a retry gives the job back for a minute from now, if the lease is still held; any other
      failure ends the job. */
  ghost predicate Failing(t: J.Table, input: Input, b: J.Job)
    requires input.job in t
  {
    var a := t[input.job];
    if !input.retryable then Concluded(a, b, J.Failed, input.now)
    else if !Effects.HeldBy(t, input.job, input.owner, input.now) then b == a
    else Effects.GivenBack(a, b, input.now + 60, input.now) && b.errorCode == Some("retryable")
  }

  /** One last statement has been issued on the jobs table, and it touched only this job. */
  ghost predicate LastTouched(p: Path, jobs: J.Table, id: string) {
    JobsUntouched(p, jobs) && p.seen[|p.seen| - 1] == p.world && Effects.OthersStay(jobs, p.world.jobs, id)
  }

  lemma ConcludeJob(p: Path, input: Input, status: J.Status, faults: set<Fault>, jobs: J.Table)
    requires JobsAt(p, jobs) && (status == J.Succeeded || status == J.Failed)
    ensures var q := SetJobStatus(p, input, status, faults);
      && (SetJob in faults || input.job !in jobs ==> q.world.jobs == jobs && JobsAt(q, jobs))
      && (SetJob !in faults && input.job in jobs ==>
           LastTouched(q, jobs, input.job)
           && Concluded(jobs[input.job], q.world.jobs[input.job], status, input.now))
  {
    Effects.SetEffect(jobs, input.job, status, input.now);
  }

  lemma RetryJob(q: Path, input: Input, jobs: J.Table)
    requires JobsAt(q, jobs) && input.retryable
    ensures var r := SetJobs(q, J.Retry(q.world.jobs, input.job, input.owner, "retryable", input.now + RETRY_DELAY,
                                        input.now).0);
      && (input.job !in jobs ==> r.world.jobs == jobs && JobsAt(r, jobs))
      && (input.job in jobs ==> LastTouched(r, jobs, input.job) && Failing(jobs, input, r.world.jobs[input.job]))
  {
    Effects.RetryEffect(jobs, input.job, input.owner, "retryable", input.now + 60, input.now);
  }

  lemma FailJob(p: Path, input: Input, row: Option<nat>, faults: set<Fault>, jobs: J.Table)
    requires JobsAt(p, jobs)
    ensures var q := FinishFailure(p, input, row, faults);
      && (SetJob in faults || input.job !in jobs ==> q.world.jobs == jobs && JobsAt(q, jobs))
      && (SetJob !in faults && input.job in jobs ==>
           LastTouched(q, jobs, input.job) && Failing(jobs, input, q.world.jobs[input.job]))
  {
    var q := if row.Some? then FailRow(p, row.value, faults) else p;
    if row.Some? { FailRowKeepsJobs(p, row.value, faults, jobs); }
    if input.retryable { RetryJob(q, input, jobs); } else { ConcludeJob(q, input, J.Failed, faults, jobs); }
    hide JobsAt, LastTouched, Concluded, FailRow, SetJobs, SetJobStatus, J.Retry, Effects.GivenBack, Effects.HeldBy;
  }

  /** The ways in which a run can end, on the job's row. */
  ghost predicate EndsJob(p: Path, outcome: Outcome, stopped: bool, input: Input, faults: set<Fault>, jobs: J.Table) {
    && (SetJob in faults || input.job !in jobs ==> p.world.jobs == jobs && JobsAt(p, jobs))
    && (SetJob !in faults && input.job in jobs ==>
          && LastTouched(p, jobs, input.job)
          && var (a, b) := (jobs[input.job], p.world.jobs[input.job]);
          if !outcome.Errored? then Concluded(a, b, J.Succeeded, input.now)
          else if stopped then Concluded(a, b, J.Failed, input.now)
          else Failing(jobs, input, b))
  }

  lemma Untouched(w: World)
    ensures JobsAt(Path(w, [w]), w.jobs)
  {
  }

  lemma ConclusionEndsJob(p: Path, outcome: Outcome, stopped: bool, input: Input, faults: set<Fault>, jobs: J.Table)
    requires JobsAt(p, jobs) && (outcome.Errored? ==> stopped)
    ensures EndsJob(SetJobStatus(p, input, if outcome.Errored? then J.Failed else J.Succeeded, faults), outcome,
      stopped,
              input, faults, jobs)
  {
    ConcludeJob(p, input, if outcome.Errored? then J.Failed else J.Succeeded, faults, jobs);
  }

  lemma FailureEndsJob(p: Path, input: Input, row: Option<nat>, faults: set<Fault>, jobs: J.Table)
    requires JobsAt(p, jobs)
    ensures EndsJob(FinishFailure(p, input, row, faults), Errored, false, input, faults, jobs)
  {
    FailJob(p, input, row, faults, jobs);
  }

  lemma PublishRowEndsJob(pki: Pki, domain: string, p: Path, input: Input, id: nat, faults: set<Fault>, jobs: J.Table)
    requires JobsAt(p, jobs)
    ensures var (q, outcome) := PublishRow(pki, domain, p, input, id, faults);
      EndsJob(q, outcome, false, input, faults, jobs)
  {
    hide EndsJob, JobsAt, Runs.Publish, Finalize, FinishFailure, SetJobStatus, AfterPublish, ReadByName;
    var out := Runs.Publish(pki, domain, p.world.tree, input.publish, input.steps);
    var q := AfterPublish(p, out.disk);
    AfterPublishKeepsJobs(p, out.disk, jobs);
    FailureEndsJob(q, input, Some(id), faults, jobs);
    var published := ReadByName(pki, domain, q.world.tree, out.gen);
    if published.Reading? {
      var (final, ok) := Finalize(q, input, id, out.gen, published.loaded.manifest, faults);
      FinalizeKeepsJobs(q, input, id, out.gen, published.loaded.manifest, faults, jobs);
      FailureEndsJob(final, input, Some(id), faults, jobs);
      ConclusionEndsJob(final, Published, false, input, faults, jobs);
      if SetJob in faults || input.job !in final.world.jobs { NothingIssued(final, input, faults, jobs); }
    }
  }

  /** Success that cannot be recorded is reported as an error and leaves the job as it was. */
  lemma NothingIssued(p: Path, input: Input, faults: set<Fault>, jobs: J.Table)
    requires JobsAt(p, jobs) && (SetJob in faults || input.job !in p.world.jobs)
    ensures EndsJob(p, Errored, false, input, faults, jobs)
  {
  }

  lemma IssueRowEndsJob(pki: Pki, domain: string, p: Path, input: Input, faults: set<Fault>, jobs: J.Table)
    requires JobsAt(p, jobs)
    ensures var (q, outcome) := IssueRow(pki, domain, p, input, faults);
      EndsJob(q, outcome, false, input, faults, jobs)
  {
    hide EndsJob, JobsAt, PublishRow, G.Create, FinishFailure, SetGens, G.SetStatus;
    var (gens, row) := G.Create(p.world.gens, Domains(p.world.jobs), NewRow(input, domain), Top(p.world.gens, domain));
    FailureEndsJob(p, input, None, faults, jobs);
    if row.Some? {
      var created := SetGens(p, gens);
      SetGensKeepsJobs(p, gens, jobs);
      FailureEndsJob(created, input, row, faults, jobs);
      var marked := G.SetStatus(gens, row.value, G.Publishing, "").0;
      SetGensKeepsJobs(created, marked, jobs);
      PublishRowEndsJob(pki, domain, SetGens(created, marked), input, row.value, faults, jobs);
    }
  }

  /** The checks at the start of a run fail. */
  ghost predicate Unreadable(pki: Pki, domain: string, w: World, input: Input, faults: set<Fault>) {
    var current := ReadCurrent(pki, domain, w.tree);
    || ReadPreset in faults || ReadState in faults || current.Refused?
    || (current.Reading? && input.notDue(current.loaded).None?)
  }

  /** The run stops at recovery: the rows cannot be listed, or a row that takes over the current release cannot be
      recorded. */
  ghost predicate StopsAtRecovery(pki: Pki, domain: string, w: World, input: Input, faults: set<Fault>) {
    && !Unreadable(pki, domain, w, input, faults)
    && (ListRows in faults || Recover(pki, domain, Path(w, [w]), input, input.listing, faults).1.RecoveryFailed?)
  }

  /** How a run ends the job. A run that finds the certificate not due, recovers or publishes ends it as succeeded.
      One that stops at recovery ends it as failed. Any other failure gives it back for a minute from now, or ends
      it, or leaves it to whoever holds its lease. All of that is the last step of the run. */
  lemma RunEndsJob(pki: Pki, domain: string, w: World, input: Input, faults: set<Fault>)
    ensures var (p, outcome) := Execute(pki, domain, w, input, faults);
      EndsJob(p, outcome, StopsAtRecovery(pki, domain, w, input, faults), input, faults, w.jobs)
  {
    hide EndsJob, JobsAt, Recover, IssueRow, FinishFailure, SetJobStatus, ReadCurrent;
    var p := Path(w, [w]);
    Untouched(w);
    var stops := StopsAtRecovery(pki, domain, w, input, faults);
    if Unreadable(pki, domain, w, input, faults) {
      FailureEndsJob(p, input, None, faults, w.jobs);
    } else {
      var (q, recovery) := Recover(pki, domain, p, input, input.listing, faults);
      RecoverKeepsJobs(pki, domain, p, input, input.listing, faults, w.jobs);
      ConclusionEndsJob(p, NotDue, stops, input, faults, w.jobs);
      ConclusionEndsJob(p, Errored, true, input, faults, w.jobs);
      ConclusionEndsJob(q, Recovered, stops, input, faults, w.jobs);
      ConclusionEndsJob(q, Errored, true, input, faults, w.jobs);
      IssueRowEndsJob(pki, domain, q, input, faults, w.jobs);
    }
  }
}
