/** The service object: it drives the certificate store, the generations table and the jobs table. */
module ServiceStore {
  import opened Common
  import opened FileTree
  import opened ServiceRuns
  import opened CertStore
  import Runs = CertRuns
  import G = Generations
  import J = Jobs

  class Service {
    const domain: string
    const files: Store
    var gens: G.Table
    var jobs: J.Table
    ghost var seen: seq<World>

    ghost function Path(): Path
      reads this, files
    {
      ServiceRuns.Path(World(files.tree, gens, jobs), seen)
    }

    constructor (domain: string, files: Store, gens: G.Table, jobs: J.Table)
      requires files.domain == domain
      ensures this.domain == domain && this.files == files && this.gens == gens && this.jobs == jobs
    {
      this.domain, this.files, this.gens, this.jobs := domain, files, gens, jobs;
      seen := [];
    }

    method SetGens(gens: G.Table)
      modifies this
      ensures Path() == ServiceRuns.SetGens(old(Path()), gens)
    {
      this.gens := gens;
      seen := seen + [World(files.tree, gens, jobs)];
    }

    method SetJobs(jobs: J.Table)
      modifies this
      ensures Path() == ServiceRuns.SetJobs(old(Path()), jobs)
    {
      this.jobs := jobs;
      seen := seen + [World(files.tree, gens, jobs)];
    }

    method FailRow(id: nat, faults: set<Fault>)
      modifies this
      ensures Path() == ServiceRuns.FailRow(old(Path()), id, faults)
    {
      if MarkFailed(id) !in faults { SetGens(G.SetStatus(gens, id, G.Failed, "").0); }
    }

    method SetJobStatus(input: Input, status: J.Status, faults: set<Fault>)
      modifies this
      ensures Path() == ServiceRuns.SetJobStatus(old(Path()), input, status, faults)
    {
      if SetJob !in faults { SetJobs(J.SetStatus(jobs, input.job, status, input.now).0); }
    }

    method FinishFailure(input: Input, row: Option<nat>, faults: set<Fault>)
      modifies this
      ensures Path() == ServiceRuns.FinishFailure(old(Path()), input, row, faults)
    {
      if row.Some? { FailRow(row.value, faults); }
      if SetJob !in faults {
        if input.retryable {
          SetJobs(J.Retry(jobs, input.job, input.owner, "retryable", input.now + RETRY_DELAY, input.now).0);
        } else {
          SetJobStatus(input, J.Failed, faults);
        }
      }
    }

    method Finalize(input: Input, id: nat, gen: Id, m: Manifest, faults: set<Fault>) returns (ok: bool)
      modifies this
      ensures (Path(), ok) == ServiceRuns.Finalize(old(Path()), input, id, gen, m, faults)
    {
      var (marked, done) := G.SetStatus(gens, id, G.Issued, Ref(gen));
      if MarkIssued(id) in faults || !done { return false; }
      SetGens(marked);
      var (final, written) := G.SetArtifact(gens, id, ArtifactOf(input, m));
      if WriteArtifact(id) in faults || !written { return false; }
      SetGens(final);
      ok := true;
    }

    /** recoverPublishingGeneration */
    method RecoverPublishing(input: Input, faults: set<Fault>) returns (result: Recovery)
      requires files.domain == domain
      modifies this
      ensures (Path(), result) == Recover(files.pki, domain, old(Path()), input, input.listing, faults)
    {
      ghost var start := Path();
      assert input.listing[0..] == input.listing;
      for i := 0 to |input.listing|
        invariant files.tree == old(files.tree)
        invariant Recover(files.pki, domain, start, input, input.listing, faults)
               == Recover(files.pki, domain, Path(), input, input.listing[i..], faults)
      {
        var id := input.listing[i];
        assert input.listing[i..][1..] == input.listing[i + 1..];
        if id in gens.rows && gens.rows[id].status == G.Publishing {
          var current := ReadCurrent(files.pki, domain, files.tree);
          if ReadFiles(id) in faults || !current.Reading? {
            FailRow(id, faults);
          } else {
            var ok := Finalize(input, id, current.gen, current.loaded.manifest, faults);
            return if ok then Finalized(id) else RecoveryFailed;
          }
        }
      }
      result := NothingLeft;
    }

    /** MAX(generation) */
    method MaxGeneration() returns (top: int)
      ensures top == Top(gens, domain)
    {
      top := 0;
      var numbers: set<int> := {};
      var rest := gens.rows.Keys;
      while rest != {}
        invariant rest <= gens.rows.Keys
        invariant numbers == set a | a in gens.rows && a !in rest
          && gens.rows[a].domain == domain :: gens.rows[a].generation
        invariant top == Runs.SetMax(numbers)
        decreases |rest|
      {
        var a :| a in rest;
        rest := rest - {a};
        if gens.rows[a].domain == domain {
          var g := gens.rows[a].generation;
          if numbers == {} || g > top { top := g; }
          numbers := numbers + {g};
        }
      }
      assert numbers == set a | a in gens.rows && gens.rows[a].domain == domain :: gens.rows[a].generation;
    }

    method PublishRow(input: Input, id: nat, faults: set<Fault>) returns (outcome: Outcome)
      requires files.domain == domain
      modifies this, files
      ensures (Path(), outcome) == ServiceRuns.PublishRow(files.pki, domain, old(Path()), input, id, faults)
    {
      var gen, manifest := files.Publish(input.publish, input.steps);
      seen := AfterPublish(old(Path()), files.Disk(true)).seen;
      var published := ReadByName(files.pki, domain, files.tree, gen);
      if manifest.None? || LoadPublished in faults || !published.Reading? {
        FinishFailure(input, Some(id), faults);
        return Errored;
      }
      var ok := Finalize(input, id, gen, published.loaded.manifest, faults);
      if !ok {
        FinishFailure(input, Some(id), faults);
        return Errored;
      }
      if SetJob in faults || input.job !in jobs { return Errored; }
      SetJobStatus(input, J.Succeeded, faults);
      outcome := Published;
    }

    method IssueRow(input: Input, faults: set<Fault>) returns (outcome: Outcome)
      requires files.domain == domain
      modifies this, files
      ensures (Path(), outcome) == ServiceRuns.IssueRow(files.pki, domain, old(Path()), input, faults)
    {
      var top := MaxGeneration();
      var (created, row) := G.Create(gens, Domains(jobs), NewRow(input, domain), top);
      if CreateRow in faults || row.None? {
        FinishFailure(input, None, faults);
        return Errored;
      }
      SetGens(created);
      if PrepareIssue in faults || !input.issued || MarkPublishing in faults {
        FinishFailure(input, row, faults);
        return Errored;
      }
      SetGens(G.SetStatus(gens, row.value, G.Publishing, "").0);
      outcome := PublishRow(input, row.value, faults);
    }

    /** executeClaimedV2Job */
    method Execute(input: Input, faults: set<Fault>) returns (outcome: Outcome)
      requires files.domain == domain
      modifies this, files
      ensures (Path(), outcome) == ServiceRuns.Execute(files.pki, domain, old(World(files.tree, gens, jobs)), input,
        faults)
    {
      seen := [World(files.tree, gens, jobs)];
      var current := ReadCurrent(files.pki, domain, files.tree);
      if ReadPreset in faults || ReadState in faults || current.Refused?
        || (current.Reading? && input.notDue(current.loaded).None?) {
        FinishFailure(input, None, faults);
        return Errored;
      }
      if !input.forced && current.Reading? && input.notDue(current.loaded) == Some(true) {
        SetJobStatus(input, J.Succeeded, faults);
        return NotDue;
      }
      if ListRows in faults {
        SetJobStatus(input, J.Failed, faults);
        return Errored;
      }
      var recovery := RecoverPublishing(input, faults);
      if recovery.RecoveryFailed? {
        SetJobStatus(input, J.Failed, faults);
        return Errored;
      }
      if recovery.Finalized? {
        SetJobStatus(input, J.Succeeded, faults);
        return Recovered;
      }
      outcome := IssueRow(input, faults);
    }
  }
}
