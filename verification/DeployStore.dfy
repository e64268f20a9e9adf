/** The deployer as the object that changes the output directory step by step; each method takes exactly the
    run that DeployRuns describes. */
module DeployStore {
  import opened Common
  import opened FileTree
  import Runs = DeployRuns

  class Deployer {
    const pki: Pki
    var out: Runs.Out
    ghost var trace: seq<Runs.Out>

    constructor (pki: Pki, out: Runs.Out)
      ensures this.pki == pki && this.out == out && trace == [out]
    {
      this.pki, this.out := pki, out;
      trace := [out];
    }

    ghost function Disk(ok: bool): Runs.Io
      reads this
    {
      Runs.Io(out, trace, ok)
    }

    /** One file operation: it fails and changes nothing, or happens at once. */
    method Do(step: Runs.Step, faults: set<Runs.Step>, next: Runs.Out) returns (ok: bool)
      modifies this
      ensures Disk(ok) == Runs.Do(old(Disk(true)), step, faults, next)
      ensures forall before :: Disk(before) == Runs.Attempt(old(Disk(before)), step, faults, next)
    {
      ok := step !in faults;
      if ok {
        out := next;
        trace := trace + [next];
      }
    }

    method StageFile(input: Runs.Input, f: FileName, faults: set<Runs.Step>) returns (ok: bool)
      modifies this
      ensures Disk(ok) == Runs.StageFile(pki, old(Disk(true)), input, f, faults)
    {
      if Runs.Fetch(f) in faults || f !in input.fetched || !Runs.Matches(pki, input.manifest, f, input.fetched[f]) {
        return false;
      }
      ok := Do(Runs.CreateFile(f), faults, Runs.Put(out, input.staging, Fixed(f), Regular(Bytes(""))));
      if ok { ok := Do(Runs.FillFile(f), faults, Runs.Put(out, input.staging, Fixed(f), Regular(input.fetched[f]))); }
      ok := ok && Runs.ReadBack(f) !in faults;
    }

    method StageFiles(input: Runs.Input, faults: set<Runs.Step>) returns (ok: bool)
      modifies this
      ensures Disk(ok) == Runs.StageFiles(pki, old(Disk(true)), input, FIXED_FILES, faults)
    {
      ok := true;
      ghost var start := Disk(true);
      for i := 0 to |FIXED_FILES|
        invariant Disk(ok) == Runs.StageFiles(pki, start, input, FIXED_FILES[..i], faults)
      {
        assert FIXED_FILES[..i + 1][..i] == FIXED_FILES[..i];
        if ok { ok := StageFile(input, FIXED_FILES[i], faults); }
      }
      assert FIXED_FILES[..|FIXED_FILES|] == FIXED_FILES;
    }

    method StageRelease(input: Runs.Input, faults: set<Runs.Step>) returns (ok: bool)
      modifies this
      ensures Disk(ok) == Runs.StageRelease(pki, old(Disk(true)), input, faults)
    {
      ok := Do(Runs.MakeStaging, faults, out.(releases := out.releases[input.staging := Folder(map[])]));
      if !ok || Runs.ChmodStaging in faults { return false; }
      ok := StageFiles(input, faults);
      if !ok || !pki.accepts(input.domain, input.fetched, input.sans) || Runs.CheckTarget in faults
        || input.generation in out.releases {
        return false;
      }
      ok := Do(Runs.MoveRelease, faults, Runs.Move(out, input.staging, input.generation));
    }

    /** os.RemoveAll of the staging directory. */
    method DropStaging(input: Runs.Input, faults: set<Runs.Step>)
      modifies this
      ensures Disk(false) == Runs.DropStaging(old(Disk(false)), input, faults)
    {
      if input.staging !in out.releases { return; }
      ghost var start := Disk(false);
      for i := 0 to |input.order|
        invariant Disk(false) == Runs.DropEntries(start, input.staging, input.order[..i], faults)
      {
        assert input.order[..i + 1][..i] == input.order[..i];
        var _ := Do(Runs.RemoveEntry(input.order[i]), faults, Runs.Drop(out, input.staging, input.order[i]));
      }
      assert input.order[..|input.order|] == input.order;
      var slots := out.releases;
      if input.staging in slots && slots[input.staging].Folder? && slots[input.staging].dir == map[] {
        var _ := Do(Runs.RemoveFolder, faults, out.(releases := slots - {input.staging}));
      }
    }

    /** writeDeploymentCurrent */
    method SwitchTo(phase: Runs.Phase, gen: Id, faults: set<Runs.Step>) returns (ok: bool)
      modifies this
      ensures Disk(ok) == Runs.SwitchTo(old(Disk(true)), phase, gen, faults)
    {
      if !ValidId(gen) || Runs.Inspect(phase) in faults || out.current.Junk? { return false; }
      var _ := Do(Runs.DropStale(phase), faults, out.(links := out.links - {gen}));
      if gen in out.links { return false; }
      ok := Do(Runs.MakeLink(phase), faults, out.(links := out.links[gen := Link(gen)]));
      if ok { ok := Do(Runs.Rename(phase), faults, out.(current := Link(gen), links := out.links - {gen})); }
      if ok { ok := Do(Runs.SyncOut(phase), faults, out); }
    }

    /** restoreDeploymentCurrent */
    method Restore(previous: Option<Id>, faults: set<Runs.Step>) returns (ok: bool)
      modifies this
      ensures Disk(ok) == Runs.Restore(old(Disk(true)), previous, faults)
    {
      if previous.Some? {
        ok := SwitchTo(Runs.Restoring, previous.value, faults);
        return;
      }
      if Runs.Inspect(Runs.Restoring) in faults || out.current.Junk? { return false; }
      if out.current.Absent? { return true; }
      ok := Do(Runs.Rename(Runs.Restoring), faults, out.(current := Absent));
      if ok { ok := Do(Runs.SyncOut(Runs.Restoring), faults, out); }
    }

    method Activate(input: Runs.Input, previous: Option<Id>, faults: set<Runs.Step>) returns (ok: bool,
                    report: Runs.Report)
      modifies this
      ensures (Disk(ok), report) == Runs.Activate(old(Disk(true)), input, previous, faults)
    {
      report := Runs.FAILURE;
      if Runs.ChmodRelease in faults { return false, report; }
      ok := Do(Runs.SyncReleases, faults, out);
      if ok { ok := SwitchTo(Runs.Switching, input.generation, faults); }
      if !ok { return; }
      if input.verify == Some(false) {
        var _ := Restore(previous, faults);
        return false, report;
      }
      report := report.(verified := true);
      if input.reload == Some(false) { return false, report.(retryable := true); }
      report := report.(reloaded := true, state := Runs.Succeeded);
    }

    /** DeployGeneration */
    method Deploy(input: Runs.Input, faults: set<Runs.Step>) returns (ok: bool, report: Runs.Report)
      modifies this
      ensures (Disk(ok), report) == Runs.Deploy(pki, old(out), input, faults)
    {
      trace := [out];
      report := Runs.FAILURE;
      if !ValidId(input.generation) || input.domain == "" || Runs.PrepareDirs in faults || Runs.ReadPointer in faults {
        return false, report;
      }
      if !Runs.Readable(out.current) { return false, report; }
      var previous := Runs.Value(out.current);
      if previous.Some? {
        if Runs.InspectCurrentRelease in faults || previous.value !in out.releases
          || !Runs.SafeRelease(out.releases[previous.value]) {
          return false, report;
        }
        if previous.value == input.generation { return true, Runs.Report(Runs.Skipped, true, true, false); }
      }
      if !CompleteItems(input.manifest) { return false, report; }
      ok := StageRelease(input, faults);
      if ok {
        ok, report := Activate(input, previous, faults);
      } else {
        DropStaging(input, faults);
      }
    }
  }
}
