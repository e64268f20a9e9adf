/** What a deployment reports and what it leaves behind, for every way in which it can end. */
module DeployEndings {
  import opened Common
  import opened FileTree
  import opened DeployRuns
  import opened DeploySafety

  /** A release directory with the five fixed files in it, all regular, and nothing else. */
  predicate FiveFiles(slot: Slot) {
    && slot.Folder? && (forall f: FileName :: Fixed(f) in slot.dir)
    && forall e :: e in slot.dir ==> e.Fixed? && slot.dir[e].Regular?
  }

  lemma FiveFilesAreSafe(slot: Slot)
    ensures FiveFiles(slot) <==> SafeRelease(slot)
  {
    if slot.Folder? { FixedNames(slot.dir); }
  }

  lemma FixedNames(dir: Dir)
    ensures dir.Keys == {Fixed(Cert), Fixed(Key), Fixed(Fullchain), Fixed(Ca), Fixed(TimeLog)} <==>
      (forall f: FileName :: Fixed(f) in dir) && forall e :: e in dir ==> e.Fixed?
  {
    var names := {Fixed(Cert), Fixed(Key), Fixed(Fullchain), Fixed(Ca), Fixed(TimeLog)};
    forall f: FileName ensures Fixed(f) in names {
      match f case Cert => case Key => case Fullchain => case Ca => case TimeLog =>
    }
    if (forall f: FileName :: Fixed(f) in dir) && forall e :: e in dir ==> e.Fixed? {
      forall e ensures e in dir <==> e in names { if e.Fixed? { assert e == Fixed(e.file); } }
    }
    if dir.Keys == names { forall f: FileName ensures Fixed(f) in dir { assert Fixed(f) in names; } }
  }

  /** What is current before: nothing, or a generation whose release is sound and can be inspected. */
  predicate Starts(out: Out, faults: set<Step>) {
    || out.current.Absent?
    || (&& (out.current.Link? || out.current.Text?) && ValidId(out.current.gen)
        && InspectCurrentRelease !in faults && out.current.gen in out.releases
        && FiveFiles(out.releases[out.current.gen]))
  }

  /** The generation asked for is current already. */
  predicate IsCurrent(out: Out, gen: Id) { out.current == Link(gen) || out.current == Text(gen) }

  /** The generation asked for is current already, and its release is sound: nothing is to be done. */
  predicate Skips(out: Out, input: Input, faults: set<Step>) {
    && IsCurrent(out, input.generation) && Starts(out, faults)
    && ValidId(input.generation) && input.domain != "" && PrepareDirs !in faults && ReadPointer !in faults
  }

  /** The checks before anything is written, on the directory and the manifest. */
  lemma AdmittedIff(out: Out, input: Input, faults: set<Step>)
    ensures Admitted(out, input, faults) <==>
      && !IsCurrent(out, input.generation) && Starts(out, faults)
      && ValidId(input.generation) && input.domain != "" && PrepareDirs !in faults && ReadPointer !in faults
      && CompleteItems(input.manifest)
  {
    hide SafeRelease, FiveFiles, CompleteItems;
    if Value(out.current).Some? && out.current.gen in out.releases {
      FiveFilesAreSafe(out.releases[out.current.gen]);
    }
  }

  /** A fetched file is accepted exactly if nothing fails for it and every manifest entry of its name has its size
      and digest. */
  lemma FileFitsIff(pki: Pki, input: Input, f: FileName, faults: set<Step>)
    ensures FileFits(pki, input, f, faults) <==>
      && Fetch(f) !in faults && CreateFile(f) !in faults && FillFile(f) !in faults && ReadBack(f) !in faults
      && f in input.fetched
      && forall i :: 0 <= i < |input.manifest| && input.manifest[i].name == Fixed(f) ==>
           input.manifest[i].size == pki.size(input.fetched[f]) && input.manifest[i].sha == pki.digest(input.fetched[f])
  {
  }

  /** After a deployment that reports success, the release holds exactly the five fetched files, each as its manifest
      entry describes it. */
  lemma SuccessDelivers(pki: Pki, out: Out, input: Input, faults: set<Step>)
    requires FreshStaging(out, input) && Deploy(pki, out, input, faults).1.state == Succeeded
    ensures var s := Deploy(pki, out, input, faults).0.out;
      && s.current == Link(input.generation) && input.generation in s.releases
      && FiveFiles(s.releases[input.generation])
      && forall i :: 0 <= i < |input.manifest| ==>
           && input.manifest[i].name in s.releases[input.generation].dir
           && var data := s.releases[input.generation].dir[input.manifest[i].name].data;
              input.manifest[i].size == pki.size(data) && input.manifest[i].sha == pki.digest(data)
  {
    hide Deploy, Admitted, FiveFiles, ActivationWorks;
    ReportIs(pki, out, input, faults);
    AdmittedIff(out, input, faults);
    assert Builds(pki, out, input, faults) && CompleteItems(input.manifest);
    BuiltIsNotCurrent(pki, out, input, faults);
    DeployEnds(pki, out, input, faults);
    var s := Deploy(pki, out, input, faults).0.out;
    FiveFilesAreSafe(s.releases[input.generation]);
    forall i | 0 <= i < |input.manifest| { DeliveredEntry(pki, s, input, i); }
  }

  lemma BuiltIsNotCurrent(pki: Pki, out: Out, input: Input, faults: set<Step>)
    requires Builds(pki, out, input, faults)
    ensures Value(out.current) != Some(input.generation) && CompleteItems(input.manifest)
  {
  }

  lemma DeliveredEntry(pki: Pki, s: Out, input: Input, i: nat)
    requires Delivered(pki, s, input) && CompleteItems(input.manifest) && i < |input.manifest|
    ensures input.manifest[i].name in s.releases[input.generation].dir
    ensures var data := s.releases[input.generation].dir[input.manifest[i].name].data;
      input.manifest[i].size == pki.size(data) && input.manifest[i].sha == pki.digest(data)
  {
    hide CompleteItems;
    NamesAreFixed(input.manifest, i);
    var (f, files) := (input.manifest[i].name.file, DataOf(s.releases[input.generation].dir));
    FiveNames(f);
    assert Matches(pki, input.manifest, f, files[f]);
  }

  lemma FiveNames(f: FileName)
    ensures f in {Cert, Key, Fullchain, Ca, TimeLog}
  {
    match f case Cert => case Key => case Fullchain => case Ca => case TimeLog =>
  }

  lemma NamesAreFixed(items: seq<Item>, i: nat)
    requires CompleteItems(items) && i < |items|
    ensures items[i].name.Fixed?
  {
    hide CompleteItems;
    var a := PlaceOf(items, Cert);
    var b := PlaceOf(items, Key);
    var c := PlaceOf(items, Fullchain);
    var d := PlaceOf(items, Ca);
    var e := PlaceOf(items, TimeLog);
    assert i == a || i == b || i == c || i == d || i == e;
  }

  lemma PlaceOf(items: seq<Item>, f: FileName) returns (k: nat)
    requires CompleteItems(items)
    ensures k < |items| == 5 && items[k].name == Fixed(f)
  {
    k :| 0 <= k < |items| && items[k].name == Fixed(f);
  }

  /** The report, and whether an error is returned with it. Only a failed reload is worth a retry. */
  lemma ReportIs(pki: Pki, out: Out, input: Input, faults: set<Step>)
    requires FreshStaging(out, input)
    ensures var (r, report) := Deploy(pki, out, input, faults);
      var verified := Builds(pki, out, input, faults) && ActivationWorks(out, input, faults)
        && input.verify != Some(false);
      && (r.ok <==> Skips(out, input, faults) || (verified && input.reload != Some(false)))
      && report ==
           if Skips(out, input, faults) then Report(Skipped, true, true, false)
           else if !verified then Report(Failed, false, false, false)
           else if input.reload == Some(false) then Report(Failed, true, false, true)
           else Report(Succeeded, true, true, false)
  {
    AdmittedIff(out, input, faults);
    if IsCurrent(out, input.generation) && input.generation in out.releases {
      FiveFilesAreSafe(out.releases[input.generation]);
    }
    if Admitted(out, input, faults) {
      BuildsIff(pki, out, input, faults);
      StageReleaseResult(pki, out, input, faults);
      var moved := StageRelease(pki, Io(out, [out], true), input, faults);
      if moved.ok {
        ActivationReports(pki, out, input, moved, faults);
      } else {
        DropEntriesKeepOk(moved, input.staging, input.order, faults);
      }
    }
  }

  lemma {:induction false} DropEntriesKeepOk(d: Io, id: Id, order: seq<EntryName>, faults: set<Step>)
    ensures DropEntries(d, id, order, faults).ok == d.ok
  {
    if order != [] { DropEntriesKeepOk(d, id, order[..|order| - 1], faults); }
  }

  lemma ActivationReports(pki: Pki, out: Out, input: Input, d: Io, faults: set<Step>)
    requires d.ok && ValidId(input.generation) && d.out.current == out.current && d.out.links == out.links
    requires Readable(out.current)
    ensures var (r, report) := Activate(d, input, Value(out.current), faults);
      var verified := ActivationWorks(out, input, faults) && input.verify != Some(false);
      && (r.ok <==> verified && input.reload != Some(false))
      && report == if !verified then Report(Failed, false, false, false)
                   else if input.reload == Some(false) then Report(Failed, true, false, true)
                   else Report(Succeeded, true, true, false)
  {
    var synced := Do(Check(d, ChmodRelease !in faults), SyncReleases, faults, d.out);
    if synced.ok { SwitchToEnds(synced, Switching, input.generation, faults); }
    hide SwitchTo, Restore;
  }

  // ---- the staging directory ----

  /** Only the five fixed names are in it. */
  predicate FixedOnly(out: Out, id: Id) {
    && id in out.releases && out.releases[id].Folder?
    && forall e :: e in out.releases[id].dir ==> e.Fixed?
  }

  lemma StageFileFixed(pki: Pki, d: Io, input: Input, f: FileName, faults: set<Step>)
    requires FixedOnly(d.out, input.staging)
    ensures var r := StageFile(pki, d, input, f, faults).out;
      FixedOnly(r, input.staging) && r.links == d.out.links && r.current == d.out.current
  {
  }

  lemma {:induction false} StageFilesFixed(pki: Pki, d: Io, input: Input, files: seq<FileName>, faults: set<Step>)
    requires FixedOnly(d.out, input.staging)
    ensures var r := StageFiles(pki, d, input, files, faults).out;
      FixedOnly(r, input.staging) && r.links == d.out.links && r.current == d.out.current
  {
    if files != [] {
      var init, last := files[..|files| - 1], files[|files| - 1];
      StageFilesFixed(pki, d, input, init, faults);
      StageFileFixed(pki, StageFiles(pki, d, input, init, faults), input, last, faults);
    }
  }

  /** Every entry that can be in the staging directory is removed, and then the directory. */
  predicate Cleared(input: Input, faults: set<Step>) {
    RemoveFolder !in faults && forall f: FileName :: Fixed(f) in input.order && RemoveEntry(Fixed(f)) !in faults
  }

  lemma {:induction false} DropEntriesLeaves(d: Io, id: Id, order: seq<EntryName>, faults: set<Step>)
    requires id in d.out.releases && d.out.releases[id].Folder?
    ensures var r := DropEntries(d, id, order, faults).out;
      && id in r.releases && r.releases[id].Folder?
      && (forall e :: e in r.releases[id].dir <==>
            e in d.out.releases[id].dir && (e in order ==> RemoveEntry(e) in faults))
      && r.releases - {id} == d.out.releases - {id} && r.links == d.out.links && r.current == d.out.current
  {
    if order != [] {
      var init, last := order[..|order| - 1], order[|order| - 1];
      assert order == init + [last];
      DropEntriesLeaves(d, id, init, faults);
    }
  }

  lemma DropStagingLeaves(out: Out, d: Io, input: Input, faults: set<Step>)
    requires FixedOnly(d.out, input.staging) && input.staging !in out.releases
    requires d.out.releases - {input.staging} == out.releases && d.out.links == out.links
      && d.out.current == out.current
    ensures var r := DropStaging(d, input, faults).out;
      && (Cleared(input, faults) ==> r == out)
      && (RemoveFolder in faults ==> input.staging in r.releases)
      && r.links == out.links && r.current == out.current && r.releases - {input.staging} == out.releases
  {
    DropEntriesLeaves(d, input.staging, input.order, faults);
    var emptied := DropEntries(d, input.staging, input.order, faults).out;
    if Cleared(input, faults) {
      forall e ensures e !in emptied.releases[input.staging].dir {
        if e in d.out.releases[input.staging].dir { assert e == Fixed(e.file); }
      }
      assert emptied.releases[input.staging].dir == map[];
    }
    assert out.releases - {input.staging} == out.releases;
  }

  lemma StageReleaseFixed(pki: Pki, out: Out, input: Input, faults: set<Step>)
    requires FreshStaging(out, input) && Admitted(out, input, faults)
    requires !StageRelease(pki, Io(out, [out], true), input, faults).ok
    ensures var s := StageRelease(pki, Io(out, [out], true), input, faults).out;
      && (MakeStaging in faults ==> s == out)
      && (MakeStaging !in faults ==> FixedOnly(s, input.staging))
      && s.releases - {input.staging} == out.releases && s.links == out.links && s.current == out.current
  {
    StageReleaseResult(pki, out, input, faults);
    var made := Check(Do(Io(out, [out], true), MakeStaging, faults,
                         out.(releases := out.releases[input.staging := Folder(map[])])), ChmodStaging !in faults);
    assert out.releases - {input.staging} == out.releases;
    if MakeStaging !in faults { StageFilesFixed(pki, made, input, FIXED_FILES, faults); }
    hide StageFiles;
  }

  /** A deployment that does not get its release into place leaves the output directory as it was, unless its staging
      directory cannot be removed. */
  lemma UnbuiltLeaves(pki: Pki, out: Out, input: Input, faults: set<Step>)
    requires FreshStaging(out, input) && !Builds(pki, out, input, faults)
    ensures var s := Deploy(pki, out, input, faults).0.out;
      var begun := Admitted(out, input, faults) && MakeStaging !in faults;
      && (!begun || Cleared(input, faults) ==> s == out)
      && (begun && RemoveFolder in faults ==> input.staging in s.releases)
      && s.links == out.links && s.current == out.current && s.releases - {input.staging} == out.releases
  {
    hide StageRelease, Activate, DropStaging, Cleared, FixedOnly, Builds;
    assert out.releases - {input.staging} == out.releases;
    if Admitted(out, input, faults) {
      BuildsIff(pki, out, input, faults);
      StageReleaseFixed(pki, out, input, faults);
      var moved := StageRelease(pki, Io(out, [out], true), input, faults);
      NothingToDrop(out, moved, input, faults);
      if MakeStaging !in faults { DropStagingLeaves(out, moved, input, faults); }
    }
  }

  lemma NothingToDrop(out: Out, d: Io, input: Input, faults: set<Step>)
    requires input.staging !in out.releases
    ensures d.out == out ==> DropStaging(d, input, faults).out == out
  {
  }

  // ---- temporary links ----

  /** The temporary links once `current` was to be replaced by a link to `gen`. A stale one is removed first, and
      one that was made but not renamed stays. */
  ghost function LinksLeft(out: Out, phase: Phase, gen: Id, faults: set<Step>): map<Id, Pointer> {
    var stays := DropStale(phase) in faults && gen in out.links;
    if Inspect(phase) in faults || out.current.Junk? || !ValidId(gen) || stays then out.links
    else if MakeLink(phase) !in faults && Rename(phase) in faults then out.links[gen := Link(gen)]
    else out.links - {gen}
  }

  lemma SwitchToLeaves(d: Io, phase: Phase, gen: Id, faults: set<Step>)
    requires d.ok
    ensures SwitchTo(d, phase, gen, faults).out.links == LinksLeft(d.out, phase, gen, faults)
  {
    assert (d.out.links - {gen})[gen := Link(gen)] - {gen} == d.out.links - {gen};
    assert (d.out.links - {gen})[gen := Link(gen)] == d.out.links[gen := Link(gen)];
    if gen !in d.out.links {
      assert d.out.links - {gen} == d.out.links;
      assert d.out.links[gen := Link(gen)] - {gen} == d.out.links;
    }
  }

  /** When the rollback reports success: every step of it went through, the sync included. */
  lemma RestoreEnds(d: Io, previous: Option<Id>, faults: set<Step>)
    requires d.ok
    ensures Restore(d, previous, faults).ok <==>
      match previous
      case Some(gen) => Switches(d.out, Restoring, gen, faults) && SyncOut(Restoring) !in faults
      case None =>
        && Inspect(Restoring) !in faults && !d.out.current.Junk?
        && (d.out.current.Absent? || (Rename(Restoring) !in faults && SyncOut(Restoring) !in faults))
  {
    if previous.Some? { SwitchToEnds(d, Restoring, previous.value, faults); }
    hide SwitchTo;
  }
}
