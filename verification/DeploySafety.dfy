/** What a deployment guarantees at every step, over every fault plan. */
module DeploySafety {
  import opened Common
  import opened FileTree
  import opened DeployRuns

  /** The releases that were there before are there unchanged. */
  ghost predicate Kept(start: Out, s: Out) {
    forall id :: id in start.releases ==> id in s.releases && s.releases[id] == start.releases[id]
  }

  /** `current` names what it named before (a text may have become a link). */
  predicate SameValue(start: Out, s: Out) {
    Value(s.current) == Value(start.current) && s.current.Absent? == start.current.Absent?
      && s.current.Junk? == start.current.Junk?
  }

  /** The five files of the new release match the manifest and form an acceptable bundle. */
  ghost predicate Delivered(pki: Pki, s: Out, input: Input) {
    && ValidId(input.generation) && input.generation in s.releases && SafeRelease(s.releases[input.generation])
    && var files := DataOf(s.releases[input.generation].dir);
       && files.Keys == {Cert, Key, Fullchain, Ca, TimeLog}
       && (forall f :: f in files ==> Matches(pki, input.manifest, f, files[f]))
       && pki.accepts(input.domain, files, input.sans)
  }

  function DataOf(dir: Dir): map<FileName, Data>
    requires SafeRelease(Folder(dir))
  {
    map f: FileName | f in {Cert, Key, Fullchain, Ca, TimeLog} :: dir[Fixed(f)].data
  }

  /** What may be observed at any step. */
  ghost predicate Fine(pki: Pki, start: Out, input: Input, s: Out) {
    && Kept(start, s)
    && (SameValue(start, s) || (Value(s.current) == Some(input.generation) && Delivered(pki, s, input)))
  }

  ghost predicate AllFine(pki: Pki, start: Out, input: Input, d: Io) {
    Fine(pki, start, input, d.out) && forall s :: s in d.trace ==> Fine(pki, start, input, s)
  }

  /** Nothing but the staging directory differs. */
  ghost predicate Staging(start: Out, input: Input, s: Out) {
    && s.current == start.current && s.links == start.links
    && s.releases - {input.staging} == start.releases
  }

  ghost predicate AllStaging(start: Out, input: Input, d: Io) {
    Staging(start, input, d.out) && forall s :: s in d.trace ==> Staging(start, input, s)
  }

  lemma StagingIsFine(pki: Pki, start: Out, input: Input, s: Out)
    requires Staging(start, input, s) && input.staging !in start.releases
    ensures Fine(pki, start, input, s)
  {
    forall id | id in start.releases ensures id in s.releases && s.releases[id] == start.releases[id] {
      assert id in (s.releases - {input.staging});
    }
  }

  lemma AllStagingIsFine(pki: Pki, start: Out, input: Input, d: Io)
    requires AllStaging(start, input, d) && input.staging !in start.releases
    ensures AllFine(pki, start, input, d)
  {
    StagingIsFine(pki, start, input, d.out);
    forall s | s in d.trace ensures Fine(pki, start, input, s) { StagingIsFine(pki, start, input, s); }
  }

  lemma DoStaging(start: Out, input: Input, d: Io, step: Step, faults: set<Step>, next: Out)
    requires AllStaging(start, input, d) && Staging(start, input, next)
    ensures AllStaging(start, input, Do(d, step, faults, next))
      && AllStaging(start, input, Attempt(d, step, faults, next))
  {
    forall s | s in d.trace + [next] ensures Staging(start, input, s) { assert s in d.trace || s == next; }
  }

  lemma PutStays(start: Out, input: Input, s: Out, e: EntryName, entry: Entry)
    requires Staging(start, input, s)
    ensures Staging(start, input, Put(s, input.staging, e, entry)) && Staging(start, input, Drop(s, input.staging, e))
  {
    if input.staging in s.releases && s.releases[input.staging].Folder? {
      var dir := s.releases[input.staging].dir;
      assert s.releases[input.staging := Folder(dir[e := entry])] - {input.staging} == s.releases - {input.staging};
      assert s.releases[input.staging := Folder(dir - {e})] - {input.staging} == s.releases - {input.staging};
    }
  }

  // ---- staging ----

  /** The staging directory after the named files have been written. */
  function FilesDir(fetched: map<FileName, Data>, files: seq<FileName>): Dir
    requires forall f :: f in files ==> f in fetched
  {
    if files == [] then map[]
    else FilesDir(fetched, files[..|files| - 1])[Fixed(files[|files| - 1]) := Regular(fetched[files[|files| - 1]])]
  }

  ghost predicate Holds(pki: Pki, start: Out, input: Input, d: Io, files: seq<FileName>) {
    && (forall f :: f in files ==> f in input.fetched && Matches(pki, input.manifest, f, input.fetched[f]))
    && d.out == start.(releases := start.releases[input.staging := Folder(FilesDir(input.fetched, files))])
  }

  lemma StageFileResult(pki: Pki, start: Out, d: Io, input: Input, files: seq<FileName>, f: FileName, faults: set<Step>)
    requires AllStaging(start, input, d) && d.ok && Holds(pki, start, input, d, files)
    ensures var r := StageFile(pki, d, input, f, faults);
      AllStaging(start, input, r) && (r.ok ==> Holds(pki, start, input, r, files + [f]))
  {
    if Fetch(f) !in faults && f in input.fetched && Matches(pki, input.manifest, f, input.fetched[f]) {
      var empty := Put(d.out, input.staging, Fixed(f), Regular(Bytes("")));
      PutStays(start, input, d.out, Fixed(f), Regular(Bytes("")));
      DoStaging(start, input, d, CreateFile(f), faults, empty);
      var created := Do(d, CreateFile(f), faults, empty);
      PutStays(start, input, created.out, Fixed(f), Regular(input.fetched[f]));
      DoStaging(start, input, created, FillFile(f), faults,
        Put(created.out, input.staging, Fixed(f), Regular(input.fetched[f])));
      FilesDirMore(input.fetched, files, f);
    }
  }

  lemma FilesDirMore(fetched: map<FileName, Data>, files: seq<FileName>, f: FileName)
    requires f in fetched && forall g :: g in files ==> g in fetched
    ensures FilesDir(fetched, files + [f]) == FilesDir(fetched, files)[Fixed(f) := Regular(fetched[f])]
    ensures FilesDir(fetched, files + [f]) == FilesDir(fetched,
      files)[Fixed(f) := Regular(Bytes(""))][Fixed(f) := Regular(fetched[f])]
  {
    assert (files + [f])[..|files|] == files;
  }

  lemma {:induction false} StageFilesResult(pki: Pki, start: Out, d: Io, input: Input, files: seq<FileName>,
                                            faults: set<Step>)
    requires AllStaging(start, input, d) && d.ok && Holds(pki, start, input, d, [])
    ensures var r := StageFiles(pki, d, input, files, faults);
      AllStaging(start, input, r) && (r.ok ==> Holds(pki, start, input, r, files))
  {
    if files != [] {
      var init := files[..|files| - 1];
      StageFilesResult(pki, start, d, input, init, faults);
      var before := StageFiles(pki, d, input, init, faults);
      if before.ok { StageFileResult(pki, start, before, input, init, files[|files| - 1], faults); }
      assert init + [files[|files| - 1]] == files;
    }
  }

  lemma FixedFiles()
    ensures forall f: FileName :: f in FIXED_FILES
  {
    forall f: FileName ensures f in FIXED_FILES {
      var i := match f case Cert => 0 case Key => 1 case Fullchain => 2 case Ca => 3 case TimeLog => 4;
      assert FIXED_FILES[i] == f;
    }
  }

  lemma {:induction false} FilesDirEntries(fetched: map<FileName, Data>, files: seq<FileName>)
    requires forall f :: f in files ==> f in fetched
    ensures forall e :: e in FilesDir(fetched, files) <==> e.Fixed? && e.file in files
    ensures forall f :: f in files ==> FilesDir(fetched, files)[Fixed(f)] == Regular(fetched[f])
  {
    if files != [] {
      var init, last := files[..|files| - 1], files[|files| - 1];
      assert files == init + [last];
      FilesDirEntries(fetched, init);
    }
  }

  lemma FixedKeys(dir: Dir)
    requires forall e :: e in dir <==> e.Fixed?
    ensures dir.Keys == {Fixed(Cert), Fixed(Key), Fixed(Fullchain), Fixed(Ca), Fixed(TimeLog)}
  {
    forall e | e in dir ensures e in {Fixed(Cert), Fixed(Key), Fixed(Fullchain), Fixed(Ca), Fixed(TimeLog)} {
      match e.file case Cert => case Key => case Fullchain => case Ca => case TimeLog =>
    }
  }

  lemma AllFileNames(names: set<FileName>)
    requires forall f: FileName :: f in names
    ensures names == {Cert, Key, Fullchain, Ca, TimeLog}
  {
    forall f | f in names ensures f in {Cert, Key, Fullchain, Ca, TimeLog} {
      match f case Cert => case Key => case Fullchain => case Ca => case TimeLog =>
    }
  }

  /** The complete staging directory. */
  lemma CompleteDir(fetched: map<FileName, Data>)
    requires forall f :: f in FIXED_FILES ==> f in fetched
    ensures SafeRelease(Folder(FilesDir(fetched, FIXED_FILES)))
    ensures DataOf(FilesDir(fetched, FIXED_FILES)) == fetched && fetched.Keys == {Cert, Key, Fullchain, Ca, TimeLog}
  {
    FixedFiles();
    FilesDirEntries(fetched, FIXED_FILES);
    FixedKeys(FilesDir(fetched, FIXED_FILES));
    AllFileNames(fetched.Keys);
  }

  /** The output directory once the release has been renamed into place. */
  ghost predicate Placed(pki: Pki, start: Out, input: Input, s: Out) {
    && input.generation !in start.releases
    && s.current == start.current && s.links == start.links
    && input.generation in s.releases && s.releases == start.releases[input.generation := s.releases[input.generation]]
    && Delivered(pki, s, input)
  }

  lemma StageReleaseResult(pki: Pki, start: Out, input: Input, faults: set<Step>)
    requires input.staging !in start.releases && input.staging != input.generation && ValidId(input.generation)
    ensures var r := StageRelease(pki, Io(start, [start], true), input, faults);
      && AllFine(pki, start, input, r)
      && (r.ok ==> Placed(pki, start, input, r.out))
      && (!r.ok ==> AllStaging(start, input, r))
  {
    var d := Io(start, [start], true);
    var empty := start.(releases := start.releases[input.staging := Folder(map[])]);
    assert start.releases - {input.staging} == start.releases && empty.releases - {input.staging} == start.releases;
    DoStaging(start, input, d, MakeStaging, faults, empty);
    var made := Check(Do(d, MakeStaging, faults, empty), ChmodStaging !in faults);
    var staged := if made.ok then StageFiles(pki, made, input, FIXED_FILES, faults) else made;
    if made.ok { StageFilesResult(pki, start, made, input, FIXED_FILES, faults); }
    AllStagingIsFine(pki, start, input, staged);
    var accepted := Check(staged, pki.accepts(input.domain, input.fetched, input.sans)
                                  && CheckTarget !in faults && input.generation !in staged.out.releases);
    if accepted.ok {
      CompleteDir(input.fetched);
      MovedIsPlaced(pki, start, input, staged.out);
      PlacedIsFine(pki, start, input, Move(staged.out, input.staging, input.generation));
    }
  }

  lemma MovedIsPlaced(pki: Pki, start: Out, input: Input, s: Out)
    requires input.staging !in start.releases && input.staging != input.generation && input.generation !in s.releases
    requires forall f :: f in FIXED_FILES ==> f in input.fetched && Matches(pki, input.manifest, f, input.fetched[f])
    requires s == start.(releases := start.releases[input.staging := Folder(FilesDir(input.fetched, FIXED_FILES))])
    requires pki.accepts(input.domain, input.fetched, input.sans) && ValidId(input.generation)
    ensures Placed(pki, start, input, Move(s, input.staging, input.generation))
  {
    CompleteDir(input.fetched);
    FixedFiles();
    assert s.releases - {input.staging} == start.releases;
  }

  lemma PlacedIsFine(pki: Pki, start: Out, input: Input, s: Out)
    requires Placed(pki, start, input, s)
    ensures Fine(pki, start, input, s)
  {
  }

  // ---- switching and restoring ----

  lemma DoFine(pki: Pki, start: Out, input: Input, d: Io, step: Step, faults: set<Step>, next: Out)
    requires AllFine(pki, start, input, d) && Fine(pki, start, input, next)
    ensures AllFine(pki, start, input, Do(d, step, faults, next))
      && AllFine(pki, start, input, Attempt(d, step, faults, next))
  {
    forall s | s in d.trace + [next] ensures Fine(pki, start, input, s) { assert s in d.trace || s == next; }
  }

  /** writeDeploymentCurrent gets as far as renaming the link over `current`. */
  predicate Switches(out: Out, phase: Phase, gen: Id, faults: set<Step>) {
    && ValidId(gen) && Inspect(phase) !in faults && !out.current.Junk?
    && (DropStale(phase) !in faults || gen !in out.links)
    && MakeLink(phase) !in faults && Rename(phase) !in faults
  }

  /** Replacing `current` ends at the link exactly if the rename is reached, even when the sync after it fails. */
  lemma SwitchToEnds(d: Io, phase: Phase, gen: Id, faults: set<Step>)
    requires d.ok
    ensures var r := SwitchTo(d, phase, gen, faults);
      && r.out.current == (if Switches(d.out, phase, gen, faults) then Link(gen) else d.out.current)
      && r.out.releases == d.out.releases
      && (r.ok <==> Switches(d.out, phase, gen, faults) && SyncOut(phase) !in faults)
      && (r.ok ==> r.out.links == d.out.links - {gen})
  {
    assert (d.out.links - {gen})[gen := Link(gen)] - {gen} == d.out.links - {gen};
    if gen !in d.out.links { assert d.out.links[gen := Link(gen)] - {gen} == d.out.links - {gen}; }
  }

  lemma SwitchToIsFine(pki: Pki, start: Out, input: Input, d: Io, phase: Phase, gen: Id, faults: set<Step>)
    requires AllFine(pki, start, input, d) && d.ok
    requires Fine(pki, start, input, d.out.(current := Link(gen)))
    ensures AllFine(pki, start, input, SwitchTo(d, phase, gen, faults))
  {
    var out := d.out;
    if ValidId(gen) && Inspect(phase) !in faults && !out.current.Junk? {
      var clear := out.(links := out.links - {gen});
      OnlyLinks(pki, start, input, out, clear.links);
      DoFine(pki, start, input, d, DropStale(phase), faults, clear);
      var cleared := Attempt(d, DropStale(phase), faults, clear);
      var staged := cleared.out.(links := cleared.out.links[gen := Link(gen)]);
      OnlyLinks(pki, start, input, out, staged.links);
      var checked := Check(cleared, gen !in cleared.out.links);
      DoFine(pki, start, input, checked, MakeLink(phase), faults, staged);
      RenameIsFine(pki, start, input, Do(checked, MakeLink(phase), faults, staged), d, phase, gen, faults);
    }
  }

  lemma RenameIsFine(pki: Pki, start: Out, input: Input, linked: Io, d: Io, phase: Phase, gen: Id, faults: set<Step>)
    requires AllFine(pki, start, input, linked) && linked.out == d.out.(links := linked.out.links)
    requires Fine(pki, start, input, d.out.(current := Link(gen)))
    ensures var switched := Do(linked, Rename(phase), faults,
      linked.out.(current := Link(gen), links := linked.out.links - {gen}));
      AllFine(pki, start, input, Do(switched, SyncOut(phase), faults, switched.out))
  {
    var next := linked.out.(current := Link(gen), links := linked.out.links - {gen});
    OnlyLinks(pki, start, input, d.out.(current := Link(gen)), next.links);
    DoFine(pki, start, input, linked, Rename(phase), faults, next);
    var switched := Do(linked, Rename(phase), faults, next);
    DoFine(pki, start, input, switched, SyncOut(phase), faults, switched.out);
  }

  lemma OnlyLinks(pki: Pki, start: Out, input: Input, s: Out, links: map<Id, Pointer>)
    requires Fine(pki, start, input, s)
    ensures Fine(pki, start, input, s.(links := links))
  {
  }

  /** Read off the fault plan: the old value of `current` can be put back. For a previous generation that is
      another switch, for none a removal. */
  predicate RollsBack(start: Out, faults: set<Step>) {
    var previous := Value(start.current);
    && Inspect(Restoring) !in faults && Rename(Restoring) !in faults
    && (previous.Some? ==>
         MakeLink(Restoring) !in faults && (DropStale(Restoring) !in faults || previous.value !in start.links))
  }

  lemma RestoreResult(pki: Pki, start: Out, input: Input, d: Io, faults: set<Step>)
    requires AllFine(pki, start, input, d) && d.ok && d.out.current == Link(input.generation)
    requires Readable(start.current) && Value(start.current) != Some(input.generation)
      && d.out.links == start.links - {input.generation}
    ensures var r := Restore(d, Value(start.current), faults);
      AllFine(pki, start, input, r) && (SameValue(start, r.out) <==> RollsBack(start, faults))
  {
    var previous := Value(start.current);
    if previous.Some? {
      SwitchToEnds(d, Restoring, previous.value, faults);
      SwitchToIsFine(pki, start, input, d, Restoring, previous.value, faults);
    } else if Inspect(Restoring) !in faults {
      DoFine(pki, start, input, d, Rename(Restoring), faults, d.out.(current := Absent));
      var removed := Do(d, Rename(Restoring), faults, d.out.(current := Absent));
      DoFine(pki, start, input, removed, SyncOut(Restoring), faults, removed.out);
    }
  }

  // ---- the theorems ----

  /** Nothing fails between the release being in place and `current` being switched and synced. */
  predicate ActivationWorks(start: Out, input: Input, faults: set<Step>) {
    ChmodRelease !in faults && SyncReleases !in faults && Switches(start, Switching, input.generation, faults)
      && SyncOut(Switching) !in faults
  }

  lemma SwitchedResult(pki: Pki, start: Out, input: Input, d: Io, faults: set<Step>)
    requires d.ok && AllFine(pki, start, input, d) && Placed(pki, start, input, d.out)
    ensures var synced := Do(Check(d, ChmodRelease !in faults), SyncReleases, faults, d.out);
      var switched := if synced.ok then SwitchTo(synced, Switching, input.generation, faults) else synced;
      && AllFine(pki, start, input, switched)
      && (switched.ok <==> ActivationWorks(start, input, faults))
      && (switched.ok ==>
           switched.out.current == Link(input.generation) && switched.out.links == start.links - {input.generation})
  {
    DoFine(pki, start, input, Check(d, ChmodRelease !in faults), SyncReleases, faults, d.out);
    var synced := Do(Check(d, ChmodRelease !in faults), SyncReleases, faults, d.out);
    if synced.ok {
      SwitchedIsFine(pki, start, input, d.out);
      SwitchToEnds(synced, Switching, input.generation, faults);
      SwitchToIsFine(pki, start, input, synced, Switching, input.generation, faults);
    }
  }

  lemma SwitchedIsFine(pki: Pki, start: Out, input: Input, s: Out)
    requires Placed(pki, start, input, s)
    ensures Fine(pki, start, input, s.(current := Link(input.generation)))
  {
  }

  lemma ActivateResult(pki: Pki, start: Out, input: Input, d: Io, faults: set<Step>)
    requires d.ok && AllFine(pki, start, input, d) && Placed(pki, start, input, d.out)
    requires Readable(start.current) && Value(start.current) != Some(input.generation)
    ensures var (r, report) := Activate(d, input, Value(start.current), faults);
      && AllFine(pki, start, input, r)
      && (report.state == Succeeded || report.verified || report.retryable ==> r.out.current == Link(input.generation))
      && (report.retryable <==>
           ActivationWorks(start, input, faults) && input.verify != Some(false) && input.reload == Some(false))
      && (report.state == Succeeded <==>
           ActivationWorks(start, input, faults) && input.verify != Some(false) && input.reload != Some(false))
      && (ActivationWorks(start, input, faults) && input.verify == Some(false) ==>
           (SameValue(start, r.out) <==> RollsBack(start, faults)))
  {
    SwitchedResult(pki, start, input, d, faults);
    var synced := Do(Check(d, ChmodRelease !in faults), SyncReleases, faults, d.out);
    var switched := if synced.ok then SwitchTo(synced, Switching, input.generation, faults) else synced;
    if switched.ok { RestoreResult(pki, start, input, switched, faults); }
  }

  lemma {:induction false} DropEntriesStays(start: Out, input: Input, d: Io, order: seq<EntryName>, faults: set<Step>)
    requires AllStaging(start, input, d)
    ensures AllStaging(start, input, DropEntries(d, input.staging, order, faults))
  {
    if order != [] {
      var init, e := order[..|order| - 1], order[|order| - 1];
      DropEntriesStays(start, input, d, init, faults);
      var before := DropEntries(d, input.staging, init, faults);
      PutStays(start, input, before.out, e, Irregular);
      DoStaging(start, input, before, RemoveEntry(e), faults, Drop(before.out, input.staging, e));
    }
  }

  lemma DropStagingStays(start: Out, input: Input, d: Io, faults: set<Step>)
    requires AllStaging(start, input, d)
    ensures AllStaging(start, input, DropStaging(d, input, faults))
  {
    DropEntriesStays(start, input, d, input.order, faults);
    var emptied := DropEntries(d, input.staging, input.order, faults);
    var next := emptied.out.(releases := emptied.out.releases - {input.staging});
    assert next.releases - {input.staging} == emptied.out.releases - {input.staging};
    DoStaging(start, input, emptied, RemoveFolder, faults, next);
  }

  /** The checks before anything is written. */
  predicate Admitted(out: Out, input: Input, faults: set<Step>) {
    && ValidId(input.generation) && input.domain != "" && Readable(out.current) && CompleteItems(input.manifest)
    && PrepareDirs !in faults && ReadPointer !in faults
    && (Value(out.current).Some? ==>
        InspectCurrentRelease !in faults && Value(out.current).value in out.releases
          && SafeRelease(out.releases[Value(out.current).value]))
    && Value(out.current) != Some(input.generation)
  }

  /** The name that MkdirTemp picks is new. */
  predicate FreshStaging(out: Out, input: Input) { input.staging !in out.releases && input.staging != input.generation }

  /** The deployment theorem. At every step, a crash at any of them included, `current` names what it named
      before, or the new generation, and that only once its five files match the manifest and the bundle is
      valid; releases that existed are unchanged. */
  lemma DeployIsSafe(pki: Pki, out: Out, input: Input, faults: set<Step>)
    requires FreshStaging(out, input)
    ensures AllFine(pki, out, input, Deploy(pki, out, input, faults).0)
  {
    if Admitted(out, input, faults) {
      var start := Io(out, [out], true);
      StageReleaseResult(pki, out, input, faults);
      var moved := StageRelease(pki, start, input, faults);
      if moved.ok {
        ActivateResult(pki, out, input, moved, faults);
      } else {
        DropStagingStays(out, input, moved, faults);
        AllStagingIsFine(pki, out, input, DropStaging(moved, input, faults));
      }
    }
  }

  // ---- when a release is built ----

  /** The file is offered, matches the manifest, and none of its own steps fails. */
  predicate FileFits(pki: Pki, input: Input, f: FileName, faults: set<Step>) {
    && f in input.fetched && Matches(pki, input.manifest, f, input.fetched[f])
    && Fetch(f) !in faults && CreateFile(f) !in faults && FillFile(f) !in faults && ReadBack(f) !in faults
  }

  lemma {:induction false} StageFilesOk(pki: Pki, d: Io, input: Input, files: seq<FileName>, faults: set<Step>)
    ensures StageFiles(pki, d, input, files, faults).ok <==>
      d.ok && forall f :: f in files ==> FileFits(pki, input, f, faults)
  {
    if files != [] {
      var init, last := files[..|files| - 1], files[|files| - 1];
      assert forall f :: f in files <==> f in init || f == last;
      StageFilesOk(pki, d, input, init, faults);
      assert FileFits(pki, input, last, faults) <==> StageFile(pki, d.(ok := true), input, last, faults).ok;
    }
  }

  /** The release gets built and renamed into place, read off the directory, the offer and the fault plan. */
  ghost predicate Builds(pki: Pki, out: Out, input: Input, faults: set<Step>) {
    && Admitted(out, input, faults) && input.generation !in out.releases
    && (forall f: FileName :: FileFits(pki, input, f, faults)) && pki.accepts(input.domain, input.fetched, input.sans)
    && MakeStaging !in faults && ChmodStaging !in faults && CheckTarget !in faults && MoveRelease !in faults
  }

  lemma BuildsIff(pki: Pki, out: Out, input: Input, faults: set<Step>)
    requires FreshStaging(out, input) && Admitted(out, input, faults)
    ensures StageRelease(pki, Io(out, [out], true), input, faults).ok <==> Builds(pki, out, input, faults)
  {
    var empty := out.(releases := out.releases[input.staging := Folder(map[])]);
    var made := Check(Do(Io(out, [out], true), MakeStaging, faults, empty), ChmodStaging !in faults);
    StageFilesOk(pki, made, input, FIXED_FILES, faults);
    FixedFiles();
    if made.ok { StagedKeepsNames(pki, out, input, made, faults); }
  }

  lemma StagedKeepsNames(pki: Pki, out: Out, input: Input, made: Io, faults: set<Step>)
    requires FreshStaging(out, input) && made.ok
    requires made.out == out.(releases := out.releases[input.staging := Folder(map[])]) && made.trace == [out, made.out]
    ensures input.generation in StageFiles(pki, made, input, FIXED_FILES, faults).out.releases <==>
      input.generation in out.releases
  {
    assert out.releases - {input.staging} == out.releases;
    assert made.out.releases - {input.staging} == out.releases;
    StageFilesResult(pki, out, made, input, FIXED_FILES, faults);
    var staged := StageFiles(pki, made, input, FIXED_FILES, faults).out;
    assert input.generation in staged.releases <==> input.generation in (staged.releases - {input.staging});
  }

  /** How a deployment of a generation that is not current ends. */
  lemma DeployEnds(pki: Pki, out: Out, input: Input, faults: set<Step>)
    requires FreshStaging(out, input) && Value(out.current) != Some(input.generation)
    ensures var (r, report) := Deploy(pki, out, input, faults);
      var activated := Builds(pki, out, input, faults) && ActivationWorks(out, input, faults);
      && report.state != Skipped
      // success, and a failed reload, keep the new generation
      && (report.state == Succeeded <==> activated && input.verify != Some(false) && input.reload != Some(false))
      && (report.retryable <==> activated && input.verify != Some(false) && input.reload == Some(false))
      && (report.state == Succeeded || report.retryable ==>
           r.out.current == Link(input.generation) && Delivered(pki, r.out, input))
      // a failed verification ends at the old value exactly if the rollback goes through
      && (activated && input.verify == Some(false) ==> (SameValue(out, r.out) <==> RollsBack(out, faults)))
      // a release that is not built changes nothing that readers see
      && (!Builds(pki, out, input, faults) ==> r.out.current == out.current)
  {
    if Admitted(out, input, faults) {
      BuildsIff(pki, out, input, faults);
      StageReleaseResult(pki, out, input, faults);
      var moved := StageRelease(pki, Io(out, [out], true), input, faults);
      if moved.ok {
        ActivateResult(pki, out, input, moved, faults);
      } else {
        DropStagingStays(out, input, moved, faults);
      }
    }
  }
}
