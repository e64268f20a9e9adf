/** The writing side of the certificate store as runs: every file operation is one step of a run, a run
    remembers every tree it passed through (a crash leaves one of them), and `faults` names the steps
    that fail. Random names and directory listing orders are inputs. */
module CertRuns {
  import opened Common
  import opened FileTree

  datatype Step =
    | ReadStagingDir | MakeDirs | ReadPointer | MakeTemp | ChmodTemp | ReadRevisions | Recheck
    | CreateFile(entry: EntryName) | FillFile(entry: EntryName) | SyncTemp
    | MoveRelease | SyncReleases
    | CheckTarget | Capture | MakeLink | SwitchCurrent | SyncDomain | DropLink
    | CreateRestore | FillRestore | RestoreCurrent | DropRestore
    | MoveLegacy | SyncMoved | SyncLegacy | MoveBack
    | RemoveEntry(id: Id, entry: EntryName) | RemoveFolder(id: Id)

  /** A run so far: the present tree, every tree seen including the first and the present one, and
      whether the operation is still going well. */
  datatype Io = Io(tree: Tree, trace: seq<Tree>, ok: bool)

  function Start(t: Tree): Io { Io(t, [t], true) }

  /** One step that the caller checks: skipped after a failure, and a failure when it faults. */
  function Do(d: Io, step: Step, faults: set<Step>, next: Tree): Io {
    if !d.ok then d
    else if step in faults then d.(ok := false)
    else Io(next, d.trace + [next], true)
  }

  /** One step whose error the caller ignores. */
  function Attempt(d: Io, step: Step, faults: set<Step>, next: Tree): Io {
    if step in faults then d else Io(next, d.trace + [next], d.ok)
  }

  function Check(d: Io, good: bool): Io { d.(ok := d.ok && good) }

  function Fail(d: Io): Io { d.(ok := false) }

  // ---- changes of the tree ----

  function SetCurrent(t: Tree, p: Pointer): Tree { t.(current := p) }

  function Stage(t: Tree, name: string, p: Pointer): Tree { t.(staged := t.staged[name := p]) }

  function Unstage(t: Tree, name: string): Tree { t.(staged := t.staged - {name}) }

  /** Rename a staged pointer over `current`, atomically. */
  function Switch(t: Tree, name: string): Tree
  {
    if name in t.staged then Unstage(t.(current := t.staged[name]), name) else t
  }

  function AddFolder(t: Tree, id: Id): Tree { t.(releases := t.releases[id := Folder(map[])]) }

  function PutEntry(t: Tree, id: Id, e: EntryName, entry: Entry): Tree {
    if id in t.releases && t.releases[id].Folder?
    then t.(releases := t.releases[id := Folder(t.releases[id].dir[e := entry])]) else t
  }

  function DropEntry(t: Tree, id: Id, e: EntryName): Tree {
    if id in t.releases && t.releases[id].Folder?
    then t.(releases := t.releases[id := Folder(t.releases[id].dir - {e})]) else t
  }

  function DropFolder(t: Tree, id: Id): Tree { t.(releases := t.releases - {id}) }

  function MoveFolder(t: Tree, from: Id, to: Id): Tree {
    if from in t.releases then t.(releases := (t.releases - {from})[to := t.releases[from]]) else t
  }

  function MoveIn(t: Tree, g: Id): Tree {
    if g in t.legacy then t.(releases := t.releases[g := t.legacy[g]], legacy := t.legacy - {g}) else t
  }

  function MoveOut(t: Tree, g: Id): Tree {
    if g in t.releases then t.(legacy := t.legacy[g := t.releases[g]], releases := t.releases - {g}) else t
  }

  // ---- removing a directory: entry by entry, so a crash can leave part of it ----

  /** Remove the listed entries. One that cannot be removed stays, and the others are still tried. */
  function RemoveEntries(d: Io, id: Id, order: seq<EntryName>, faults: set<Step>): Io {
    if order == [] then d
    else
      var rest := RemoveEntries(d, id, order[..|order| - 1], faults);
      var e := order[|order| - 1];
      Attempt(rest, RemoveEntry(id, e), faults, DropEntry(rest.tree, id, e))
  }

  /** os.RemoveAll of a release directory listed in `order`; succeeds on a missing one. */
  function RemoveAll(d: Io, id: Id, order: seq<EntryName>, faults: set<Step>): Io {
    if !d.ok || id !in d.tree.releases then d
    else
      var emptied := RemoveEntries(d, id, order, faults);
      var gone := emptied.tree.releases;
      Do(Check(emptied, id in gone && (gone[id].Folder? ==> gone[id].dir == map[])), RemoveFolder(id), faults,
         DropFolder(emptied.tree, id))
  }

  /** Removal on the way out of a failed operation: its outcome is ignored. */
  function CleanUp(d: Io, id: Id, order: seq<EntryName>, faults: set<Step>): Io {
    Fail(RemoveAll(Io(d.tree, d.trace, true), id, order, faults))
  }

  // ---- writeCurrent and restoreCurrent ----

  /** The random names of the two temporary pointers. */
  datatype Names = Names(link: string, restore: string)

  predicate CanCapture(p: Pointer) {
    p.Absent? || ((p.Link? || p.Text?) && ValidId(p.gen))
  }

  /** restoreCurrent when there was a pointer: stage a copy of it and rename it over `current`. */
  function PutBack(d: Io, snapshot: Pointer, names: Names, faults: set<Step>): Io {
    var d0 := Io(d.tree, d.trace, names.restore !in d.tree.staged);
    var d1 := Do(d0, CreateRestore, faults, Stage(d0.tree, names.restore, if snapshot.Text? then Junk else snapshot));
    var d2 := if snapshot.Text? then Do(d1, FillRestore, faults, Stage(d1.tree, names.restore, snapshot)) else d1;
    var d3 := Do(d2, RestoreCurrent, faults, Switch(d2.tree, names.restore));
    if d3.ok then d3 else Attempt(d3, DropRestore, faults, Unstage(d3.tree, names.restore))
  }

  function RestorePointer(d: Io, snapshot: Pointer, names: Names, faults: set<Step>): Io {
    if snapshot.Absent? then Attempt(d, RestoreCurrent, faults, SetCurrent(d.tree, Absent))
    else PutBack(d, snapshot, names, faults)
  }

  /** Make the new link under a temporary name and rename it over `current`. */
  function SwitchLink(d: Io, gen: Id, names: Names, faults: set<Step>): Io {
    var linked := Do(Check(d, names.link !in d.tree.staged), MakeLink, faults, Stage(d.tree, names.link, Link(gen)));
    var switched := Do(linked, SwitchCurrent, faults, Switch(linked.tree, names.link));
    if switched.ok then switched else Attempt(switched, DropLink, faults, Unstage(switched.tree, names.link))
  }

  /** Point `current` at releases/<gen> through a temporary link; put the old one back if the directory
      cannot be synced. */
  function WriteCurrent(d: Io, gen: Id, names: Names, faults: set<Step>): Io {
    var t := d.tree;
    var checked := Check(d, ValidId(gen) && CheckTarget !in faults && gen in t.releases && t.releases[gen].Folder?
                            && Capture !in faults && CanCapture(t.current));
    if !checked.ok then checked
    else
      var switched := SwitchLink(d, gen, names, faults);
      if switched.ok && SyncDomain in faults then Fail(RestorePointer(switched, t.current, names, faults)) else switched
  }

  /** Read off the fault plan: should the sync after the switch fail, the old pointer can be put back. */
  predicate RestoreWorks(t: Tree, names: Names, faults: set<Step>) {
    SyncDomain in faults ==> PointerReturns(t, names, faults)
  }

  predicate PointerReturns(t: Tree, names: Names, faults: set<Step>) {
    && RestoreCurrent !in faults
    && (!t.current.Absent? ==>
          && CreateRestore !in faults
          && (t.current.Text? ==> FillRestore !in faults)
          && names.restore !in t.staged)
  }

  /** Read off the fault plan: writeCurrent gets as far as renaming the new link over `current`. */
  predicate Switches(t: Tree, names: Names, faults: set<Step>) {
    CheckTarget !in faults && Capture !in faults && MakeLink !in faults && SwitchCurrent !in faults
      && names.link !in t.staged
  }

  // ---- Publish ----

  datatype PublishInput = PublishInput(
    staging: Slot,            // the caller's staging directory
    sans: seq<string>,
    clock: string,            // time.log written when staging has none
    tokens: seq<string>,      // random parts of generation ids, in the order they are drawn
    temp: string,             // random part of the temporary directory's name
    names: Names,
    order: seq<EntryName>)    // how a directory being removed is listed

  datatype PublishOutcome = PublishOutcome(disk: Io, gen: Id, manifest: Option<Manifest>)

  function StagingFiles(dir: Dir, clock: string): map<FileName, Data> {
    var found := map f: FileName | f in {Cert, Key, Fullchain, Ca, TimeLog} && Fixed(f) in dir
      && dir[Fixed(f)].Regular? :: dir[Fixed(f)].data;
    if TimeLog in found then found else found[TimeLog := Bytes(clock)]
  }

  /** Only fixed regular files, the four certificate files among them, and a bundle X.509 accepts. */
  function ReadStaging(pki: Pki, domain: string, staging: Slot, sans: seq<string>,
                       clock: string): Option<map<FileName, Data>> {
    if !staging.Folder? then None
    else
      var dir := staging.dir;
      if (exists e :: e in dir && !(e.Fixed? && dir[e].Regular?))
        || exists f :: f in {Cert, Key, Fullchain, Ca} && Fixed(f) !in dir then None
      else
        var files := StagingFiles(dir, clock);
        if pki.accepts(domain, files, sans) then Some(files) else None
  }

  function Drawn(token: string): Id { Name("g-" + token) }

  /** newGenerationPath: up to eight draws of an id "g-<token>", until one names nothing in releases/. */
  function PickFresh(releases: set<Id>, tokens: seq<string>, draws: nat): (r: Option<Id>)
    ensures r.Some? ==> ValidId(r.value) && !r.value.Temp? && r.value !in releases
    ensures r.Some? ==> exists token :: token in tokens && r.value == Drawn(token)
  {
    if draws == 0 || tokens == [] then None
    else
      var id := Drawn(tokens[0]);
      if !ValidId(id) then None
      else if id !in releases then Some(id)
      else PickFresh(releases, tokens[1..], draws - 1)
  }

  /** Generations whose revision counts: entries that are neither temporary nor wrongly named. */
  predicate Counts(id: Id) { !id.Temp? && ValidId(id) }

  /** What one directory entry means for the next revision. */
  datatype Verdict = Skipped | Unreadable | At(revision: int)

  function Judge(pki: Pki, domain: string, id: Id, slot: Slot): Verdict {
    if slot.Alias? then Unreadable
    else if !Counts(id) then Skipped
    else
      match LoadSlot(pki, domain, id, slot)
      case None => Unreadable
      case Some(loaded) => At(loaded.manifest.revision)
  }

  ghost function Verdicts(pki: Pki, domain: string, slots: map<Id, Slot>): map<Id, Verdict> {
    map id | id in slots :: Judge(pki, domain, id, slots[id])
  }

  ghost predicate SomeUnreadable(vs: map<Id, Verdict>) { exists id :: id in vs && vs[id].Unreadable? }

  ghost function RevisionsIn(vs: map<Id, Verdict>): set<int> { set id | id in vs && vs[id].At? :: vs[id].revision }

  ghost predicate Blocked(pki: Pki, domain: string, slots: map<Id, Slot>) {
    SomeUnreadable(Verdicts(pki, domain, slots))
  }

  ghost function Revisions(pki: Pki, domain: string, slots: map<Id, Slot>): set<int> {
    RevisionsIn(Verdicts(pki, domain, slots))
  }

  ghost function SetMax(s: set<int>): (m: int)
    ensures s != {} ==> m in s
    ensures forall x :: x in s ==> x <= m
    decreases |s|
  {
    if exists x :: x in s then
      var x :| x in s;
      assert s == {x} + (s - {x});
      var rest := SetMax(s - {x});
      if s - {x} == {} || x > rest then x else rest
    else 0
  }

  /** One more than the greatest stored revision; nothing if some generation cannot be read. */
  ghost function NextRevision(pki: Pki, domain: string, t: Tree): Option<int> {
    if Blocked(pki, domain, t.releases) || Blocked(pki, domain, t.legacy) then None
    else
      var top := SetMax(Revisions(pki, domain, t.releases) + Revisions(pki, domain, t.legacy) + {0});
      if top == MAX_REVISION then None else Some(top + 1)
  }

  function DescribeFile(pki: Pki, f: FileName, data: Data): Item {
    Item(Fixed(f), pki.size(data), pki.digest(data))
  }

  function BuildManifest(pki: Pki, domain: string, gen: Id, revision: int, sans: seq<string>,
                         files: map<FileName, Data>): Option<Manifest>
    requires files.Keys == {Cert, Key, Fullchain, Ca, TimeLog}
  {
    var leaf := pki.leaf(files[Cert]);
    if !pki.accepts(domain, files, sans) || leaf.None? then None
    else Some(Manifest(gen, revision, domain, leaf.value.sans, leaf.value.serial, leaf.value.fingerprint,
                       [DescribeFile(pki, Cert, files[Cert]), DescribeFile(pki, Key, files[Key]),
                        DescribeFile(pki, Fullchain, files[Fullchain]), DescribeFile(pki, Ca, files[Ca]),
                        DescribeFile(pki, TimeLog, files[TimeLog])]))
  }

  /** writeFileSync: the entry exists, empty, before it holds its data. */
  function WriteEntry(d: Io, id: Id, e: EntryName, data: Data, faults: set<Step>): Io {
    var created := Do(d, CreateFile(e), faults, PutEntry(d.tree, id, e, Regular(Bytes(""))));
    Do(created, FillFile(e), faults, PutEntry(created.tree, id, e, Regular(data)))
  }

  function WriteFiles(d: Io, id: Id, names: seq<FileName>, files: map<FileName, Data>, faults: set<Step>): Io
    requires forall f :: f in names ==> f in files
  {
    if names == [] then d
    else
      var f := names[|names| - 1];
      WriteEntry(WriteFiles(d, id, names[..|names| - 1], files, faults), id, Fixed(f), files[f], faults)
  }

  /** Write the five files and the manifest, then sync. */
  function WriteRelease(d: Io, temp: Id, files: map<FileName, Data>, manifest: Manifest, faults: set<Step>): Io
    requires files.Keys == {Cert, Key, Fullchain, Ca, TimeLog}
  {
    var written := WriteFiles(d, temp, FIXED_FILES, files, faults);
    var complete := WriteEntry(written, temp, ManifestJson, Encoded(Full(manifest)), faults);
    Do(complete, SyncTemp, faults, complete.tree)
  }

  /** Build the release in a temporary directory and rename it into place. */
  ghost function StageRelease(pki: Pki, domain: string, d: Io, input: PublishInput, gen: Id, files: map<FileName, Data>,
                              faults: set<Step>): (Io, Option<Manifest>)
    requires files.Keys == {Cert, Key, Fullchain, Ca, TimeLog}
  {
    var temp := Temp(input.temp);
    var made := Do(d, MakeTemp, faults, AddFolder(d.tree, temp));
    var revision := NextRevision(pki, domain, made.tree);
    var manifest := if revision.None? then None else BuildManifest(pki, domain, gen, revision.value, input.sans, files);
    var ready := Check(made, ChmodTemp !in faults && ReadRevisions !in faults && Recheck !in faults && manifest.Some?);
    if !ready.ok then (ready, manifest)
    else
      var synced := WriteRelease(ready, temp, files, manifest.value, faults);
      (Do(synced, MoveRelease, faults, MoveFolder(synced.tree, temp, gen)), manifest)
  }

  /** The second half of a publish: sync, switch, and undo on failure. */
  function Commit(moved: Io, gen: Id, input: PublishInput, faults: set<Step>): Io {
    var synced := Do(moved, SyncReleases, faults, moved.tree);
    var switched := if synced.ok then WriteCurrent(synced, gen, input.names, faults) else synced;
    if switched.ok then switched else CleanUp(switched, gen, input.order, faults)
  }

  /** publish once the inputs have been read: stage, then commit, cleaning up what was built on failure. */
  ghost function PublishFiles(pki: Pki, domain: string, d: Io, input: PublishInput, gen: Id, files: map<FileName, Data>,
                              faults: set<Step>): PublishOutcome
    requires files.Keys == {Cert, Key, Fullchain, Ca, TimeLog}
  {
    var (moved, manifest) := StageRelease(pki, domain, d, input, gen, files, faults);
    var done := if moved.ok then Commit(moved, gen, input, faults)
      else CleanUp(moved, Temp(input.temp), input.order, faults);
    PublishOutcome(done, gen, if done.ok then manifest else None)
  }

  /** publish, from reading the staging directory to pointing `current` at the new release. */
  ghost function Publish(pki: Pki, domain: string, t: Tree, input: PublishInput, faults: set<Step>): PublishOutcome {
    var files := if ReadStagingDir in faults then None
      else ReadStaging(pki, domain, input.staging, input.sans, input.clock);
    var gen := PickFresh(t.releases.Keys, input.tokens, 8);
    var d := Check(Start(t), files.Some? && MakeDirs !in faults && ReadPointer !in faults
                             && !ReadCurrent(pki, domain, t).Refused? && gen.Some? && Temp(input.temp) !in t.releases);
    if !d.ok then PublishOutcome(d, Temp(""), None)
    else
      StagingHasAllFiles(pki, domain, input.staging, input.sans, input.clock);
      PublishFiles(pki, domain, d, input, gen.value, files.value, faults)
  }

  lemma StagingHasAllFiles(pki: Pki, domain: string, staging: Slot, sans: seq<string>, clock: string)
    ensures var files := ReadStaging(pki, domain, staging, sans, clock);
            files.Some? ==> files.value.Keys == {Cert, Key, Fullchain, Ca, TimeLog}
  {
  }

  // ---- Abort ----

  function Abort(pki: Pki, domain: string, t: Tree, gen: Id, order: seq<EntryName>, faults: set<Step>): Io {
    var current := ReadCurrent(pki, domain, t);
    var d := Check(Start(t), ValidId(gen) && ReadPointer !in faults && !current.Refused?
      && !(current.Reading? && current.gen == gen)
                             && gen in t.releases && t.releases[gen].Folder? && CompleteContents(t.releases[gen].dir));
    if !d.ok then d
    else
      var removed := RemoveAll(d, gen, order, faults);
      Do(removed, SyncReleases, faults, removed.tree)
  }

  // ---- migration of an old text pointer ----

  /** currentState with migration: move the release out of generations/ and replace the text by a link. */
  function Migrate(pki: Pki, domain: string, t: Tree, names: Names, faults: set<Step>): Io {
    var d := Check(Start(t), ReadPointer !in faults && ReadCurrent(pki, domain, t).Reading?);
    if !d.ok || !t.current.Text? then d
    else
      var gen := t.current.gen;
      if gen in t.releases then WriteCurrent(d, gen, names, faults)
      else if MakeDirs in faults then Fail(d)
      else MoveAndSwitch(d, gen, names, faults)
  }

  /** Move the release out of generations/, then point `current` at it; move it back if that fails. */
  function MoveAndSwitch(d: Io, gen: Id, names: Names, faults: set<Step>): Io {
    var moved := Do(d, MoveLegacy, faults, MoveIn(d.tree, gen));
    if !moved.ok then moved
    else
      var synced := Do(Do(moved, SyncMoved, faults, moved.tree), SyncLegacy, faults, moved.tree);
      var switched := if synced.ok then WriteCurrent(synced, gen, names, faults) else synced;
      if switched.ok then switched else Fail(Attempt(switched, MoveBack, faults, MoveOut(switched.tree, gen)))
  }
}
