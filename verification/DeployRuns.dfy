/** A client's deployment of one generation as a run: every file operation is a step, a run remembers every
    state of the output directory it passed through, and `faults` names the steps that fail. */
module DeployRuns {
  import opened Common
  import opened FileTree

  /** Which of the two times `current` is replaced. */
  datatype Phase = Switching | Restoring

  datatype Step =
    | PrepareDirs | ReadPointer | InspectCurrentRelease
    | MakeStaging | ChmodStaging
    | Fetch(file: FileName) | CreateFile(file: FileName) | FillFile(file: FileName) | ReadBack(file: FileName)
    | CheckTarget | MoveRelease | ChmodRelease | SyncReleases
    | Inspect(phase: Phase) | DropStale(phase: Phase) | MakeLink(phase: Phase) | Rename(phase: Phase)
    | SyncOut(phase: Phase)
    | RemoveEntry(entry: EntryName) | RemoveFolder

  /** The output directory: `current`, releases/, and the temporary links ".current-<generation>". */
  datatype Out = Out(current: Pointer, releases: map<Id, Slot>, links: map<Id, Pointer>)

  datatype Io = Io(out: Out, trace: seq<Out>, ok: bool)

  datatype Input = Input(
    generation: Id, domain: string, sans: seq<string>, manifest: seq<Item>,
    fetched: map<FileName, Data>,     // what the download of each file returns
    staging: Id,                      // the name MkdirTemp picks
    order: seq<EntryName>,            // how the staging directory is listed when it is removed
    verify: Option<bool>, reload: Option<bool>)   // results of the two callbacks, where given

  datatype State = Skipped | Failed | Succeeded

  datatype Report = Report(state: State, verified: bool, reloaded: bool, retryable: bool)

  const FAILURE := Report(Failed, false, false, false)

  function Do(d: Io, step: Step, faults: set<Step>, next: Out): Io {
    if !d.ok then d
    else if step in faults then d.(ok := false)
    else Io(next, d.trace + [next], true)
  }

  function Attempt(d: Io, step: Step, faults: set<Step>, next: Out): Io {
    if step in faults then d else Io(next, d.trace + [next], d.ok)
  }

  function Check(d: Io, good: bool): Io { d.(ok := d.ok && good) }

  function Put(out: Out, id: Id, e: EntryName, entry: Entry): Out {
    if id in out.releases && out.releases[id].Folder?
    then out.(releases := out.releases[id := Folder(out.releases[id].dir[e := entry])]) else out
  }

  function Drop(out: Out, id: Id, e: EntryName): Out {
    if id in out.releases && out.releases[id].Folder?
    then out.(releases := out.releases[id := Folder(out.releases[id].dir - {e})]) else out
  }

  function Move(out: Out, from: Id, to: Id): Out {
    if from in out.releases then out.(releases := (out.releases - {from})[to := out.releases[from]]) else out
  }

  /** readDeploymentCurrent: the generation that `current` names, whether as a link or as text. */
  function Value(p: Pointer): Option<Id> {
    if p.Link? || p.Text? then Some(p.gen) else None
  }

  predicate Readable(p: Pointer) { p.Absent? || ((p.Link? || p.Text?) && ValidId(p.gen)) }

  /** assertSafeRelease: a directory with exactly the five fixed files, all regular. */
  predicate SafeRelease(slot: Slot) {
    && slot.Folder?
    && slot.dir.Keys == {Fixed(Cert), Fixed(Key), Fixed(Fullchain), Fixed(Ca), Fixed(TimeLog)}
    && forall e :: e in slot.dir ==> slot.dir[e].Regular?
  }

  /** The manifest's entry for a file matches what was fetched. */
  predicate Matches(pki: Pki, manifest: seq<Item>, f: FileName, data: Data) {
    forall i :: 0 <= i < |manifest| && manifest[i].name == Fixed(f) ==>
      pki.size(data) == manifest[i].size && pki.digest(data) == manifest[i].sha
  }

  /** writeAndValidateStagedFile: check, create, write, and check what reads back. */
  function StageFile(pki: Pki, d: Io, input: Input, f: FileName, faults: set<Step>): Io {
    if !(Fetch(f) !in faults && f in input.fetched && Matches(pki, input.manifest, f, input.fetched[f]))
      then Check(d, false)
    else
      var created := Do(d, CreateFile(f), faults, Put(d.out, input.staging, Fixed(f), Regular(Bytes(""))));
      var filled := Do(created, FillFile(f), faults,
        Put(created.out, input.staging, Fixed(f), Regular(input.fetched[f])));
      Check(filled, ReadBack(f) !in faults)
  }

  function StageFiles(pki: Pki, d: Io, input: Input, files: seq<FileName>, faults: set<Step>): Io {
    if files == [] then d
    else
      var before := StageFiles(pki, d, input, files[..|files| - 1], faults);
      if !before.ok then before else StageFile(pki, before, input, files[|files| - 1], faults)
  }

  /** Removal of the staging directory on the way out; its outcome is ignored. */
  function DropEntries(d: Io, id: Id, order: seq<EntryName>, faults: set<Step>): Io {
    if order == [] then d
    else
      var before := DropEntries(d, id, order[..|order| - 1], faults);
      var e := order[|order| - 1];
      Attempt(before, RemoveEntry(e), faults, Drop(before.out, id, e))
  }

  function DropStaging(d: Io, input: Input, faults: set<Step>): Io {
    if input.staging !in d.out.releases then d
    else
      var emptied := DropEntries(d, input.staging, input.order, faults);
      var slots := emptied.out.releases;
      if input.staging in slots && slots[input.staging].Folder? && slots[input.staging].dir == map[]
      then Attempt(emptied, RemoveFolder, faults, emptied.out.(releases := slots - {input.staging})) else emptied
  }

  /** Build the release in the staging directory and rename it into place. */
  function StageRelease(pki: Pki, d: Io, input: Input, faults: set<Step>): Io {
    var made := Check(Do(d, MakeStaging, faults, d.out.(releases := d.out.releases[input.staging := Folder(map[])])),
      ChmodStaging !in faults);
    var staged := if made.ok then StageFiles(pki, made, input, FIXED_FILES, faults) else made;
    var accepted := Check(staged, pki.accepts(input.domain, input.fetched, input.sans)
                                  && CheckTarget !in faults && input.generation !in staged.out.releases);
    Do(accepted, MoveRelease, faults, Move(staged.out, input.staging, input.generation))
  }

  /** writeDeploymentCurrent: replace `current` by a link, through a temporary one whose stale copy is removed first. */
  function SwitchTo(d: Io, phase: Phase, gen: Id, faults: set<Step>): Io {
    var checked := Check(d, ValidId(gen) && Inspect(phase) !in faults && !d.out.current.Junk?);
    if !checked.ok then checked
    else
      var cleared := Attempt(checked, DropStale(phase), faults, d.out.(links := d.out.links - {gen}));
      var linked := Do(Check(cleared, gen !in cleared.out.links), MakeLink(phase), faults,
                       cleared.out.(links := cleared.out.links[gen := Link(gen)]));
      var switched := Do(linked, Rename(phase), faults,
                         linked.out.(current := Link(gen), links := linked.out.links - {gen}));
      Do(switched, SyncOut(phase), faults, switched.out)
  }

  /** restoreDeploymentCurrent */
  function Restore(d: Io, previous: Option<Id>, faults: set<Step>): Io {
    if previous.Some? then SwitchTo(d, Restoring, previous.value, faults)
    else
      var checked := Check(d, Inspect(Restoring) !in faults && !d.out.current.Junk?);
      if !checked.ok || d.out.current.Absent? then checked
      else
        var removed := Do(checked, Rename(Restoring), faults, d.out.(current := Absent));
        Do(removed, SyncOut(Restoring), faults, removed.out)
  }

  /** From a release in place to the end: switch, verify (and undo), reload. */
  function Activate(d: Io, input: Input, previous: Option<Id>, faults: set<Step>): (Io, Report) {
    var synced := Do(Check(d, ChmodRelease !in faults), SyncReleases, faults, d.out);
    var switched := if synced.ok then SwitchTo(synced, Switching, input.generation, faults) else synced;
    if !switched.ok then (switched, FAILURE)
    else if input.verify == Some(false) then (Restore(switched, previous, faults).(ok := false), FAILURE)
    else if input.reload == Some(false) then (switched.(ok := false), Report(Failed, true, false, true))
    else (switched, Report(Succeeded, true, true, false))
  }

  /** DeployGeneration */
  function Deploy(pki: Pki, out: Out, input: Input, faults: set<Step>): (Io, Report) {
    var start := Io(out, [out], true);
    var previous := Value(out.current);
    if !ValidId(input.generation) || input.domain == "" || PrepareDirs in faults || ReadPointer in faults
       || !Readable(out.current)
       || (previous.Some? && (InspectCurrentRelease in faults || previous.value !in out.releases
                              || !SafeRelease(out.releases[previous.value])))
    then (Check(start, false), FAILURE)
    else if previous == Some(input.generation) then (start, Report(Skipped, true, true, false))
    else if !CompleteItems(input.manifest) then (Check(start, false), FAILURE)
    else
      var moved := StageRelease(pki, start, input, faults);
      if moved.ok then Activate(moved, input, previous, faults) else (DropStaging(moved, input, faults), FAILURE)
  }
}
