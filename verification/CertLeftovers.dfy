/** What operations that fail leave behind: temporary pointers, the temporary directory, the new release. */
module CertLeftovers {
  import opened Common
  import opened FileTree
  import opened CertRuns
  import opened CertSafety
  import opened CertRemoval
  import opened PublishSafety
  import opened CertBoundaries

  // ---- temporary pointers ----

  /** The pointers under temporary names once writeCurrent has been tried for `gen`. Each is dropped on failure,
      unless that fails too. */
  ghost function PointersLeft(t: Tree, gen: Id, names: Names, faults: set<Step>): map<string, Pointer> {
    if CheckTarget in faults || Capture in faults then t.staged
    else if MakeLink in faults || SwitchCurrent in faults || names.link in t.staged then
      if DropLink !in faults then t.staged - {names.link}
      else if MakeLink in faults || names.link in t.staged then t.staged
      else t.staged[names.link := Link(gen)]
    else if SyncDomain !in faults || t.current.Absent? || PointerReturns(t, names, faults) then t.staged
    else if DropRestore !in faults then t.staged - {names.restore}
    else if CreateRestore in faults || names.restore in t.staged then t.staged
    else t.staged[names.restore := if t.current.Text? && FillRestore in faults then Junk else t.current]
  }

  lemma SwitchLinkLeaves(d: Io, gen: Id, names: Names, faults: set<Step>)
    requires d.ok
    ensures var (r, t) := (SwitchLink(d, gen, names, faults), d.tree);
      && (r.ok ==> r.tree.staged == t.staged)
      && (!r.ok && DropLink !in faults ==> r.tree.staged == t.staged - {names.link})
      && (!r.ok && DropLink in faults ==>
           r.tree.staged == if MakeLink in faults || names.link in t.staged then t.staged
                            else t.staged[names.link := Link(gen)])
  {
    var t := d.tree;
    if names.link !in t.staged {
      assert t.staged[names.link := Link(gen)] - {names.link} == t.staged == t.staged - {names.link};
    }
  }

  lemma PutBackLeaves(d: Io, t: Tree, names: Names, faults: set<Step>)
    requires d.tree.staged == t.staged && !t.current.Absent?
    ensures PutBack(d, t.current, names, faults).tree.staged ==
      if PointerReturns(t, names, faults) then t.staged
      else if DropRestore !in faults then t.staged - {names.restore}
      else if CreateRestore in faults || names.restore in t.staged then t.staged
      else t.staged[names.restore := if t.current.Text? && FillRestore in faults then Junk else t.current]
  {
    if names.restore !in t.staged {
      assert t.staged[names.restore := t.current] - {names.restore} == t.staged == t.staged - {names.restore};
      assert t.staged[names.restore := Junk] - {names.restore} == t.staged;
      assert t.staged[names.restore := Junk][names.restore := t.current] == t.staged[names.restore := t.current];
    }
  }

  /** writeCurrent changes the pointers and nothing else, and leaves exactly these temporary ones. */
  lemma WriteCurrentLeaves(d: Io, gen: Id, names: Names, faults: set<Step>)
    requires d.ok && ValidId(gen) && FolderAt(d.tree, gen).Some? && CanCapture(d.tree.current)
    ensures var r := WriteCurrent(d, gen, names, faults).tree;
      && r.releases == d.tree.releases && r.legacy == d.tree.legacy
      && r.staged == PointersLeft(d.tree, gen, names, faults)
  {
    SwitchLinkResult(d, gen, names, faults);
    SwitchLinkLeaves(d, gen, names, faults);
    WriteCurrentResult(d, gen, names, faults);
    var switched := SwitchLink(d, gen, names, faults);
    if switched.ok && !d.tree.current.Absent? { PutBackLeaves(switched, d.tree, names, faults); }
    hide SwitchLink, PutBack;
  }

  // ---- the temporary directory ----

  /** A directory with none but the store's own six names in it. */
  predicate Ours(t: Tree, id: Id) {
    FolderAt(t, id).Some? && forall e :: e in FolderAt(t, id).value ==> !e.Other?
  }

  lemma WriteEntryOurs(d: Io, id: Id, e: EntryName, data: Data, faults: set<Step>)
    requires Ours(d.tree, id) && !e.Other?
    ensures Ours(WriteEntry(d, id, e, data, faults).tree, id)
  {
  }

  lemma {:induction false} WriteFilesOurs(d: Io, id: Id, names: seq<FileName>, files: map<FileName, Data>,
                                          faults: set<Step>)
    requires Ours(d.tree, id) && forall f :: f in names ==> f in files
    ensures Ours(WriteFiles(d, id, names, files, faults).tree, id)
  {
    if names != [] {
      var init, f := names[..|names| - 1], names[|names| - 1];
      WriteFilesOurs(d, id, init, files, faults);
      WriteEntryOurs(WriteFiles(d, id, init, files, faults), id, Fixed(f), files[f], faults);
    }
  }

  lemma WriteReleaseOurs(d: Io, temp: Id, files: map<FileName, Data>, m: Manifest, faults: set<Step>)
    requires files.Keys == {Cert, Key, Fullchain, Ca, TimeLog} && Ours(d.tree, temp)
    ensures Ours(WriteRelease(d, temp, files, m, faults).tree, temp)
  {
    WriteFilesOurs(d, temp, FIXED_FILES, files, faults);
    WriteEntryOurs(WriteFiles(d, temp, FIXED_FILES, files, faults), temp, ManifestJson, Encoded(Full(m)), faults);
    hide WriteFiles, WriteEntry, Ours;
  }

  lemma StageFailureLeaves(pki: Pki, domain: string, t: Tree, input: PublishInput, gen: Id,
                           files: map<FileName, Data>, faults: set<Step>)
    requires files.Keys == {Cert, Key, Fullchain, Ca, TimeLog} && Temp(input.temp) !in t.releases
    requires !StageRelease(pki, domain, Start(t), input, gen, files, faults).0.ok
    ensures var r := StageRelease(pki, domain, Start(t), input, gen, files, faults).0.tree;
      if MakeTemp in faults then r == t else Ours(r, Temp(input.temp))
  {
    hide WriteRelease, NextRevision, BuildManifest;
    var temp := Temp(input.temp);
    var made := Do(Start(t), MakeTemp, faults, AddFolder(t, temp));
    var m := StageRelease(pki, domain, Start(t), input, gen, files, faults).1;
    var ready := Check(made, ChmodTemp !in faults && ReadRevisions !in faults && Recheck !in faults && m.Some?);
    if ready.ok { WriteReleaseOurs(ready, temp, files, m.value, faults); }
  }

  /** With the directory gone, the tree is what it was. */
  lemma DroppedIsBack(t: Tree, s: Tree, id: Id)
    requires Untouched(t, s, {id}) && s.staged == t.staged && id !in t.releases
    ensures DropFolder(s, id) == t
  {
    assert s.releases - {id} == t.releases by {
      forall g ensures g in s.releases - {id} <==> g in t.releases { if g != id { assert SameSlot(t, s, g); } }
      forall g | g in t.releases ensures s.releases[g] == t.releases[g] { assert SameSlot(t, s, g); }
    }
  }

  /** Clean-up of a directory that may be missing, and whose entries are all ours. */
  lemma CleanUpLeaves(t: Tree, d: Io, id: Id, order: seq<EntryName>, faults: set<Step>)
    requires Untouched(t, d.tree, {id}) && d.tree.staged == t.staged && id !in t.releases
    requires d.tree == t || Ours(d.tree, id)
    ensures var r := CleanUp(d, id, order, faults).tree;
      && (d.tree == t || RemovedWhole(id, order, faults) ==> r == t)
      && (d.tree != t && RemoveFolder(id) in faults ==> id in r.releases)
  {
    hide RemoveEntries;
    if d.tree != t {
      RemoveAllResult(Io(d.tree, d.trace, true), id, order, faults);
      DroppedIsBack(t, d.tree, id);
    }
  }

  // ---- a publish that fails ----

  /** The publish gets as far as making its temporary directory. */
  ghost predicate Begins(pki: Pki, domain: string, t: Tree, input: PublishInput, faults: set<Step>) {
    && ReadStaging(pki, domain, input.staging, input.sans, input.clock).Some? && ReadsUnhindered(faults)
    && PickFresh(t.releases.Keys, input.tokens, 8).Some? && Temp(input.temp) !in t.releases && MakeTemp !in faults
  }

  /** A publish that does not get its release into place leaves the whole tree as it was, unless its temporary
      directory cannot be removed. */
  lemma UnstagedLeaves(pki: Pki, domain: string, t: Tree, input: PublishInput, faults: set<Step>)
    requires Sound(pki, domain, t) && !Staged(pki, domain, t, input, faults)
    ensures var (r, temp) := (Publish(pki, domain, t, input, faults).disk.tree, Temp(input.temp));
      && (!Begins(pki, domain, t, input, faults) || RemovedWhole(temp, input.order, faults) ==> r == t)
      && (Begins(pki, domain, t, input, faults) && RemoveFolder(temp) in faults ==> temp in r.releases)
  {
    hide Publish, PublishFiles, StageRelease, CleanUp, ReadStaging, PickFresh, RemovedWhole, Staged, Sound;
    PublishUnfolds(pki, domain, t, input, faults);
    var files := ReadStaging(pki, domain, input.staging, input.sans, input.clock);
    var gen := PickFresh(t.releases.Keys, input.tokens, 8);
    if files.Some? && gen.Some? && Temp(input.temp) !in t.releases && ReadsUnhindered(faults) {
      UnstagedFails(pki, domain, t, input, gen.value, files.value, faults);
      var moved := StageRelease(pki, domain, Start(t), input, gen.value, files.value, faults).0;
      StageReleaseResult(pki, domain, t, input, gen.value, files.value, faults);
      StageFailureLeaves(pki, domain, t, input, gen.value, files.value, faults);
      PublishFilesTrace(pki, domain, t, input, gen.value, files.value, faults);
      CleanUpLeaves(t, moved, Temp(input.temp), input.order, faults);
    }
  }

  lemma UnstagedFails(pki: Pki, domain: string, t: Tree, input: PublishInput, gen: Id, files: map<FileName, Data>,
                      faults: set<Step>)
    requires !Staged(pki, domain, t, input, faults) && ReadsUnhindered(faults) && Temp(input.temp) !in t.releases
    requires ReadStaging(pki, domain, input.staging, input.sans, input.clock) == Some(files)
    requires PickFresh(t.releases.Keys, input.tokens, 8) == Some(gen)
    requires files.Keys == {Cert, Key, Fullchain, Ca, TimeLog}
    ensures !StageRelease(pki, domain, Start(t), input, gen, files, faults).0.ok
  {
    StageReleaseOk(pki, domain, t, input, gen, files, faults);
    hide StageRelease, NextRevision, BuildManifest, PickFresh, ReadStaging, StageUnhindered;
  }

  /** A publish that fails with its release in place removes it again, entry by entry, leaves every other release
      and the old store as they were, and of the temporary pointers what writeCurrent leaves. */
  lemma StagedLeaves(pki: Pki, domain: string, t: Tree, input: PublishInput, faults: set<Step>)
    requires Sound(pki, domain, t) && Staged(pki, domain, t, input, faults)
    requires !Publish(pki, domain, t, input, faults).disk.ok
    ensures var (r, gen) :=
        (Publish(pki, domain, t, input, faults).disk.tree, PickFresh(t.releases.Keys, input.tokens, 8).value);
      && (gen in r.releases <==> !RemovedWhole(gen, input.order, faults))
      && r.releases - {gen} == t.releases && r.legacy == t.legacy
      && r.staged == if SyncReleases in faults then t.staged else PointersLeft(t, gen, input.names, faults)
  {
    hide Publish, PublishFiles, StageRelease, CleanUp, ReadStaging, PickFresh, RemovedWhole, Commits, Sound, Counts,
      NextRevision, BuildManifest, WriteCurrent, PointersLeft;
    PublishUnfolds(pki, domain, t, input, faults);
    var files := ReadStaging(pki, domain, input.staging, input.sans, input.clock).value;
    var gen := PickFresh(t.releases.Keys, input.tokens, 8).value;
    StageReleaseResult(pki, domain, t, input, gen, files, faults);
    StageReleaseOk(pki, domain, t, input, gen, files, faults);
    PublishFilesTrace(pki, domain, t, input, gen, files, faults);
    var m := BuildManifest(pki, domain, gen, NextRevision(pki, domain, t).value, input.sans, files).value;
    var moved := StageRelease(pki, domain, Start(t), input, gen, files, faults).0;
    BuiltIsComplete(files, m);
    SoundCaptures(pki, domain, t);
    CommitLeaves(t, moved, gen, BuiltDir(files, m), input, faults);
  }

  lemma SoundCaptures(pki: Pki, domain: string, t: Tree)
    requires Sound(pki, domain, t)
    ensures CanCapture(t.current)
  {
  }

  /** The tree at clean-up, after a commit that fails. */
  lemma UncommittedLeaves(t: Tree, moved: Io, gen: Id, dir: Dir, input: PublishInput, faults: set<Step>) returns (d: Io)
    requires gen !in t.releases && ValidId(gen) && CanCapture(t.current)
    requires moved.ok && moved.tree == t.(releases := t.releases[gen := Folder(dir)])
    requires !Commit(moved, gen, input, faults).ok
    ensures Commit(moved, gen, input, faults) == CleanUp(d, gen, input.order, faults)
    ensures d.tree.releases == moved.tree.releases && d.tree.legacy == t.legacy
    ensures d.tree.staged == if SyncReleases in faults then t.staged else PointersLeft(t, gen, input.names, faults)
  {
    var synced := Do(moved, SyncReleases, faults, moved.tree);
    d := if synced.ok then WriteCurrent(synced, gen, input.names, faults) else synced;
    CommitUnfolds(moved, gen, input, faults);
    if synced.ok { WriteCurrentLeaves(synced, gen, input.names, faults); }
    hide Commit, WriteCurrent, CleanUp;
  }

  lemma CommitLeaves(t: Tree, moved: Io, gen: Id, dir: Dir, input: PublishInput, faults: set<Step>)
    requires gen !in t.releases && ValidId(gen) && CompleteContents(dir) && CanCapture(t.current)
    requires moved.ok && moved.tree == t.(releases := t.releases[gen := Folder(dir)])
    requires !Commit(moved, gen, input, faults).ok
    ensures var r := Commit(moved, gen, input, faults).tree;
      && (gen in r.releases <==> !RemovedWhole(gen, input.order, faults))
      && r.releases - {gen} == t.releases && r.legacy == t.legacy
      && r.staged == if SyncReleases in faults then t.staged else PointersLeft(t, gen, input.names, faults)
  {
    hide Commit, PointersLeft, CompleteContents, RemovedWhole, CleanUp, CanCapture, ValidId;
    var d := UncommittedLeaves(t, moved, gen, dir, input, faults);
    RemovalLeaves(d, gen, dir, input.order, faults);
    assert moved.tree.releases - {gen} == t.releases;
  }

  lemma RemovalLeaves(d: Io, gen: Id, dir: Dir, order: seq<EntryName>, faults: set<Step>)
    requires FolderAt(d.tree, gen) == Some(dir) && CompleteContents(dir)
    ensures var r := CleanUp(d, gen, order, faults).tree;
      && (gen in r.releases <==> !RemovedWhole(gen, order, faults))
      && r.releases - {gen} == d.tree.releases - {gen} && r.legacy == d.tree.legacy && r.staged == d.tree.staged
  {
    var from := Io(d.tree, d.trace, true);
    RemoveAllResult(from, gen, order, faults);
    RemovedWholeIff(d.tree, gen, dir, order, faults);
    RemoveAllStaging(d.tree, d.trace, from, {gen}, gen, order, faults);
    var r := CleanUp(d, gen, order, faults).tree;
    hide RemoveAll, RemovedWhole, CompleteContents;
    forall g | g != gen ensures SameSlot(d.tree, r, g) {}
    forall g ensures g in r.releases - {gen} <==> g in d.tree.releases - {gen} {
      if g != gen { assert SameSlot(d.tree, r, g); }
    }
    forall g | g in d.tree.releases - {gen} ensures r.releases[g] == d.tree.releases[g] {
      assert SameSlot(d.tree, r, g);
    }
  }
}
