/** Where the store's guarantees stop: the exact conditions, read off the tree and the fault plan. */
module CertBoundaries {
  import opened Common
  import opened FileTree
  import opened CertRuns
  import opened CertSafety
  import opened CertRemoval
  import opened PublishSafety

  /** When the switch sticks, `current` names the new release, and the publish ends soundly exactly if clean-up
      removes nothing of it. */
  lemma StuckIsSoundIff(pki: Pki, domain: string, t: Tree, input: PublishInput, faults: set<Step>)
    requires Sound(pki, domain, t) && Staged(pki, domain, t, input, faults) && Sticks(t, input.names, faults)
    ensures var r := Publish(pki, domain, t, input, faults);
      && !r.disk.ok && r.disk.tree.current == Link(r.gen)
      && (Sound(pki, domain, r.disk.tree) <==> !Removes(r.gen, input.order, faults))
  {
    PublishIsSafe(pki, domain, t, input, faults);
    PublishUnfolds(pki, domain, t, input, faults);
    var files := ReadStaging(pki, domain, input.staging, input.sans, input.clock).value;
    var gen := PickFresh(t.releases.Keys, input.tokens, 8).value;
    var r := Publish(pki, domain, t, input, faults);
    if Removes(gen, input.order, faults) { StuckFiles(pki, domain, t, input, gen, files, faults); }
  }

  lemma StuckFiles(pki: Pki, domain: string, t: Tree, input: PublishInput, gen: Id, files: map<FileName, Data>,
                   faults: set<Step>)
    requires Sound(pki, domain, t) && files.Keys == {Cert, Key, Fullchain, Ca, TimeLog}
    requires gen !in t.releases && Temp(input.temp) !in t.releases && ValidId(gen) && !gen.Temp?
    requires StageUnhindered(faults) && Sticks(t, input.names, faults) && Removes(gen, input.order, faults)
    requires NextRevision(pki, domain, t).Some?
      && BuildManifest(pki, domain, gen, NextRevision(pki, domain, t).value, input.sans, files).Some?
    ensures !Sound(pki, domain, PublishFiles(pki, domain, Start(t), input, gen, files, faults).disk.tree)
  {
    StageReleaseResult(pki, domain, t, input, gen, files, faults);
    StageReleaseOk(pki, domain, t, input, gen, files, faults);
    var moved := StageRelease(pki, domain, Start(t), input, gen, files, faults).0;
    MovingAdvances(pki, domain, t, moved, Temp(input.temp), gen, files, input.sans);
    CommitSwitches(pki, domain, t, moved, gen, files, input, faults);
    var m := BuildManifest(pki, domain, gen, NextRevision(pki, domain, t).value, input.sans, files).value;
    BuiltIsComplete(files, m);
    RemovedIsUnsound(pki, domain, WriteCurrent(Do(moved, SyncReleases, faults, moved.tree), gen, input.names, faults),
      gen, BuiltDir(files, m), input.order, faults);
  }

  /** Nothing good is left at `current` once clean-up has begun to remove the release it links to. */
  lemma RemovedIsUnsound(pki: Pki, domain: string, d: Io, gen: Id, dir: Dir, order: seq<EntryName>, faults: set<Step>)
    requires d.tree.current == Link(gen) && FolderAt(d.tree, gen) == Some(dir) && CompleteContents(dir)
      && Removes(gen, order, faults)
    ensures !Sound(pki, domain, CleanUp(d, gen, order, faults).tree)
  {
    RemovesIff(dir, gen, order, faults);
    RemoveAllResult(Io(d.tree, d.trace, true), gen, order, faults);
    PartialReleaseUnreadable(pki, domain, gen, dir, Removable(gen, order, faults));
    CleanUpKeepsCurrent(d, gen, order, faults);
  }

  predicate Listed(order: seq<EntryName>) { exists e :: e in order && !e.Other? }

  lemma UnclashedIsSafe(pki: Pki, domain: string, t: Tree, input: PublishInput, faults: set<Step>)
    requires Sound(pki, domain, t) && Stageable(pki, domain, t, input) && RestoreWorks(t, input.names, faults)
    requires NoClash(t, input) || !Listed(input.order)
    ensures AllAdvance(pki, domain, t, Publish(pki, domain, t, input, faults).disk)
  {
    NotBroken(pki, domain, t, input, faults);
    hide *;
    PublishIsSafe(pki, domain, t, input, faults);
  }

  lemma NotBroken(pki: Pki, domain: string, t: Tree, input: PublishInput, faults: set<Step>)
    requires RestoreWorks(t, input.names, faults) && (NoClash(t, input) || !Listed(input.order))
    ensures !Breaks(pki, domain, t, input, faults)
  {
  }

  lemma ClashBreaks(pki: Pki, domain: string, t: Tree, input: PublishInput)
    requires Stageable(pki, domain, t, input) && !NoClash(t, input) && Listed(input.order)
    ensures RestoreWorks(t, input.names, {SyncReleases}) && Breaks(pki, domain, t, input, {SyncReleases})
  {
    var e :| e in input.order && !e.Other?;
    assert RemoveEntry(PickFresh(t.releases.Keys, input.tokens, 8).value, e) !in {SyncReleases};
  }

  /** The drawn name: over all fault plans that leave the restore possible, a publish that can put its release
      in place is safe exactly if the name drawn is not the one an old text pointer uses, or clean-up is never
      told of an entry to remove. */
  lemma ClashIff(pki: Pki, domain: string, t: Tree, input: PublishInput)
    requires Sound(pki, domain, t) && Stageable(pki, domain, t, input)
    ensures (forall faults :: RestoreWorks(t, input.names, faults) ==>
      AllAdvance(pki, domain, t, Publish(pki, domain, t, input, faults).disk)) <==>
            NoClash(t, input) || !Listed(input.order)
  {
    hide *;
    if NoClash(t, input) || !Listed(input.order) {
      forall faults | RestoreWorks(t, input.names, faults) ensures AllAdvance(pki, domain, t,
        Publish(pki, domain, t, input, faults).disk) {
        UnclashedIsSafe(pki, domain, t, input, faults);
      }
    } else {
      ClashBreaks(pki, domain, t, input);
      PublishIsSafe(pki, domain, t, input, {SyncReleases});
    }
  }

  // ---- what a failed publish leaves for readers ----

  /** Clean-up removes every entry of the release, and then the directory. */
  ghost predicate RemovedWhole(id: Id, order: seq<EntryName>, faults: set<Step>) {
    RemoveFolder(id) !in faults && forall e: EntryName :: !e.Other? ==> e in order && RemoveEntry(id, e) !in faults
  }

  lemma RemovedWholeIff(t: Tree, id: Id, dir: Dir, order: seq<EntryName>, faults: set<Step>)
    requires FolderAt(t, id) == Some(dir) && CompleteContents(dir)
    ensures RemovalWorks(t, id, order, faults) <==> RemovedWhole(id, order, faults)
  {
    CompleteNames(dir);
  }

  /** A publish that does not get its release into place leaves nothing but its temporary directory. */
  lemma UnstagedIsUntouched(pki: Pki, domain: string, t: Tree, input: PublishInput, faults: set<Step>)
    requires Sound(pki, domain, t) && !Staged(pki, domain, t, input, faults)
    ensures Untouched(t, Publish(pki, domain, t, input, faults).disk.tree, {Temp(input.temp)})
  {
    PublishUnfolds(pki, domain, t, input, faults);
    var files := ReadStaging(pki, domain, input.staging, input.sans, input.clock);
    var gen := PickFresh(t.releases.Keys, input.tokens, 8);
    if files.Some? && gen.Some? && Temp(input.temp) !in t.releases && ReadsUnhindered(faults) {
      UnstagedFiles(pki, domain, t, input, gen.value, files.value, faults);
    }
  }

  lemma UnstagedFiles(pki: Pki, domain: string, t: Tree, input: PublishInput, gen: Id, files: map<FileName, Data>,
                      faults: set<Step>)
    requires files.Keys == {Cert, Key, Fullchain, Ca, TimeLog}
    requires gen !in t.releases && Temp(input.temp) !in t.releases && !gen.Temp?
    requires StageUnhindered(faults) && NextRevision(pki, domain, t).Some? ==>
      BuildManifest(pki, domain, gen, NextRevision(pki, domain, t).value, input.sans, files).None?
    ensures Untouched(t, PublishFiles(pki, domain, Start(t), input, gen, files, faults).disk.tree, {Temp(input.temp)})
  {
    var temp := Temp(input.temp);
    StageReleaseResult(pki, domain, t, input, gen, files, faults);
    StageReleaseOk(pki, domain, t, input, gen, files, faults);
    var moved := StageRelease(pki, domain, Start(t), input, gen, files, faults).0;
    RemoveAllStaging(t, [], Io(moved.tree, moved.trace, true), {temp}, temp, input.order, faults);
  }

  /** The publish fails with `current` naming the release it made. */
  ghost predicate Strays(pki: Pki, domain: string, t: Tree, input: PublishInput, faults: set<Step>) {
    && Staged(pki, domain, t, input, faults) && !Commits(t, input.names, faults)
    && NamedAtCleanUp(t, PickFresh(t.releases.Keys, input.tokens, 8).value, input.names, faults)
  }

  /** The old text reads as before, once the release that came in its way is gone altogether. */
  ghost predicate Recedes(t: Tree, gen: Id, input: PublishInput, faults: set<Step>) {
    t.current == Text(gen) && !Sticks(t, input.names, faults) && RemovedWhole(gen, input.order, faults)
  }

  /** What readers of `current` get after a publish that fails: what they got before, unless it strays. Then it
      is the new release if nothing of it was removed, what they got before if it recedes, and nothing else. */
  lemma FailureReads(pki: Pki, domain: string, t: Tree, input: PublishInput, faults: set<Step>)
    requires Sound(pki, domain, t) && !Publish(pki, domain, t, input, faults).disk.ok
    ensures var (r, before) := (Publish(pki, domain, t, input, faults), ReadCurrent(pki, domain, t));
      var after := ReadCurrent(pki, domain, r.disk.tree);
      if !Strays(pki, domain, t, input, faults) then after == before
      else if !Removes(r.gen, input.order, faults) then after.Reading? && Newest(pki, domain, t, after.loaded)
      else if Recedes(t, r.gen, input, faults) then after == before
      else !after.Reading?
  {
    PublishIsSafe(pki, domain, t, input, faults);
    PublishUnfolds(pki, domain, t, input, faults);
    if !Staged(pki, domain, t, input, faults) {
      UnstagedIsUntouched(pki, domain, t, input, faults);
      UntouchedReads(pki, domain, t, Publish(pki, domain, t, input, faults).disk.tree, {Temp(input.temp)});
    } else {
      var files := ReadStaging(pki, domain, input.staging, input.sans, input.clock).value;
      var gen := PickFresh(t.releases.Keys, input.tokens, 8).value;
      LinkIsNew(pki, domain, t, gen);
      if Strays(pki, domain, t, input, faults) {
        StrayFiles(pki, domain, t, input, gen, files, faults);
      } else {
        UntouchedReads(pki, domain, t, Publish(pki, domain, t, input, faults).disk.tree, {Temp(input.temp), gen});
      }
    }
  }

  lemma StrayFiles(pki: Pki, domain: string, t: Tree, input: PublishInput, gen: Id, files: map<FileName, Data>,
                   faults: set<Step>)
    requires Sound(pki, domain, t) && files.Keys == {Cert, Key, Fullchain, Ca, TimeLog}
    requires gen !in t.releases && Temp(input.temp) !in t.releases && ValidId(gen) && !gen.Temp?
    requires StageUnhindered(faults) && !Commits(t, input.names, faults)
    requires NamedAtCleanUp(t, gen, input.names, faults) && NextRevision(pki, domain, t).Some?
    requires BuildManifest(pki, domain, gen, NextRevision(pki, domain, t).value, input.sans, files).Some?
    ensures var r := PublishFiles(pki, domain, Start(t), input, gen, files, faults).disk.tree;
      var (before, after) := (ReadCurrent(pki, domain, t), ReadCurrent(pki, domain, r));
      if !Removes(gen, input.order, faults) then after.Reading? && Newest(pki, domain, t, after.loaded)
      else if Recedes(t, gen, input, faults) then after == before
      else !after.Reading?
  {
    StageReleaseResult(pki, domain, t, input, gen, files, faults);
    StageReleaseOk(pki, domain, t, input, gen, files, faults);
    PublishFilesTrace(pki, domain, t, input, gen, files, faults);
    var moved := StageRelease(pki, domain, Start(t), input, gen, files, faults).0;
    var m := BuildManifest(pki, domain, gen, NextRevision(pki, domain, t).value, input.sans, files).value;
    assert moved.tree == t.(releases := t.releases[gen := Folder(BuiltDir(files, m))]);
    var synced := Do(moved, SyncReleases, faults, moved.tree);
    var d := if synced.ok then WriteCurrent(synced, gen, input.names, faults) else synced;
    CommitUnfolds(moved, gen, input, faults);
    hide *;
    MovingAdvances(pki, domain, t, moved, Temp(input.temp), gen, files, input.sans);
    CommitSwitches(pki, domain, t, moved, gen, files, input, faults);
    BuiltIsComplete(files, m);
    StrayRemoved(pki, domain, t, d, gen, BuiltDir(files, m), input, faults);
    if !Removes(gen, input.order, faults) { StrayReads(pki, domain, t, d.tree, gen, files, input, faults); }
  }

  lemma CommitUnfolds(moved: Io, gen: Id, input: PublishInput, faults: set<Step>)
    ensures var synced := Do(moved, SyncReleases, faults, moved.tree);
      var d := if synced.ok then WriteCurrent(synced, gen, input.names, faults) else synced;
      Commit(moved, gen, input, faults) == if d.ok then d else CleanUp(d, gen, input.order, faults)
  {
  }

  lemma StrayReads(pki: Pki, domain: string, t: Tree, s: Tree, gen: Id, files: map<FileName, Data>, input: PublishInput,
                   faults: set<Step>)
    requires files.Keys == {Cert, Key, Fullchain, Ca, TimeLog} && ValidId(gen) && !gen.Temp?
    requires NamedAtCleanUp(t, gen, input.names, faults) && NextRevision(pki, domain, t).Some?
    requires BuildManifest(pki, domain, gen, NextRevision(pki, domain, t).value, input.sans, files).Some?
    requires var m := BuildManifest(pki, domain, gen, NextRevision(pki, domain, t).value, input.sans, files).value;
      AtSwitch(t.(releases := t.releases[gen := Folder(BuiltDir(files, m))]), s, gen)
    requires s.current == if Sticks(t, input.names, faults) then Link(gen) else t.current
    ensures ReadCurrent(pki, domain, s).Reading? && Newest(pki, domain, t, ReadCurrent(pki, domain, s).loaded)
  {
    NextRevisionExceeds(pki, domain, t, gen);
    SwitchedAdvances(pki, domain, t, s, gen, files, input.sans);
    forall g { NextRevisionExceeds(pki, domain, t, g); }
  }

  /** With the release gone, the link leads nowhere, and the old text reads as before. */
  lemma GoneReads(pki: Pki, domain: string, t: Tree, s: Tree, gen: Id, dir: Dir)
    requires gen !in t.releases && AtSwitch(t.(releases := t.releases[gen := Folder(dir)]), s, gen)
    ensures s.current == Link(gen) ==> !ReadCurrent(pki, domain, DropFolder(s, gen)).Reading?
    ensures s.current == t.current ==> ReadCurrent(pki, domain, DropFolder(s, gen)) == ReadCurrent(pki, domain, t)
  {
    assert t.releases[gen := Folder(dir)] - {gen} == t.releases;
  }

  lemma PartReads(pki: Pki, domain: string, r: Tree, gen: Id, dir: Dir, gone: set<EntryName>)
    requires PointsTo(r.current, gen) && FolderAt(r, gen) == Some(dir - gone) && CompleteContents(dir)
      && !(dir.Keys !! gone)
    ensures !ReadCurrent(pki, domain, r).Reading?
  {
    PartialReleaseUnreadable(pki, domain, gen, dir, gone);
  }

  lemma StrayRemoved(pki: Pki, domain: string, t: Tree, d: Io, gen: Id, dir: Dir, input: PublishInput,
                     faults: set<Step>)
    requires gen !in t.releases && CompleteContents(dir) && AllAdvance(pki, domain, t, d)
    requires AtSwitch(t.(releases := t.releases[gen := Folder(dir)]), d.tree, gen)
      && NamedAtCleanUp(t, gen, input.names, faults)
    requires d.tree.current == if Sticks(t, input.names, faults) then Link(gen) else t.current
    ensures var r := CleanUp(d, gen, input.order, faults).tree;
      if !Removes(gen, input.order, faults) then r == d.tree
      else if Recedes(t, gen, input, faults) then ReadCurrent(pki, domain, r) == ReadCurrent(pki, domain, t)
      else !ReadCurrent(pki, domain, r).Reading?
  {
    var from := Io(d.tree, d.trace, true);
    assert CleanUp(d, gen, input.order, faults) == Fail(RemoveAll(from, gen, input.order, faults));
    assert FolderAt(d.tree, gen) == Some(dir) && PointsTo(d.tree.current, gen);
    assert Recedes(t, gen, input, faults) <==>
      d.tree.current == t.current && !Sticks(t, input.names, faults) && RemovedWhole(gen, input.order, faults);
    assert Fail(RemoveAll(from, gen, input.order, faults)).tree == RemoveAll(from, gen, input.order, faults).tree;
    hide *;
    CleanUpAtCurrent(pki, domain, t, d, gen, dir, input.order, faults);
    RemoveAllResult(from, gen, input.order, faults);
    RemovedWholeIff(d.tree, gen, dir, input.order, faults);
    RemovesIff(dir, gen, input.order, faults);
    CleanUpKeepsCurrent(d, gen, input.order, faults);
    if Removes(gen, input.order, faults) {
      if RemoveAll(from, gen, input.order, faults).ok {
        GoneReads(pki, domain, t, d.tree, gen, dir);
      } else {
        PartReads(pki, domain, CleanUp(d, gen, input.order, faults).tree, gen, dir,
          Removable(gen, input.order, faults));
      }
    }
  }
}
