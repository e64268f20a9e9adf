/** A release that a crash inside its removal has left half removed: the store never gets rid of it, and
    while it lies there no certificate is ever replaced. */
module CertDamage {
  import opened Common
  import opened FileTree
  import opened CertRuns
  import opened CertSafety
  import opened CertRemoval
  import opened PublishSafety
  import opened CertMaintenance
  import opened CertGc
  import opened CertHistory

  /** The directory counts as a generation, but is not one that loads. */
  predicate Damaged(t: Tree, id: Id) {
    Counts(id) && FolderAt(t, id).Some? && !CompleteContents(FolderAt(t, id).value)
  }

  /** Abort passes its checks. */
  predicate Abortable(pki: Pki, domain: string, t: Tree, gen: Id) {
    var current := ReadCurrent(pki, domain, t);
    && Counts(gen) && !current.Refused? && !(current.Reading? && current.gen == gen)
    && FolderAt(t, gen).Some? && CompleteContents(FolderAt(t, gen).value)
  }

  lemma DamageBlocks(pki: Pki, domain: string, t: Tree, id: Id)
    requires Damaged(t, id)
    ensures NextRevision(pki, domain, t).None?
  {
    assert Judge(pki, domain, id, t.releases[id]).Unreadable?;
    assert Verdicts(pki, domain, t.releases)[id].Unreadable?;
  }

  /** A publish into a damaged store fails before it changes anything but its temporary directory. */
  lemma BlockedPublish(pki: Pki, domain: string, t: Tree, id: Id, input: PublishInput, faults: set<Step>)
    requires Damaged(t, id)
    ensures var r := Publish(pki, domain, t, input, faults).disk; !r.ok && Staging(t, [], r, {Temp(input.temp)})
    ensures Temp(input.temp) in t.releases ==> Publish(pki, domain, t, input, faults).disk.trace == [t]
  {
    var files := if ReadStagingDir in faults then None
      else ReadStaging(pki, domain, input.staging, input.sans, input.clock);
    var gen := PickFresh(t.releases.Keys, input.tokens, 8);
    var d := Check(Start(t), files.Some? && MakeDirs !in faults && ReadPointer !in faults
                             && !ReadCurrent(pki, domain, t).Refused? && gen.Some? && Temp(input.temp) !in t.releases);
    if d.ok {
      StagingHasAllFiles(pki, domain, input.staging, input.sans, input.clock);
      BlockedFiles(pki, domain, t, id, input, gen.value, files.value, faults);
    } else {
      assert d.tree == t && d.trace == [t];
    }
  }

  lemma BlockedFiles(pki: Pki, domain: string, t: Tree, id: Id, input: PublishInput, gen: Id,
                     files: map<FileName, Data>, faults: set<Step>)
    requires Damaged(t, id) && files.Keys == {Cert, Key, Fullchain, Ca, TimeLog}
    requires gen !in t.releases && Temp(input.temp) !in t.releases && !gen.Temp?
    ensures var r := PublishFiles(pki, domain, Start(t), input, gen, files, faults).disk;
      !r.ok && Staging(t, [], r, {Temp(input.temp)})
  {
    var temp := Temp(input.temp);
    DamageBlocks(pki, domain, t, id);
    StageReleaseResult(pki, domain, t, input, gen, files, faults);
    var moved := StageRelease(pki, domain, Start(t), input, gen, files, faults).0;
    RemoveAllStaging(t, [], Io(moved.tree, moved.trace, true), {temp}, temp, input.order, faults);
  }

  lemma AbortStaging(pki: Pki, domain: string, t: Tree, gen: Id, order: seq<EntryName>, faults: set<Step>)
    ensures var r := Abort(pki, domain, t, gen, order, faults);
      && Staging(t, [], r, {gen})
      && (!Abortable(pki, domain, t, gen) && !gen.Temp? ==> r.tree == t && r.trace == [t])
      && (ReadCurrent(pki, domain, t).Reading? && ReadCurrent(pki, domain, t).gen == gen ==>
           r.tree == t && r.trace == [t])
  {
    var current := ReadCurrent(pki, domain, t);
    var d := Check(Start(t), ValidId(gen) && ReadPointer !in faults && !current.Refused?
      && !(current.Reading? && current.gen == gen)
                             && gen in t.releases && t.releases[gen].Folder? && CompleteContents(t.releases[gen].dir));
    if d.ok {
      RemoveAllStaging(t, [], d, {gen}, gen, order, faults);
      var removed := RemoveAll(d, gen, order, faults);
      DoStaging(t, [], removed, {gen}, SyncReleases, faults, removed.tree);
    }
  }

  lemma CollectStaging(pki: Pki, domain: string, t: Tree, options: GcOptions, ranked: seq<Candidate>, orders: Listings,
                       faults: set<Step>)
    requires Ranks(pki, domain, t, ranked)
    ensures Staging(t, [], Collect(pki, domain, t, options, ranked, orders, faults).disk,
      Tried(CurrentId(pki, domain, t), options, ranked))
  {
    var current := CurrentId(pki, domain, t);
    var tried := Tried(current, options, ranked);
    RanksAreCandidates(pki, domain, t, ranked);
    SweepResult(pki, domain, t, current, options, ranked, orders, faults);
    var s := SweepAll(t, current, options, ranked, orders, faults);
    DoStaging(t, [], s.disk, tried, SyncReleases, faults, s.disk.tree);
  }

  // ---- the damaged release stays ----

  /** At every step of the run the release at `id` is what it was in `t`. */
  ghost predicate Stays(t: Tree, d: Io, id: Id) {
    (forall s :: s in d.trace ==> SameSlot(t, s, id)) && SameSlot(t, d.tree, id)
  }

  lemma StagingStays(t: Tree, d: Io, ids: set<Id>, id: Id)
    requires Staging(t, [], d, ids) && id !in ids
    ensures Stays(t, d, id)
  {
    forall s | s in d.trace ensures SameSlot(t, s, id) { assert Untouched(t, s, ids); }
  }

  lemma DoStays(t: Tree, d: Io, id: Id, step: Step, faults: set<Step>, next: Tree)
    requires Stays(t, d, id) && SameSlot(t, next, id)
    ensures Stays(t, Do(d, step, faults, next), id) && Stays(t, Attempt(d, step, faults, next), id)
  {
    forall s | s in d.trace + [next] ensures SameSlot(t, s, id) { assert s in d.trace || s == next; }
  }

  lemma SwitchStays(t: Tree, d: Io, id: Id, gen: Id, names: Names, faults: set<Step>)
    requires Stays(t, d, id) && d.ok && ValidId(gen) && FolderAt(d.tree, gen).Some? && CanCapture(d.tree.current)
    ensures Stays(t, WriteCurrent(d, gen, names, faults), id)
  {
    WriteCurrentResult(d, gen, names, faults);
    var r := WriteCurrent(d, gen, names, faults);
    forall s | s in r.trace ensures SameSlot(t, s, id) {
      if s !in d.trace { assert AtSwitch(d.tree, s, gen); }
    }
  }

  lemma MoveStays(t: Tree, d: Io, id: Id, gen: Id, names: Names, faults: set<Step>)
    requires Stays(t, d, id) && d.ok && d.tree.current == Text(gen) && ValidId(gen) && gen != id
    requires gen !in d.tree.releases && gen in d.tree.legacy && d.tree.legacy[gen].Folder?
    ensures Stays(t, MoveAndSwitch(d, gen, names, faults), id)
  {
    var in' := MoveIn(d.tree, gen);
    DoStays(t, d, id, MoveLegacy, faults, in');
    var moved := Do(d, MoveLegacy, faults, in');
    if moved.ok {
      DoStays(t, moved, id, SyncMoved, faults, in');
      var once := Do(moved, SyncMoved, faults, in');
      DoStays(t, once, id, SyncLegacy, faults, in');
      var synced := Do(once, SyncLegacy, faults, in');
      if synced.ok { SwitchStays(t, synced, id, gen, names, faults); }
      var switched := if synced.ok then WriteCurrent(synced, gen, names, faults) else synced;
      DoStays(t, switched, id, MoveBack, faults, MoveOut(switched.tree, gen));
    }
  }

  lemma MigrationStays(pki: Pki, domain: string, t: Tree, id: Id, names: Names, faults: set<Step>)
    requires id in t.releases
    ensures Stays(t, Migrate(pki, domain, t, names, faults), id)
  {
    if ReadPointer !in faults && ReadCurrent(pki, domain, t).Reading? && t.current.Text? {
      var gen := t.current.gen;
      if gen in t.releases {
        SwitchStays(t, Start(t), id, gen, names, faults);
      } else if MakeDirs !in faults {
        MoveStays(t, Start(t), id, gen, names, faults);
      }
    }
  }

  /** The collection works on the ranking of its candidates; nothing else is asked of an operation. */
  ghost predicate Possible(pki: Pki, domain: string, t: Tree, op: Op) {
    op.DoCollect? ==> Ranks(pki, domain, t, op.ranked)
  }

  // ---- how damage comes about ----

  /** Some tree of the run has the release damaged. */
  ghost predicate PassesDamage(d: Io, id: Id) { exists s :: s in d.trace && Damaged(s, id) }

  lemma RemoveAllGrows(d: Io, id: Id, order: seq<EntryName>, faults: set<Step>)
    ensures d.tree in d.trace ==> RemoveAll(d, id, order, faults).tree in RemoveAll(d, id, order, faults).trace
    ensures forall s :: s in d.trace ==> s in RemoveAll(d, id, order, faults).trace
  {
    RemoveEntriesGrows(d, id, order, faults);
  }

  lemma {:induction false} RemoveEntriesGrows(d: Io, id: Id, order: seq<EntryName>, faults: set<Step>)
    ensures d.tree in d.trace ==> RemoveEntries(d, id, order, faults).tree in RemoveEntries(d, id, order, faults).trace
    ensures forall s :: s in d.trace ==> s in RemoveEntries(d, id, order, faults).trace
  {
    if order != [] { RemoveEntriesGrows(d, id, order[..|order| - 1], faults); }
  }

  /** Removing a complete release damages it on the way exactly if some removal of an entry goes through. */
  lemma RemovalDamagesIff(d: Io, id: Id, dir: Dir, order: seq<EntryName>, faults: set<Step>)
    requires d.ok && Counts(id) && FolderAt(d.tree, id) == Some(dir) && CompleteContents(dir) && !PassesDamage(d, id)
    ensures PassesDamage(RemoveAll(d, id, order, faults), id) <==> Removes(id, order, faults)
  {
    var emptied := RemoveEntries(d, id, order, faults);
    var gone := Removable(id, order, faults);
    RemovesIff(dir, id, order, faults);
    RemoveEntriesResult(d, id, order, faults);
    if Removes(id, order, faults) {
      var e :| e in dir && e in gone;
      assert e !in dir - gone;
      RemovalIsSeen(d, id, order, faults);
      assert emptied.tree in emptied.trace && Damaged(emptied.tree, id);
      assert emptied.tree in RemoveAll(d, id, order, faults).trace;
    } else {
      NothingRemoved(d, id, dir, order, faults);
      assert Fixed(Cert) in dir;
    }
  }

  /** Removing another release damages nothing here. */
  lemma RemovalSpares(d: Io, id: Id, other: Id, order: seq<EntryName>, faults: set<Step>)
    requires id != other && d.tree in d.trace
    ensures PassesDamage(RemoveAll(d, other, order, faults), id) <==> PassesDamage(d, id)
  {
    var r := RemoveAll(d, other, order, faults);
    RemoveAllStaging(d.tree, d.trace, d, {other}, other, order, faults);
    RemoveAllGrows(d, other, order, faults);
    forall s | s in r.trace && Damaged(s, id) ensures PassesDamage(d, id) {
      if s !in d.trace {
        assert SameSlot(d.tree, s, id);
        assert Damaged(d.tree, id);
      }
    }
  }

  lemma StagingSpares(t: Tree, d: Io, ids: set<Id>, id: Id)
    requires Staging(t, [], d, ids) && !Damaged(t, id) && (id in ids ==> id.Temp?)
    ensures !PassesDamage(d, id)
  {
    forall s | s in d.trace ensures !Damaged(s, id) {
      assert Untouched(t, s, ids);
      if id !in ids { assert SameSlot(t, s, id); }
    }
  }

  lemma AbortDamagesIff(pki: Pki, domain: string, t: Tree, gen: Id, order: seq<EntryName>, faults: set<Step>, id: Id)
    requires !Damaged(t, id)
    ensures PassesDamage(Abort(pki, domain, t, gen, order, faults), id) <==>
      id == gen && Abortable(pki, domain, t, gen) && ReadPointer !in faults && Removes(gen, order, faults)
  {
    AbortStaging(pki, domain, t, gen, order, faults);
    if id != gen || gen.Temp? {
      StagingSpares(t, Abort(pki, domain, t, gen, order, faults), {gen}, id);
    } else if Abortable(pki, domain, t, gen) && ReadPointer !in faults {
      RemovalDamagesIff(Start(t), gen, FolderAt(t, gen).value, order, faults);
      AbortSyncs(pki, domain, t, gen, order, faults);
    }
  }

  lemma AbortSyncs(pki: Pki, domain: string, t: Tree, gen: Id, order: seq<EntryName>, faults: set<Step>)
    requires Abortable(pki, domain, t, gen) && ReadPointer !in faults
    ensures var removed := RemoveAll(Start(t), gen, order, faults);
      Abort(pki, domain, t, gen, order, faults) == Do(removed, SyncReleases, faults, removed.tree)
    ensures forall s :: s in Abort(pki, domain, t, gen, order, faults).trace <==>
      s in RemoveAll(Start(t), gen, order, faults).trace
  {
    RemoveAllGrows(Start(t), gen, order, faults);
    var removed := RemoveAll(Start(t), gen, order, faults);
    forall s | s in removed.trace + [removed.tree] ensures s in removed.trace {
      assert s in removed.trace || s == removed.tree;
    }
  }

  lemma {:induction false} SweepDamagesIff(pki: Pki, domain: string, t: Tree, current: Id, options: GcOptions,
                                           ranked: seq<Candidate>, orders: Listings, faults: set<Step>, id: Id)
    requires AreCandidates(pki, domain, t, ranked) && !Damaged(t, id)
    ensures var s := SweepAll(t, current, options, ranked, orders, faults).disk;
      && s.tree in s.trace
      && (PassesDamage(s, id) <==> id in Tried(current, options, ranked) && Removes(id, Listing(orders, id), faults))
  {
    if ranked == [] {
      NothingTried(t, current, options, orders, faults);
    } else {
      var n := |ranked| - 1;
      CandidatesInit(pki, domain, t, ranked);
      SweepDamagesIff(pki, domain, t, current, options, ranked[..n], orders, faults, id);
      TriedInit(current, options, ranked);
      if !Spared(current, options, ranked[n], n) {
        SweepStepDamages(pki, domain, t, current, options, ranked, orders, faults, id);
      }
    }
  }

  lemma SweepStepDamages(pki: Pki, domain: string, t: Tree, current: Id, options: GcOptions, ranked: seq<Candidate>,
                         orders: Listings, faults: set<Step>, id: Id)
    requires ranked != [] && AreCandidates(pki, domain, t, ranked)
      && AreCandidates(pki, domain, t, ranked[..|ranked| - 1])
    requires !Spared(current, options, ranked[|ranked| - 1], |ranked| - 1)
    requires var s := SweepAll(t, current, options, ranked[..|ranked| - 1], orders, faults).disk;
      && s.tree in s.trace
      && (PassesDamage(s, id) <==>
           id in Tried(current, options, ranked[..|ranked| - 1]) && Removes(id, Listing(orders, id), faults))
    ensures var s := SweepAll(t, current, options, ranked, orders, faults).disk;
      var tried := Tried(current, options, ranked[..|ranked| - 1]) + {ranked[|ranked| - 1].gen};
      && s.tree in s.trace
      && (PassesDamage(s, id) <==> id in tried && Removes(id, Listing(orders, id), faults))
  {
    hide *;
    var n := |ranked| - 1;
    var c := ranked[n].gen;
    var rest := SweepAll(t, current, options, ranked[..n], orders, faults).disk;
    var from := Io(rest.tree, rest.trace, true);
    var r := RemoveAll(from, c, Listing(orders, c), faults);
    SweepRemoves(t, current, options, ranked, orders, faults);
    LastUntried(pki, domain, t, current, options, ranked);
    SweepResult(pki, domain, t, current, options, ranked[..n], orders, faults);
    CandidateIsComplete(pki, domain, t, ranked, n);
    SamePassing(rest, from, id);
    RemoveAllGrows(from, c, Listing(orders, c), faults);
    if id == c {
      UntriedStays(t, rest, Tried(current, options, ranked[..n]), c);
      RemovalDamagesIff(from, c, FolderAt(t, c).value, Listing(orders, c), faults);
    } else {
      RemovalSpares(from, id, c, Listing(orders, c), faults);
    }
    SamePassing(r, Io(r.tree, r.trace, true), id);
  }

  lemma SweepRemoves(t: Tree, current: Id, options: GcOptions, ranked: seq<Candidate>, orders: Listings,
                     faults: set<Step>)
    requires ranked != [] && !Spared(current, options, ranked[|ranked| - 1], |ranked| - 1)
    ensures var (n, rest) := (|ranked| - 1, SweepAll(t, current, options, ranked[..|ranked| - 1], orders, faults).disk);
      var r := RemoveAll(Io(rest.tree, rest.trace, true), ranked[n].gen, Listing(orders, ranked[n].gen), faults);
      SweepAll(t, current, options, ranked, orders, faults).disk == Io(r.tree, r.trace, true)
  {
  }

  lemma SamePassing(d: Io, e: Io, id: Id)
    requires d.trace == e.trace
    ensures PassesDamage(d, id) <==> PassesDamage(e, id)
  {
  }

  lemma UntriedStays(t: Tree, d: Io, tried: set<Id>, id: Id)
    requires Staging(t, [], d, tried) && id !in tried
    ensures FolderAt(d.tree, id) == FolderAt(t, id)
  {
    assert SameSlot(t, d.tree, id);
  }

  lemma CandidateIsComplete(pki: Pki, domain: string, t: Tree, ranked: seq<Candidate>, i: nat)
    requires AreCandidates(pki, domain, t, ranked) && i < |ranked|
    ensures Counts(ranked[i].gen) && FolderAt(t, ranked[i].gen).Some?
      && CompleteContents(FolderAt(t, ranked[i].gen).value)
  {
    assert ranked[i] in ranked;
  }

  /** The collection passes its checks. */
  ghost predicate Collects(pki: Pki, domain: string, t: Tree, options: GcOptions, faults: set<Step>) {
    ValidOptions(options) && ReadPointer !in faults && ReadRevisions !in faults && !ReadCurrent(pki, domain, t).Refused?
  }

  lemma CollectDamagesIff(pki: Pki, domain: string, t: Tree, options: GcOptions, ranked: seq<Candidate>,
                          orders: Listings, faults: set<Step>, id: Id)
    requires Ranks(pki, domain, t, ranked) && !Damaged(t, id)
    ensures PassesDamage(Collect(pki, domain, t, options, ranked, orders, faults).disk, id) <==>
      && Collects(pki, domain, t, options, faults)
      && IsCandidate(pki, domain, t, id) && !Keeps(pki, domain, t, options, CandidateOf(pki, domain, t, id))
      && Removes(id, Listing(orders, id), faults)
  {
    if Collects(pki, domain, t, options, faults) {
      var current := CurrentId(pki, domain, t);
      RanksAreCandidates(pki, domain, t, ranked);
      SweepDamagesIff(pki, domain, t, current, options, ranked, orders, faults, id);
      TriedIsNotKept(pki, domain, t, options, ranked, id);
      var s := SweepAll(t, current, options, ranked, orders, faults);
      forall x | x in s.disk.trace + [s.disk.tree] ensures x in s.disk.trace {
        assert x in s.disk.trace || x == s.disk.tree;
      }
    } else {
      assert Collect(pki, domain, t, options, ranked, orders, faults).disk.trace == [t];
    }
  }

  /** The publish has its release in place, does not commit it, and clean-up removes some of it. */
  ghost predicate PublishDamages(pki: Pki, domain: string, t: Tree, input: PublishInput, faults: set<Step>, id: Id) {
    && !ReadCurrent(pki, domain, t).Refused?
    && Staged(pki, domain, t, input, faults) && !Commits(t, input.names, faults)
    && id == PickFresh(t.releases.Keys, input.tokens, 8).value && Removes(id, input.order, faults)
  }

  lemma PublishDamagesIff(pki: Pki, domain: string, t: Tree, input: PublishInput, faults: set<Step>, id: Id)
    requires !Damaged(t, id)
    ensures PassesDamage(Publish(pki, domain, t, input, faults).disk, id) <==>
      PublishDamages(pki, domain, t, input, faults, id)
  {
    var files := if ReadStagingDir in faults then None
      else ReadStaging(pki, domain, input.staging, input.sans, input.clock);
    var gen := PickFresh(t.releases.Keys, input.tokens, 8);
    var d := Check(Start(t), files.Some? && MakeDirs !in faults && ReadPointer !in faults
                             && !ReadCurrent(pki, domain, t).Refused? && gen.Some? && Temp(input.temp) !in t.releases);
    if d.ok {
      StagingHasAllFiles(pki, domain, input.staging, input.sans, input.clock);
      FilesDamageIff(pki, domain, t, input, gen.value, files.value, faults, id);
    } else {
      assert d.trace == [t];
    }
  }

  lemma FilesDamageIff(pki: Pki, domain: string, t: Tree, input: PublishInput, gen: Id, files: map<FileName, Data>,
                       faults: set<Step>, id: Id)
    requires !Damaged(t, id) && files.Keys == {Cert, Key, Fullchain, Ca, TimeLog}
    requires gen !in t.releases && Temp(input.temp) !in t.releases && Counts(gen)
      && !ReadCurrent(pki, domain, t).Refused?
    ensures PassesDamage(PublishFiles(pki, domain, Start(t), input, gen, files, faults).disk, id) <==>
      && StageUnhindered(faults) && !Commits(t, input.names, faults) && id == gen && Removes(gen, input.order, faults)
      && NextRevision(pki, domain, t).Some?
      && BuildManifest(pki, domain, gen, NextRevision(pki, domain, t).value, input.sans, files).Some?
  {
    var temp := Temp(input.temp);
    StageReleaseResult(pki, domain, t, input, gen, files, faults);
    StageReleaseOk(pki, domain, t, input, gen, files, faults);
    PublishFilesTrace(pki, domain, t, input, gen, files, faults);
    NotRefusedCaptures(pki, domain, t);
    var moved := StageRelease(pki, domain, Start(t), input, gen, files, faults).0;
    hide *;
    if moved.ok {
      var m := BuildManifest(pki, domain, gen, NextRevision(pki, domain, t).value, input.sans, files).value;
      BuiltIsComplete(files, m);
      MovedDamage(t, moved, temp, gen, BuiltDir(files, m), id);
      CommitDamagesIff(t, moved, gen, BuiltDir(files, m), input, faults, id);
    } else {
      StageFailureSpares(t, moved, temp, input.order, faults, id);
    }
  }

  lemma StageFailureSpares(t: Tree, moved: Io, temp: Id, order: seq<EntryName>, faults: set<Step>, id: Id)
    requires Staging(t, [], moved, {temp}) && !Damaged(t, id) && temp.Temp?
    ensures !PassesDamage(CleanUp(moved, temp, order, faults), id)
  {
    var from := Io(moved.tree, moved.trace, true);
    RemoveAllStaging(t, [], from, {temp}, temp, order, faults);
    StagingSpares(t, RemoveAll(from, temp, order, faults), {temp}, id);
  }

  lemma NotRefusedCaptures(pki: Pki, domain: string, t: Tree)
    requires !ReadCurrent(pki, domain, t).Refused?
    ensures CanCapture(t.current)
  {
  }

  /** Until the release is in place nothing is damaged. */
  lemma MovedDamage(t: Tree, moved: Io, temp: Id, gen: Id, dir: Dir, id: Id)
    requires !Damaged(t, id) && moved.ok && temp.Temp? && CompleteContents(dir)
    requires Moving(t, moved, temp, t.(releases := t.releases[gen := Folder(dir)]))
    ensures !PassesDamage(moved, id) && !Damaged(moved.tree, id)
    ensures moved.tree == t.(releases := t.releases[gen := Folder(dir)])
  {
    forall s | s in moved.trace ensures !Damaged(s, id) {
      if s != moved.tree && id != temp { assert SameSlot(t, s, id); }
    }
  }

  lemma CommitDamagesIff(t: Tree, moved: Io, gen: Id, dir: Dir, input: PublishInput, faults: set<Step>, id: Id)
    requires moved.ok && !PassesDamage(moved, id) && !Damaged(moved.tree, id) && Counts(gen) && CompleteContents(dir)
    requires moved.tree == t.(releases := t.releases[gen := Folder(dir)]) && CanCapture(t.current)
    ensures PassesDamage(Commit(moved, gen, input, faults), id) <==>
      !Commits(t, input.names, faults) && id == gen && Removes(gen, input.order, faults)
  {
    var synced := Do(moved, SyncReleases, faults, moved.tree);
    var switched := if synced.ok then WriteCurrent(synced, gen, input.names, faults) else synced;
    if synced.ok { WriteCurrentResult(synced, gen, input.names, faults); }
    SwitchedDamage(moved, synced, switched, gen, id);
    if !switched.ok {
      var from := Io(switched.tree, switched.trace, true);
      if id == gen {
        RemovalDamagesIff(from, gen, dir, input.order, faults);
      } else {
        OtherCleanUp(from, gen, input.order, faults, id);
      }
    }
  }

  lemma SwitchedDamage(moved: Io, synced: Io, switched: Io, gen: Id, id: Id)
    requires !PassesDamage(moved, id) && !Damaged(moved.tree, id)
    requires synced.tree == moved.tree && (synced.trace == moved.trace || synced.trace == moved.trace + [moved.tree])
    requires switched == synced || Switching(synced.tree, synced.trace, switched, gen)
    ensures !PassesDamage(switched, id) && switched.tree.releases == moved.tree.releases
  {
    forall s | s in switched.trace ensures !Damaged(s, id) {
      if s in synced.trace { assert s in moved.trace || s == moved.tree; }
    }
  }

  lemma OtherCleanUp(d: Io, other: Id, order: seq<EntryName>, faults: set<Step>, id: Id)
    requires id != other && !PassesDamage(d, id) && !Damaged(d.tree, id)
    ensures !PassesDamage(RemoveAll(d, other, order, faults), id)
  {
    RemoveAllStaging(d.tree, d.trace, d, {other}, other, order, faults);
    var r := RemoveAll(d, other, order, faults);
    forall s | s in r.trace ensures !Damaged(s, id) {
      if s !in d.trace { assert SameSlot(d.tree, s, id); }
    }
  }

  /** The release is not damaged, now or earlier in the run. */
  ghost predicate Whole(d: Io, id: Id) { !PassesDamage(d, id) && !Damaged(d.tree, id) }

  lemma DoWhole(d: Io, id: Id, step: Step, faults: set<Step>, next: Tree)
    requires Whole(d, id) && !Damaged(next, id)
    ensures Whole(Do(d, step, faults, next), id) && Whole(Attempt(d, step, faults, next), id)
  {
    forall s | s in d.trace + [next] ensures !Damaged(s, id) { assert s in d.trace || s == next; }
  }

  lemma SwitchWhole(d: Io, id: Id, gen: Id, names: Names, faults: set<Step>)
    requires Whole(d, id) && d.ok && ValidId(gen) && FolderAt(d.tree, gen).Some? && CanCapture(d.tree.current)
    ensures Whole(WriteCurrent(d, gen, names, faults), id)
    ensures WriteCurrent(d, gen, names, faults).tree.releases == d.tree.releases
  {
    WriteCurrentResult(d, gen, names, faults);
    SwitchedDamage(d, d, WriteCurrent(d, gen, names, faults), gen, id);
  }

  lemma MoveWhole(d: Io, id: Id, gen: Id, names: Names, faults: set<Step>)
    requires Whole(d, id) && d.ok && d.tree.current == Text(gen) && ValidId(gen)
    requires gen !in d.tree.releases && gen in d.tree.legacy && d.tree.legacy[gen].Folder?
      && CompleteContents(d.tree.legacy[gen].dir)
    ensures Whole(MoveAndSwitch(d, gen, names, faults), id)
  {
    var in' := MoveIn(d.tree, gen);
    DoWhole(d, id, MoveLegacy, faults, in');
    var moved := Do(d, MoveLegacy, faults, in');
    if moved.ok {
      DoWhole(moved, id, SyncMoved, faults, in');
      var once := Do(moved, SyncMoved, faults, in');
      DoWhole(once, id, SyncLegacy, faults, in');
      var synced := Do(once, SyncLegacy, faults, in');
      if synced.ok { SwitchWhole(synced, id, gen, names, faults); }
      var switched := if synced.ok then WriteCurrent(synced, gen, names, faults) else synced;
      DoWhole(switched, id, MoveBack, faults, MoveOut(switched.tree, gen));
    }
  }

  /** A migration moves a release that loads, and moves it whole. */
  lemma MigrationSpares(pki: Pki, domain: string, t: Tree, names: Names, faults: set<Step>, id: Id)
    requires !Damaged(t, id)
    ensures !PassesDamage(Migrate(pki, domain, t, names, faults), id)
  {
    assert Whole(Start(t), id);
    if ReadPointer !in faults && ReadCurrent(pki, domain, t).Reading? && t.current.Text? {
      var gen := t.current.gen;
      if gen in t.releases {
        SwitchWhole(Start(t), id, gen, names, faults);
      } else if MakeDirs !in faults {
        MoveWhole(Start(t), id, gen, names, faults);
      }
    }
  }

  /** The exact cause of damage, read off the tree, the operation and its faults: the operation removes a
      complete release (an Abort its own, a failing publish the one it made, a collection one that no rule
      keeps), and the removal of some entry goes through. A migration never does. */
  ghost predicate Damages(pki: Pki, domain: string, t: Tree, op: Op, id: Id) {
    match op
    case DoPublish(input, faults) => PublishDamages(pki, domain, t, input, faults, id)
    case DoAbort(gen, order, faults) =>
      id == gen && Abortable(pki, domain, t, gen) && ReadPointer !in faults && Removes(gen, order, faults)
    case DoCollect(options, _, orders, faults) =>
      && Collects(pki, domain, t, options, faults)
      && IsCandidate(pki, domain, t, id) && !Keeps(pki, domain, t, options, CandidateOf(pki, domain, t, id))
      && Removes(id, Listing(orders, id), faults)
    case DoMigrate(_, _) => false
  }

  /** How damage comes about: a crash in an operation can leave a release damaged that was not, exactly if the
      operation damages it. */
  lemma DamagedByIff(pki: Pki, domain: string, t: Tree, op: Op, id: Id)
    requires Possible(pki, domain, t, op) && !Damaged(t, id)
    ensures (exists s :: s in RunOf(pki, domain, t, op).trace && Damaged(s, id)) <==> Damages(pki, domain, t, op, id)
  {
    match op
    case DoPublish(input, faults) => PublishDamagesIff(pki, domain, t, input, faults, id);
    case DoAbort(gen, order, faults) => AbortDamagesIff(pki, domain, t, gen, order, faults, id);
    case DoCollect(options, ranked, orders, faults) =>
      CollectDamagesIff(pki, domain, t, options, ranked, orders, faults, id);
    case DoMigrate(names, faults) => MigrationSpares(pki, domain, t, names, faults, id);
  }

  // ---- and stays ----

  /** Whatever runs, and whatever fails in it, a damaged release is the same at every step. */
  lemma DamageStays(pki: Pki, domain: string, t: Tree, id: Id, op: Op)
    requires Damaged(t, id) && Possible(pki, domain, t, op)
    ensures Stays(t, RunOf(pki, domain, t, op), id)
  {
    match op
    case DoPublish(input, faults) =>
      BlockedPublish(pki, domain, t, id, input, faults);
      StagingStays(t, Publish(pki, domain, t, input, faults).disk, {Temp(input.temp)}, id);
    case DoAbort(gen, order, faults) =>
      AbortStaging(pki, domain, t, gen, order, faults);
      if gen != id { StagingStays(t, Abort(pki, domain, t, gen, order, faults), {gen}, id); }
    case DoCollect(options, ranked, orders, faults) =>
      CollectStaging(pki, domain, t, options, ranked, orders, faults);
      TriedIsNotKept(pki, domain, t, options, ranked, id);
      StagingStays(t, Collect(pki, domain, t, options, ranked, orders, faults).disk,
        Tried(CurrentId(pki, domain, t), options, ranked), id);
    case DoMigrate(names, faults) =>
      MigrationStays(pki, domain, t, id, names, faults);
  }

  /** Any operations, with any faults and draws, each finished or cut off by a crash anywhere. */
  ghost predicate Happens(pki: Pki, domain: string, t: Tree, op: Op, s: Tree) {
    Possible(pki, domain, t, op) && (s in RunOf(pki, domain, t, op).trace || s == RunOf(pki, domain, t, op).tree)
  }

  ghost predicate IsCourse(pki: Pki, domain: string, h: seq<Tree>, ops: seq<Op>) {
    |h| == |ops| + 1 && forall i :: 0 <= i < |ops| ==> Happens(pki, domain, h[i], ops[i], h[i + 1])
  }

  /** Damage is for ever: over any course of operations the damaged release stays as it is, and no publish
      into any of these trees succeeds. */
  lemma {:induction false} DamageIsForever(pki: Pki, domain: string, h: seq<Tree>, ops: seq<Op>, j: nat, id: Id,
                                           input: PublishInput, faults: set<Step>)
    requires IsCourse(pki, domain, h, ops) && j < |h| && Damaged(h[0], id)
    ensures SameSlot(h[0], h[j], id) && Damaged(h[j], id)
    ensures !Publish(pki, domain, h[j], input, faults).disk.ok
  {
    if j > 0 {
      DamageIsForever(pki, domain, h, ops, j - 1, id, input, faults);
      assert Happens(pki, domain, h[j - 1], ops[j - 1], h[j]);
      DamageStays(pki, domain, h[j - 1], id, ops[j - 1]);
    }
    BlockedPublish(pki, domain, h[j], id, input, faults);
  }

  // ---- and so does the certificate ----

  lemma StagingReads(pki: Pki, domain: string, t: Tree, d: Io, ids: set<Id>, s: Tree)
    requires Sound(pki, domain, t) && Staging(t, [], d, ids) && Unnamed(t, ids) && (s in d.trace || s == d.tree)
    ensures ReadCurrent(pki, domain, s) == ReadCurrent(pki, domain, t)
  {
    UntouchedReads(pki, domain, t, s, ids);
  }

  lemma CurrentIsUntried(pki: Pki, domain: string, t: Tree, options: GcOptions, ranked: seq<Candidate>)
    requires Sound(pki, domain, t) && Ranks(pki, domain, t, ranked)
    ensures Unnamed(t, Tried(CurrentId(pki, domain, t), options, ranked))
  {
    if !t.current.Absent? { TriedIsNotKept(pki, domain, t, options, ranked, t.current.gen); }
  }

  lemma FrozenStep(pki: Pki, domain: string, t: Tree, id: Id, op: Op, s: Tree)
    requires Sound(pki, domain, t) && Damaged(t, id) && Leaves(pki, domain, t, op, s)
    ensures ReadCurrent(pki, domain, s) == ReadCurrent(pki, domain, t)
  {
    match op
    case DoPublish(input, faults) =>
      BlockedPublish(pki, domain, t, id, input, faults);
      StagingReads(pki, domain, t, Publish(pki, domain, t, input, faults).disk, {Temp(input.temp)}, s);
    case DoAbort(gen, order, faults) =>
      AbortStaging(pki, domain, t, gen, order, faults);
      if Unnamed(t, {gen}) { StagingReads(pki, domain, t, Abort(pki, domain, t, gen, order, faults), {gen}, s); }
    case DoCollect(options, ranked, orders, faults) =>
      CollectStaging(pki, domain, t, options, ranked, orders, faults);
      CurrentIsUntried(pki, domain, t, options, ranked);
      StagingReads(pki, domain, t, Collect(pki, domain, t, options, ranked, orders, faults).disk,
        Tried(CurrentId(pki, domain, t), options, ranked), s);
    case DoMigrate(names, faults) =>
      MigrationIsInvisible(pki, domain, t, names, faults);
      assert SeenAs(pki, domain, t, s);
  }

  lemma FrozenFollows(pki: Pki, domain: string, t: Tree, id: Id, s: Tree)
    requires Sound(pki, domain, t) && Damaged(t, id) && Follows(pki, domain, t, s)
    ensures Damaged(s, id) && ReadCurrent(pki, domain, s) == ReadCurrent(pki, domain, t)
  {
    var op :| Leaves(pki, domain, t, op, s);
    FrozenStep(pki, domain, t, id, op, s);
    DamageStays(pki, domain, t, id, op);
    assert SameSlot(t, s, id);
  }

  lemma OneStep(pki: Pki, domain: string, h: seq<Tree>, j: nat)
    requires IsHistory(pki, domain, h) && 0 < j < |h|
    ensures Follows(pki, domain, h[j - 1], h[j])
  {
  }

  /** From the first damage on, readers of `current` get the same generation for good. */
  lemma {:induction false} DamageFreezesCurrent(pki: Pki, domain: string, h: seq<Tree>, i: nat, j: nat, id: Id)
    requires IsHistory(pki, domain, h) && i <= j < |h| && Damaged(h[i], id)
    ensures Damaged(h[j], id) && ReadCurrent(pki, domain, h[j]) == ReadCurrent(pki, domain, h[i])
  {
    hide *;
    if i < j {
      OneStep(pki, domain, h, j);
      DamageFreezesCurrent(pki, domain, h, i, j - 1, id);
      HistoryIsSound(pki, domain, h, j - 1);
      FrozenFollows(pki, domain, h[j - 1], id, h[j]);
    }
  }
}
