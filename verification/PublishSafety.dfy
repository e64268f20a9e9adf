/** What Publish guarantees, over every fault plan and at every crash point. */
module PublishSafety {
  import opened Common
  import opened FileTree
  import opened CertRuns
  import opened CertSafety
  import opened CertRemoval

  /** The id that is drawn is not the one an old text pointer names: newGenerationPath looks only into
      releases/. */
  predicate NoClash(t: Tree, input: PublishInput) {
    var gen := PickFresh(t.releases.Keys, input.tokens, 8);
    gen.Some? ==> t.current != Text(gen.value)
  }

  predicate PointsTo(p: Pointer, gen: Id) { p == Link(gen) || p == Text(gen) }

  /** `loaded` is newer than everything `t` stores. */
  ghost predicate Newest(pki: Pki, domain: string, t: Tree, loaded: Loaded) {
    forall g :: ReadByName(pki, domain, t, g).Reading? && !g.Temp? ==>
      ReadByName(pki, domain, t, g).loaded.manifest.revision < loaded.manifest.revision
  }

  /** One store operation may lead from `t` to `s`: `current` still reads the same, or it names a generation
      newer than all of `t`. */
  ghost predicate Advances(pki: Pki, domain: string, t: Tree, s: Tree) {
    && Sound(pki, domain, s)
    && var before, after := ReadCurrent(pki, domain, t), ReadCurrent(pki, domain, s);
       (after == before && (s.current.Absent? <==> t.current.Absent?))
         || (after.Reading? && Newest(pki, domain, t, after.loaded))
  }

  ghost predicate AllAdvance(pki: Pki, domain: string, t: Tree, d: Io) {
    (forall s :: s in d.trace ==> Advances(pki, domain, t, s)) && Advances(pki, domain, t, d.tree)
  }

  /** `current` names none of these releases. */
  predicate Unnamed(t: Tree, ids: set<Id>) {
    t.current.Absent? || t.current.Junk? || t.current.gen !in ids
  }

  /** Releases that `current` does not name do not change what it reads. */
  lemma UntouchedReads(pki: Pki, domain: string, t: Tree, s: Tree, ids: set<Id>)
    requires Sound(pki, domain, t) && Untouched(t, s, ids) && Unnamed(t, ids)
    ensures ReadCurrent(pki, domain, s) == ReadCurrent(pki, domain, t)
    ensures Advances(pki, domain, t, s)
  {
    if !t.current.Absent? {
      assert SameSlot(t, s, t.current.gen);
    }
  }

  lemma StagingAdvances(pki: Pki, domain: string, t: Tree, base: seq<Tree>, d: Io, ids: set<Id>)
    requires Sound(pki, domain, t) && Staging(t, base, d, ids) && Unnamed(t, ids)
    requires forall s :: s in base ==> Advances(pki, domain, t, s)
    ensures AllAdvance(pki, domain, t, d) && ReadCurrent(pki, domain, d.tree) == ReadCurrent(pki, domain, t)
  {
    forall s | s in d.trace ensures Advances(pki, domain, t, s) {
      if s !in base { UntouchedReads(pki, domain, t, s, ids); }
    }
    UntouchedReads(pki, domain, t, d.tree, ids);
  }

  /** The new release, once `current` names it, is sound and newest. */
  lemma SwitchedAdvances(pki: Pki, domain: string, t: Tree, s: Tree, gen: Id, files: map<FileName, Data>,
                         sans: seq<string>)
    requires files.Keys == {Cert, Key, Fullchain, Ca, TimeLog} && ValidId(gen) && !gen.Temp?
    requires NextRevision(pki, domain, t).Some?
    requires BuildManifest(pki, domain, gen, NextRevision(pki, domain, t).value, sans, files).Some?
    requires var m := BuildManifest(pki, domain, gen, NextRevision(pki, domain, t).value, sans, files).value;
      PointsTo(s.current, gen) && FolderAt(s, gen) == Some(BuiltDir(files, m))
    ensures Advances(pki, domain, t, s)
    ensures ReadCurrent(pki, domain, s) ==
      Reading(gen, Loaded(BuildManifest(pki, domain, gen, NextRevision(pki, domain, t).value, sans, files).value,
        files))
  {
    NextRevisionExceeds(pki, domain, t, gen);
    BuiltLoads(pki, domain, gen, NextRevision(pki, domain, t).value, sans, files);
    forall g { NextRevisionExceeds(pki, domain, t, g); }
  }

  /** A tree at the switch reads as before it, or as the new release. */
  lemma AtSwitchAdvances(pki: Pki, domain: string, t: Tree, w: Tree, s: Tree, gen: Id, files: map<FileName, Data>,
                         sans: seq<string>)
    requires Sound(pki, domain, t) && gen !in t.releases
    requires files.Keys == {Cert, Key, Fullchain, Ca, TimeLog} && ValidId(gen) && !gen.Temp?
    requires NextRevision(pki, domain, t).Some?
    requires var m := BuildManifest(pki, domain, gen, NextRevision(pki, domain, t).value, sans, files);
      m.Some? && w == t.(releases := t.releases[gen := Folder(BuiltDir(files, m.value))])
    requires AtSwitch(w, s, gen)
    ensures Advances(pki, domain, t, s)
    ensures s.current == t.current ==> Untouched(t, s, {gen})
  {
    if s.current == t.current { assert forall g :: g !in {gen} ==> SameSlot(t, s, g); }
    if PointsTo(s.current, gen) {
      SwitchedAdvances(pki, domain, t, s, gen, files, sans);
    } else {
      UntouchedReads(pki, domain, t, s, {gen});
    }
  }

  /** Removing a release that `current` does not name. */
  lemma CleanUpAdvances(pki: Pki, domain: string, t: Tree, d: Io, id: Id, order: seq<EntryName>, faults: set<Step>)
    requires Sound(pki, domain, t) && AllAdvance(pki, domain, t, d) && Untouched(t, d.tree, {id}) && Unnamed(t, {id})
    ensures var r := CleanUp(d, id, order, faults);
      AllAdvance(pki, domain, t, r) && Untouched(t, r.tree, {id})
  {
    var from := Io(d.tree, d.trace, true);
    var r := RemoveAll(from, id, order, faults);
    RemoveAllStaging(d.tree, d.trace, from, {id}, id, order, faults);
    forall s | Untouched(d.tree, s, {id}) ensures Untouched(t, s, {id}) {
      forall g | g !in {id} ensures SameSlot(t, s, g) { assert SameSlot(t, d.tree, g) && SameSlot(d.tree, s, g); }
    }
    forall s | s in r.trace ensures Advances(pki, domain, t, s) {
      if s !in d.trace { UntouchedReads(pki, domain, t, s, {id}); }
    }
    UntouchedReads(pki, domain, t, r.tree, {id});
  }

  /** Removing the release that `current` names: harmless exactly if nothing of it goes. */
  lemma CleanUpAtCurrent(pki: Pki, domain: string, t: Tree, d: Io, gen: Id, dir: Dir, order: seq<EntryName>,
                         faults: set<Step>)
    requires AllAdvance(pki, domain, t, d) && PointsTo(d.tree.current, gen)
    requires FolderAt(d.tree, gen) == Some(dir) && CompleteContents(dir)
    ensures AllAdvance(pki, domain, t, CleanUp(d, gen, order, faults)) <==> !Removes(gen, order, faults)
    ensures !Removes(gen, order, faults) ==> CleanUp(d, gen, order, faults).tree == d.tree
  {
    var from := Io(d.tree, d.trace, true);
    var emptied := RemoveEntries(from, gen, order, faults);
    var gone := Removable(gen, order, faults);
    RemovesIff(dir, gen, order, faults);
    RemoveEntriesResult(from, gen, order, faults);
    PartialReleaseUnreadable(pki, domain, gen, dir, gone);
    if Removes(gen, order, faults) {
      RemovalIsSeen(from, gen, order, faults);
      RemoveEntriesPointer(from, gen, order, faults);
      assert !Sound(pki, domain, emptied.tree);
      assert emptied.tree in CleanUp(d, gen, order, faults).trace;
    } else {
      NothingRemoved(from, gen, dir, order, faults);
      assert Fixed(Cert) in dir;
    }
  }

  lemma RemoveEntriesPointer(d: Io, id: Id, order: seq<EntryName>, faults: set<Step>)
    ensures RemoveEntries(d, id, order, faults).tree.current == d.tree.current
  {
    RemoveEntriesStaging(d.tree, d.trace, d, {id}, id, order, faults);
  }

  lemma CleanUpKeepsCurrent(d: Io, id: Id, order: seq<EntryName>, faults: set<Step>)
    ensures CleanUp(d, id, order, faults).tree.current == d.tree.current
  {
    RemoveAllStaging(d.tree, d.trace, Io(d.tree, d.trace, true), {id}, id, order, faults);
  }

  /** Nothing fails once the release is in place. */
  predicate Commits(t: Tree, names: Names, faults: set<Step>) {
    SyncReleases !in faults && Switches(t, names, faults) && SyncDomain !in faults
  }

  /** The sync after the switch is reached and fails, and the old pointer cannot be put back. */
  predicate Sticks(t: Tree, names: Names, faults: set<Step>) {
    SyncReleases !in faults && Switches(t, names, faults) && SyncDomain in faults && !PointerReturns(t, names, faults)
  }

  /** The commit up to its clean-up is safe under every fault plan. */
  lemma CommitSwitches(pki: Pki, domain: string, t: Tree, moved: Io, gen: Id, files: map<FileName, Data>,
                       input: PublishInput, faults: set<Step>)
    requires Sound(pki, domain, t) && gen !in t.releases
    requires files.Keys == {Cert, Key, Fullchain, Ca, TimeLog} && ValidId(gen) && !gen.Temp?
    requires NextRevision(pki, domain, t).Some?
    requires var m := BuildManifest(pki, domain, gen, NextRevision(pki, domain, t).value, input.sans, files);
      m.Some? && moved.tree == t.(releases := t.releases[gen := Folder(BuiltDir(files, m.value))])
    requires moved.ok && AllAdvance(pki, domain, t, moved)
    ensures var synced := Do(moved, SyncReleases, faults, moved.tree);
      var r := if synced.ok then WriteCurrent(synced, gen, input.names, faults) else synced;
      && AllAdvance(pki, domain, t, r) && AtSwitch(moved.tree, r.tree, gen)
      && (r.ok <==> Commits(t, input.names, faults))
      && (r.ok ==> r.tree == SetCurrent(moved.tree, Link(gen)))
      && (!r.ok ==> r.tree.current == if Sticks(t, input.names, faults) then Link(gen) else t.current)
  {
    var w := moved.tree;
    var synced := Do(moved, SyncReleases, faults, w);
    AtSwitchAdvances(pki, domain, t, w, w, gen, files, input.sans);
    DoAdvances(pki, domain, t, moved, SyncReleases, faults, w);
    if synced.ok {
      WriteCurrentResult(synced, gen, input.names, faults);
      var switched := WriteCurrent(synced, gen, input.names, faults);
      forall s | s in switched.trace ensures Advances(pki, domain, t, s) {
        if s !in synced.trace { AtSwitchAdvances(pki, domain, t, w, s, gen, files, input.sans); }
      }
      AtSwitchAdvances(pki, domain, t, w, switched.tree, gen, files, input.sans);
    }
  }

  /** At clean-up `current` names the new release: it could not be put back, or names it by the old text. */
  predicate NamedAtCleanUp(t: Tree, gen: Id, names: Names, faults: set<Step>) {
    Sticks(t, names, faults) || t.current == Text(gen)
  }

  lemma CleanUpKeepsOthers(t: Tree, d: Io, id: Id, order: seq<EntryName>, faults: set<Step>)
    requires d.tree.legacy == t.legacy && forall g :: g != id ==> SameSlot(t, d.tree, g)
    ensures var r := CleanUp(d, id, order, faults).tree; r.legacy == t.legacy && forall g :: g != id ==>
      SameSlot(t, r, g)
  {
    RemoveAllStaging(d.tree, d.trace, Io(d.tree, d.trace, true), {id}, id, order, faults);
    var r := CleanUp(d, id, order, faults).tree;
    forall g | g != id ensures SameSlot(t, r, g) { assert SameSlot(t, d.tree, g) && SameSlot(d.tree, r, g); }
  }

  /** Clean-up after a commit that fails with `current` as it was or at the new release. */
  lemma CommitCleansUp(pki: Pki, domain: string, t: Tree, d: Io, gen: Id, dir: Dir, order: seq<EntryName>,
                       faults: set<Step>)
    requires Sound(pki, domain, t) && gen !in t.releases && CompleteContents(dir)
    requires AllAdvance(pki, domain, t, d) && AtSwitch(t.(releases := t.releases[gen := Folder(dir)]), d.tree, gen)
    ensures var r := CleanUp(d, gen, order, faults);
      && r.tree.current == d.tree.current
      && (r.tree.current == t.current ==> Untouched(t, r.tree, {gen}))
      && (AllAdvance(pki, domain, t, r) <==> !PointsTo(d.tree.current, gen) || !Removes(gen, order, faults))
  {
    CleanUpKeepsCurrent(d, gen, order, faults);
    CleanUpKeepsOthers(t, d, gen, order, faults);
    if PointsTo(d.tree.current, gen) {
      CleanUpAtCurrent(pki, domain, t, d, gen, dir, order, faults);
    } else {
      CleanUpAdvances(pki, domain, t, d, gen, order, faults);
    }
  }

  /** The second half of a publish: when it succeeds, where it leaves `current`, and the exact condition
      under which every step of it is safe. */
  lemma CommitResult(pki: Pki, domain: string, t: Tree, moved: Io, gen: Id, files: map<FileName, Data>,
                     input: PublishInput, faults: set<Step>)
    requires Sound(pki, domain, t) && gen !in t.releases
    requires files.Keys == {Cert, Key, Fullchain, Ca, TimeLog} && ValidId(gen) && !gen.Temp?
    requires NextRevision(pki, domain, t).Some?
    requires var m := BuildManifest(pki, domain, gen, NextRevision(pki, domain, t).value, input.sans, files);
      m.Some? && moved.tree == t.(releases := t.releases[gen := Folder(BuiltDir(files, m.value))])
    requires moved.ok && AllAdvance(pki, domain, t, moved)
    ensures var r := Commit(moved, gen, input, faults);
      && (r.ok <==> Commits(t, input.names, faults))
      && (r.ok ==> r.tree == SetCurrent(moved.tree, Link(gen)))
      && (!r.ok ==> r.tree.current == if Sticks(t, input.names, faults) then Link(gen) else t.current)
      && (!r.ok && !Sticks(t, input.names, faults) ==> Untouched(t, r.tree, {gen}))
      && (AllAdvance(pki, domain, t, r) <==>
            Commits(t, input.names, faults) || !NamedAtCleanUp(t, gen, input.names, faults)
              || !Removes(gen, input.order, faults))
  {
    CommitSwitches(pki, domain, t, moved, gen, files, input, faults);
    var synced := Do(moved, SyncReleases, faults, moved.tree);
    var switched := if synced.ok then WriteCurrent(synced, gen, input.names, faults) else synced;
    if !switched.ok {
      var dir := BuiltDir(files, BuildManifest(pki, domain, gen, NextRevision(pki, domain, t).value, input.sans,
        files).value);
      BuiltIsComplete(files, BuildManifest(pki, domain, gen, NextRevision(pki, domain, t).value, input.sans,
        files).value);
      LinkIsNew(pki, domain, t, gen);
      assert Commit(moved, gen, input, faults) == CleanUp(switched, gen, input.order, faults);
      hide *;
      CommitCleansUp(pki, domain, t, switched, gen, dir, input.order, faults);
    }
  }

  lemma BuiltIsComplete(files: map<FileName, Data>, m: Manifest)
    requires files.Keys == {Cert, Key, Fullchain, Ca, TimeLog}
    ensures CompleteContents(BuiltDir(files, m))
  {
  }

  lemma LinkIsNew(pki: Pki, domain: string, t: Tree, gen: Id)
    requires Sound(pki, domain, t) && gen !in t.releases
    ensures t.current != Link(gen)
  {
  }

  lemma DoAdvances(pki: Pki, domain: string, t: Tree, d: Io, step: Step, faults: set<Step>, next: Tree)
    requires AllAdvance(pki, domain, t, d) && Advances(pki, domain, t, next)
    ensures AllAdvance(pki, domain, t, Do(d, step, faults, next))
      && AllAdvance(pki, domain, t, Attempt(d, step, faults, next))
  {
    forall s | s in d.trace + [next] ensures Advances(pki, domain, t, s) { assert s in d.trace || s == next; }
  }

  /** Everything that building a release depends on besides faults. */
  ghost predicate Stageable(pki: Pki, domain: string, t: Tree, input: PublishInput) {
    var files := ReadStaging(pki, domain, input.staging, input.sans, input.clock);
    var gen := PickFresh(t.releases.Keys, input.tokens, 8);
    var revision := NextRevision(pki, domain, t);
    && files.Some? && gen.Some? && revision.Some? && Temp(input.temp) !in t.releases
    && (StagingHasAllFiles(pki, domain, input.staging, input.sans, input.clock);
        BuildManifest(pki, domain, gen.value, revision.value, input.sans, files.value).Some?)
  }

  // ---- what a publish depends on, read off the directory, the tree and the draws ----

  /** Nothing but regular fixed files, and the four certificate files among them. */
  ghost predicate Complete(staging: Slot) {
    && staging.Folder?
    && (forall e :: e in staging.dir ==> e.Fixed? && staging.dir[e].Regular?)
    && Fixed(Cert) in staging.dir && Fixed(Key) in staging.dir && Fixed(Fullchain) in staging.dir
    && Fixed(Ca) in staging.dir
  }

  /** Every file as it lies in the staging directory; time.log is written when it is absent. */
  ghost function Offered(staging: Slot, clock: string): (files: map<FileName, Data>)
    requires Complete(staging)
    ensures files.Keys == {Cert, Key, Fullchain, Ca, TimeLog}
  {
    map f: FileName | f in {Cert, Key, Fullchain, Ca, TimeLog} ::
      if Fixed(f) in staging.dir then staging.dir[Fixed(f)].data else Bytes(clock)
  }

  /** What is read from the staging directory: each file as it lies there, exactly if the directory is complete
      and X.509 accepts those files. */
  lemma ReadStagingIs(pki: Pki, domain: string, staging: Slot, sans: seq<string>, clock: string)
    ensures ReadStaging(pki, domain, staging, sans, clock) ==
      if Complete(staging) && pki.accepts(domain, Offered(staging, clock), sans) then Some(Offered(staging, clock))
        else None
  {
    if Complete(staging) {
      forall f: FileName | f in {Cert, Key, Fullchain, Ca} ensures Fixed(f) in staging.dir {}
      assert StagingFiles(staging.dir, clock) == Offered(staging, clock);
    }
  }

  /** The draws that count: the first eight, up to the first that is no valid name or names nothing yet. */
  lemma {:induction false} PickFreshIs(releases: set<Id>, tokens: seq<string>, draws: nat) returns (k: nat)
    ensures k <= draws && k <= |tokens|
    ensures forall j :: 0 <= j < k ==> ValidId(Name("g-" + tokens[j])) && Name("g-" + tokens[j]) in releases
    ensures k < draws && k < |tokens| ==>
      !(ValidId(Name("g-" + tokens[k])) && Name("g-" + tokens[k]) in releases)
    ensures PickFresh(releases, tokens, draws) ==
      if k < draws && k < |tokens| && ValidId(Name("g-" + tokens[k])) then Some(Name("g-" + tokens[k])) else None
  {
    k := 0;
    if draws > 0 && tokens != [] && ValidId(Drawn(tokens[0])) && Drawn(tokens[0]) in releases {
      k := PickFreshIs(releases, tokens[1..], draws - 1);
      k := k + 1;
    }
  }

  /** Some of the first eight draws is a valid name that names nothing yet, and those before it are valid. */
  ghost predicate Draws(releases: set<Id>, tokens: seq<string>) {
    exists k :: 0 <= k < 8 && k < |tokens| && DrawsAt(releases, tokens, k)
  }

  ghost predicate DrawsAt(releases: set<Id>, tokens: seq<string>, k: nat)
    requires k < |tokens|
  {
    && ValidId(Name("g-" + tokens[k])) && Name("g-" + tokens[k]) !in releases
    && forall j :: 0 <= j < k ==> ValidId(Name("g-" + tokens[j])) && Name("g-" + tokens[j]) in releases
  }

  lemma DrawsIff(releases: set<Id>, tokens: seq<string>)
    ensures PickFresh(releases, tokens, 8).Some? <==> Draws(releases, tokens)
  {
    var k := PickFreshIs(releases, tokens, 8);
    if PickFresh(releases, tokens, 8).Some? { assert DrawsAt(releases, tokens, k); }
    if i :| 0 <= i < 8 && i < |tokens| && DrawsAt(releases, tokens, i) {
      assert i == k;
    }
  }

  /** The entry is no link, and if its name counts as a generation it loads, below the last revision. */
  ghost predicate ReadsOn(pki: Pki, domain: string, id: Id, slot: Slot) {
    && !slot.Alias?
    && (!id.Temp? && ValidId(id) ==>
          slot.Folder? && LoadGeneration(pki, domain, id, slot.dir).Some?
          && LoadGeneration(pki, domain, id, slot.dir).value.manifest.revision < MAX_REVISION)
  }

  ghost predicate AllReadOn(pki: Pki, domain: string, slots: map<Id, Slot>) {
    forall id :: id in slots ==> ReadsOn(pki, domain, id, slots[id])
  }

  lemma ReadsOnIff(pki: Pki, domain: string, slots: map<Id, Slot>)
    ensures AllReadOn(pki, domain, slots) <==>
      !Blocked(pki, domain, slots) && MAX_REVISION !in Revisions(pki, domain, slots)
  {
    var vs := Verdicts(pki, domain, slots);
    forall id | id in slots
      ensures ReadsOn(pki, domain, id, slots[id]) <==> !vs[id].Unreadable? && vs[id] != At(MAX_REVISION)
    {
      JudgeIs(pki, domain, id, slots[id]);
    }
    if AllReadOn(pki, domain, slots) {
      forall id | id in vs && vs[id].At? ensures vs[id].revision != MAX_REVISION {
        assert ReadsOn(pki, domain, id, slots[id]);
      }
    } else {
      var id :| id in slots && !ReadsOn(pki, domain, id, slots[id]);
      assert id in vs;
    }
  }

  lemma JudgeIs(pki: Pki, domain: string, id: Id, slot: Slot)
    ensures ReadsOn(pki, domain, id, slot) <==>
      !Judge(pki, domain, id, slot).Unreadable? && Judge(pki, domain, id, slot) != At(MAX_REVISION)
  {
  }

  /** There is a next revision exactly if everything stored can be read and none has the last one. */
  lemma NextRevisionIff(pki: Pki, domain: string, t: Tree)
    ensures NextRevision(pki, domain, t).Some? <==>
      AllReadOn(pki, domain, t.releases) && AllReadOn(pki, domain, t.legacy)
  {
    ReadsOnIff(pki, domain, t.releases);
    ReadsOnIff(pki, domain, t.legacy);
    var all := Revisions(pki, domain, t.releases) + Revisions(pki, domain, t.legacy) + {0};
    forall x | x in all ensures x <= MAX_REVISION {
      if x in Revisions(pki, domain, t.releases) { StoredBounded(pki, domain, t.releases, x); }
      if x in Revisions(pki, domain, t.legacy) { StoredBounded(pki, domain, t.legacy, x); }
    }
    assert SetMax(all) == MAX_REVISION <==> MAX_REVISION in all by { assert 0 in all; }
  }

  /** The next revision leaves no gap: it is 1, or one more than a stored one. */
  lemma NextRevisionIsLeast(pki: Pki, domain: string, t: Tree)
    requires NextRevision(pki, domain, t).Some?
    ensures var r := NextRevision(pki, domain, t).value;
      || r == 1
      || (exists g :: g in t.releases && HasRevision(pki, domain, g, t.releases[g], r - 1))
      || (exists g :: g in t.legacy && HasRevision(pki, domain, g, t.legacy[g], r - 1))
  {
    var (rs, ls) := (Verdicts(pki, domain, t.releases), Verdicts(pki, domain, t.legacy));
    var top := SetMax(RevisionsIn(rs) + RevisionsIn(ls) + {0});
    if top in RevisionsIn(rs) {
      var g :| g in rs && rs[g].At? && rs[g].revision == top;
      assert HasRevision(pki, domain, g, t.releases[g], top);
    } else if top in RevisionsIn(ls) {
      var g :| g in ls && ls[g].At? && ls[g].revision == top;
      assert HasRevision(pki, domain, g, t.legacy[g], top);
    } else {
      assert 0 in RevisionsIn(rs) + RevisionsIn(ls) + {0};
    }
  }

  ghost predicate HasRevision(pki: Pki, domain: string, g: Id, slot: Slot, revision: int) {
    && slot.Folder? && LoadGeneration(pki, domain, g, slot.dir).Some?
    && LoadGeneration(pki, domain, g, slot.dir).value.manifest.revision == revision
  }

  /** Everything that building a release depends on besides faults: an acceptable staging directory whose
      certificate can be read, a fresh name, a store that can be read, a free temporary name. */
  ghost predicate Buildable(pki: Pki, domain: string, t: Tree, input: PublishInput) {
    && Complete(input.staging) && pki.accepts(domain, Offered(input.staging, input.clock), input.sans)
    && pki.leaf(input.staging.dir[Fixed(Cert)].data).Some?
    && Draws(t.releases.Keys, input.tokens)
    && AllReadOn(pki, domain, t.releases) && AllReadOn(pki, domain, t.legacy)
    && Temp(input.temp) !in t.releases
  }

  lemma StageableIff(pki: Pki, domain: string, t: Tree, input: PublishInput)
    ensures Stageable(pki, domain, t, input) <==> Buildable(pki, domain, t, input)
  {
    ReadStagingIs(pki, domain, input.staging, input.sans, input.clock);
    DrawsIff(t.releases.Keys, input.tokens);
    NextRevisionIff(pki, domain, t);
  }

  /** Everything a publish depends on besides faults. */
  ghost predicate Publishable(pki: Pki, domain: string, t: Tree, input: PublishInput) {
    Buildable(pki, domain, t, input) && input.names.link !in t.staged
  }

  /** None of the steps whose failure makes Publish return an error fails. */
  ghost predicate Unhindered(faults: set<Step>) {
    && ReadsUnhindered(faults) && StageUnhindered(faults)
    && SyncReleases !in faults && CheckTarget !in faults && Capture !in faults && MakeLink !in faults
    && SwitchCurrent !in faults
    && SyncDomain !in faults
  }

  predicate ReadsUnhindered(faults: set<Step>) {
    ReadStagingDir !in faults && MakeDirs !in faults && ReadPointer !in faults
  }

  ghost predicate StageUnhindered(faults: set<Step>) {
    && MakeTemp !in faults && ChmodTemp !in faults && ReadRevisions !in faults && Recheck !in faults
    && SyncTemp !in faults && MoveRelease !in faults
    && forall e: EntryName :: !e.Other? ==> CreateFile(e) !in faults && FillFile(e) !in faults
  }

  /** The publish gets as far as putting its release in place. */
  ghost predicate Staged(pki: Pki, domain: string, t: Tree, input: PublishInput, faults: set<Step>) {
    Stageable(pki, domain, t, input) && ReadsUnhindered(faults) && StageUnhindered(faults)
  }

  /** The exact condition under which a publish drives the store through a tree it must not: its release is in
      place, the commit fails, `current` names the release at clean-up, and clean-up removes some of it. */
  ghost predicate Breaks(pki: Pki, domain: string, t: Tree, input: PublishInput, faults: set<Step>) {
    && Staged(pki, domain, t, input, faults) && !Commits(t, input.names, faults)
    && var gen := PickFresh(t.releases.Keys, input.tokens, 8).value;
       NamedAtCleanUp(t, gen, input.names, faults) && Removes(gen, input.order, faults)
  }

  lemma {:induction false} WriteFilesOk(d: Io, id: Id, names: seq<FileName>, files: map<FileName, Data>,
                                        faults: set<Step>)
    requires forall f :: f in names ==> f in files
    ensures WriteFiles(d, id, names, files, faults).ok <==>
      d.ok && forall f :: f in names ==> CreateFile(Fixed(f)) !in faults && FillFile(Fixed(f)) !in faults
  {
    if names != [] {
      var init, f := names[..|names| - 1], names[|names| - 1];
      assert names == init + [f];
      WriteFilesOk(d, id, init, files, faults);
    }
  }

  lemma WriteReleaseOk(d: Io, temp: Id, files: map<FileName, Data>, m: Manifest, faults: set<Step>)
    requires files.Keys == {Cert, Key, Fullchain, Ca, TimeLog}
    ensures WriteRelease(d, temp, files, m, faults).ok <==>
      d.ok && SyncTemp !in faults && forall e: EntryName :: !e.Other? ==>
        CreateFile(e) !in faults && FillFile(e) !in faults
  {
    WriteFilesOk(d, temp, FIXED_FILES, files, faults);
    forall f: FileName ensures f in FIXED_FILES {
      var i := match f case Cert => 0 case Key => 1 case Fullchain => 2 case Ca => 3 case TimeLog => 4;
      assert FIXED_FILES[i] == f;
    }
    forall e: EntryName | !e.Other? && !e.ManifestJson? ensures e == Fixed(e.file) {}
  }

  lemma StageReleaseOk(pki: Pki, domain: string, t: Tree, input: PublishInput, gen: Id, files: map<FileName, Data>,
                       faults: set<Step>)
    requires files.Keys == {Cert, Key, Fullchain, Ca, TimeLog} && Temp(input.temp) !in t.releases
    ensures StageRelease(pki, domain, Start(t), input, gen, files, faults).0.ok <==>
      && StageUnhindered(faults)
      && NextRevision(pki, domain, t).Some?
      && BuildManifest(pki, domain, gen, NextRevision(pki, domain, t).value, input.sans, files).Some?
  {
    NextRevisionIgnoresTemp(pki, domain, t, Temp(input.temp));
    var (moved, m) := StageRelease(pki, domain, Start(t), input, gen, files, faults);
    var ready := Check(Do(Start(t), MakeTemp, faults, AddFolder(t, Temp(input.temp))),
                       ChmodTemp !in faults && ReadRevisions !in faults && Recheck !in faults && m.Some?);
    if ready.ok { WriteReleaseOk(ready, Temp(input.temp), files, m.value, faults); }
  }

  lemma PublishFilesTrace(pki: Pki, domain: string, t: Tree, input: PublishInput, gen: Id, files: map<FileName, Data>,
                          faults: set<Step>)
    requires files.Keys == {Cert, Key, Fullchain, Ca, TimeLog}
    ensures var moved := StageRelease(pki, domain, Start(t), input, gen, files, faults).0;
      PublishFiles(pki, domain, Start(t), input, gen, files, faults).disk ==
        if moved.ok then Commit(moved, gen, input, faults) else CleanUp(moved, Temp(input.temp), input.order, faults)
  {
  }

  /** What every end of a publish leaves behind, once its inputs have been read. */
  lemma PublishFilesSafe(pki: Pki, domain: string, t: Tree, input: PublishInput, gen: Id, files: map<FileName, Data>,
                         faults: set<Step>)
    requires Sound(pki, domain, t) && files.Keys == {Cert, Key, Fullchain, Ca, TimeLog}
    requires gen !in t.releases && Temp(input.temp) !in t.releases && ValidId(gen) && !gen.Temp?
    ensures var revision := NextRevision(pki, domain, t);
      var m := if revision.None? then None else BuildManifest(pki, domain, gen, revision.value, input.sans, files);
      var staged := m.Some? && StageUnhindered(faults);
      var out := PublishFiles(pki, domain, Start(t), input, gen, files, faults);
      var r := out.disk;
      && (r.ok <==> staged && Commits(t, input.names, faults))
      && (r.ok ==>
           && out.manifest == m
           && r.tree == t.(current := Link(gen), releases := t.releases[gen := Folder(BuiltDir(files, m.value))]))
      && (!r.ok ==> r.tree.current == if staged && Sticks(t, input.names, faults) then Link(gen) else t.current)
      && (!r.ok && !(staged && Sticks(t, input.names, faults)) ==> Untouched(t, r.tree, {Temp(input.temp), gen}))
      && (AllAdvance(pki, domain, t, r) <==>
            !(staged && !Commits(t, input.names, faults) && NamedAtCleanUp(t, gen, input.names, faults)
              && Removes(gen, input.order, faults)))
  {
    StageReleaseResult(pki, domain, t, input, gen, files, faults);
    StageReleaseOk(pki, domain, t, input, gen, files, faults);
    var moved := StageRelease(pki, domain, Start(t), input, gen, files, faults).0;
    if moved.ok {
      MovingAdvances(pki, domain, t, moved, Temp(input.temp), gen, files, input.sans);
      CommitResult(pki, domain, t, moved, gen, files, input, faults);
    } else {
      StagingAdvances(pki, domain, t, [], moved, {Temp(input.temp)});
      CleanUpAdvances(pki, domain, t, moved, Temp(input.temp), input.order, faults);
    }
  }

  lemma MovingAdvances(pki: Pki, domain: string, t: Tree, d: Io, temp: Id, gen: Id, files: map<FileName, Data>,
                       sans: seq<string>)
    requires Sound(pki, domain, t) && files.Keys == {Cert, Key, Fullchain, Ca, TimeLog}
    requires gen !in t.releases && ValidId(gen) && !gen.Temp? && temp.Temp? && NextRevision(pki, domain, t).Some?
    requires var m := BuildManifest(pki, domain, gen, NextRevision(pki, domain, t).value, sans, files);
      m.Some? && d.ok && Moving(t, d, temp, t.(releases := t.releases[gen := Folder(BuiltDir(files, m.value))]))
    ensures AllAdvance(pki, domain, t, d)
  {
    AtSwitchAdvances(pki, domain, t, d.tree, d.tree, gen, files, sans);
    forall s | s in d.trace ensures Advances(pki, domain, t, s) {
      if s != d.tree { UntouchedReads(pki, domain, t, s, {temp}); }
    }
  }

  lemma PublishUnfolds(pki: Pki, domain: string, t: Tree, input: PublishInput, faults: set<Step>)
    requires Sound(pki, domain, t)
    ensures var files := ReadStaging(pki, domain, input.staging, input.sans, input.clock);
      var gen := PickFresh(t.releases.Keys, input.tokens, 8);
      var r := Publish(pki, domain, t, input, faults);
      if files.Some? && gen.Some? && Temp(input.temp) !in t.releases && ReadsUnhindered(faults) then
        files.value.Keys == {Cert, Key, Fullchain, Ca, TimeLog}
          && r == PublishFiles(pki, domain, Start(t), input, gen.value, files.value, faults)
        && r.gen == gen.value
      else r == PublishOutcome(Io(t, [t], false), Temp(""), None)
  {
    StagingHasAllFiles(pki, domain, input.staging, input.sans, input.clock);
  }

  /** The publish theorem, for every fault plan. Every tree Publish passes through, a crash at any step
      included, is sound and reads as before or as the new, newest release, exactly if the publish does not
      break. It succeeds exactly if its inputs are acceptable and no critical step fails. An error leaves
      `current` as it was, unless the switch sticks, and then all other releases as they were. */
  lemma PublishIsSafe(pki: Pki, domain: string, t: Tree, input: PublishInput, faults: set<Step>)
    requires Sound(pki, domain, t)
    ensures var r := Publish(pki, domain, t, input, faults);
      var sticks := Staged(pki, domain, t, input, faults) && Sticks(t, input.names, faults);
      && (AllAdvance(pki, domain, t, r.disk) <==> !Breaks(pki, domain, t, input, faults))
      && (r.disk.ok <==> Staged(pki, domain, t, input, faults) && Commits(t, input.names, faults))
      && (!r.disk.ok ==> r.disk.tree.current == if sticks then Link(r.gen) else t.current)
      && (!r.disk.ok && !sticks ==> Untouched(t, r.disk.tree, {Temp(input.temp), r.gen}))
  {
    PublishUnfolds(pki, domain, t, input, faults);
    UntouchedReads(pki, domain, t, t, {});
    var files := ReadStaging(pki, domain, input.staging, input.sans, input.clock);
    var gen := PickFresh(t.releases.Keys, input.tokens, 8);
    if files.Some? && gen.Some? && Temp(input.temp) !in t.releases && ReadsUnhindered(faults) {
      PublishFilesSafe(pki, domain, t, input, gen.value, files.value, faults);
    }
  }

  /** Publish succeeds exactly when its inputs are acceptable and no critical step fails. */
  lemma PublishSucceedsIff(pki: Pki, domain: string, t: Tree, input: PublishInput, faults: set<Step>)
    requires Sound(pki, domain, t)
    ensures Publish(pki, domain, t, input, faults).disk.ok <==> Publishable(pki, domain, t, input) && Unhindered(faults)
  {
    PublishIsSafe(pki, domain, t, input, faults);
    StageableIff(pki, domain, t, input);
  }

  /** A successful publish changes two things only: a fresh release, which reads back every file as it lay in
      the staging directory, with the next revision and what the certificate says of itself, and `current`,
      which names it. */
  lemma PublishDelivers(pki: Pki, domain: string, t: Tree, input: PublishInput, faults: set<Step>)
    requires Sound(pki, domain, t)
    requires Publish(pki, domain, t, input, faults).disk.ok
    ensures var r := Publish(pki, domain, t, input, faults);
      && Complete(input.staging) && r.manifest.Some? && NextRevision(pki, domain, t).Some?
      && r.gen !in t.releases && r.gen in r.disk.tree.releases
      && r.disk.tree == t.(current := Link(r.gen), releases := t.releases[r.gen := r.disk.tree.releases[r.gen]])
      && ReadCurrent(pki, domain, r.disk.tree) == Reading(r.gen,
           Loaded(r.manifest.value, Offered(input.staging, input.clock)))
      && r.manifest.value.revision == NextRevision(pki, domain, t).value
      && pki.leaf(input.staging.dir[Fixed(Cert)].data) ==
           Some(Leaf(r.manifest.value.serial, r.manifest.value.fingerprint, r.manifest.value.sans))
  {
    PublishUnfolds(pki, domain, t, input, faults);
    ReadStagingIs(pki, domain, input.staging, input.sans, input.clock);
    var files := ReadStaging(pki, domain, input.staging, input.sans, input.clock).value;
    var gen := PickFresh(t.releases.Keys, input.tokens, 8).value;
    PublishFilesSafe(pki, domain, t, input, gen, files, faults);
    var r := PublishFiles(pki, domain, Start(t), input, gen, files, faults);
    SwitchedAdvances(pki, domain, t, r.disk.tree, gen, files, input.sans);
  }
}
