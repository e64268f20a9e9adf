/** Abort, and migration of old pointers. */
module CertMaintenance {
  import opened FileTree
  import opened CertRuns
  import opened CertSafety
  import opened CertRemoval
  import opened PublishSafety

  // ---- Abort ----

  /** Abort never touches what `current` names, at any crash point, and success removes exactly one release. */
  lemma AbortIsSafe(pki: Pki, domain: string, t: Tree, gen: Id, order: seq<EntryName>, faults: set<Step>)
    requires Sound(pki, domain, t)
    ensures var r := Abort(pki, domain, t, gen, order, faults);
      && AllAdvance(pki, domain, t, r)
      && Untouched(t, r.tree, {gen})
      && (r.ok ==> r.tree == DropFolder(t, gen) && gen in t.releases)
      && (ReadCurrent(pki, domain, t).Reading? && ReadCurrent(pki, domain, t).gen == gen ==> !r.ok && r.tree == t)
  {
    UntouchedReads(pki, domain, t, t, {});
    var r := Abort(pki, domain, t, gen, order, faults);
    var d := Check(Start(t), ValidId(gen) && ReadPointer !in faults && !ReadCurrent(pki, domain, t).Refused?
                             && !(ReadCurrent(pki, domain, t).Reading? && ReadCurrent(pki, domain, t).gen == gen)
                             && gen in t.releases && t.releases[gen].Folder? && CompleteContents(t.releases[gen].dir));
    if d.ok {
      RemoveAllStaging(t, [], d, {gen}, gen, order, faults);
      RemoveAllResult(d, gen, order, faults);
      var removed := RemoveAll(d, gen, order, faults);
      DoStaging(t, [], removed, {gen}, SyncReleases, faults, removed.tree);
      StagingAdvances(pki, domain, t, [], r, {gen});
    }
  }

  /** When Abort succeeds: the release is complete, is not what `current` reads, and every entry and then the
      directory can be removed. */
  lemma AbortSucceedsIff(pki: Pki, domain: string, t: Tree, gen: Id, order: seq<EntryName>, faults: set<Step>)
    requires Sound(pki, domain, t)
    ensures Abort(pki, domain, t, gen, order, faults).ok <==>
      && ReadPointer !in faults && ValidId(gen)
      && gen in t.releases && t.releases[gen].Folder? && CompleteContents(t.releases[gen].dir)
      && (t.current.Absent? || t.current.gen != gen)
      && (forall e :: e in t.releases[gen].dir ==> e in order && RemoveEntry(gen, e) !in faults)
      && RemoveFolder(gen) !in faults && SyncReleases !in faults
  {
    if ValidId(gen) && gen in t.releases && t.releases[gen].Folder? && CompleteContents(t.releases[gen].dir)
      && ReadPointer !in faults && (t.current.Absent? || t.current.gen != gen) {
      RemoveAllResult(Start(t), gen, order, faults);
      var dir := t.releases[gen].dir;
      assert dir.Keys <= Removable(gen, order, faults) <==>
        forall e :: e in dir ==> e in order && RemoveEntry(gen, e) !in faults;
    }
  }

  // ---- migration ----

  /** `s` reads as `t` does, and its pointer is `t`'s or the link that replaces `t`'s text. */
  ghost predicate SeenAs(pki: Pki, domain: string, t: Tree, s: Tree) {
    SameReadings(pki, domain, t, s) && (s.current == t.current || (t.current.Text? && s.current == Link(t.current.gen)))
  }

  ghost predicate AllReadAs(pki: Pki, domain: string, t: Tree, d: Io) {
    (forall s :: s in d.trace ==> SeenAs(pki, domain, t, s)) && SeenAs(pki, domain, t, d.tree)
  }

  lemma DoReadsAs(pki: Pki, domain: string, t: Tree, d: Io, step: Step, faults: set<Step>, next: Tree)
    requires AllReadAs(pki, domain, t, d) && SeenAs(pki, domain, t, next)
    ensures AllReadAs(pki, domain, t, Do(d, step, faults, next))
      && AllReadAs(pki, domain, t, Attempt(d, step, faults, next))
  {
    forall s | s in d.trace + [next] ensures SeenAs(pki, domain, t, s) { assert s in d.trace || s == next; }
  }

  lemma AtSwitchReads(pki: Pki, domain: string, t: Tree, s: Tree, gen: Id)
    requires t.current == Text(gen) && gen in t.releases && AtSwitch(t, s, gen)
    ensures SeenAs(pki, domain, t, s)
  {
  }

  lemma MoveInReads(pki: Pki, domain: string, t: Tree, gen: Id)
    requires t.current == Text(gen) && gen !in t.releases && gen in t.legacy && t.legacy[gen].Folder?
    ensures SeenAs(pki, domain, t, MoveIn(t, gen))
    ensures MoveOut(MoveIn(t, gen), gen) == t
  {
    var s := MoveIn(t, gen);
    forall g: Id ensures ReadByName(pki, domain, s, g) == ReadByName(pki, domain, t, g) {}
    assert t.releases[gen := t.legacy[gen]] - {gen} == t.releases;
    assert (t.legacy - {gen})[gen := t.legacy[gen]] == t.legacy;
  }

  /** The switch half of a migration changes nothing that readers see. */
  lemma SwitchReads(pki: Pki, domain: string, t: Tree, d: Io, gen: Id, names: Names, faults: set<Step>)
    requires AllReadAs(pki, domain, t, d) && d.ok && d.tree.current == Text(gen) && ValidId(gen)
      && FolderAt(d.tree, gen).Some?
    ensures var r := WriteCurrent(d, gen, names, faults);
      && AllReadAs(pki, domain, t, r)
      && (r.ok ==> r.tree == SetCurrent(d.tree, Link(gen)))
      && (!r.ok ==> r.tree.current == LeftAt(d.tree, gen, names, faults))
      && r.tree.releases == d.tree.releases && r.tree.legacy == d.tree.legacy
  {
    WriteCurrentResult(d, gen, names, faults);
    var r := WriteCurrent(d, gen, names, faults);
    forall s | AtSwitch(d.tree, s, gen) ensures SeenAs(pki, domain, t, s) {
      AtSwitchReads(pki, domain, d.tree, s, gen);
    }
    forall s | s in r.trace ensures SeenAs(pki, domain, t, s) {}
  }

  /** The release is in releases/ already, or gets there, with both directories synced. */
  predicate Arrives(t: Tree, gen: Id, faults: set<Step>) {
    gen in t.releases || (MakeDirs !in faults && MoveLegacy !in faults && SyncMoved !in faults && SyncLegacy !in faults)
  }

  /** The migration reaches the sync after the switch, it fails, and the old text cannot be put back. */
  predicate LinkSticks(t: Tree, names: Names, faults: set<Step>) {
    && t.current.Text? && ReadPointer !in faults && Arrives(t, t.current.gen, faults)
    && Switches(t, names, faults) && !RestoreWorks(t, names, faults)
  }

  /** ... and the release goes back to generations/, where no link leads. */
  predicate MigrationLoses(t: Tree, names: Names, faults: set<Step>) {
    LinkSticks(t, names, faults) && t.current.gen !in t.releases && MoveBack !in faults
  }

  /** Where the migration of a text pointer may end. */
  ghost predicate MigratesAs(pki: Pki, domain: string, t: Tree, r: Io, sticks: bool, loses: bool)
    requires t.current.Text?
  {
    && (AllReadAs(pki, domain, t, r) <==> !loses)
    && (Sound(pki, domain, r.tree) <==> !loses)
    && (r.ok ==> r.tree.current == Link(t.current.gen))
    && (!r.ok ==> r.tree.current == if sticks then Link(t.current.gen) else t.current)
  }

  lemma ReadAsIsSound(pki: Pki, domain: string, t: Tree, r: Io)
    requires Sound(pki, domain, t) && AllReadAs(pki, domain, t, r)
    ensures Sound(pki, domain, r.tree)
  {
    assert SeenAs(pki, domain, t, r.tree);
  }

  lemma MigrationInPlace(pki: Pki, domain: string, t: Tree, names: Names, faults: set<Step>)
    requires Sound(pki, domain, t) && t.current.Text? && ReadPointer !in faults && t.current.gen in t.releases
    ensures MigratesAs(pki, domain, t, Migrate(pki, domain, t, names, faults), LinkSticks(t, names, faults), false)
  {
    SwitchReads(pki, domain, t, Start(t), t.current.gen, names, faults);
    ReadAsIsSound(pki, domain, t, Migrate(pki, domain, t, names, faults));
  }

  lemma MigrationByMove(pki: Pki, domain: string, t: Tree, names: Names, faults: set<Step>)
    requires Sound(pki, domain, t) && t.current.Text? && ReadPointer !in faults && t.current.gen !in t.releases
    ensures MigratesAs(pki, domain, t, Migrate(pki, domain, t, names, faults), LinkSticks(t, names, faults),
      MigrationLoses(t, names, faults))
  {
    var gen := t.current.gen;
    MoveInReads(pki, domain, t, gen);
    DoReadsAs(pki, domain, t, Start(t), MoveLegacy, faults, MoveIn(t, gen));
    var moved := Do(Start(t), MoveLegacy, faults, MoveIn(t, gen));
    if MakeDirs !in faults && moved.ok { MovedMigrationReads(pki, domain, t, moved, gen, names, faults); }
    var r := Migrate(pki, domain, t, names, faults);
    if !MigrationLoses(t, names, faults) { ReadAsIsSound(pki, domain, t, r); }
    if AllReadAs(pki, domain, t, r) { ReadAsIsSound(pki, domain, t, r); }
  }

  /** The migration of a text pointer is invisible to readers at every step, exactly if it does not lose the
      release; otherwise its end is unsound. Afterwards `current` is a link, or, on error, the old text unless
      the link sticks. */
  lemma MigrationIsInvisible(pki: Pki, domain: string, t: Tree, names: Names, faults: set<Step>)
    requires Sound(pki, domain, t)
    ensures var r := Migrate(pki, domain, t, names, faults);
      && (AllReadAs(pki, domain, t, r) <==> !MigrationLoses(t, names, faults))
      && (Sound(pki, domain, r.tree) <==> !MigrationLoses(t, names, faults))
      && (r.ok ==> r.tree.current.Link? && r.tree.current.gen == t.current.gen)
      && (!r.ok ==> r.tree.current == if LinkSticks(t, names, faults) then Link(t.current.gen) else t.current)
  {
    if !t.current.Text? || ReadPointer in faults {
      assert AllReadAs(pki, domain, t, Start(t));
    } else if t.current.gen in t.releases {
      MigrationInPlace(pki, domain, t, names, faults);
    } else {
      MigrationByMove(pki, domain, t, names, faults);
    }
  }

  lemma MovedMigrationReads(pki: Pki, domain: string, t: Tree, moved: Io, gen: Id, names: Names, faults: set<Step>)
    requires t.current == Text(gen) && ValidId(gen) && gen !in t.releases && gen in t.legacy && t.legacy[gen].Folder?
    requires moved.ok && moved.tree == MoveIn(t, gen) && AllReadAs(pki, domain, t, moved)
    ensures var synced := Do(Do(moved, SyncMoved, faults, moved.tree), SyncLegacy, faults, moved.tree);
      var switched := if synced.ok then WriteCurrent(synced, gen, names, faults) else synced;
      var r := if switched.ok then switched else Fail(Attempt(switched, MoveBack, faults, MoveOut(switched.tree, gen)));
      var sticks := synced.ok && Switches(t, names, faults) && !RestoreWorks(t, names, faults);
      && (synced.ok <==> SyncMoved !in faults && SyncLegacy !in faults)
      && (if sticks && MoveBack !in faults then !Sound(pki, domain, r.tree) else AllReadAs(pki, domain, t, r))
      && (r.ok ==> r.tree.current == Link(gen))
      && (!r.ok ==> r.tree.current == if sticks then Link(gen) else t.current)
  {
    DoReadsAs(pki, domain, t, moved, SyncMoved, faults, moved.tree);
    var once := Do(moved, SyncMoved, faults, moved.tree);
    DoReadsAs(pki, domain, t, once, SyncLegacy, faults, moved.tree);
    var synced := Do(once, SyncLegacy, faults, moved.tree);
    var switched := if synced.ok then WriteCurrent(synced, gen, names, faults) else synced;
    if synced.ok { SwitchReads(pki, domain, t, synced, gen, names, faults); }
    if !switched.ok && MoveBack !in faults { MovedBackReads(pki, domain, t, switched, gen, faults); }
  }

  /** Moving the release back: unseen if the old text is back, and unsound if the link has stayed. */
  lemma MovedBackReads(pki: Pki, domain: string, t: Tree, d: Io, gen: Id, faults: set<Step>)
    requires t.current == Text(gen) && ValidId(gen) && gen !in t.releases && gen in t.legacy && t.legacy[gen].Folder?
    requires AllReadAs(pki, domain, t, d) && d.tree.releases == MoveIn(t, gen).releases
      && d.tree.legacy == MoveIn(t, gen).legacy
    ensures var back := MoveOut(d.tree, gen);
      && (d.tree.current == t.current ==> AllReadAs(pki, domain, t, Attempt(d, MoveBack, faults, back)))
      && (d.tree.current == Link(gen) ==> !Sound(pki, domain, back))
  {
    MoveInReads(pki, domain, t, gen);
    var back := MoveOut(d.tree, gen);
    assert back.releases == t.releases && back.legacy == t.legacy;
    if d.tree.current == t.current {
      assert SeenAs(pki, domain, t, back);
      DoReadsAs(pki, domain, t, d, MoveBack, faults, back);
    }
  }

  /** When a migration succeeds: the pointer reads, and if it is an old text, the release gets to releases/, the
      link is renamed over it, and the directory is synced. */
  lemma MigrationSucceedsIff(pki: Pki, domain: string, t: Tree, names: Names, faults: set<Step>)
    requires Sound(pki, domain, t)
    ensures Migrate(pki, domain, t, names, faults).ok <==>
      && ReadPointer !in faults && !t.current.Absent?
      && (t.current.Text? ==>
            && Arrives(t, t.current.gen, faults)
            && CheckTarget !in faults && Capture !in faults && MakeLink !in faults && SwitchCurrent !in faults
            && names.link !in t.staged && SyncDomain !in faults)
  {
    if t.current.Text? && ReadPointer !in faults {
      var gen := t.current.gen;
      if gen in t.releases {
        WriteCurrentResult(Start(t), gen, names, faults);
      } else if MakeDirs !in faults {
        var moved := Do(Start(t), MoveLegacy, faults, MoveIn(t, gen));
        var synced := Do(Do(moved, SyncMoved, faults, moved.tree), SyncLegacy, faults, moved.tree);
        if synced.ok { WriteCurrentResult(synced, gen, names, faults); }
      }
    }
  }

  /** A migrated store migrates to itself: the second migration changes nothing at all. */
  lemma MigrationIsIdempotent(pki: Pki, domain: string, t: Tree, names: Names, faults: set<Step>, names': Names,
                              faults': set<Step>)
    requires Sound(pki, domain, t) && Migrate(pki, domain, t, names, faults).ok
    ensures var s := Migrate(pki, domain, t, names, faults).tree;
      && Migrate(pki, domain, s, names', faults').tree == s && Migrate(pki, domain, s, names', faults').trace == [s]
      && (Migrate(pki, domain, s, names', faults').ok <==> ReadPointer !in faults')
  {
    var s := Migrate(pki, domain, t, names, faults).tree;
    if t.current.Text? {
      var gen := t.current.gen;
      if gen in t.releases {
        WriteCurrentResult(Start(t), gen, names, faults);
      } else {
        var moved := Do(Check(Start(t), MakeDirs !in faults), MoveLegacy, faults, MoveIn(t, gen));
        var synced := Do(Do(moved, SyncMoved, faults, moved.tree), SyncLegacy, faults, moved.tree);
        WriteCurrentResult(synced, gen, names, faults);
      }
      assert s.current.Link?;
    }
  }

  lemma MigrationAdvances(pki: Pki, domain: string, t: Tree, names: Names, faults: set<Step>)
    requires Sound(pki, domain, t)
    ensures AllAdvance(pki, domain, t, Migrate(pki, domain, t, names, faults)) <==> !MigrationLoses(t, names, faults)
  {
    MigrationIsInvisible(pki, domain, t, names, faults);
    var r := Migrate(pki, domain, t, names, faults);
    forall s | SeenAs(pki, domain, t, s) ensures Advances(pki, domain, t, s) {}
  }
}
