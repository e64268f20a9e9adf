/** The certificate store itself: an object whose methods change the file tree step by step. Each method is
    proved to take exactly the run that CertRuns and CertGc describe. */
module CertStore {
  import opened Common
  import opened FileTree
  import Runs = CertRuns
  import opened CertGc
  import CertSafety

  type Step = Runs.Step

  class Store {
    const pki: Pki
    const domain: string
    var tree: Tree
    /** Every tree the present operation has passed through. */
    ghost var trace: seq<Tree>

    constructor (pki: Pki, domain: string, tree: Tree)
      ensures this.pki == pki && this.domain == domain && this.tree == tree && trace == [tree]
    {
      this.pki := pki;
      this.domain := domain;
      this.tree := tree;
      trace := [tree];
    }

    ghost function Disk(ok: bool): Runs.Io
      reads this
    {
      Runs.Io(tree, trace, ok)
    }

    /** One file operation: it fails and changes nothing, or happens at once. */
    method Do(step: Step, faults: set<Step>, next: Tree) returns (ok: bool)
      modifies this
      ensures Disk(ok) == Runs.Do(old(Disk(true)), step, faults, next)
    {
      ok := step !in faults;
      if ok {
        tree := next;
        trace := trace + [next];
      }
    }

    /** os.ReadDir: the names, each once, in an order of the file system's choosing. */
    method ReadDir(slots: map<Id, Slot>) returns (listing: seq<Id>)
      ensures forall id :: id in listing <==> id in slots
      ensures forall i, j :: 0 <= i < j < |listing| ==> listing[i] != listing[j]
    {
      listing := [];
      var rest := slots.Keys;
      while rest != {}
        invariant rest <= slots.Keys
        invariant forall id :: id in listing <==> id in slots && id !in rest
        invariant forall i, j :: 0 <= i < j < |listing| ==> listing[i] != listing[j]
        decreases rest
      {
        var id :| id in rest;
        listing := listing + [id];
        rest := rest - {id};
      }
    }

    /** os.RemoveAll. */
    method RemoveAll(id: Id, order: seq<EntryName>, faults: set<Step>) returns (ok: bool)
      modifies this
      ensures Disk(ok) == Runs.RemoveAll(old(Disk(true)), id, order, faults)
    {
      if id !in tree.releases { return true; }
      ghost var start := Disk(true);
      for i := 0 to |order|
        invariant Disk(true) == Runs.RemoveEntries(start, id, order[..i], faults)
      {
        assert order[..i + 1][..i] == order[..i];
        var _ := Do(Runs.RemoveEntry(id, order[i]), faults, Runs.DropEntry(tree, id, order[i]));
      }
      assert order[..|order|] == order;
      if id !in tree.releases || (tree.releases[id].Folder? && tree.releases[id].dir != map[]) { return false; }
      ok := Do(Runs.RemoveFolder(id), faults, Runs.DropFolder(tree, id));
    }

    /** restoreCurrent; the caller ignores whether it worked. */
    method RestorePointer(snapshot: Pointer, names: Runs.Names, faults: set<Step>)
      modifies this
      ensures Disk(false) == Runs.RestorePointer(old(Disk(false)), snapshot, names, faults).(ok := false)
    {
      if snapshot.Absent? {
        var _ := Do(Runs.RestoreCurrent, faults, Runs.SetCurrent(tree, Absent));
        return;
      }
      var ok := names.restore !in tree.staged;
      if ok {
        ok := Do(Runs.CreateRestore, faults,
          Runs.Stage(tree, names.restore, if snapshot.Text? then Junk else snapshot));
      }
      if ok && snapshot.Text? { ok := Do(Runs.FillRestore, faults, Runs.Stage(tree, names.restore, snapshot)); }
      if ok { ok := Do(Runs.RestoreCurrent, faults, Runs.Switch(tree, names.restore)); }
      if !ok { var _ := Do(Runs.DropRestore, faults, Runs.Unstage(tree, names.restore)); }
    }

    /** The link, under its temporary name and then over `current`. */
    method SwitchLink(gen: Id, names: Runs.Names, faults: set<Step>) returns (ok: bool)
      modifies this
      ensures Disk(ok) == Runs.SwitchLink(old(Disk(true)), gen, names, faults)
    {
      ok := names.link !in tree.staged;
      if ok { ok := Do(Runs.MakeLink, faults, Runs.Stage(tree, names.link, Link(gen))); }
      if ok { ok := Do(Runs.SwitchCurrent, faults, Runs.Switch(tree, names.link)); }
      if !ok { var _ := Do(Runs.DropLink, faults, Runs.Unstage(tree, names.link)); }
    }

    method WriteCurrent(gen: Id, names: Runs.Names, faults: set<Step>) returns (ok: bool)
      modifies this
      ensures Disk(ok) == Runs.WriteCurrent(old(Disk(true)), gen, names, faults)
    {
      if !ValidId(gen) || Runs.CheckTarget in faults || gen !in tree.releases || !tree.releases[gen].Folder? {
        return false;
      }
      if Runs.Capture in faults || !Runs.CanCapture(tree.current) { return false; }
      var snapshot := tree.current;
      ok := SwitchLink(gen, names, faults);
      if ok && Runs.SyncDomain in faults {
        RestorePointer(snapshot, names, faults);
        ok := false;
      }
    }

    /** The greatest revision among the generations in `slots`, at least `floor`; nothing if one is unreadable. */
    method ScanRevisions(slots: map<Id, Slot>, floor: int) returns (top: Option<int>)
      ensures top.None? <==> Runs.Blocked(pki, domain, slots)
      ensures top.Some? ==> top.value == Runs.SetMax(Runs.Revisions(pki, domain, slots) + {floor})
    {
      hide *;
      var listing := ReadDir(slots);
      top := Some(floor);
      CertSafety.NothingSeen(pki, domain, slots, floor);
      for i := 0 to |listing|
        invariant !Runs.Blocked(pki, domain, CertSafety.Seen(slots, listing[..i]))
        invariant top == Some(Runs.SetMax(Runs.Revisions(pki, domain, CertSafety.Seen(slots, listing[..i])) + {floor}))
      {
        assert listing[..i + 1] == listing[..i] + [listing[i]];
        CertSafety.SeenMore(slots, listing[..i], listing[i]);
        top := ScanEntry(slots, listing[i], CertSafety.Seen(slots, listing[..i]), floor, top.value);
        if top.None? { return; }
      }
      assert listing[..|listing|] == listing;
      CertSafety.SeenAll(slots, listing);
    }

    /** One entry of the scan. */
    method ScanEntry(slots: map<Id, Slot>, id: Id, ghost seen: map<Id, Slot>, ghost floor: int,
                     top: int) returns (r: Option<int>)
      requires id in slots && id !in seen && !Runs.Blocked(pki, domain, seen)
      requires top == Runs.SetMax(Runs.Revisions(pki, domain, seen) + {floor})
      ensures r.None? ==> Runs.Blocked(pki, domain, slots)
      ensures r.Some? ==> !Runs.Blocked(pki, domain, seen[id := slots[id]])
      ensures r.Some? ==> r.value == Runs.SetMax(Runs.Revisions(pki, domain, seen[id := slots[id]]) + {floor})
    {
      var verdict := Runs.Judge(pki, domain, id, slots[id]);
      if verdict.Unreadable? {
        CertSafety.UnreadableBlocks(pki, domain, slots, id);
        return None;
      }
      CertSafety.ScanStep(pki, domain, seen, id, slots[id], floor);
      r := Some(if verdict.At? && verdict.revision > top then verdict.revision else top);
    }

    /** nextRevision over both parents. */
    method NextRevision() returns (r: Option<int>)
      ensures r == Runs.NextRevision(pki, domain, tree)
    {
      var top := ScanRevisions(tree.releases, 0);
      if top.None? { return None; }
      var both := ScanRevisions(tree.legacy, top.value);
      if both.None? { return None; }
      CertSafety.SetMaxTwice(Runs.Revisions(pki, domain, tree.releases), Runs.Revisions(pki, domain, tree.legacy));
      if both.value == MAX_REVISION { return None; }
      r := Some(both.value + 1);
    }

    // ---- publish ----

    /** newGenerationPath. */
    method DrawGeneration(tokens: seq<string>) returns (r: Option<Id>)
      ensures r == Runs.PickFresh(tree.releases.Keys, tokens, 8)
    {
      var i := 0;
      while i < 8 && i < |tokens|
        invariant 0 <= i <= 8 && i <= |tokens|
        invariant Runs.PickFresh(tree.releases.Keys, tokens, 8) == Runs.PickFresh(tree.releases.Keys, tokens[i..],
          8 - i)
      {
        var id := Runs.Drawn(tokens[i]);
        if !ValidId(id) { return None; }
        if id !in tree.releases { return Some(id); }
        assert tokens[i..][1..] == tokens[i + 1..];
        i := i + 1;
      }
      r := None;
    }

    /** writeFileSync. */
    method WriteEntry(id: Id, e: EntryName, data: Data, faults: set<Step>) returns (ok: bool)
      modifies this
      ensures Disk(ok) == Runs.WriteEntry(old(Disk(true)), id, e, data, faults)
    {
      ok := Do(Runs.CreateFile(e), faults, Runs.PutEntry(tree, id, e, Regular(Bytes(""))));
      if ok { ok := Do(Runs.FillFile(e), faults, Runs.PutEntry(tree, id, e, Regular(data))); }
    }

    method WriteRelease(temp: Id, files: map<FileName, Data>, manifest: Manifest, faults: set<Step>) returns (ok: bool)
      requires files.Keys == {Cert, Key, Fullchain, Ca, TimeLog}
      modifies this
      ensures Disk(ok) == Runs.WriteRelease(old(Disk(true)), temp, files, manifest, faults)
    {
      ok := true;
      ghost var start := Disk(true);
      for i := 0 to |FIXED_FILES|
        invariant Disk(ok) == Runs.WriteFiles(start, temp, FIXED_FILES[..i], files, faults)
      {
        assert FIXED_FILES[..i + 1][..i] == FIXED_FILES[..i];
        if ok { ok := WriteEntry(temp, Fixed(FIXED_FILES[i]), files[FIXED_FILES[i]], faults); }
      }
      assert FIXED_FILES[..|FIXED_FILES|] == FIXED_FILES;
      if ok { ok := WriteEntry(temp, ManifestJson, Encoded(Full(manifest)), faults); }
      if ok { ok := Do(Runs.SyncTemp, faults, tree); }
    }

    /** Build the release in a temporary directory and rename it into place. */
    method StageRelease(input: Runs.PublishInput, gen: Id, files: map<FileName, Data>,
                        faults: set<Step>) returns (ok: bool, manifest: Option<Manifest>)
      requires files.Keys == {Cert, Key, Fullchain, Ca, TimeLog}
      modifies this
      ensures Disk(ok) == Runs.StageRelease(pki, domain, old(Disk(true)), input, gen, files, faults).0
      ensures ok ==>
        manifest.Some? && manifest == Runs.StageRelease(pki, domain, old(Disk(true)), input, gen, files, faults).1
    {
      var temp := Temp(input.temp);
      manifest := None;
      ok := Do(Runs.MakeTemp, faults, Runs.AddFolder(tree, temp));
      if !ok || Runs.ChmodTemp in faults || Runs.ReadRevisions in faults || Runs.Recheck in faults {
        return false, None;
      }
      var revision := NextRevision();
      if revision.None? { return false, None; }
      manifest := Runs.BuildManifest(pki, domain, gen, revision.value, input.sans, files);
      if manifest.None? { return false, None; }
      ok := WriteRelease(temp, files, manifest.value, faults);
      if ok { ok := Do(Runs.MoveRelease, faults, Runs.MoveFolder(tree, temp, gen)); }
    }

    method Commit(gen: Id, input: Runs.PublishInput, faults: set<Step>) returns (ok: bool)
      modifies this
      ensures Disk(ok) == Runs.Commit(old(Disk(true)), gen, input, faults)
    {
      ok := Do(Runs.SyncReleases, faults, tree);
      if ok { ok := WriteCurrent(gen, input.names, faults); }
      if !ok { var _ := RemoveAll(gen, input.order, faults); }
    }

    method PublishFiles(input: Runs.PublishInput, gen: Id, files: map<FileName, Data>,
                        faults: set<Step>) returns (manifest: Option<Manifest>)
      requires files.Keys == {Cert, Key, Fullchain, Ca, TimeLog}
      modifies this
      ensures var r := Runs.PublishFiles(pki, domain, old(Disk(true)), input, gen, files, faults);
        Disk(manifest.Some?) == r.disk && manifest == r.manifest
    {
      var ok;
      ok, manifest := StageRelease(input, gen, files, faults);
      if ok {
        ok := Commit(gen, input, faults);
      } else {
        var _ := RemoveAll(Temp(input.temp), input.order, faults);
      }
      if !ok { manifest := None; }
    }

    /** Publish the staging directory as the new current generation. */
    method Publish(input: Runs.PublishInput, faults: set<Step>) returns (gen: Id, manifest: Option<Manifest>)
      modifies this
      ensures var r := Runs.Publish(pki, domain, old(tree), input, faults);
        Disk(manifest.Some?) == r.disk && manifest == r.manifest && gen == r.gen
    {
      trace := [tree];
      gen := Temp("");
      if Runs.ReadStagingDir in faults { return gen, None; }
      var files := Runs.ReadStaging(pki, domain, input.staging, input.sans, input.clock);
      if files.None? || Runs.MakeDirs in faults || Runs.ReadPointer in faults { return gen, None; }
      if ReadCurrent(pki, domain, tree).Refused? { return gen, None; }
      var drawn := DrawGeneration(input.tokens);
      if drawn.None? || Temp(input.temp) in tree.releases { return gen, None; }
      Runs.StagingHasAllFiles(pki, domain, input.staging, input.sans, input.clock);
      gen := drawn.value;
      manifest := PublishFiles(input, gen, files.value, faults);
    }

    // ---- Abort and migration ----

    method Abort(gen: Id, order: seq<EntryName>, faults: set<Step>) returns (ok: bool)
      modifies this
      ensures Disk(ok) == Runs.Abort(pki, domain, old(tree), gen, order, faults)
    {
      trace := [tree];
      if !ValidId(gen) || Runs.ReadPointer in faults { return false; }
      var current := ReadCurrent(pki, domain, tree);
      if current.Refused? || (current.Reading? && current.gen == gen) { return false; }
      if gen !in tree.releases || !tree.releases[gen].Folder? || !CompleteContents(tree.releases[gen].dir) {
        return false;
      }
      ok := RemoveAll(gen, order, faults);
      if ok { ok := Do(Runs.SyncReleases, faults, tree); }
    }

    /** currentState with migration. */
    method Migrate(names: Runs.Names, faults: set<Step>) returns (ok: bool)
      modifies this
      ensures Disk(ok) == Runs.Migrate(pki, domain, old(tree), names, faults)
    {
      trace := [tree];
      if Runs.ReadPointer in faults || !ReadCurrent(pki, domain, tree).Reading? { return false; }
      if !tree.current.Text? { return true; }
      var gen := tree.current.gen;
      if gen in tree.releases {
        ok := WriteCurrent(gen, names, faults);
        return;
      }
      if Runs.MakeDirs in faults { return false; }
      ok := MoveAndSwitch(gen, names, faults);
    }

    /** Move the release out of generations/, then point `current` at it; move it back if that fails. */
    method MoveAndSwitch(gen: Id, names: Runs.Names, faults: set<Step>) returns (ok: bool)
      modifies this
      ensures Disk(ok) == Runs.MoveAndSwitch(old(Disk(true)), gen, names, faults)
    {
      ok := Do(Runs.MoveLegacy, faults, Runs.MoveIn(tree, gen));
      if !ok { return; }
      ok := Do(Runs.SyncMoved, faults, tree);
      if ok { ok := Do(Runs.SyncLegacy, faults, tree); }
      if ok { ok := WriteCurrent(gen, names, faults); }
      if !ok { var _ := Do(Runs.MoveBack, faults, Runs.MoveOut(tree, gen)); }
    }

    // ---- garbage collection ----

    /** Put a candidate into its place in a ranked list. */
    static method Insert(ranked: seq<Candidate>, c: Candidate) returns (r: seq<Candidate>)
      requires Ranked(ranked) && c !in ranked
      requires c.gen.Name? && forall other :: other in ranked ==> other.gen.Name?
      ensures Ranked(r) && (set x | x in r) == (set x | x in ranked) + {c}
    {
      var i := 0;
      while i < |ranked| && Before(ranked[i], c)
        invariant 0 <= i <= |ranked| && forall j :: 0 <= j < i ==> Before(ranked[j], c)
      {
        i := i + 1;
      }
      r := ranked[..i] + [c] + ranked[i..];
      forall j | i <= j < |ranked| ensures Before(c, ranked[j]) {
        assert ranked[i] in ranked;
        BeforeIsOrder(ranked[i], c, c);
        BeforeIsOrder(c, ranked[i], ranked[j]);
      }
      InsertedElements(ranked, i, c);
    }

    /** Every readable generation, ranked, from one listing of releases/. */
    method RankCandidates() returns (ranked: seq<Candidate>)
      ensures Ranks(pki, domain, tree, ranked)
    {
      var listing := ReadDir(tree.releases);
      ranked := [];
      for i := 0 to |listing|
        invariant Ranked(ranked)
        invariant (set c | c in ranked) == CandidatesAmong(pki, domain, tree, listing[..i])
      {
        assert listing[..i + 1] == listing[..i] + [listing[i]];
        CandidatesAmongAdd(pki, domain, tree, listing[..i], listing[i]);
        if IsCandidate(pki, domain, tree, listing[i]) {
          ranked := Insert(ranked, CandidateOf(pki, domain, tree, listing[i]));
        }
      }
      assert listing[..|listing|] == listing;
      CandidatesAmongAll(pki, domain, tree, listing);
    }

    /** GarbageCollect. The two lists are returned as sets; `ranked` shows the order of the walk. */
    method GarbageCollect(options: GcOptions, orders: Listings, faults: set<Step>)
      returns (ok: bool, removed: set<Id>, retained: set<Id>, failed: set<Id>, ghost ranked: seq<Candidate>)
      modifies this
      ensures Ranks(pki, domain, old(tree), ranked)
      ensures var r := Collect(pki, domain, old(tree), options, ranked, orders, faults);
        Disk(ok) == r.disk && removed == r.removed && retained == r.retained && failed == r.failed
    {
      trace := [tree];
      ghost var t := tree;
      var list := RankCandidates();
      ranked := list;
      removed, retained, failed := {}, {}, {};
      if !ValidOptions(options) || Runs.ReadPointer in faults || Runs.ReadRevisions in faults {
        return false, removed, retained, failed, ranked;
      }
      if ReadCurrent(pki, domain, tree).Refused? { return false, removed, retained, failed, ranked; }
      var current := CurrentId(pki, domain, tree);
      retained := set id | id in tree.releases
        && (IsCandidate(pki, domain, tree, id) || IsUnreadable(pki, domain, tree, id));
      failed := set id | id in tree.releases && IsReported(pki, domain, tree, id);
      ghost var reported := failed;
      for i := 0 to |list|
        invariant var s := SweepAll(t, current, options, list[..i], orders, faults);
          Disk(true) == s.disk.(ok := true) && removed == s.removed && failed == reported + s.failed
      {
        assert list[..i + 1][..i] == list[..i];
        if !Spared(current, options, list[i], i) {
          var gone := RemoveAll(list[i].gen, Listing(orders, list[i].gen), faults);
          if gone { removed := removed + {list[i].gen}; } else { failed := failed + {list[i].gen}; }
        }
      }
      assert list[..|list|] == list;
      SweepOk(t, current, options, list, orders, faults);
      retained := retained - removed;
      ok := true;
      if removed != {} { ok := Do(Runs.SyncReleases, faults, tree); }
    }
  }
}
