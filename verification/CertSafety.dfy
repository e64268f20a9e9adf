/** Crash safety of Publish. */
module CertSafety {
  import opened Common
  import opened FileTree
  import opened CertRuns

  /** `s` differs from `t` at most in the releases named by `ids` and in staged pointers. */
  ghost predicate Untouched(t: Tree, s: Tree, ids: set<Id>) {
    && s.current == t.current
    && s.legacy == t.legacy
    && forall g :: g !in ids ==> SameSlot(t, s, g)
  }

  ghost predicate SameSlot(t: Tree, s: Tree, g: Id) {
    if g in t.releases then g in s.releases && s.releases[g] == t.releases[g] else g !in s.releases
  }

  /** A run that has left `base` only through trees equal to `t` but for `ids`, and staged no pointer. */
  ghost predicate Staging(t: Tree, base: seq<Tree>, d: Io, ids: set<Id>) {
    && (forall s :: s in d.trace ==> s in base || Untouched(t, s, ids))
    && Untouched(t, d.tree, ids)
    && d.tree.staged == t.staged
  }

  lemma DoStaging(t: Tree, base: seq<Tree>, d: Io, ids: set<Id>, step: Step, faults: set<Step>, next: Tree)
    requires Staging(t, base, d, ids) && Untouched(t, next, ids) && next.staged == t.staged
    ensures Staging(t, base, Do(d, step, faults, next), ids) && Staging(t, base, Attempt(d, step, faults, next), ids)
  {
    forall s | s in d.trace + [next] ensures s in base || Untouched(t, s, ids) {
      assert s in d.trace || s == next;
    }
  }

  /** The directory at `id`, or nothing. */
  function FolderAt(t: Tree, id: Id): Option<Dir> {
    if id in t.releases && t.releases[id].Folder? then Some(t.releases[id].dir) else None
  }

  lemma WriteEntryStaging(t: Tree, base: seq<Tree>, d: Io, ids: set<Id>, id: Id, e: EntryName, data: Data,
                          faults: set<Step>)
    requires Staging(t, base, d, ids) && id in ids
    ensures var r := WriteEntry(d, id, e, data, faults);
      && Staging(t, base, r, ids)
      && (r.ok && FolderAt(d.tree, id).Some? ==>
           FolderAt(r.tree, id) == Some(FolderAt(d.tree, id).value[e := Regular(data)]))
      && (r.ok ==> d.ok)
  {
    var mid := PutEntry(d.tree, id, e, Regular(Bytes("")));
    DoStaging(t, base, d, ids, CreateFile(e), faults, mid);
    var created := Do(d, CreateFile(e), faults, mid);
    DoStaging(t, base, created, ids, FillFile(e), faults, PutEntry(created.tree, id, e, Regular(data)));
    if FolderAt(d.tree, id).Some? {
      var dir := FolderAt(d.tree, id).value;
      assert dir[e := Regular(Bytes(""))][e := Regular(data)] == dir[e := Regular(data)];
    }
  }

  /** `base` with the named files written into it. */
  function WithFiles(base: Dir, names: seq<FileName>, files: map<FileName, Data>): Dir
    requires forall f :: f in names ==> f in files
  {
    if names == [] then base
    else WithFiles(base, names[..|names| - 1], files)[Fixed(names[|names| - 1]) := Regular(files[names[|names| - 1]])]
  }

  lemma {:induction false} WriteFilesStaging(t: Tree, base: seq<Tree>, d: Io, ids: set<Id>, id: Id,
                                             names: seq<FileName>, files: map<FileName, Data>, faults: set<Step>)
    requires Staging(t, base, d, ids) && id in ids
    requires forall f :: f in names ==> f in files
    ensures var r := WriteFiles(d, id, names, files, faults);
      && Staging(t, base, r, ids)
      && (r.ok && FolderAt(d.tree, id).Some? ==>
           FolderAt(r.tree, id) == Some(WithFiles(FolderAt(d.tree, id).value, names, files)))
      && (r.ok ==> d.ok)
  {
    if names != [] {
      var init, f := names[..|names| - 1], names[|names| - 1];
      WriteFilesStaging(t, base, d, ids, id, init, files, faults);
      WriteEntryStaging(t, base, WriteFiles(d, id, init, files, faults), ids, id, Fixed(f), files[f], faults);
    }
  }

  lemma {:induction false} RemoveEntriesStaging(t: Tree, base: seq<Tree>, d: Io, ids: set<Id>, id: Id,
                                                order: seq<EntryName>, faults: set<Step>)
    requires Staging(t, base, d, ids) && id in ids
    ensures Staging(t, base, RemoveEntries(d, id, order, faults), ids)
  {
    if order != [] {
      var init, e := order[..|order| - 1], order[|order| - 1];
      RemoveEntriesStaging(t, base, d, ids, id, init, faults);
      var rest := RemoveEntries(d, id, init, faults);
      DoStaging(t, base, rest, ids, RemoveEntry(id, e), faults, DropEntry(rest.tree, id, e));
    }
  }

  /** Removing a directory changes nothing else, and success means it is gone. */
  lemma RemoveAllStaging(t: Tree, base: seq<Tree>, d: Io, ids: set<Id>, id: Id, order: seq<EntryName>,
                         faults: set<Step>)
    requires Staging(t, base, d, ids) && id in ids
    ensures var r := RemoveAll(d, id, order, faults);
      Staging(t, base, r, ids) && (r.ok ==> d.ok && id !in r.tree.releases)
  {
    RemoveEntriesStaging(t, base, d, ids, id, order, faults);
    var emptied := RemoveEntries(d, id, order, faults);
    var gone := emptied.tree.releases;
    DoStaging(t, base, Check(emptied, id in gone && (gone[id].Folder? ==> gone[id].dir == map[])), ids,
      RemoveFolder(id), faults, DropFolder(emptied.tree, id));
  }

  /** The directory that Publish writes. */
  function BuiltDir(files: map<FileName, Data>, m: Manifest): Dir
    requires files.Keys == {Cert, Key, Fullchain, Ca, TimeLog}
  {
    map[Fixed(Cert) := Regular(files[Cert]), Fixed(Key) := Regular(files[Key]),
      Fixed(Fullchain) := Regular(files[Fullchain]),
        Fixed(Ca) := Regular(files[Ca]), Fixed(TimeLog) := Regular(files[TimeLog]),
          ManifestJson := Regular(Encoded(Full(m)))]
  }

  /** What Publish writes, loadGeneration accepts, and reads back unchanged. */
  lemma BuiltLoads(pki: Pki, domain: string, gen: Id, revision: int, sans: seq<string>, files: map<FileName, Data>)
    requires files.Keys == {Cert, Key, Fullchain, Ca, TimeLog}
    requires ValidId(gen) && 0 < revision <= MAX_REVISION
    ensures var m := BuildManifest(pki, domain, gen, revision, sans, files);
      m.Some? ==> LoadGeneration(pki, domain, gen, BuiltDir(files, m.value)) == Some(Loaded(m.value, files))
  {
    var m := BuildManifest(pki, domain, gen, revision, sans, files);
    if m.Some? {
      var dir := BuiltDir(files, m.value);
      var items := m.value.files;
      assert items[0].name == Fixed(Cert) && items[1].name == Fixed(Key) && items[2].name == Fixed(Fullchain)
        && items[3].name == Fixed(Ca) && items[4].name == Fixed(TimeLog);
      forall f: FileName ensures exists i :: 0 <= i < |items| && items[i].name == Fixed(f) {
        var i := match f case Cert => 0 case Key => 1 case Fullchain => 2 case Ca => 3 case TimeLog => 4;
        assert items[i].name == Fixed(f);
      }
      assert forall i :: 0 <= i < 5 ==> Describes(pki, items[i], dir);
      assert FilesOf(dir) == files;
    }
  }

  lemma StoredBelow(pki: Pki, domain: string, slots: map<Id, Slot>, g: Id)
    requires g in slots && !g.Temp? && slots[g].Folder? && LoadSlot(pki, domain, g, slots[g]).Some?
    ensures LoadSlot(pki, domain, g, slots[g]).value.manifest.revision in Revisions(pki, domain, slots)
  {
    var vs := Verdicts(pki, domain, slots);
    assert g in vs && vs[g] == At(LoadSlot(pki, domain, g, slots[g]).value.manifest.revision);
  }

  lemma StoredBounded(pki: Pki, domain: string, slots: map<Id, Slot>, x: int)
    requires x in Revisions(pki, domain, slots)
    ensures 0 < x <= MAX_REVISION
  {
    var vs := Verdicts(pki, domain, slots);
    var id :| id in vs && vs[id].At? && x == vs[id].revision;
    assert vs[id] == Judge(pki, domain, id, slots[id]);
  }

  lemma NextRevisionFits(pki: Pki, domain: string, t: Tree)
    requires NextRevision(pki, domain, t).Some?
    ensures 0 < NextRevision(pki, domain, t).value <= MAX_REVISION
  {
    var inReleases, inLegacy := Revisions(pki, domain, t.releases), Revisions(pki, domain, t.legacy);
    var top := SetMax(inReleases + inLegacy + {0});
    if top in inReleases { StoredBounded(pki, domain, t.releases, top); }
    if top in inLegacy { StoredBounded(pki, domain, t.legacy, top); }
  }

  lemma NextRevisionAbove(pki: Pki, domain: string, t: Tree, x: int)
    requires NextRevision(pki, domain, t).Some?
    requires x in Revisions(pki, domain, t.releases) || x in Revisions(pki, domain, t.legacy)
    ensures x < NextRevision(pki, domain, t).value
  {
  }

  /** The revision Publish picks exceeds every stored one. */
  lemma NextRevisionExceeds(pki: Pki, domain: string, t: Tree, g: Id)
    requires NextRevision(pki, domain, t).Some?
    ensures 0 < NextRevision(pki, domain, t).value <= MAX_REVISION
    ensures ReadByName(pki, domain, t, g).Reading? && !g.Temp? ==>
      ReadByName(pki, domain, t, g).loaded.manifest.revision < NextRevision(pki, domain, t).value
  {
    NextRevisionFits(pki, domain, t);
    if ReadByName(pki, domain, t, g).Reading? && !g.Temp? {
      StoredBelow(pki, domain, if g in t.releases then t.releases else t.legacy, g);
      NextRevisionAbove(pki, domain, t, ReadByName(pki, domain, t, g).loaded.manifest.revision);
    }
  }

  lemma BuiltByWrites(files: map<FileName, Data>, m: Manifest)
    requires files.Keys == {Cert, Key, Fullchain, Ca, TimeLog}
    ensures WithFiles(map[], FIXED_FILES, files)[ManifestJson := Regular(Encoded(Full(m)))] == BuiltDir(files, m)
  {
    var four, three, two, one := FIXED_FILES[..4], FIXED_FILES[..4][..3], FIXED_FILES[..4][..3][..2],
      FIXED_FILES[..4][..3][..2][..1];
    var d1 := WithFiles(map[], one, files);
    assert one == [Cert];
    assert d1 == WithFiles(map[], [], files)[Fixed(Cert) := Regular(files[Cert])] by { assert one[..0] == []; }
    assert d1 == map[Fixed(Cert) := Regular(files[Cert])];
    var d2 := WithFiles(map[], two, files);
    assert d2 == d1[Fixed(Key) := Regular(files[Key])];
    var d3 := WithFiles(map[], three, files);
    assert d3 == d2[Fixed(Fullchain) := Regular(files[Fullchain])];
    var d4 := WithFiles(map[], four, files);
    assert d4 == d3[Fixed(Ca) := Regular(files[Ca])];
    assert WithFiles(map[], FIXED_FILES, files) == d4[Fixed(TimeLog) := Regular(files[TimeLog])];
  }

  lemma VerdictAdd(vs: map<Id, Verdict>, id: Id, v: Verdict)
    requires id !in vs
    ensures RevisionsIn(vs[id := v]) == RevisionsIn(vs) + if v.At? then {v.revision} else {}
    ensures SomeUnreadable(vs[id := v]) <==> SomeUnreadable(vs) || v.Unreadable?
  {
    var more := vs[id := v];
    forall x | x in RevisionsIn(vs) ensures x in RevisionsIn(more) {
      var g :| g in vs && vs[g].At? && x == vs[g].revision;
      assert g in more && more[g] == vs[g];
    }
    if SomeUnreadable(vs) {
      var g :| g in vs && vs[g].Unreadable?;
      assert g in more && more[g] == vs[g];
    }
    assert id in more && more[id] == v;
  }

  lemma RevisionsAdd(pki: Pki, domain: string, slots: map<Id, Slot>, id: Id, slot: Slot)
    requires id !in slots
    ensures var v := Judge(pki, domain, id, slot);
      && Revisions(pki, domain, slots[id := slot]) == Revisions(pki, domain, slots) + (if v.At? then {v.revision}
           else {})
      && (Blocked(pki, domain, slots[id := slot]) <==> Blocked(pki, domain, slots) || v.Unreadable?)
  {
    var v := Judge(pki, domain, id, slot);
    assert Verdicts(pki, domain, slots[id := slot]) == Verdicts(pki, domain, slots)[id := v];
    VerdictAdd(Verdicts(pki, domain, slots), id, v);
  }

  lemma UnreadableBlocks(pki: Pki, domain: string, slots: map<Id, Slot>, id: Id)
    requires id in slots && Judge(pki, domain, id, slots[id]).Unreadable?
    ensures Blocked(pki, domain, slots)
  {
    assert Verdicts(pki, domain, slots)[id].Unreadable?;
  }

  /** Judging one more entry moves the running maximum as the loop of nextRevision does. */
  lemma ScanStep(pki: Pki, domain: string, seen: map<Id, Slot>, id: Id, slot: Slot, floor: int)
    requires id !in seen && !Blocked(pki, domain, seen) && !Judge(pki, domain, id, slot).Unreadable?
    ensures !Blocked(pki, domain, seen[id := slot])
    ensures var top, v := SetMax(Revisions(pki, domain, seen) + {floor}), Judge(pki, domain, id, slot);
      SetMax(Revisions(pki, domain, seen[id := slot]) + {floor}) == if v.At?
        && v.revision > top then v.revision else top
  {
    RevisionsAdd(pki, domain, seen, id, slot);
    SetMaxAdd(Revisions(pki, domain, seen), floor, Judge(pki, domain, id, slot));
  }

  /** The part of a directory that a listing has gone through. */
  function Seen(slots: map<Id, Slot>, listing: seq<Id>): map<Id, Slot> {
    map id | id in listing && id in slots :: slots[id]
  }

  lemma SeenMore(slots: map<Id, Slot>, listing: seq<Id>, id: Id)
    requires id in slots && id !in listing
    ensures Seen(slots, listing + [id]) == Seen(slots, listing)[id := slots[id]] && id !in Seen(slots, listing)
  {
  }

  lemma SeenAll(slots: map<Id, Slot>, listing: seq<Id>)
    requires forall id :: id in slots ==> id in listing
    ensures Seen(slots, listing) == slots
  {
  }

  lemma NothingSeen(pki: Pki, domain: string, slots: map<Id, Slot>, floor: int)
    ensures !Blocked(pki, domain, Seen(slots, [])) && SetMax(Revisions(pki, domain, Seen(slots, [])) + {floor}) == floor
  {
    assert Seen(slots, []) == map[] && Verdicts(pki, domain, map[]) == map[];
    assert Revisions(pki, domain, map[]) + {floor} == {floor};
  }

  lemma SetMaxTwice(a: set<int>, b: set<int>)
    ensures SetMax(b + {SetMax(a + {0})}) == SetMax(a + b + {0})
  {
    var low := SetMax(a + {0});
    assert 0 in a + {0} && low in b + {low} && low in a + b + {0} && 0 in a + b + {0};
    var left, right := SetMax(b + {low}), SetMax(a + b + {0});
    assert left in a + b + {0};
    assert forall x :: x in a + b + {0} ==> x in b + {low} || x in a + {0};
  }

  lemma SetMaxAdd(s: set<int>, floor: int, v: Verdict)
    ensures SetMax(s + (if v.At? then {v.revision} else {}) + {floor}) ==
      if v.At? && v.revision > SetMax(s + {floor}) then v.revision else SetMax(s + {floor})
  {
    assert floor in s + {floor};
    if v.At? {
      assert s + {v.revision} + {floor} == s + {floor} + {v.revision};
    } else {
      assert s + {} + {floor} == s + {floor};
    }
  }

  lemma BlockedIgnoresTemp(pki: Pki, domain: string, slots: map<Id, Slot>, temp: Id)
    requires temp.Temp? && temp !in slots
    ensures Blocked(pki, domain, slots[temp := Folder(map[])]) == Blocked(pki, domain, slots)
  {
    RevisionsAdd(pki, domain, slots, temp, Folder(map[]));
  }

  lemma RevisionsIgnoreTemp(pki: Pki, domain: string, slots: map<Id, Slot>, temp: Id)
    requires temp.Temp? && temp !in slots
    ensures Revisions(pki, domain, slots[temp := Folder(map[])]) == Revisions(pki, domain, slots)
  {
    RevisionsAdd(pki, domain, slots, temp, Folder(map[]));
  }

  /** A temporary directory does not influence the next revision. */
  lemma NextRevisionIgnoresTemp(pki: Pki, domain: string, t: Tree, temp: Id)
    requires temp.Temp? && temp !in t.releases
    ensures NextRevision(pki, domain, AddFolder(t, temp)) == NextRevision(pki, domain, t)
  {
    BlockedIgnoresTemp(pki, domain, t.releases, temp);
    RevisionsIgnoreTemp(pki, domain, t.releases, temp);
  }

  lemma MovedIntoPlace(t: Tree, s: Tree, temp: Id, gen: Id, dir: Dir)
    requires Untouched(t, s, {temp}) && s.staged == t.staged && FolderAt(s, temp) == Some(dir)
    requires temp !in t.releases && temp != gen
    ensures MoveFolder(s, temp, gen) == t.(releases := t.releases[gen := Folder(dir)])
  {
    var moved := MoveFolder(s, temp, gen).releases;
    var wanted := t.releases[gen := Folder(dir)];
    forall g ensures g in moved <==> g in wanted {
      if g != temp && g != gen { assert SameSlot(t, s, g); }
    }
    forall g | g in wanted ensures moved[g] == wanted[g] {
      if g != gen { assert SameSlot(t, s, g); }
    }
    assert moved == wanted;
  }

  lemma WriteReleaseStaging(t: Tree, base: seq<Tree>, d: Io, ids: set<Id>, temp: Id, files: map<FileName, Data>,
                            m: Manifest, faults: set<Step>)
    requires files.Keys == {Cert, Key, Fullchain, Ca, TimeLog}
    requires Staging(t, base, d, ids) && temp in ids && FolderAt(d.tree, temp) == Some(map[])
    ensures var r := WriteRelease(d, temp, files, m, faults);
      Staging(t, base, r, ids) && (r.ok ==> d.ok && FolderAt(r.tree, temp) == Some(BuiltDir(files, m)))
  {
    WriteFilesStaging(t, base, d, ids, temp, FIXED_FILES, files, faults);
    var written := WriteFiles(d, temp, FIXED_FILES, files, faults);
    WriteEntryStaging(t, base, written, ids, temp, ManifestJson, Encoded(Full(m)), faults);
    var complete := WriteEntry(written, temp, ManifestJson, Encoded(Full(m)), faults);
    DoStaging(t, base, complete, ids, SyncTemp, faults, complete.tree);
    BuiltByWrites(files, m);
  }

  lemma ReleaseMoved(t: Tree, d: Io, temp: Id, gen: Id, files: map<FileName, Data>, m: Manifest, faults: set<Step>)
    requires files.Keys == {Cert, Key, Fullchain, Ca, TimeLog}
    requires Staging(t, [], d, {temp}) && FolderAt(d.tree, temp) == Some(map[]) && temp !in t.releases && temp != gen
    ensures var synced := WriteRelease(d, temp, files, m, faults);
      var r := Do(synced, MoveRelease, faults, MoveFolder(synced.tree, temp, gen));
      Moving(t, r, temp, t.(releases := t.releases[gen := Folder(BuiltDir(files, m))]))
  {
    WriteReleaseStaging(t, [], d, {temp}, temp, files, m, faults);
    var synced := WriteRelease(d, temp, files, m, faults);
    if synced.ok { MovedIntoPlace(t, synced.tree, temp, gen, BuiltDir(files, m)); }
  }

  /** A run that only writes the temporary directory, until it ends, if it does, by moving it into place. */
  ghost predicate Moving(t: Tree, d: Io, temp: Id, moved: Tree) {
    && (forall s :: s in d.trace ==> Untouched(t, s, {temp}) || (d.ok && s == moved))
    && (if d.ok then d.tree == moved else Untouched(t, d.tree, {temp}) && d.tree.staged == t.staged)
  }

  lemma StageReleaseResult(pki: Pki, domain: string, t: Tree, input: PublishInput, gen: Id, files: map<FileName, Data>,
                           faults: set<Step>)
    requires files.Keys == {Cert, Key, Fullchain, Ca, TimeLog}
    requires gen !in t.releases && Temp(input.temp) !in t.releases && !gen.Temp?
    ensures var (r, m) := StageRelease(pki, domain, Start(t), input, gen, files, faults);
      && (r.ok ==>
          && NextRevision(pki, domain, t).Some?
          && m == BuildManifest(pki, domain, gen, NextRevision(pki, domain, t).value, input.sans, files) && m.Some?
          && Moving(t, r, Temp(input.temp), t.(releases := t.releases[gen := Folder(BuiltDir(files, m.value))])))
      && (!r.ok ==> Staging(t, [], r, {Temp(input.temp)}))
  {
    var temp := Temp(input.temp);
    NextRevisionIgnoresTemp(pki, domain, t, temp);
    DoStaging(t, [], Start(t), {temp}, MakeTemp, faults, AddFolder(t, temp));
    var made := Do(Start(t), MakeTemp, faults, AddFolder(t, temp));
    var (r, m) := StageRelease(pki, domain, Start(t), input, gen, files, faults);
    var ready := Check(made, ChmodTemp !in faults && ReadRevisions !in faults && Recheck !in faults && m.Some?);
    if ready.ok {
      ReleaseMoved(t, ready, temp, gen, files, m.value, faults);
    }
  }

  /** `s` is `t` with `current` either as it was or switched to `gen`, staged pointers aside. */
  ghost predicate AtSwitch(t: Tree, s: Tree, gen: Id) {
    s.releases == t.releases && s.legacy == t.legacy && (s.current == t.current || s.current == Link(gen))
  }

  /** A run that has left `base` only through trees at the switch. */
  ghost predicate Switching(t: Tree, base: seq<Tree>, d: Io, gen: Id) {
    (forall s :: s in d.trace ==> s in base || AtSwitch(t, s, gen)) && AtSwitch(t, d.tree, gen)
  }

  lemma DoSwitching(t: Tree, base: seq<Tree>, d: Io, gen: Id, step: Step, faults: set<Step>, next: Tree)
    requires Switching(t, base, d, gen) && AtSwitch(t, next, gen)
    ensures Switching(t, base, Do(d, step, faults, next), gen)
      && Switching(t, base, Attempt(d, step, faults, next), gen)
  {
    forall s | s in d.trace + [next] ensures s in base || AtSwitch(t, s, gen) {
      assert s in d.trace || s == next;
    }
  }

  lemma PutBackResult(t: Tree, base: seq<Tree>, d: Io, gen: Id, names: Names, faults: set<Step>)
    requires d.tree == SetCurrent(t, Link(gen)) && Switching(t, base, d, gen) && !t.current.Absent?
    ensures var r := PutBack(d, t.current, names, faults);
      Switching(t, base, r, gen) && r.tree.current == if PointerReturns(t, names, faults) then t.current else Link(gen)
  {
    var d0 := Io(d.tree, d.trace, names.restore !in d.tree.staged);
    var n1 := Stage(d0.tree, names.restore, if t.current.Text? then Junk else t.current);
    DoSwitching(t, base, d0, gen, CreateRestore, faults, n1);
    var d1 := Do(d0, CreateRestore, faults, n1);
    DoSwitching(t, base, d1, gen, FillRestore, faults, Stage(d1.tree, names.restore, t.current));
    var d2 := if t.current.Text? then Do(d1, FillRestore, faults, Stage(d1.tree, names.restore, t.current)) else d1;
    if d2.ok {
      assert d2.tree.staged[names.restore] == t.current;
      DoSwitching(t, base, d2, gen, RestoreCurrent, faults, Switch(d2.tree, names.restore));
    }
    var d3 := Do(d2, RestoreCurrent, faults, Switch(d2.tree, names.restore));
    DoSwitching(t, base, d3, gen, DropRestore, faults, Unstage(d3.tree, names.restore));
  }

  lemma SwitchLinkResult(d: Io, gen: Id, names: Names, faults: set<Step>)
    requires d.ok
    ensures var r := SwitchLink(d, gen, names, faults);
      && Switching(d.tree, d.trace, r, gen)
      && (r.ok <==> MakeLink !in faults && SwitchCurrent !in faults && names.link !in d.tree.staged)
      && (r.ok ==> r.tree == SetCurrent(d.tree, Link(gen)))
      && (!r.ok ==> r.tree.current == d.tree.current)
  {
    var t := d.tree;
    var free := Check(d, names.link !in t.staged);
    var n1 := Stage(t, names.link, Link(gen));
    DoSwitching(t, d.trace, free, gen, MakeLink, faults, n1);
    var linked := Do(free, MakeLink, faults, n1);
    var n2 := Switch(linked.tree, names.link);
    var switched := Do(linked, SwitchCurrent, faults, n2);
    if linked.ok {
      assert t.staged[names.link := Link(gen)] - {names.link} == t.staged;
      assert n2 == SetCurrent(t, Link(gen));
      DoSwitching(t, d.trace, linked, gen, SwitchCurrent, faults, n2);
    }
    if !switched.ok {
      DoSwitching(t, d.trace, switched, gen, DropLink, faults, Unstage(switched.tree, names.link));
    }
  }

  /** writeCurrent in full: what it passes through, when it succeeds, and where it leaves `current`. */
  lemma WriteCurrentResult(d: Io, gen: Id, names: Names, faults: set<Step>)
    requires d.ok && ValidId(gen) && FolderAt(d.tree, gen).Some? && CanCapture(d.tree.current)
    ensures var r := WriteCurrent(d, gen, names, faults);
      && Switching(d.tree, d.trace, r, gen)
      && (r.ok <==> Switches(d.tree, names, faults) && SyncDomain !in faults)
      && (r.ok ==> r.tree == SetCurrent(d.tree, Link(gen)))
      && (!r.ok ==> r.tree.current == LeftAt(d.tree, gen, names, faults))
  {
    var t := d.tree;
    SwitchLinkResult(d, gen, names, faults);
    var switched := SwitchLink(d, gen, names, faults);
    if switched.ok {
      if t.current.Absent? {
        DoSwitching(t, d.trace, switched, gen, RestoreCurrent, faults, SetCurrent(switched.tree, Absent));
      } else {
        PutBackResult(t, d.trace, switched, gen, names, faults);
      }
    }
  }

  /** Where a failing writeCurrent leaves `current`. */
  function LeftAt(t: Tree, gen: Id, names: Names, faults: set<Step>): Pointer {
    if Switches(t, names, faults) && !RestoreWorks(t, names, faults) then Link(gen) else t.current
  }
}
