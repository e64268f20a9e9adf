/** Removal of a release, entry by entry, exactly: what is left when some entries cannot be removed. */
module CertRemoval {
  import opened Common
  import opened FileTree
  import opened CertRuns
  import opened CertSafety

  /** The entries of `order` whose removal is not made to fail. */
  function Removable(id: Id, order: seq<EntryName>, faults: set<Step>): set<EntryName> {
    set e | e in order && RemoveEntry(id, e) !in faults
  }

  lemma {:induction false} RemoveEntriesResult(d: Io, id: Id, order: seq<EntryName>, faults: set<Step>)
    requires FolderAt(d.tree, id).Some?
    ensures var r := RemoveEntries(d, id, order, faults);
      && r.ok == d.ok
      && FolderAt(r.tree, id) == Some(FolderAt(d.tree, id).value - Removable(id, order, faults))
  {
    var dir := FolderAt(d.tree, id).value;
    if order == [] {
      assert dir - Removable(id, order, faults) == dir;
    } else {
      var init, e := order[..|order| - 1], order[|order| - 1];
      RemoveEntriesResult(d, id, init, faults);
      assert order == init + [e];
      if RemoveEntry(id, e) in faults {
        assert Removable(id, order, faults) == Removable(id, init, faults);
      } else {
        assert dir - Removable(id, init, faults) - {e} == dir - Removable(id, order, faults);
      }
    }
  }

  /** os.RemoveAll on this plan empties and removes the directory. */
  predicate RemovalWorks(t: Tree, id: Id, order: seq<EntryName>, faults: set<Step>) {
    RemoveFolder(id) !in faults && FolderAt(t, id).Some? && FolderAt(t, id).value.Keys <= Removable(id, order, faults)
  }

  lemma RemoveAllResult(d: Io, id: Id, order: seq<EntryName>, faults: set<Step>)
    requires d.ok && FolderAt(d.tree, id).Some?
    ensures var r := RemoveAll(d, id, order, faults);
      && (r.ok <==> RemovalWorks(d.tree, id, order, faults))
      && (r.ok ==> r.tree == DropFolder(d.tree, id))
      && (!r.ok ==> FolderAt(r.tree, id) == Some(FolderAt(d.tree, id).value - Removable(id, order, faults)))
  {
    var dir, gone := FolderAt(d.tree, id).value, Removable(id, order, faults);
    RemoveEntriesResult(d, id, order, faults);
    if dir.Keys <= gone {
      assert dir - gone == map[];
    } else {
      var e :| e in dir && e !in gone;
      assert e in dir - gone;
    }
    var r := RemoveAll(d, id, order, faults);
    if r.ok {
      RemoveAllStaging(d.tree, d.trace, d, {id}, id, order, faults);
      assert r.tree.releases == d.tree.releases - {id} by {
        forall g ensures g in r.tree.releases <==>
          g in d.tree.releases - {id} { if g != id { assert SameSlot(d.tree, r.tree, g); } }
        forall g | g in r.tree.releases ensures r.tree.releases[g] == d.tree.releases[g] {
          assert SameSlot(d.tree, r.tree, g);
        }
      }
    }
  }

  /** A generation loses its readability as soon as one of its entries is removed. */
  lemma PartialReleaseUnreadable(pki: Pki, domain: string, gen: Id, dir: Dir, lost: set<EntryName>)
    requires CompleteContents(dir)
    ensures LoadGeneration(pki, domain, gen, dir - lost).Some? ==> dir - lost == dir
    ensures dir - lost == dir <==> dir.Keys !! lost
  {
    if e :| e in dir && e in lost {
      assert e !in dir - lost;
    } else {
      assert dir - lost == dir;
    }
  }

  /** The removal of some entry that every release has goes through. */
  predicate Removes(id: Id, order: seq<EntryName>, faults: set<Step>) {
    exists e :: e in order && !e.Other? && RemoveEntry(id, e) !in faults
  }

  lemma CompleteNames(dir: Dir)
    requires CompleteContents(dir)
    ensures forall e: EntryName :: e in dir <==> !e.Other?
  {
    forall e: EntryName ensures e in dir <==> !e.Other? {
      match e
      case Fixed(f) => match f { case Cert => case Key => case Fullchain => case Ca => case TimeLog => }
      case ManifestJson =>
      case Other(_) =>
    }
  }

  lemma RemovesIff(dir: Dir, id: Id, order: seq<EntryName>, faults: set<Step>)
    requires CompleteContents(dir)
    ensures Removes(id, order, faults) <==> !(dir.Keys !! Removable(id, order, faults))
  {
    CompleteNames(dir);
  }

  lemma {:induction false} RemovalIsSeen(d: Io, id: Id, order: seq<EntryName>, faults: set<Step>)
    ensures var r := RemoveEntries(d, id, order, faults); r.tree == d.tree || r.tree in r.trace
  {
    if order != [] { RemovalIsSeen(d, id, order[..|order| - 1], faults); }
  }

  lemma {:induction false} NothingRemoved(d: Io, id: Id, dir: Dir, order: seq<EntryName>, faults: set<Step>)
    requires FolderAt(d.tree, id) == Some(dir) && dir.Keys !! Removable(id, order, faults)
    ensures var r := RemoveEntries(d, id, order, faults);
      r.tree == d.tree && forall s :: s in r.trace ==> s in d.trace || s == d.tree
  {
    if order != [] {
      var init, e := order[..|order| - 1], order[|order| - 1];
      assert order == init + [e];
      assert Removable(id, init, faults) <= Removable(id, order, faults);
      NothingRemoved(d, id, dir, init, faults);
      if RemoveEntry(id, e) !in faults {
        assert e in Removable(id, order, faults);
        assert dir - {e} == dir;
        assert DropEntry(d.tree, id, e) == d.tree;
      }
    }
  }
}
