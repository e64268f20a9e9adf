/** Garbage collection of old generations: the run, what it removes, and that it never touches `current`. */
module CertGc {
  import opened Common
  import opened FileTree
  import opened CertRuns
  import opened CertSafety
  import opened CertRemoval
  import opened PublishSafety

  /** References must be valid; a report without a generation is skipped. */
  datatype GcOptions = GcOptions(keepRecent: int, references: seq<Id>, reports: seq<Id>)

  const NO_GENERATION := Name("")

  predicate ValidOptions(options: GcOptions) {
    && options.keepRecent >= 0
    && (forall g :: g in options.references ==> ValidId(g))
    && (forall g :: g in options.reports ==> g == NO_GENERATION || ValidId(g))
  }

  function Protected(options: GcOptions): set<Id> {
    (set g | g in options.references) + (set g | g in options.reports && g != NO_GENERATION)
  }

  /** A readable generation with the revision it is ranked by. */
  datatype Candidate = Candidate(gen: Id, revision: int)

  predicate IsCandidate(pki: Pki, domain: string, t: Tree, id: Id) {
    Counts(id) && id in t.releases && LoadSlot(pki, domain, id, t.releases[id]).Some?
  }

  function CandidateOf(pki: Pki, domain: string, t: Tree, id: Id): Candidate
    requires IsCandidate(pki, domain, t, id)
  {
    Candidate(id, LoadSlot(pki, domain, id, t.releases[id]).value.manifest.revision)
  }

  /** A generation directory that cannot be read is reported and retained. */
  predicate IsUnreadable(pki: Pki, domain: string, t: Tree, id: Id) {
    Counts(id) && FolderAt(t, id).Some? && LoadSlot(pki, domain, id, t.releases[id]).None?
  }

  /** Entries whose names could be generations but which are no readable directories: a link, another kind of
      file, or an unreadable generation. */
  predicate IsReported(pki: Pki, domain: string, t: Tree, id: Id) {
    && ValidId(id) && id in t.releases
    && (t.releases[id].Alias? || (!id.Temp? && t.releases[id].Plain?) || IsUnreadable(pki, domain, t, id))
  }

  /** `a` comes before `b`: greater revision first, and the greater id among equals. */
  predicate Before(a: Candidate, b: Candidate) {
    a.revision > b.revision || (a.revision == b.revision && a.gen.Name? && b.gen.Name?
      && LexLess(b.gen.text, a.gen.text))
  }

  predicate Ranked(s: seq<Candidate>) {
    forall i, j :: 0 <= i < j < |s| ==> Before(s[i], s[j])
  }

  ghost function Candidates(pki: Pki, domain: string, t: Tree): set<Candidate> {
    set id | id in t.releases && IsCandidate(pki, domain, t, id) :: CandidateOf(pki, domain, t, id)
  }

  /** The candidates that come before `c`. */
  ghost function Ahead(all: set<Candidate>, c: Candidate): set<Candidate> {
    set other | other in all && Before(other, c)
  }

  function CurrentId(pki: Pki, domain: string, t: Tree): Id {
    var r := ReadCurrent(pki, domain, t);
    if r.Reading? then r.gen else NO_GENERATION
  }

  /** The retention rule, without any list: current, protected, or among the keepRecent greatest. */
  ghost predicate Keeps(pki: Pki, domain: string, t: Tree, options: GcOptions, c: Candidate) {
    || c.gen == CurrentId(pki, domain, t)
    || c.gen in Protected(options)
    || |Ahead(Candidates(pki, domain, t), c)| < options.keepRecent
  }

  // ---- the sweep ----

  datatype Sweep = Sweep(disk: Io, removed: set<Id>, failed: set<Id>)

  /** Directory listings for the removals, by generation. */
  type Listings = map<Id, seq<EntryName>>

  function Listing(orders: Listings, id: Id): seq<EntryName> { if id in orders then orders[id] else [] }

  predicate Spared(current: Id, options: GcOptions, c: Candidate, index: nat) {
    c.gen == current || index < options.keepRecent || c.gen in Protected(options)
  }

  /** Walk the ranked candidates and remove those that are not spared; one that cannot be removed is
      recorded and the walk goes on. */
  function SweepAll(t: Tree, current: Id, options: GcOptions, ranked: seq<Candidate>, orders: Listings,
                    faults: set<Step>): Sweep {
    if ranked == [] then Sweep(Start(t), {}, {})
    else
      var n := |ranked| - 1;
      var rest := SweepAll(t, current, options, ranked[..n], orders, faults);
      var c := ranked[n];
      if Spared(current, options, c, n) then rest
      else
        var gone := RemoveAll(Io(rest.disk.tree, rest.disk.trace, true), c.gen, Listing(orders, c.gen), faults);
        Sweep(Io(gone.tree, gone.trace, true),
              if gone.ok then rest.removed + {c.gen} else rest.removed,
              if gone.ok then rest.failed else rest.failed + {c.gen})
  }

  datatype GcOutcome = GcOutcome(disk: Io, removed: set<Id>, retained: set<Id>, failed: set<Id>)

  /** GarbageCollect on ranked candidates; the release directory is synced only if something was removed. */
  ghost function Collect(pki: Pki, domain: string, t: Tree, options: GcOptions, ranked: seq<Candidate>,
                         orders: Listings, faults: set<Step>): GcOutcome {
    var d := Check(Start(t), ValidOptions(options) && ReadPointer !in faults && !ReadCurrent(pki, domain, t).Refused?
      && ReadRevisions !in faults);
    if !d.ok then GcOutcome(d, {}, {}, {})
    else
      var s := SweepAll(t, CurrentId(pki, domain, t), options, ranked, orders, faults);
      var end := if s.removed == {} then s.disk else Do(s.disk, SyncReleases, faults, s.disk.tree);
      GcOutcome(end, s.removed, (set id | id in t.releases
        && (IsCandidate(pki, domain, t, id) || IsUnreadable(pki, domain, t, id))) - s.removed,
                (set id | id in t.releases && IsReported(pki, domain, t, id)) + s.failed)
  }

  // ---- ranking ----

  lemma BeforeIsOrder(a: Candidate, b: Candidate, c: Candidate)
    ensures !Before(a, a)
    ensures Before(a, b) && Before(b, c) ==> Before(a, c)
    ensures a.gen.Name? && b.gen.Name? ==> a == b || Before(a, b) || Before(b, a)
  {
    if a.gen.Name? {
      LexIrreflexive(a.gen.text);
      if b.gen.Name? {
        LexConnected(a.gen.text, b.gen.text);
        if c.gen.Name? && LexLess(b.gen.text, a.gen.text) && LexLess(c.gen.text, b.gen.text) {
          LexTransitive(c.gen.text, b.gen.text, a.gen.text);
        }
      }
    }
  }

  /** In a ranked list, exactly the earlier elements come before an element. */
  lemma RankIsIndex(ranked: seq<Candidate>, all: set<Candidate>, i: nat)
    requires Ranked(ranked) && i < |ranked| && all == (set c | c in ranked)
    ensures Ahead(all, ranked[i]) == (set c | c in ranked[..i])
    ensures |Ahead(all, ranked[i])| == i
  {
    forall j | 0 <= j < |ranked| ensures Before(ranked[j], ranked[i]) <==> j < i {
      BeforeIsOrder(ranked[i], ranked[j], ranked[i]);
    }
    RankedDistinct(ranked[..i]);
  }

  lemma {:induction false} RankedDistinct(ranked: seq<Candidate>)
    requires Ranked(ranked)
    ensures |set c | c in ranked| == |ranked|
  {
    if ranked != [] {
      var init, last := ranked[..|ranked| - 1], ranked[|ranked| - 1];
      RankedDistinct(init);
      assert last !in init by {
        if last in init { var j :| 0 <= j < |init| && init[j] == last; BeforeIsOrder(last, last, last); }
      }
      assert (set c | c in ranked) == (set c | c in init) + {last};
    }
  }

  /** The generations the rule gives up and the file system lets go. */
  ghost function Doomed(pki: Pki, domain: string, t: Tree, options: GcOptions, orders: Listings,
                        faults: set<Step>): set<Id> {
    set id | id in t.releases && IsCandidate(pki, domain, t, id)
             && !Keeps(pki, domain, t, options, CandidateOf(pki, domain, t, id))
             && RemovalWorks(t, id, Listing(orders, id), faults)
  }

  /** `ranked` is the candidates of `t`, each once, in rank order. */
  ghost predicate Ranks(pki: Pki, domain: string, t: Tree, ranked: seq<Candidate>) {
    Ranked(ranked) && (set c | c in ranked) == Candidates(pki, domain, t)
  }

  ghost predicate AreCandidates(pki: Pki, domain: string, t: Tree, ranked: seq<Candidate>) {
    && Ranked(ranked)
    && forall c :: c in ranked ==> IsCandidate(pki, domain, t, c.gen) && c == CandidateOf(pki, domain, t, c.gen)
  }

  /** The generations the walk tries to remove. */
  ghost function Tried(current: Id, options: GcOptions, ranked: seq<Candidate>): set<Id> {
    set i | 0 <= i < |ranked| && !Spared(current, options, ranked[i], i) :: ranked[i].gen
  }

  lemma TriedInit(current: Id, options: GcOptions, ranked: seq<Candidate>)
    requires ranked != []
    ensures var n := |ranked| - 1;
      Tried(current, options, ranked) ==
        Tried(current, options, ranked[..n]) + if Spared(current, options, ranked[n], n) then {} else {ranked[n].gen}
  {
    var n := |ranked| - 1;
    var init := ranked[..n];
    forall id | id in Tried(current, options, init) ensures id in Tried(current, options, ranked) {
      var i :| 0 <= i < |init| && !Spared(current, options, init[i], i) && id == init[i].gen;
      assert ranked[i] == init[i];
    }
    forall id | id in Tried(current, options, ranked)
      && !(id == ranked[n].gen && !Spared(current, options, ranked[n], n))
      ensures id in Tried(current, options, init)
    {
      var i :| 0 <= i < |ranked| && !Spared(current, options, ranked[i], i) && id == ranked[i].gen;
      assert init[i] == ranked[i];
    }
  }

  /** A later candidate has not been tried yet. */
  lemma LastUntried(pki: Pki, domain: string, t: Tree, current: Id, options: GcOptions, ranked: seq<Candidate>)
    requires ranked != [] && AreCandidates(pki, domain, t, ranked)
    ensures ranked[|ranked| - 1].gen !in Tried(current, options, ranked[..|ranked| - 1])
  {
    var n := |ranked| - 1;
    if ranked[n].gen in Tried(current, options, ranked[..n]) {
      var i :| 0 <= i < n && ranked[..n][i].gen == ranked[n].gen;
      assert ranked[i] in ranked && ranked[n] in ranked;
      assert ranked[i] == ranked[n];
      BeforeIsOrder(ranked[i], ranked[i], ranked[i]);
    }
  }

  ghost function Works(t: Tree, ids: set<Id>, orders: Listings, faults: set<Step>): set<Id> {
    set id | id in ids && RemovalWorks(t, id, Listing(orders, id), faults)
  }

  lemma WorksAdd(t: Tree, ids: set<Id>, id: Id, orders: Listings, faults: set<Step>)
    ensures Works(t, ids + {id}, orders, faults) ==
      Works(t, ids, orders, faults) + if RemovalWorks(t, id, Listing(orders, id), faults) then {id} else {}
  {
  }

  lemma {:induction false} SweepResult(pki: Pki, domain: string, t: Tree, current: Id, options: GcOptions,
                                       ranked: seq<Candidate>, orders: Listings, faults: set<Step>)
    requires AreCandidates(pki, domain, t, ranked)
    ensures var s := SweepAll(t, current, options, ranked, orders, faults);
      var tried := Tried(current, options, ranked);
      && s.disk.ok && Staging(t, [], s.disk, tried)
      && s.removed == Works(t, tried, orders, faults)
      && forall id :: id in s.removed ==> id !in s.disk.tree.releases
  {
    if ranked != [] {
      var n := |ranked| - 1;
      var init, c := ranked[..n], ranked[n];
      SweepResult(pki, domain, t, current, options, init, orders, faults);
      TriedInit(current, options, ranked);
      if !Spared(current, options, c, n) {
        LastUntried(pki, domain, t, current, options, ranked);
        SweepStep(pki, domain, t, current, options, ranked, orders, faults);
      }
    }
  }

  lemma SweepStep(pki: Pki, domain: string, t: Tree, current: Id, options: GcOptions, ranked: seq<Candidate>,
                  orders: Listings, faults: set<Step>)
    requires ranked != [] && AreCandidates(pki, domain, t, ranked)
    requires !Spared(current, options, ranked[|ranked| - 1], |ranked| - 1)
    requires var rest := SweepAll(t, current, options, ranked[..|ranked| - 1], orders, faults);
      var before := Tried(current, options, ranked[..|ranked| - 1]);
      && Staging(t, [], rest.disk, before) && ranked[|ranked| - 1].gen !in before
      && rest.removed == Works(t, before, orders, faults)
      && (forall id :: id in rest.removed ==> id !in rest.disk.tree.releases)
      && Tried(current, options, ranked) == before + {ranked[|ranked| - 1].gen}
    ensures var s := SweepAll(t, current, options, ranked, orders, faults);
      var tried := Tried(current, options, ranked);
      && s.disk.ok && Staging(t, [], s.disk, tried)
      && s.removed == Works(t, tried, orders, faults)
      && forall id :: id in s.removed ==> id !in s.disk.tree.releases
  {
    var n := |ranked| - 1;
    var c := ranked[n];
    assert c in ranked;
    var before := Tried(current, options, ranked[..n]);
    var rest := SweepAll(t, current, options, ranked[..n], orders, faults);
    RemovalStep(t, rest.disk, before, rest.removed, c.gen, orders, faults);
  }

  lemma SweepUnfolds(t: Tree, current: Id, options: GcOptions, ranked: seq<Candidate>, orders: Listings,
                     faults: set<Step>)
    requires ranked != []
    ensures var n := |ranked| - 1;
      var (s, rest) := (SweepAll(t, current, options, ranked, orders, faults),
        SweepAll(t, current, options, ranked[..n], orders, faults));
      if Spared(current, options, ranked[n], n) then s == rest
      else
        || (s.removed == rest.removed + {ranked[n].gen} && s.failed == rest.failed)
        || (s.removed == rest.removed && s.failed == rest.failed + {ranked[n].gen})
  {
  }

  lemma CandidatesInit(pki: Pki, domain: string, t: Tree, ranked: seq<Candidate>)
    requires ranked != [] && AreCandidates(pki, domain, t, ranked)
    ensures AreCandidates(pki, domain, t, ranked[..|ranked| - 1])
  {
  }

  lemma NothingTried(t: Tree, current: Id, options: GcOptions, orders: Listings, faults: set<Step>)
    ensures Tried(current, options, []) == {}
      && SweepAll(t, current, options, [], orders, faults) == Sweep(Start(t), {}, {})
  {
  }

  /** Every candidate that the walk tries is removed or fails, and none does both. */
  lemma {:induction false} SweepPartitions(pki: Pki, domain: string, t: Tree, current: Id, options: GcOptions,
                                           ranked: seq<Candidate>, orders: Listings, faults: set<Step>)
    requires AreCandidates(pki, domain, t, ranked)
    ensures var s := SweepAll(t, current, options, ranked, orders, faults);
      s.removed + s.failed == Tried(current, options, ranked) && s.removed !! s.failed
  {
    hide *;
    if ranked == [] {
      NothingTried(t, current, options, orders, faults);
    } else {
      CandidatesInit(pki, domain, t, ranked);
      SweepPartitions(pki, domain, t, current, options, ranked[..|ranked| - 1], orders, faults);
      SweepUnfolds(t, current, options, ranked, orders, faults);
      TriedInit(current, options, ranked);
      LastUntried(pki, domain, t, current, options, ranked);
    }
  }

  lemma RemovalStep(t: Tree, d: Io, before: set<Id>, removed: set<Id>, id: Id, orders: Listings, faults: set<Step>)
    requires Staging(t, [], d, before) && id !in before && FolderAt(t, id).Some?
    requires removed == Works(t, before, orders, faults) && forall g :: g in removed ==> g !in d.tree.releases
    ensures var gone := RemoveAll(Io(d.tree, d.trace, true), id, Listing(orders, id), faults);
      var removed' := if gone.ok then removed + {id} else removed;
      && Staging(t, [], gone, before + {id})
      && removed' == Works(t, before + {id}, orders, faults)
      && forall g :: g in removed' ==> g !in gone.tree.releases
  {
    var from := Io(d.tree, d.trace, true);
    var gone := RemoveAll(from, id, Listing(orders, id), faults);
    assert SameSlot(t, d.tree, id);
    assert Staging(t, [], from, before + {id});
    RemoveAllStaging(t, [], from, before + {id}, id, Listing(orders, id), faults);
    RemoveAllStaging(from.tree, from.trace, from, {id}, id, Listing(orders, id), faults);
    RemoveAllResult(from, id, Listing(orders, id), faults);
    WorksAdd(t, before, id, orders, faults);
    forall g | g in removed ensures g !in gone.tree.releases {
      if g != id { assert SameSlot(from.tree, gone.tree, g); }
    }
  }

  // ---- what garbage collection guarantees ----

  lemma RanksAreCandidates(pki: Pki, domain: string, t: Tree, ranked: seq<Candidate>)
    requires Ranks(pki, domain, t, ranked)
    ensures AreCandidates(pki, domain, t, ranked)
  {
    forall c | c in ranked ensures IsCandidate(pki, domain, t, c.gen) && c == CandidateOf(pki, domain, t, c.gen) {
      assert c in Candidates(pki, domain, t);
    }
  }

  /** Walking by index gives up exactly the candidates that the retention rule does not keep. */
  lemma TriedIsNotKept(pki: Pki, domain: string, t: Tree, options: GcOptions, ranked: seq<Candidate>, id: Id)
    requires Ranks(pki, domain, t, ranked)
    ensures id in Tried(CurrentId(pki, domain, t), options, ranked) <==>
      IsCandidate(pki, domain, t, id) && !Keeps(pki, domain, t, options, CandidateOf(pki, domain, t, id))
  {
    RanksAreCandidates(pki, domain, t, ranked);
    var current := CurrentId(pki, domain, t);
    forall i | 0 <= i < |ranked|
      ensures Spared(current, options, ranked[i], i) <==> Keeps(pki, domain, t, options, ranked[i])
    {
      RankIsIndex(ranked, Candidates(pki, domain, t), i);
    }
    if IsCandidate(pki, domain, t, id) {
      var c := CandidateOf(pki, domain, t, id);
      assert c in Candidates(pki, domain, t);
      var i :| 0 <= i < |ranked| && ranked[i] == c;
      if !Keeps(pki, domain, t, options, c) { assert ranked[i].gen == id; }
    }
    if id in Tried(current, options, ranked) {
      var i :| 0 <= i < |ranked| && !Spared(current, options, ranked[i], i) && id == ranked[i].gen;
      assert ranked[i] in ranked;
    }
  }

  /** Every readable generation ends in exactly one of the two lists: removed if the rule gives it up and the
      removal works, retained otherwise. Reported as failed are exactly the entries that are no readable
      directories and the given up that stay. Removed ones are gone, no generation that the rule keeps is
      touched, and at every crash point `current` reads as before. */
  lemma CollectIsExact(pki: Pki, domain: string, t: Tree, options: GcOptions, ranked: seq<Candidate>, orders: Listings,
                       faults: set<Step>)
    requires Sound(pki, domain, t) && Ranks(pki, domain, t, ranked)
    requires ValidOptions(options) && ReadPointer !in faults && ReadRevisions !in faults
    ensures var r := Collect(pki, domain, t, options, ranked, orders, faults);
      && r.removed == Doomed(pki, domain, t, options, orders, faults)
      && (forall id :: IsCandidate(pki, domain, t, id) ==> (id in r.retained <==> id !in r.removed))
      && (forall id :: id in r.failed <==>
            (IsReported(pki, domain, t, id)
             || (IsCandidate(pki, domain, t, id) && id !in r.removed
                 && !Keeps(pki, domain, t, options, CandidateOf(pki, domain, t, id)))))
      && (forall id :: id in r.removed ==> id !in r.disk.tree.releases)
      && (forall id ::
            IsCandidate(pki, domain, t, id) && Keeps(pki, domain, t, options, CandidateOf(pki, domain, t, id)) ==>
            id in r.retained && SameSlot(t, r.disk.tree, id))
      && AllAdvance(pki, domain, t, r.disk) && ReadCurrent(pki, domain, r.disk.tree) == ReadCurrent(pki, domain, t)
  {
    hide Collect, SweepAll, Keeps, Candidates, Protected, LoadSlot, ReadCurrent, RemovalWorks, Sound, Ranked;
    var tried := Tried(CurrentId(pki, domain, t), options, ranked);
    var s := SweepAll(t, CurrentId(pki, domain, t), options, ranked, orders, faults);
    RanksAreCandidates(pki, domain, t, ranked);
    SweepResult(pki, domain, t, CurrentId(pki, domain, t), options, ranked, orders, faults);
    SweepPartitions(pki, domain, t, CurrentId(pki, domain, t), options, ranked, orders, faults);
    forall id: Id { TriedIsNotKept(pki, domain, t, options, ranked, id); }
    CurrentIsKept(pki, domain, t, options);
    assert Unnamed(t, tried);
    CollectUnfolds(pki, domain, t, options, ranked, orders, faults);
    DoStaging(t, [], s.disk, tried, SyncReleases, faults, s.disk.tree);
    StagingAdvances(pki, domain, t, [], Collect(pki, domain, t, options, ranked, orders, faults).disk, tried);
  }

  lemma CurrentIsKept(pki: Pki, domain: string, t: Tree, options: GcOptions)
    requires Sound(pki, domain, t)
    ensures !t.current.Absent? ==>
      t.current.gen == CurrentId(pki, domain, t)
      && forall c: Candidate :: c.gen == t.current.gen ==> Keeps(pki, domain, t, options, c)
  {
  }

  lemma CollectUnfolds(pki: Pki, domain: string, t: Tree, options: GcOptions, ranked: seq<Candidate>,
                       orders: Listings, faults: set<Step>)
    requires Sound(pki, domain, t) && ValidOptions(options) && ReadPointer !in faults && ReadRevisions !in faults
    ensures var s := SweepAll(t, CurrentId(pki, domain, t), options, ranked, orders, faults);
      var r := Collect(pki, domain, t, options, ranked, orders, faults);
      && r.removed == s.removed && (r.disk == s.disk || r.disk == Do(s.disk, SyncReleases, faults, s.disk.tree))
      && r.disk.tree == s.disk.tree
      && (forall id :: id in r.retained <==>
            && id in t.releases && id !in s.removed
            && (IsCandidate(pki, domain, t, id) || IsUnreadable(pki, domain, t, id)))
      && (forall id :: id in r.failed <==>
            id in s.failed || (id in t.releases && IsReported(pki, domain, t, id)))
  {
    hide SweepAll, IsCandidate, IsUnreadable, IsReported;
  }

  /** The rank order of a set of candidates is unique, so the outcome does not depend on how the directory
      was listed. */
  lemma {:induction false} RankingIsUnique(a: seq<Candidate>, b: seq<Candidate>)
    requires Ranked(a) && Ranked(b) && (set c | c in a) == (set c | c in b)
    ensures a == b
  {
    RankedDistinct(a);
    RankedDistinct(b);
    var all := set c | c in a;
    forall i | 0 <= i < |a| ensures a[i] == b[i] {
      assert a[i] in all;
      var j :| 0 <= j < |b| && b[j] == a[i];
      RankIsIndex(a, all, i);
      RankIsIndex(b, all, j);
    }
  }

  /** The readable generations that are greater than `id`: by revision, and by name among equals. */
  ghost function Greater(pki: Pki, domain: string, t: Tree, id: Id): set<Id> {
    set g | g in t.releases && Exceeds(pki, domain, t, g, id)
  }

  ghost predicate Exceeds(pki: Pki, domain: string, t: Tree, g: Id, id: Id) {
    && IsCandidate(pki, domain, t, g) && IsCandidate(pki, domain, t, id)
    && var (a, b) := (LoadSlot(pki, domain, g, t.releases[g]).value.manifest.revision,
                      LoadSlot(pki, domain, id, t.releases[id]).value.manifest.revision);
       b < a || (a == b && g.Name? && id.Name? && LexLess(id.text, g.text))
  }

  lemma {:induction false} SameCount(cs: set<Candidate>, ids: set<Id>)
    requires ids == (set c | c in cs :: c.gen) && forall a, b :: a in cs && b in cs && a.gen == b.gen ==> a == b
    ensures |cs| == |ids|
  {
    if c :| c in cs {
      SameCount(cs - {c}, ids - {c.gen});
    }
  }

  /** The retention rule on revisions and names alone: the current generation, those protected, and those that
      fewer than keepRecent readable generations are greater than. */
  lemma KeepsIff(pki: Pki, domain: string, t: Tree, options: GcOptions, id: Id)
    requires IsCandidate(pki, domain, t, id)
    ensures Keeps(pki, domain, t, options, CandidateOf(pki, domain, t, id)) <==>
      || (ReadCurrent(pki, domain, t).Reading? && ReadCurrent(pki, domain, t).gen == id)
      || id in options.references || id in options.reports
      || |Greater(pki, domain, t, id)| < options.keepRecent
  {
    var ahead := Ahead(Candidates(pki, domain, t), CandidateOf(pki, domain, t, id));
    AheadIds(pki, domain, t, id);
    AheadDistinct(pki, domain, t, CandidateOf(pki, domain, t, id));
    SameCount(ahead, Greater(pki, domain, t, id));
    ProtectedIs(options, id);
    assert CandidateOf(pki, domain, t, id).gen == id && id != NO_GENERATION;
  }

  lemma ProtectedIs(options: GcOptions, id: Id)
    ensures id in Protected(options) <==> id in options.references || (id in options.reports && id != NO_GENERATION)
  {
  }

  lemma ExceedsIff(pki: Pki, domain: string, t: Tree, g: Id, id: Id)
    requires IsCandidate(pki, domain, t, g) && IsCandidate(pki, domain, t, id)
    ensures Exceeds(pki, domain, t, g, id) <==> Before(CandidateOf(pki, domain, t, g), CandidateOf(pki, domain, t, id))
  {
    hide LoadGeneration, LexLess;
  }

  lemma CandidatesAre(pki: Pki, domain: string, t: Tree, c: Candidate)
    ensures c in Candidates(pki, domain, t) <==>
      IsCandidate(pki, domain, t, c.gen) && c == CandidateOf(pki, domain, t, c.gen)
  {
    if IsCandidate(pki, domain, t, c.gen) && c == CandidateOf(pki, domain, t, c.gen) {
      assert CandidateOf(pki, domain, t, c.gen) in Candidates(pki, domain, t);
    }
  }

  lemma AheadDistinct(pki: Pki, domain: string, t: Tree, c: Candidate)
    ensures var ahead := Ahead(Candidates(pki, domain, t), c);
      forall a, b :: a in ahead && b in ahead && a.gen == b.gen ==> a == b
  {
    forall a { CandidatesAre(pki, domain, t, a); }
  }

  lemma AheadIds(pki: Pki, domain: string, t: Tree, id: Id)
    requires IsCandidate(pki, domain, t, id)
    ensures Greater(pki, domain, t, id) ==
      set c | c in Ahead(Candidates(pki, domain, t), CandidateOf(pki, domain, t, id)) :: c.gen
  {
    var ahead := Ahead(Candidates(pki, domain, t), CandidateOf(pki, domain, t, id));
    forall g | g in Greater(pki, domain, t, id) ensures g in (set c | c in ahead :: c.gen) {
      ExceedsIff(pki, domain, t, g, id);
      CandidatesAre(pki, domain, t, CandidateOf(pki, domain, t, g));
      assert CandidateOf(pki, domain, t, g) in ahead && CandidateOf(pki, domain, t, g).gen == g;
    }
    forall c | c in ahead ensures c.gen in Greater(pki, domain, t, id) {
      CandidatesAre(pki, domain, t, c);
      ExceedsIff(pki, domain, t, c.gen, id);
    }
  }

  /** When a collection succeeds, and that one that fails its checks does nothing. */
  lemma CollectSucceedsIff(pki: Pki, domain: string, t: Tree, options: GcOptions, ranked: seq<Candidate>,
                           orders: Listings, faults: set<Step>)
    requires Ranks(pki, domain, t, ranked)
    ensures var r := Collect(pki, domain, t, options, ranked, orders, faults);
      var passes := options.keepRecent >= 0 && (forall g :: g in options.references ==> ValidId(g))
        && (forall g :: g in options.reports ==> g == Name("") || ValidId(g))
        && ReadPointer !in faults && ReadRevisions !in faults && !ReadCurrent(pki, domain, t).Refused?;
      && (r.disk.ok <==> passes && (r.removed == {} || SyncReleases !in faults))
      && (!passes ==> r == GcOutcome(Io(t, [t], false), {}, {}, {}))
  {
    SweepOk(t, CurrentId(pki, domain, t), options, ranked, orders, faults);
  }

  /** The generation directory can be read. */
  predicate Loads(pki: Pki, domain: string, t: Tree, id: Id) {
    && id in t.releases && t.releases[id].Folder?
    && LoadGeneration(pki, domain, id, t.releases[id].dir).Some?
  }

  lemma EntriesAre(pki: Pki, domain: string, t: Tree, id: Id)
    ensures IsCandidate(pki, domain, t, id) <==> id.Name? && ValidId(id) && Loads(pki, domain, t, id)
    ensures IsCandidate(pki, domain, t, id) || IsUnreadable(pki, domain, t, id) <==>
      id.Name? && ValidId(id) && id in t.releases && t.releases[id].Folder?
    ensures IsReported(pki, domain, t, id) <==>
      && id in t.releases && ValidId(id)
      && (t.releases[id].Alias? || (id.Name? && !Loads(pki, domain, t, id)))
  {
    hide LoadGeneration;
  }

  /** What a collection that passes its checks reports, entry by entry. Retained are the named directories that
      were not removed; failed are symbolic links, named entries that do not load, and what it could not remove. */
  lemma CollectReports(pki: Pki, domain: string, t: Tree, options: GcOptions, ranked: seq<Candidate>,
                       orders: Listings, faults: set<Step>, id: Id)
    requires Sound(pki, domain, t) && Ranks(pki, domain, t, ranked)
    requires ValidOptions(options) && ReadPointer !in faults && ReadRevisions !in faults
    ensures var r := Collect(pki, domain, t, options, ranked, orders, faults);
      && (id in r.retained <==>
           id in t.releases && id !in r.removed && id.Name? && ValidId(id) && t.releases[id].Folder?)
      && (id in r.failed <==>
           && id in t.releases && ValidId(id)
           && (|| t.releases[id].Alias?
               || (id.Name? && !Loads(pki, domain, t, id))
               || (id.Name? && id !in r.removed
                   && !Keeps(pki, domain, t, options, CandidateOf(pki, domain, t, id)))))
  {
    EntriesAre(pki, domain, t, id);
    CollectIsExact(pki, domain, t, options, ranked, orders, faults);
    hide SweepAll, IsReported, IsCandidate, IsUnreadable, Keeps, LoadGeneration, ReadCurrent;
  }

  // ---- lemmas for building the ranked list ----

  lemma InsertedElements(ranked: seq<Candidate>, i: nat, c: Candidate)
    requires i <= |ranked|
    ensures (set x | x in ranked[..i] + [c] + ranked[i..]) == (set x | x in ranked) + {c}
  {
    assert ranked == ranked[..i] + ranked[i..];
  }

  ghost function CandidatesAmong(pki: Pki, domain: string, t: Tree, listing: seq<Id>): set<Candidate> {
    set id | id in listing && IsCandidate(pki, domain, t, id) :: CandidateOf(pki, domain, t, id)
  }

  lemma CandidatesAmongAdd(pki: Pki, domain: string, t: Tree, listing: seq<Id>, id: Id)
    ensures CandidatesAmong(pki, domain, t, listing + [id]) ==
      CandidatesAmong(pki, domain, t, listing) + if IsCandidate(pki, domain, t, id)
        then {CandidateOf(pki, domain, t, id)} else {}
    ensures id !in listing && IsCandidate(pki, domain, t, id) ==>
      CandidateOf(pki, domain, t, id) !in CandidatesAmong(pki, domain, t, listing)
    ensures forall c :: c in CandidatesAmong(pki, domain, t, listing) ==> c.gen.Name?
  {
  }

  lemma CandidatesAmongAll(pki: Pki, domain: string, t: Tree, listing: seq<Id>)
    requires forall id :: id in listing <==> id in t.releases
    ensures CandidatesAmong(pki, domain, t, listing) == Candidates(pki, domain, t)
  {
  }

  lemma {:induction false} SweepOk(t: Tree, current: Id, options: GcOptions, ranked: seq<Candidate>, orders: Listings,
                                   faults: set<Step>)
    ensures SweepAll(t, current, options, ranked, orders, faults).disk.ok
  {
    if ranked != [] { SweepOk(t, current, options, ranked[..|ranked| - 1], orders, faults); }
  }
}
