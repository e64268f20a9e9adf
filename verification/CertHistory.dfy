/** Whole histories of one domain: any operations, in any order, each cut short by a crash anywhere. */
module CertHistory {
  import opened FileTree
  import opened CertRuns
  import opened PublishSafety
  import opened CertMaintenance
  import opened CertGc

  datatype Op =
    | DoPublish(input: PublishInput, faults: set<Step>)
    | DoAbort(gen: Id, order: seq<EntryName>, faults: set<Step>)
    | DoCollect(options: GcOptions, ranked: seq<Candidate>, orders: Listings, faults: set<Step>)
    | DoMigrate(names: Names, faults: set<Step>)

  ghost function RunOf(pki: Pki, domain: string, t: Tree, op: Op): Io {
    match op
    case DoPublish(input, faults) => Publish(pki, domain, t, input, faults).disk
    case DoAbort(gen, order, faults) => Abort(pki, domain, t, gen, order, faults)
    case DoCollect(options, ranked, orders, faults) => Collect(pki, domain, t, options, ranked, orders, faults).disk
    case DoMigrate(names, faults) => Migrate(pki, domain, t, names, faults)
  }

  /** The exact conditions under which a publish and a migration are safe, read off the tree before the
      operation, its input and its faults. A collection works on the ranking of its candidates. */
  ghost predicate Covered(pki: Pki, domain: string, t: Tree, op: Op) {
    match op
    case DoPublish(input, faults) => !Breaks(pki, domain, t, input, faults)
    case DoAbort(_, _, _) => true
    case DoCollect(_, ranked, _, _) => Ranks(pki, domain, t, ranked)
    case DoMigrate(names, faults) => !MigrationLoses(t, names, faults)
  }

  /** An operation on `t` ends, or is cut off by a crash, in `s`. */
  ghost predicate Leaves(pki: Pki, domain: string, t: Tree, op: Op, s: Tree) {
    Covered(pki, domain, t, op) && (s in RunOf(pki, domain, t, op).trace || s == RunOf(pki, domain, t, op).tree)
  }

  ghost predicate Follows(pki: Pki, domain: string, t: Tree, s: Tree) {
    exists op :: Leaves(pki, domain, t, op, s)
  }

  ghost predicate IsHistory(pki: Pki, domain: string, h: seq<Tree>) {
    && h != []
    && Sound(pki, domain, h[0])
    && forall i :: 0 < i < |h| ==> Follows(pki, domain, h[i - 1], h[i])
  }

  /** A single failing step is always covered, unless the name drawn clashes with an old text pointer. */
  lemma OneFaultIsCovered(pki: Pki, domain: string, t: Tree, input: PublishInput, names: Names, step: Step)
    requires input.names.restore !in t.staged && names.restore !in t.staged && NoClash(t, input)
    ensures Covered(pki, domain, t, DoPublish(input, {step})) && Covered(pki, domain, t, DoMigrate(names, {step}))
  {
  }

  lemma CollectAdvances(pki: Pki, domain: string, t: Tree, options: GcOptions, ranked: seq<Candidate>, orders: Listings,
                        faults: set<Step>)
    requires Sound(pki, domain, t) && Ranks(pki, domain, t, ranked)
    ensures AllAdvance(pki, domain, t, Collect(pki, domain, t, options, ranked, orders, faults).disk)
  {
    UntouchedReads(pki, domain, t, t, {});
    if ValidOptions(options) && ReadPointer !in faults && ReadRevisions !in faults {
      CollectIsExact(pki, domain, t, options, ranked, orders, faults);
    }
  }

  /** The conditions are exact: an operation is covered exactly if no crash in it can leave a tree it must not. */
  lemma CoveredIff(pki: Pki, domain: string, t: Tree, op: Op)
    requires Sound(pki, domain, t) && (op.DoCollect? ==> Ranks(pki, domain, t, op.ranked))
    ensures Covered(pki, domain, t, op) <==> AllAdvance(pki, domain, t, RunOf(pki, domain, t, op))
  {
    match op
    case DoPublish(input, faults) => PublishIsSafe(pki, domain, t, input, faults);
    case DoAbort(gen, order, faults) => AbortIsSafe(pki, domain, t, gen, order, faults);
    case DoCollect(options, ranked, orders, faults) => CollectAdvances(pki, domain, t, options, ranked, orders, faults);
    case DoMigrate(names, faults) => MigrationAdvances(pki, domain, t, names, faults);
  }

  lemma LeavesAdvances(pki: Pki, domain: string, t: Tree, op: Op, s: Tree)
    requires Sound(pki, domain, t) && Leaves(pki, domain, t, op, s)
    ensures Advances(pki, domain, t, s)
  {
    CoveredIff(pki, domain, t, op);
  }

  lemma FollowsAdvances(pki: Pki, domain: string, t: Tree, s: Tree)
    requires Sound(pki, domain, t) && Follows(pki, domain, t, s)
    ensures Advances(pki, domain, t, s)
  {
    var op :| Leaves(pki, domain, t, op, s);
    LeavesAdvances(pki, domain, t, op, s);
  }

  /** Safety over whole histories: whatever ran and wherever it crashed, `current` is absent or loads. */
  lemma {:induction false} HistoryIsSound(pki: Pki, domain: string, h: seq<Tree>, j: nat)
    requires IsHistory(pki, domain, h) && j < |h|
    ensures Sound(pki, domain, h[j])
  {
    if j > 0 {
      HistoryIsSound(pki, domain, h, j - 1);
      FollowsAdvances(pki, domain, h[j - 1], h[j]);
    }
  }

  /** `later` is `earlier`, or has a greater revision. */
  predicate AtLeast(earlier: Reading, later: Reading) {
    earlier.Reading? ==>
      later.Reading? && (later == earlier || earlier.loaded.manifest.revision < later.loaded.manifest.revision)
  }

  lemma {:induction false} AtLeastAlong(rs: seq<Reading>, i: nat, j: nat)
    requires i <= j < |rs| && forall k :: 0 < k < |rs| ==> AtLeast(rs[k - 1], rs[k])
    ensures AtLeast(rs[i], rs[j])
  {
    if i < j { AtLeastAlong(rs, i, j - 1); }
  }

  lemma AdvanceRaises(pki: Pki, domain: string, t: Tree, s: Tree)
    requires Sound(pki, domain, t) && Advances(pki, domain, t, s)
    ensures AtLeast(ReadCurrent(pki, domain, t), ReadCurrent(pki, domain, s))
  {
    if ReadCurrent(pki, domain, t).Reading? {
      assert ReadByName(pki, domain, t, t.current.gen) == ReadCurrent(pki, domain, t);
    }
  }

  /** Once there is a current generation there always is one, and every later one is the same or has a
      strictly greater revision. */
  lemma RevisionsIncrease(pki: Pki, domain: string, h: seq<Tree>, i: nat, j: nat)
    requires IsHistory(pki, domain, h) && i <= j < |h|
    ensures AtLeast(ReadCurrent(pki, domain, h[i]), ReadCurrent(pki, domain, h[j]))
  {
    var rs := seq(|h|, k requires 0 <= k < |h| => ReadCurrent(pki, domain, h[k]));
    forall k | 0 < k < |h| ensures AtLeast(rs[k - 1], rs[k]) {
      HistoryIsSound(pki, domain, h, k - 1);
      FollowsAdvances(pki, domain, h[k - 1], h[k]);
      AdvanceRaises(pki, domain, h[k - 1], h[k]);
    }
    AtLeastAlong(rs, i, j);
  }
}
