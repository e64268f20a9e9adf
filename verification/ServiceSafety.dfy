/** What a successful run means for the two stores, and what recovery does to unfinished rows. */
module ServiceSafety {
  import opened Common
  import opened FileTree
  import opened ServiceRuns
  import Runs = CertRuns
  import PublishSafety
  import G = Generations
  import J = Jobs

  /** The domain's one current row describes the generation that the certificate store has as current. */
  ghost predicate Agrees(pki: Pki, domain: string, w: World, input: Input, id: nat) {
    var current := ReadCurrent(pki, domain, w.tree);
    && current.Reading?
    && G.IsCurrent(w.gens, domain, id)
    && (forall other :: G.IsCurrent(w.gens, domain, other) ==> other == id)
    && var (row, m) := (w.gens.rows[id], current.loaded.manifest);
       && row.status == G.Issued && row.ref == Ref(current.gen)
       && row.revision == m.revision && row.serial == m.serial && row.fingerprint == m.fingerprint
       && row.digest == input.digest(m)
  }

  /** Both stores satisfy their own invariants. */
  ghost predicate Good(pki: Pki, domain: string, w: World) {
    G.Valid(w.gens) && Sound(pki, domain, w.tree)
  }

  ghost predicate AllGood(pki: Pki, domain: string, p: Path) {
    Good(pki, domain, p.world) && forall w :: w in p.seen ==> Good(pki, domain, w)
  }

  // ---- recording a generation ----

  /** Recording a generation succeeds exactly if no call fails, the values fit the columns and no other row of
      the domain already carries that revision. */
  lemma FinalizeSucceedsIff(p: Path, input: Input, id: nat, gen: Id, m: Manifest, faults: set<Fault>)
    requires G.Valid(p.world.gens) && id in p.world.gens.rows
    ensures Finalize(p, input, id, gen, m, faults).1 <==>
      && MarkIssued(id) !in faults && WriteArtifact(id) !in faults
      && 1 <= Int64(m.revision) && G.ValidDigest(input.digest(m)) && G.ValidDigest(m.fingerprint)
      && G.RevisionFree(p.world.gens, id, Int64(m.revision))
  {
    var gens := G.SetStatus(p.world.gens, id, G.Issued, Ref(gen)).0;
    G.SetStatusKeepsValid(p.world.gens, id, G.Issued, Ref(gen));
    G.StatusKeepsFree(p.world.gens, id, G.Issued, Ref(gen), Int64(m.revision));
    G.ArtifactAcceptedIff(gens, id, ArtifactOf(input, m));
  }

  lemma SetGensIsGood(pki: Pki, domain: string, p: Path, gens: G.Table)
    requires AllGood(pki, domain, p) && G.Valid(gens)
    ensures AllGood(pki, domain, SetGens(p, gens))
  {
  }

  lemma FinalizeIsGood(pki: Pki, domain: string, p: Path, input: Input, id: nat, gen: Id, m: Manifest,
                       faults: set<Fault>)
    requires AllGood(pki, domain, p)
    ensures AllGood(pki, domain, Finalize(p, input, id, gen, m, faults).0)
  {
    var gens := G.SetStatus(p.world.gens, id, G.Issued, Ref(gen)).0;
    G.SetStatusKeepsValid(p.world.gens, id, G.Issued, Ref(gen));
    SetGensIsGood(pki, domain, p, gens);
    G.SetArtifactKeepsValid(gens, id, ArtifactOf(input, m));
    SetGensIsGood(pki, domain, SetGens(p, gens), G.SetArtifact(gens, id, ArtifactOf(input, m)).0);
  }

  lemma FinalizeEnds(p: Path, input: Input, id: nat, gen: Id, m: Manifest, faults: set<Fault>)
    requires Finalize(p, input, id, gen, m, faults).1 && m.revision <= MAX_REVISION
    ensures var (q, a) := (Finalize(p, input, id, gen, m, faults).0, ArtifactOf(input, m));
      var gens := G.SetStatus(p.world.gens, id, G.Issued, Ref(gen)).0;
      && id in p.world.gens.rows && q.world == p.world.(gens := G.SetArtifact(gens, id, a).0)
      && G.SetArtifact(gens, id, a).1
      && a.revision == m.revision
  {
  }

  lemma ReadingFits(pki: Pki, domain: string, t: Tree)
    requires ReadCurrent(pki, domain, t).Reading?
    ensures ReadCurrent(pki, domain, t).loaded.manifest.revision <= MAX_REVISION
  {
  }

  lemma FinalizeAgrees(pki: Pki, domain: string, p: Path, input: Input, id: nat, faults: set<Fault>)
    requires id in p.world.gens.rows && p.world.gens.rows[id].domain == domain
    requires ReadCurrent(pki, domain, p.world.tree).Reading?
    requires var current := ReadCurrent(pki, domain, p.world.tree);
      Finalize(p, input, id, current.gen, current.loaded.manifest, faults).1
    ensures var current := ReadCurrent(pki, domain, p.world.tree);
      Agrees(pki, domain, Finalize(p, input, id, current.gen, current.loaded.manifest, faults).0.world, input, id)
  {
    var current := ReadCurrent(pki, domain, p.world.tree);
    ReadingFits(pki, domain, p.world.tree);
    FinalizeEnds(p, input, id, current.gen, current.loaded.manifest, faults);
    G.RecordMakesCurrent(p.world.gens, id, Ref(current.gen), ArtifactOf(input, current.loaded.manifest));
  }

  lemma FailRowIsGood(pki: Pki, domain: string, p: Path, id: nat, faults: set<Fault>)
    requires AllGood(pki, domain, p)
    ensures AllGood(pki, domain, FailRow(p, id, faults))
  {
    G.SetStatusKeepsValid(p.world.gens, id, G.Failed, "");
  }

  lemma FinishFailureIsGood(pki: Pki, domain: string, p: Path, input: Input, row: Option<nat>, faults: set<Fault>)
    requires AllGood(pki, domain, p)
    ensures AllGood(pki, domain, FinishFailure(p, input, row, faults))
  {
    if row.Some? { FailRowIsGood(pki, domain, p, row.value, faults); }
  }

  // ---- recovery ----

  ghost function Unfinished(t: G.Table, domain: string): set<nat> {
    set id | id in t.rows && t.rows[id].domain == domain && t.rows[id].status == G.Publishing
  }

  lemma FailRowFinishes(p: Path, domain: string, id: nat, faults: set<Fault>)
    requires id in p.world.gens.rows && p.world.gens.rows[id].domain == domain
    ensures var t := FailRow(p, id, faults).world.gens;
      && t.rows.Keys == p.world.gens.rows.Keys && FailRow(p, id, faults).world.tree == p.world.tree
      && Unfinished(t, domain) == Unfinished(p.world.gens, domain) - (if MarkFailed(id) in faults then {} else {id})
      && (forall a :: a in t.rows ==> t.rows[a].domain == p.world.gens.rows[a].domain)
  {
  }

  lemma StatusFinishes(t: G.Table, domain: string, id: nat, status: G.Status, ref: string)
    requires id in t.rows && status != G.Publishing
    ensures Unfinished(G.SetStatus(t, id, status, ref).0, domain) == Unfinished(t, domain) - {id}
  {
  }

  lemma ArtifactKeepsUnfinished(t: G.Table, domain: string, id: nat, a: G.Artifact)
    ensures Unfinished(G.SetArtifact(t, id, a).0, domain) == Unfinished(t, domain)
  {
  }

  lemma FinalizeFinishes(p: Path, input: Input, domain: string, id: nat, gen: Id, m: Manifest, faults: set<Fault>)
    requires id in p.world.gens.rows && p.world.gens.rows[id].domain == domain
    ensures var (q, ok) := Finalize(p, input, id, gen, m, faults);
      && (ok ==> Unfinished(q.world.gens, domain) == Unfinished(p.world.gens, domain) - {id})
      && q.world.tree == p.world.tree
  {
    StatusFinishes(p.world.gens, domain, id, G.Issued, Ref(gen));
    ArtifactKeepsUnfinished(G.SetStatus(p.world.gens, id, G.Issued, Ref(gen)).0, domain, id, ArtifactOf(input, m));
  }

  /** Recovery that returns true strictly shrinks the set of publishing rows and leaves the stores agreeing;
      recovery that returns false leaves no publishing row among those it looked at, as long as the updates
      that mark rows failed go through. */
  lemma {:induction false} RecoveryResult(pki: Pki, domain: string, p: Path, input: Input, rows: seq<nat>,
                                          faults: set<Fault>)
    requires AllGood(pki, domain, p)
    requires forall id :: id in rows ==> id in p.world.gens.rows && p.world.gens.rows[id].domain == domain
    ensures var (q, recovery) := Recover(pki, domain, p, input, rows, faults);
      && AllGood(pki, domain, q) && q.world.tree == p.world.tree
      && (recovery.Finalized? ==>
          && recovery.id in Unfinished(p.world.gens, domain)
          && Unfinished(q.world.gens, domain) < Unfinished(p.world.gens, domain)
          && Agrees(pki, domain, q.world, input, recovery.id))
      && (recovery.NothingLeft? ==>
          && Unfinished(q.world.gens, domain) <= Unfinished(p.world.gens, domain)
          && forall id :: id in rows && MarkFailed(id) !in faults ==> id !in Unfinished(q.world.gens, domain))
    decreases |rows|
  {
    if rows != [] {
      var id := rows[0];
      assert rows == [id] + rows[1..];
      if p.world.gens.rows[id].status != G.Publishing {
        RecoveryResult(pki, domain, p, input, rows[1..], faults);
      } else {
        var current := ReadCurrent(pki, domain, p.world.tree);
        if ReadFiles(id) in faults || !current.Reading? {
          FailRowIsGood(pki, domain, p, id, faults);
          FailRowFinishes(p, domain, id, faults);
          RecoveryResult(pki, domain, FailRow(p, id, faults), input, rows[1..], faults);
        } else {
          FinalizeIsGood(pki, domain, p, input, id, current.gen, current.loaded.manifest, faults);
          FinalizeFinishes(p, input, domain, id, current.gen, current.loaded.manifest, faults);
          if Finalize(p, input, id, current.gen, current.loaded.manifest, faults).1 {
            FinalizeAgrees(pki, domain, p, input, id, faults);
          }
        }
      }
    }
  }

  // ---- publishing ----

  ghost predicate AllSound(pki: Pki, domain: string, disk: Runs.Io) {
    Sound(pki, domain, disk.tree) && forall i :: 0 <= i < |disk.trace| ==> Sound(pki, domain, disk.trace[i])
  }

  lemma PublishIsSound(pki: Pki, domain: string, t: Tree, input: Runs.PublishInput, steps: set<Runs.Step>)
    requires Sound(pki, domain, t) && !PublishSafety.Breaks(pki, domain, t, input, steps)
    ensures AllSound(pki, domain, Runs.Publish(pki, domain, t, input, steps).disk)
  {
    PublishSafety.PublishIsSafe(pki, domain, t, input, steps);
    AdvancedIsSound(pki, domain, t, Runs.Publish(pki, domain, t, input, steps).disk);
  }

  lemma AdvancedIsSound(pki: Pki, domain: string, t: Tree, disk: Runs.Io)
    requires PublishSafety.AllAdvance(pki, domain, t, disk)
    ensures AllSound(pki, domain, disk)
  {
    forall i | 0 <= i < |disk.trace| ensures Sound(pki, domain, disk.trace[i]) {
      assert PublishSafety.Advances(pki, domain, t, disk.trace[i]);
    }
  }

  lemma SoundPathIsGood(pki: Pki, domain: string, p: Path, disk: Runs.Io)
    requires AllGood(pki, domain, p) && AllSound(pki, domain, disk)
    ensures AllGood(pki, domain, AfterPublish(p, disk))
  {
    forall i | 0 <= i < |disk.trace| ensures Good(pki, domain, p.world.(tree := disk.trace[i])) {
      assert Sound(pki, domain, disk.trace[i]);
    }
  }

  lemma AfterPublishIsGood(pki: Pki, domain: string, p: Path, input: Input)
    requires AllGood(pki, domain, p) && !PublishSafety.Breaks(pki, domain, p.world.tree, input.publish, input.steps)
    ensures AllGood(pki, domain,
      AfterPublish(p, Runs.Publish(pki, domain, p.world.tree, input.publish, input.steps).disk))
  {
    PublishIsSound(pki, domain, p.world.tree, input.publish, input.steps);
    SoundPathIsGood(pki, domain, p, Runs.Publish(pki, domain, p.world.tree, input.publish, input.steps).disk);
  }

  lemma PublishRowIsGood(pki: Pki, domain: string, p: Path, input: Input, id: nat, faults: set<Fault>)
    requires AllGood(pki, domain, p) && !PublishSafety.Breaks(pki, domain, p.world.tree, input.publish, input.steps)
    ensures AllGood(pki, domain, PublishRow(pki, domain, p, input, id, faults).0)
  {
    var out := Runs.Publish(pki, domain, p.world.tree, input.publish, input.steps);
    var q := AfterPublish(p, out.disk);
    AfterPublishIsGood(pki, domain, p, input);
    FinishFailureIsGood(pki, domain, q, input, Some(id), faults);
    var published := ReadByName(pki, domain, q.world.tree, out.gen);
    if published.Reading? {
      FinalizeIsGood(pki, domain, q, input, id, out.gen, published.loaded.manifest, faults);
      FinishFailureIsGood(pki, domain, Finalize(q, input, id, out.gen, published.loaded.manifest, faults).0, input,
        Some(id), faults);
    }
  }

  /** After a successful publish the new generation reads the same by name and through `current`. */
  lemma PublishedReads(pki: Pki, domain: string, t: Tree, input: Runs.PublishInput, steps: set<Runs.Step>)
    requires Sound(pki, domain, t) && Runs.Publish(pki, domain, t, input, steps).disk.ok
    ensures var out := Runs.Publish(pki, domain, t, input, steps);
      && ReadCurrent(pki, domain, out.disk.tree).Reading?
      && ReadCurrent(pki, domain, out.disk.tree).gen == out.gen
      && ReadByName(pki, domain, out.disk.tree, out.gen) == ReadCurrent(pki, domain, out.disk.tree)
  {
    PublishSafety.PublishDelivers(pki, domain, t, input, steps);
  }

  /** A run reports success only after publishing, reading back and recording. */
  lemma PublishRowEnds(pki: Pki, domain: string, p: Path, input: Input, id: nat, faults: set<Fault>)
    ensures var ((r, outcome), out) := (PublishRow(pki, domain, p, input, id, faults),
      Runs.Publish(pki, domain, p.world.tree, input.publish, input.steps));
      var published := ReadByName(pki, domain, out.disk.tree, out.gen);
      && (outcome == Published || outcome == Errored)
      && (outcome == Published ==>
          && out.disk.ok && published.Reading?
          && var (final, ok) := Finalize(AfterPublish(p, out.disk), input, id, out.gen, published.loaded.manifest,
               faults);
             ok && r.world.gens == final.world.gens && r.world.tree == final.world.tree)
  {
  }

  lemma AgreesOnStores(pki: Pki, domain: string, w: World, v: World, input: Input, id: nat)
    requires Agrees(pki, domain, w, input, id) && v.gens == w.gens && v.tree == w.tree
    ensures Agrees(pki, domain, v, input, id)
  {
  }

  lemma PublishRowAgrees(pki: Pki, domain: string, p: Path, input: Input, id: nat, faults: set<Fault>)
    requires Sound(pki, domain, p.world.tree)
    requires id in p.world.gens.rows && p.world.gens.rows[id].domain == domain
    ensures var (q, outcome) := PublishRow(pki, domain, p, input, id, faults);
      outcome == Errored || (outcome == Published && Agrees(pki, domain, q.world, input, id))
  {
    var out := Runs.Publish(pki, domain, p.world.tree, input.publish, input.steps);
    var q := AfterPublish(p, out.disk);
    assert q.world == p.world.(tree := out.disk.tree);
    hide *;
    PublishRowEnds(pki, domain, p, input, id, faults);
    var (r, outcome) := PublishRow(pki, domain, p, input, id, faults);
    if outcome == Published {
      PublishedReads(pki, domain, p.world.tree, input.publish, input.steps);
      var current := ReadCurrent(pki, domain, q.world.tree);
      FinalizeAgrees(pki, domain, q, input, id, faults);
      AgreesOnStores(pki, domain, Finalize(q, input, id, current.gen, current.loaded.manifest, faults).0.world, r.world,
        input, id);
    }
  }

  // ---- a whole run ----

  lemma NewRowIsIn(t: G.Table, jobs: map<string, string>, row: G.Row, top: int)
    requires G.Create(t, jobs, row, top).1.Some?
    ensures var (s, id) := G.Create(t, jobs, row, top);
      && id.value in s.rows && s.rows[id.value].domain == row.domain
      && (forall a :: a in t.rows && a != id.value ==> a in s.rows && s.rows[a].domain == t.rows[a].domain)
  {
  }

  /** If anything is issued, publishing it does not break. */
  ghost predicate NothingBreaks(pki: Pki, domain: string, t: Tree, input: Input) {
    input.issued ==> !PublishSafety.Breaks(pki, domain, t, input.publish, input.steps)
  }

  lemma IssueRowResult(pki: Pki, domain: string, p: Path, input: Input, faults: set<Fault>) returns (id: nat)
    requires AllGood(pki, domain, p)
    ensures var (q, outcome) := IssueRow(pki, domain, p, input, faults);
      && (outcome == Errored || (outcome == Published && Agrees(pki, domain, q.world, input, id)))
      && (NothingBreaks(pki, domain, p.world.tree, input) ==> AllGood(pki, domain, q))
  {
    var (t, jobs, row, top) := (p.world.gens, Domains(p.world.jobs), NewRow(input, domain), Top(p.world.gens, domain));
    var (gens, made) := G.Create(t, jobs, row, top);
    id := 0;
    if made.None? || CreateRow in faults {
      FinishFailureIsGood(pki, domain, p, input, None, faults);
    } else {
      id := made.value;
      NewRowIsIn(t, jobs, row, top);
      G.CreateKeepsValid(t, jobs, row, top);
      var created := SetGens(p, gens);
      FinishFailureIsGood(pki, domain, created, input, Some(id), faults);
      G.SetStatusKeepsValid(gens, id, G.Publishing, "");
      var intended := SetGens(created, G.SetStatus(gens, id, G.Publishing, "").0);
      PublishRowAgrees(pki, domain, intended, input, id, faults);
      if input.issued && NothingBreaks(pki, domain, p.world.tree, input) {
        PublishRowIsGood(pki, domain, intended, input, id, faults);
      }
    }
  }

  /** The run before anything is recovered or issued. */
  ghost predicate Halts(pki: Pki, domain: string, w: World, input: Input, faults: set<Fault>) {
    var current := ReadCurrent(pki, domain, w.tree);
    || ReadPreset in faults || ReadState in faults || ListRows in faults || current.Refused?
    || (current.Reading?
        && (input.notDue(current.loaded).None? || (!input.forced && input.notDue(current.loaded).value)))
  }

  lemma HaltedRun(pki: Pki, domain: string, w: World, input: Input, faults: set<Fault>)
    requires Good(pki, domain, w) && Halts(pki, domain, w, input, faults)
    ensures var (p, outcome) := Execute(pki, domain, w, input, faults);
      (outcome == NotDue || outcome == Errored) && AllGood(pki, domain, p)
  {
    FinishFailureIsGood(pki, domain, Path(w, [w]), input, None, faults);
  }

  lemma RunUnlessHalted(pki: Pki, domain: string, w: World, input: Input, faults: set<Fault>)
    requires !Halts(pki, domain, w, input, faults)
    ensures var (q, recovery) := Recover(pki, domain, Path(w, [w]), input, input.listing, faults);
      Execute(pki, domain, w, input, faults) ==
        match recovery
        case RecoveryFailed => (SetJobStatus(q, input, J.Failed, faults), Errored)
        case Finalized(_) => (SetJobStatus(q, input, J.Succeeded, faults), Recovered)
        case NothingLeft => IssueRow(pki, domain, q, input, faults)
  {
  }

  lemma JobStatusKeeps(pki: Pki, domain: string, q: Path, input: Input, status: J.Status, faults: set<Fault>)
    ensures var r := SetJobStatus(q, input, status, faults);
      && r.world.gens == q.world.gens && r.world.tree == q.world.tree
      && (AllGood(pki, domain, q) ==> AllGood(pki, domain, r))
      && forall id :: Agrees(pki, domain, q.world, input, id) ==> Agrees(pki, domain, r.world, input, id)
  {
  }

  /** The agreement theorem. Whatever fails on the way, a run that ends by publishing or by recovery leaves
      exactly one current row, and it names and describes the certificate store's current generation. */
  lemma SuccessAgrees(pki: Pki, domain: string, w: World, input: Input, faults: set<Fault>) returns (id: nat)
    requires Good(pki, domain, w) && Lists(w.gens, domain, input.listing)
    ensures var (p, outcome) := Execute(pki, domain, w, input, faults);
      outcome == Published || outcome == Recovered ==> Agrees(pki, domain, p.world, input, id)
  {
    id := 0;
    if Halts(pki, domain, w, input, faults) {
      HaltedRun(pki, domain, w, input, faults);
    } else {
      var (q, recovery) := Recover(pki, domain, Path(w, [w]), input, input.listing, faults);
      RunUnlessHalted(pki, domain, w, input, faults);
      RecoveryResult(pki, domain, Path(w, [w]), input, input.listing, faults);
      if recovery.Finalized? {
        id := recovery.id;
        JobStatusKeeps(pki, domain, q, input, J.Succeeded, faults);
      } else if recovery.NothingLeft? {
        id := IssueRowResult(pki, domain, q, input, faults);
      }
    }
  }

  /** Every world a run passes through, so every world a crash can leave, satisfies the invariants of both
      stores, and the next run can start from it, unless its publish breaks. */
  lemma EveryCrashIsGood(pki: Pki, domain: string, w: World, input: Input, faults: set<Fault>)
    requires Good(pki, domain, w) && Lists(w.gens, domain, input.listing)
    requires NothingBreaks(pki, domain, w.tree, input)
    ensures AllGood(pki, domain, Execute(pki, domain, w, input, faults).0)
  {
    if Halts(pki, domain, w, input, faults) {
      HaltedRun(pki, domain, w, input, faults);
    } else {
      var (q, recovery) := Recover(pki, domain, Path(w, [w]), input, input.listing, faults);
      RunUnlessHalted(pki, domain, w, input, faults);
      RecoveryResult(pki, domain, Path(w, [w]), input, input.listing, faults);
      if recovery.NothingLeft? {
        var _ := IssueRowResult(pki, domain, q, input, faults);
      } else {
        JobStatusKeeps(pki, domain, q, input, if recovery.Finalized? then J.Succeeded else J.Failed, faults);
      }
    }
  }

  /** Recovery makes progress: true means strictly fewer publishing rows; false means none, if every row
      could be marked failed. */
  lemma RecoveryProgresses(pki: Pki, domain: string, w: World, input: Input, faults: set<Fault>)
    requires Good(pki, domain, w) && Lists(w.gens, domain, input.listing)
    ensures var (q, recovery) := Recover(pki, domain, Path(w, [w]), input, input.listing, faults);
      && (recovery.Finalized? ==> |Unfinished(q.world.gens, domain)| < |Unfinished(w.gens, domain)|)
      && (recovery.NothingLeft? && (forall id :: MarkFailed(id) !in faults) ==> Unfinished(q.world.gens, domain) == {})
  {
    RecoveryResult(pki, domain, Path(w, [w]), input, input.listing, faults);
    var (q, recovery) := Recover(pki, domain, Path(w, [w]), input, input.listing, faults);
    if recovery.Finalized? {
      ProperSubsetIsSmaller(Unfinished(q.world.gens, domain), Unfinished(w.gens, domain));
    }
  }

  lemma {:induction false} ProperSubsetIsSmaller(a: set<nat>, b: set<nat>)
    requires a < b
    ensures |a| < |b|
  {
    assert b == a + (b - a);
  }

  lemma IssueRowAttempts(pki: Pki, domain: string, p: Path, input: Input, faults: set<Fault>)
    ensures IssueRow(pki, domain, p, input, faults).1 != NotDue
  {
  }

  /** A certificate that is not due ends the run before recovery: rows left publishing by a crash stay so. */
  lemma NotDueSkipsRecovery(pki: Pki, domain: string, w: World, input: Input, faults: set<Fault>)
    ensures var (p, outcome) := Execute(pki, domain, w, input, faults);
      && (outcome == NotDue ==> p.world.gens == w.gens && p.world.tree == w.tree)
      && (outcome == NotDue <==>
          && ReadPreset !in faults && ReadState !in faults && !input.forced
          && ReadCurrent(pki, domain, w.tree).Reading?
          && input.notDue(ReadCurrent(pki, domain, w.tree).loaded) == Some(true))
  {
    if !Halts(pki, domain, w, input, faults) {
      RunUnlessHalted(pki, domain, w, input, faults);
      IssueRowAttempts(pki, domain, Recover(pki, domain, Path(w, [w]), input, input.listing, faults).0, input, faults);
    }
  }
}
