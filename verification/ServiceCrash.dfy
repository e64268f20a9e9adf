/** Disagreement that recovery cannot see: when a crash, or the end of a run, leaves the two stores at odds
    with no publishing row to recover from. The exact condition, over whole runs and all faults. */
module ServiceCrash {
  import opened Common
  import opened FileTree
  import opened ServiceRuns
  import opened ServiceSafety
  import Boundaries = CertBoundaries
  import Removal = CertRemoval
  import Safety = CertSafety
  import PublishSafety
  import Runs = CertRuns
  import G = Generations
  import J = Jobs

  /** The stores are in accord: a row describes what `current` reads, or there is neither. */
  ghost predicate Concords(pki: Pki, domain: string, w: World, input: Input) {
    if ReadCurrent(pki, domain, w.tree).Reading? then exists id :: Agrees(pki, domain, w, input, id)
    else forall id :: !G.IsCurrent(w.gens, domain, id)
  }

  /** The stores disagree, and no row is left that recovery would look at. */
  ghost predicate Lost(pki: Pki, domain: string, w: World, input: Input) {
    Unfinished(w.gens, domain) == {} && !Concords(pki, domain, w, input)
  }

  /** Digests of manifests are never empty. */
  ghost predicate DigestsFit(input: Input) { forall m: Manifest :: input.digest(m) != "" }

  // ---- what is seen of a run ----

  ghost predicate PassesLoss(pki: Pki, domain: string, p: Path, input: Input) {
    exists s :: s in p.seen && Lost(pki, domain, s, input)
  }

  /** The run so far has seen its present world, and no loss. */
  ghost predicate Fresh(pki: Pki, domain: string, p: Path, input: Input) {
    p.world in p.seen && !PassesLoss(pki, domain, p, input)
  }

  lemma SetGensLoss(pki: Pki, domain: string, p: Path, gens: G.Table, input: Input)
    ensures var q := SetGens(p, gens);
      && q.world in q.seen
      && (PassesLoss(pki, domain, q, input) <==> PassesLoss(pki, domain, p, input) || Lost(pki, domain, q.world, input))
  {
    var q := SetGens(p, gens);
    assert q.seen[|p.seen|] == q.world;
    forall s | s in p.seen ensures s in q.seen {}
    forall s | s in q.seen ensures s in p.seen || s == q.world {}
  }

  lemma JobsKeepLoss(pki: Pki, domain: string, w: World, jobs: J.Table, input: Input)
    ensures Lost(pki, domain, w.(jobs := jobs), input) <==> Lost(pki, domain, w, input)
  {
    forall id ensures Agrees(pki, domain, w.(jobs := jobs), input, id) <==> Agrees(pki, domain, w, input, id) {}
  }

  lemma SetJobsLoss(pki: Pki, domain: string, p: Path, jobs: J.Table, input: Input)
    requires p.world in p.seen
    ensures PassesLoss(pki, domain, SetJobs(p, jobs), input) <==> PassesLoss(pki, domain, p, input)
  {
    var q := SetJobs(p, jobs);
    JobsKeepLoss(pki, domain, p.world, jobs, input);
    forall s | s in p.seen ensures s in q.seen {}
    forall s | s in q.seen ensures s in p.seen || s == q.world {}
  }

  lemma SetJobStatusLoss(pki: Pki, domain: string, p: Path, input: Input, status: J.Status, faults: set<Fault>)
    requires p.world in p.seen
    ensures PassesLoss(pki, domain, SetJobStatus(p, input, status, faults), input) <==>
      PassesLoss(pki, domain, p, input)
  {
    SetJobsLoss(pki, domain, p, J.SetStatus(p.world.jobs, input.job, status, input.now).0, input);
  }

  ghost function Failing(w: World, id: nat): World { w.(gens := G.SetStatus(w.gens, id, G.Failed, "").0) }

  /** Failing a row and settling the job: a loss only if marking the row failed makes it one. */
  lemma FinishFailureLoss(pki: Pki, domain: string, p: Path, input: Input, row: Option<nat>, faults: set<Fault>)
    requires p.world in p.seen
    ensures PassesLoss(pki, domain, FinishFailure(p, input, row, faults), input) <==>
      || PassesLoss(pki, domain, p, input)
      || (row.Some? && MarkFailed(row.value) !in faults && Lost(pki, domain, Failing(p.world, row.value), input))
  {
    var q := if row.Some? then FailRow(p, row.value, faults) else p;
    FinishFailureUnfolds(p, input, row, faults);
    hide *;
    if row.Some? && MarkFailed(row.value) !in faults {
      SetGensLoss(pki, domain, p, Failing(p.world, row.value).gens, input);
    }
    SetJobsLoss(pki, domain, q, Retried(q.world, input), input);
    SetJobStatusLoss(pki, domain, q, input, J.Failed, faults);
  }

  ghost function Retried(w: World, input: Input): J.Table {
    J.Retry(w.jobs, input.job, input.owner, "retryable", input.now + RETRY_DELAY, input.now).0
  }

  lemma FinishFailureUnfolds(p: Path, input: Input, row: Option<nat>, faults: set<Fault>)
    ensures var q := if row.Some? then FailRow(p, row.value, faults) else p;
      && FinishFailure(p, input, row, faults) ==
           (if SetJob in faults then q else if input.retryable then SetJobs(q, Retried(q.world, input))
            else SetJobStatus(q, input, J.Failed, faults))
      && (row.Some? ==>
           q == if MarkFailed(row.value) in faults then p else SetGens(p, Failing(p.world, row.value).gens))
      && (row.Some? && MarkFailed(row.value) !in faults ==> q.world == Failing(p.world, row.value))
  {
  }

  // ---- how the rows change ----

  /** Marking a row failed that is not current leaves accord or disagreement as they are. */
  lemma FailingKeepsAccord(pki: Pki, domain: string, w: World, input: Input, id: nat)
    requires id in w.gens.rows && w.gens.rows[id].domain == domain && !w.gens.rows[id].current
    ensures var v := Failing(w, id);
      && Unfinished(v.gens, domain) == Unfinished(w.gens, domain) - {id}
      && (Concords(pki, domain, v, input) <==> Concords(pki, domain, w, input))
  {
    var v := Failing(w, id);
    StatusFinishes(w.gens, domain, id, G.Failed, "");
    forall other ensures G.IsCurrent(v.gens, domain, other) <==> G.IsCurrent(w.gens, domain, other) {
      G.PutDecidesCurrent(w.gens, id, v.gens.rows[id], other);
    }
    SameAccord(pki, domain, w, v, input);
  }

  /** Accord depends on the current rows and on what `current` reads alone. */
  lemma SameAccord(pki: Pki, domain: string, w: World, v: World, input: Input)
    requires ReadCurrent(pki, domain, v.tree) == ReadCurrent(pki, domain, w.tree)
    requires forall id :: G.IsCurrent(v.gens, domain, id) <==> G.IsCurrent(w.gens, domain, id)
    requires forall id :: G.IsCurrent(w.gens, domain, id) ==>
      id in v.gens.rows && v.gens.rows[id] == w.gens.rows[id]
    ensures Concords(pki, domain, v, input) <==> Concords(pki, domain, w, input)
  {
    forall id ensures Agrees(pki, domain, v, input, id) <==> Agrees(pki, domain, w, input, id) {}
  }

  /** The row's artifact is that of the manifest. */
  predicate Described(row: G.Row, m: Manifest, input: Input) {
    row.revision == m.revision && row.serial == m.serial && row.fingerprint == m.fingerprint
      && row.digest == input.digest(m)
  }

  ghost function Issuing(w: World, id: nat, gen: Id): World {
    w.(gens := G.SetStatus(w.gens, id, G.Issued, Ref(gen)).0)
  }

  /** Between the two updates that record a generation, the row is current with the artifact it had before. */
  lemma IssuingConcordsIff(pki: Pki, domain: string, w: World, input: Input, id: nat)
    requires id in w.gens.rows && w.gens.rows[id].domain == domain && ReadCurrent(pki, domain, w.tree).Reading?
    ensures var c := ReadCurrent(pki, domain, w.tree);
      var v := Issuing(w, id, c.gen);
      && Unfinished(v.gens, domain) == Unfinished(w.gens, domain) - {id}
      && (Concords(pki, domain, v, input) <==> Described(w.gens.rows[id], c.loaded.manifest, input))
  {
    var c := ReadCurrent(pki, domain, w.tree);
    var v := Issuing(w, id, c.gen);
    StatusFinishes(w.gens, domain, id, G.Issued, Ref(c.gen));
    forall other ensures G.IsCurrent(v.gens, domain, other) <==> other == id {
      G.PutDecidesCurrent(w.gens, id, v.gens.rows[id], other);
    }
    if Described(w.gens.rows[id], c.loaded.manifest, input) { assert Agrees(pki, domain, v, input, id); }
  }

  /** What Finalize passes through. */
  lemma FinalizeLoss(pki: Pki, domain: string, p: Path, input: Input, id: nat, faults: set<Fault>)
    requires Fresh(pki, domain, p, input) && id in p.world.gens.rows && p.world.gens.rows[id].domain == domain
    requires ReadCurrent(pki, domain, p.world.tree).Reading?
    ensures var c := ReadCurrent(pki, domain, p.world.tree);
      var (q, ok) := Finalize(p, input, id, c.gen, c.loaded.manifest, faults);
      && q.world in q.seen
      && (PassesLoss(pki, domain, q, input) <==>
            MarkIssued(id) !in faults && Unfinished(p.world.gens, domain) <= {id}
              && !Described(p.world.gens.rows[id], c.loaded.manifest, input))
      && (MarkIssued(id) in faults ==> (q, ok) == (p, false))
  {
    var c := ReadCurrent(pki, domain, p.world.tree);
    if MarkIssued(id) !in faults {
      var v := Issuing(p.world, id, c.gen);
      IssuingConcordsIff(pki, domain, p.world, input, id);
      SetGensLoss(pki, domain, p, v.gens, input);
      var once := SetGens(p, v.gens);
      var final := G.SetArtifact(v.gens, id, ArtifactOf(input, c.loaded.manifest));
      if WriteArtifact(id) !in faults && final.1 {
        FinalizeAgrees(pki, domain, p, input, id, faults);
        SetGensLoss(pki, domain, once, final.0, input);
        assert Agrees(pki, domain, SetGens(once, final.0).world, input, id);
      }
    }
  }

  // ---- recovery ----

  /** Recovery cannot read what `current` names when it comes to this row. */
  ghost predicate Skipped(pki: Pki, domain: string, w: World, id: nat, faults: set<Fault>) {
    ReadFiles(id) in faults || !ReadCurrent(pki, domain, w.tree).Reading?
  }

  /** ... and marks it failed. */
  ghost predicate Clears(pki: Pki, domain: string, w: World, id: nat, faults: set<Fault>) {
    Skipped(pki, domain, w, id, faults) && MarkFailed(id) !in faults
  }

  /** The last publishing row, at place `k`: all others are cleared before it; then it is cleared too, with the
      stores at odds, or marked issued, with another artifact than that of the files. */
  ghost predicate LosesAt(pki: Pki, domain: string, w: World, input: Input, rows: seq<nat>, k: nat, faults: set<Fault>)
    requires k < |rows|
  {
    var (id, c) := (rows[k], ReadCurrent(pki, domain, w.tree));
    && id in Unfinished(w.gens, domain)
    && (forall other :: other in Unfinished(w.gens, domain) && other != id ==>
          other in rows[..k] && Clears(pki, domain, w, other, faults))
    && if Skipped(pki, domain, w, id, faults) then MarkFailed(id) !in faults && !Concords(pki, domain, w, input)
       else MarkIssued(id) !in faults && !Described(w.gens.rows[id], c.loaded.manifest, input)
  }

  ghost predicate RecoveryLoses(pki: Pki, domain: string, w: World, input: Input, rows: seq<nat>, faults: set<Fault>) {
    exists k :: 0 <= k < |rows| && LosesAt(pki, domain, w, input, rows, k, faults)
  }

  ghost predicate Distinct(rows: seq<nat>) { forall i, j :: 0 <= i < j < |rows| ==> rows[i] != rows[j] }

  ghost predicate InDomain(t: G.Table, domain: string, rows: seq<nat>) {
    forall id :: id in rows ==> id in t.rows && t.rows[id].domain == domain
  }

  /** A row that is not publishing plays no part. */
  lemma IdleRow(pki: Pki, domain: string, w: World, input: Input, rows: seq<nat>, faults: set<Fault>)
    requires rows != [] && rows[0] !in Unfinished(w.gens, domain)
    ensures RecoveryLoses(pki, domain, w, input, rows, faults) <==>
      RecoveryLoses(pki, domain, w, input, rows[1..], faults)
  {
    var rest := rows[1..];
    forall k | 0 <= k < |rest|
      ensures LosesAt(pki, domain, w, input, rest, k, faults) <==> LosesAt(pki, domain, w, input, rows, k + 1, faults)
    {
      assert rows[..k + 1] == [rows[0]] + rest[..k];
    }
    if RecoveryLoses(pki, domain, w, input, rows, faults) {
      var k :| 0 <= k < |rows| && LosesAt(pki, domain, w, input, rows, k, faults);
      assert LosesAt(pki, domain, w, input, rest, k - 1, faults);
    }
    if RecoveryLoses(pki, domain, w, input, rest, faults) {
      var k :| 0 <= k < |rest| && LosesAt(pki, domain, w, input, rest, k, faults);
      assert LosesAt(pki, domain, w, input, rows, k + 1, faults);
    }
  }

  /** A row that cannot be cleared rules out a loss further down. */
  lemma StuckRow(pki: Pki, domain: string, w: World, input: Input, rows: seq<nat>, faults: set<Fault>)
    requires rows != [] && rows[0] in Unfinished(w.gens, domain) && Distinct(rows)
      && !Clears(pki, domain, w, rows[0], faults)
    ensures RecoveryLoses(pki, domain, w, input, rows, faults) <==> LosesAt(pki, domain, w, input, rows, 0, faults)
    ensures !RecoveryLoses(pki, domain, w, input, rows[1..], faults)
  {
    forall k | 0 <= k < |rows| && LosesAt(pki, domain, w, input, rows, k, faults) ensures k == 0 {}
    forall k | 0 <= k < |rows[1..]| ensures !LosesAt(pki, domain, w, input, rows[1..], k, faults) {
      assert rows[1..][k] == rows[k + 1];
    }
  }

  /** A row that is cleared: the rest sees the same, without it. */
  lemma ClearedRow(pki: Pki, domain: string, w: World, v: World, input: Input, rows: seq<nat>, faults: set<Fault>)
    requires rows != [] && rows[0] in Unfinished(w.gens, domain) && Distinct(rows)
      && Clears(pki, domain, w, rows[0], faults)
    requires v.tree == w.tree && Unfinished(v.gens, domain) == Unfinished(w.gens, domain) - {rows[0]}
    requires Concords(pki, domain, v, input) <==> Concords(pki, domain, w, input)
    requires forall id :: id in Unfinished(v.gens, domain) ==> v.gens.rows[id] == w.gens.rows[id]
    ensures RecoveryLoses(pki, domain, w, input, rows, faults) <==>
      Lost(pki, domain, v, input) || RecoveryLoses(pki, domain, v, input, rows[1..], faults)
  {
    var rest := rows[1..];
    forall k | 0 <= k < |rest|
      ensures LosesAt(pki, domain, v, input, rest, k, faults) <==> LosesAt(pki, domain, w, input, rows, k + 1, faults)
    {
      ClearedAt(pki, domain, w, v, input, rows, k, faults);
    }
    assert LosesAt(pki, domain, w, input, rows, 0, faults) <==> Lost(pki, domain, v, input) by {
      if Unfinished(v.gens, domain) != {} {
        var other :| other in Unfinished(v.gens, domain);
        assert other !in rows[..0];
      }
    }
    if k :| 0 <= k < |rows| && LosesAt(pki, domain, w, input, rows, k, faults) {
      if k > 0 { assert LosesAt(pki, domain, v, input, rest, k - 1, faults); }
    }
    if k :| 0 <= k < |rest| && LosesAt(pki, domain, v, input, rest, k, faults) {
      assert LosesAt(pki, domain, w, input, rows, k + 1, faults);
    }
  }

  lemma ClearedAt(pki: Pki, domain: string, w: World, v: World, input: Input, rows: seq<nat>, k: nat,
                  faults: set<Fault>)
    requires k + 1 < |rows| && rows[0] in Unfinished(w.gens, domain) && Distinct(rows)
      && Clears(pki, domain, w, rows[0], faults)
    requires v.tree == w.tree && Unfinished(v.gens, domain) == Unfinished(w.gens, domain) - {rows[0]}
    requires Concords(pki, domain, v, input) <==> Concords(pki, domain, w, input)
    requires forall id :: id in Unfinished(v.gens, domain) ==> v.gens.rows[id] == w.gens.rows[id]
    ensures LosesAt(pki, domain, v, input, rows[1..], k, faults) <==>
      LosesAt(pki, domain, w, input, rows, k + 1, faults)
  {
    assert rows[..k + 1] == [rows[0]] + rows[1..][..k];
    assert rows[1..][k] == rows[k + 1] != rows[0];
    forall id ensures Skipped(pki, domain, v, id, faults) <==> Skipped(pki, domain, w, id, faults) {}
    forall id ensures Clears(pki, domain, v, id, faults) <==> Clears(pki, domain, w, id, faults) {}
  }

  /** Recovery passes through a loss exactly if it loses. */
  lemma {:induction false} RecoveryLossIff(pki: Pki, domain: string, p: Path, input: Input, rows: seq<nat>,
                                           faults: set<Fault>)
    requires G.Valid(p.world.gens) && Fresh(pki, domain, p, input) && Distinct(rows)
      && InDomain(p.world.gens, domain, rows)
    ensures var q := Recover(pki, domain, p, input, rows, faults).0;
      && q.world in q.seen
      && (PassesLoss(pki, domain, q, input) <==> RecoveryLoses(pki, domain, p.world, input, rows, faults))
    decreases |rows|
  {
    if rows == [] {
    } else {
      var id := rows[0];
      RecoverUnfolds(pki, domain, p, input, rows, faults);
      RestInDomain(p.world.gens, domain, rows);
      assert Skipped(pki, domain, p.world, id, faults) || ReadCurrent(pki, domain, p.world.tree).Reading?;
      assert !Skipped(pki, domain, p.world, id, faults) ==> !Clears(pki, domain, p.world, id, faults);
      assert Fresh(pki, domain, p, input) ==> p.world in p.seen && !PassesLoss(pki, domain, p, input);
      if id !in Unfinished(p.world.gens, domain) {
        hide *;
        IdleRow(pki, domain, p.world, input, rows, faults);
        RecoveryLossIff(pki, domain, p, input, rows[1..], faults);
      } else if Skipped(pki, domain, p.world, id, faults) {
        hide *;
        SkippedLossIff(pki, domain, p, input, rows, faults);
      } else {
        FirstIsLast(pki, domain, p.world, input, rows, faults);
        hide *;
        FinalizeLoss(pki, domain, p, input, id, faults);
        StuckRow(pki, domain, p.world, input, rows, faults);
      }
    }
  }

  lemma FirstIsLast(pki: Pki, domain: string, w: World, input: Input, rows: seq<nat>, faults: set<Fault>)
    requires rows != [] && rows[0] in Unfinished(w.gens, domain) && !Skipped(pki, domain, w, rows[0], faults)
    ensures LosesAt(pki, domain, w, input, rows, 0, faults) <==>
      && MarkIssued(rows[0]) !in faults && Unfinished(w.gens, domain) <= {rows[0]}
      && !Described(w.gens.rows[rows[0]], ReadCurrent(pki, domain, w.tree).loaded.manifest, input)
  {
    if LosesAt(pki, domain, w, input, rows, 0, faults) {
      forall other | other in Unfinished(w.gens, domain) ensures other == rows[0] {}
    }
  }

  lemma RestInDomain(t: G.Table, domain: string, rows: seq<nat>)
    requires rows != [] && InDomain(t, domain, rows) && Distinct(rows)
    ensures InDomain(t, domain, rows[1..]) && Distinct(rows[1..]) && rows[0] in t.rows
      && t.rows[rows[0]].domain == domain
  {
  }

  /** One step of recovery, for a row of the domain. */
  lemma RecoverUnfolds(pki: Pki, domain: string, p: Path, input: Input, rows: seq<nat>, faults: set<Fault>)
    requires rows != [] && InDomain(p.world.gens, domain, rows)
    ensures var (id, c) := (rows[0], ReadCurrent(pki, domain, p.world.tree));
      Recover(pki, domain, p, input, rows, faults) ==
        if id !in Unfinished(p.world.gens, domain) then Recover(pki, domain, p, input, rows[1..], faults)
        else if Skipped(pki, domain, p.world, id, faults)
        then Recover(pki, domain, FailRow(p, id, faults), input, rows[1..], faults)
        else
          var (q, ok) := Finalize(p, input, id, c.gen, c.loaded.manifest, faults);
          (q, if ok then Finalized(id) else RecoveryFailed)
  {
    assert rows[0] in rows;
  }

  lemma SkippedLossIff(pki: Pki, domain: string, p: Path, input: Input, rows: seq<nat>, faults: set<Fault>)
    requires G.Valid(p.world.gens) && Fresh(pki, domain, p, input) && Distinct(rows)
      && InDomain(p.world.gens, domain, rows)
    requires rows != [] && rows[0] in Unfinished(p.world.gens, domain) && Skipped(pki, domain, p.world, rows[0], faults)
    ensures var q := Recover(pki, domain, p, input, rows, faults).0;
      && q.world in q.seen
      && (PassesLoss(pki, domain, q, input) <==> RecoveryLoses(pki, domain, p.world, input, rows, faults))
    decreases |rows|, 0
  {
    var id := rows[0];
    var next := FailRow(p, id, faults);
    RecoverUnfolds(pki, domain, p, input, rows, faults);
    RestInDomain(p.world.gens, domain, rows);
    if MarkFailed(id) in faults {
      StuckRow(pki, domain, p.world, input, rows, faults);
      RecoveryLossIff(pki, domain, p, input, rows[1..], faults);
    } else {
      FailingKeepsAccord(pki, domain, p.world, input, id);
      FailingKeepsRows(p.world, domain, id, rows);
      SetGensLoss(pki, domain, p, next.world.gens, input);
      G.SetStatusKeepsValid(p.world.gens, id, G.Failed, "");
      ClearedRow(pki, domain, p.world, next.world, input, rows, faults);
      RecoverGrows(pki, domain, next, input, rows[1..], faults);
      if !Lost(pki, domain, next.world, input) { RecoveryLossIff(pki, domain, next, input, rows[1..], faults); }
    }
  }

  lemma FailingKeepsRows(w: World, domain: string, id: nat, rows: seq<nat>)
    requires id in w.gens.rows && InDomain(w.gens, domain, rows)
    ensures var v := Failing(w, id);
      && (forall other :: other in v.gens.rows && other != id ==> v.gens.rows[other] == w.gens.rows[other])
      && v.gens.rows.Keys == w.gens.rows.Keys && InDomain(v.gens, domain, rows)
  {
  }

  lemma {:induction false} RecoverGrows(pki: Pki, domain: string, p: Path, input: Input, rows: seq<nat>,
                                        faults: set<Fault>)
    requires p.world in p.seen
    ensures var q := Recover(pki, domain, p, input, rows, faults).0; q.world in q.seen && forall s :: s in p.seen ==>
      s in q.seen
    decreases |rows|
  {
    if rows != [] {
      var id := rows[0];
      if id !in p.world.gens.rows || p.world.gens.rows[id].status != G.Publishing {
        RecoverGrows(pki, domain, p, input, rows[1..], faults);
      } else {
        var next := FailRow(p, id, faults);
        assert next.world in next.seen by { if MarkFailed(id) !in faults { assert next.seen[|p.seen|] == next.world; } }
        RecoverGrows(pki, domain, next, input, rows[1..], faults);
        var c := ReadCurrent(pki, domain, p.world.tree);
        if c.Reading? { FinalizeGrows(p, input, id, c.gen, c.loaded.manifest, faults); }
      }
    }
  }

  lemma FinalizeGrows(p: Path, input: Input, id: nat, gen: Id, m: Manifest, faults: set<Fault>)
    requires p.world in p.seen
    ensures var q := Finalize(p, input, id, gen, m, faults).0; q.world in q.seen && forall s :: s in p.seen ==>
      s in q.seen
  {
    var q := Finalize(p, input, id, gen, m, faults).0;
    if q != p { assert q.seen[|q.seen| - 1] == q.world; }
  }

  predicate SameNumbers(a: G.Row, b: G.Row) {
    a.domain == b.domain && a.generation == b.generation && a.revision == b.revision
  }

  /** The two tables number their rows alike, and have the same current ones. */
  ghost predicate SameShape(t: G.Table, s: G.Table, domain: string) {
    && t.next == s.next && t.rows.Keys == s.rows.Keys
    && (forall id :: id in t.rows ==> SameNumbers(t.rows[id], s.rows[id]))
    && (forall id :: id in t.rows && t.rows[id].domain == domain ==>
          t.rows[id].current == s.rows[id].current && (t.rows[id].current ==> t.rows[id] == s.rows[id]))
  }

  /** The publishing rows that could not be marked failed. */
  ghost function Remaining(unfinished: set<nat>, rows: seq<nat>, faults: set<Fault>): set<nat> {
    set id | id in unfinished && !(id in rows && MarkFailed(id) !in faults)
  }

  lemma RemainingStep(unfinished: set<nat>, rows: seq<nat>, faults: set<Fault>)
    requires rows != []
    ensures var id := rows[0];
      Remaining(unfinished, rows, faults) ==
        Remaining(unfinished - (if MarkFailed(id) in faults then {} else {id}), rows[1..], faults)
  {
    assert forall other :: other in rows <==> other == rows[0] || other in rows[1..];
  }

  lemma SkippedStep(pki: Pki, domain: string, w: World, v: World, rows: seq<nat>, faults: set<Fault>)
    requires rows != [] && v.tree == w.tree && Skipped(pki, domain, w, rows[0], faults)
    requires Unfinished(v.gens, domain) == Unfinished(w.gens, domain) - (if MarkFailed(rows[0]) in faults then {}
      else {rows[0]})
    ensures (forall id :: id in rows && id in Unfinished(w.gens, domain) ==> Skipped(pki, domain, w, id, faults)) <==>
            (forall id :: id in rows[1..] && id in Unfinished(v.gens, domain) ==> Skipped(pki, domain, v, id, faults))
  {
    assert forall other :: other in rows <==> other == rows[0] || other in rows[1..];
  }

  /** Recovery that finds nothing to finish has marked failed what it could, and changed nothing else. */
  lemma {:induction false} NothingLeftKeeps(pki: Pki, domain: string, p: Path, input: Input, rows: seq<nat>,
                                            faults: set<Fault>)
    requires G.Valid(p.world.gens) && Distinct(rows) && InDomain(p.world.gens, domain, rows)
    ensures var (q, recovery) := Recover(pki, domain, p, input, rows, faults);
      && (recovery.NothingLeft? <==>
            forall id :: id in rows && id in Unfinished(p.world.gens, domain) ==>
              Skipped(pki, domain, p.world, id, faults))
      && (recovery.NothingLeft? ==>
          && q.world.tree == p.world.tree && q.world.jobs == p.world.jobs
          && SameShape(p.world.gens, q.world.gens, domain)
          && G.Valid(q.world.gens)
          && Unfinished(q.world.gens, domain) == Remaining(Unfinished(p.world.gens, domain), rows, faults))
    decreases |rows|
  {
    if rows == [] {
    } else {
      var id := rows[0];
      assert forall other :: other in rows <==> other == id || other in rows[1..];
      RecoverUnfolds(pki, domain, p, input, rows, faults);
      RestInDomain(p.world.gens, domain, rows);
      if id !in Unfinished(p.world.gens, domain) {
        NothingLeftKeeps(pki, domain, p, input, rows[1..], faults);
      } else if Skipped(pki, domain, p.world, id, faults) {
        NothingLeftStep(pki, domain, p, input, rows, faults);
      }
    }
  }

  lemma NothingLeftStep(pki: Pki, domain: string, p: Path, input: Input, rows: seq<nat>, faults: set<Fault>)
    requires G.Valid(p.world.gens) && Distinct(rows) && InDomain(p.world.gens, domain, rows)
    requires rows != [] && rows[0] in Unfinished(p.world.gens, domain) && Skipped(pki, domain, p.world, rows[0], faults)
    ensures var (q, recovery) := Recover(pki, domain, p, input, rows, faults);
      && (recovery.NothingLeft? <==>
            forall id :: id in rows && id in Unfinished(p.world.gens, domain) ==>
              Skipped(pki, domain, p.world, id, faults))
      && (recovery.NothingLeft? ==>
          && q.world.tree == p.world.tree && q.world.jobs == p.world.jobs
          && SameShape(p.world.gens, q.world.gens, domain)
          && G.Valid(q.world.gens)
          && Unfinished(q.world.gens, domain) == Remaining(Unfinished(p.world.gens, domain), rows, faults))
    decreases |rows|, 0
  {
    var id := rows[0];
    var next := FailRow(p, id, faults);
    hide *;
    RecoverUnfolds(pki, domain, p, input, rows, faults);
    RestInDomain(p.world.gens, domain, rows);
    FailRowKeeps(domain, p, id, rows, faults);
    RestInDomain(next.world.gens, domain, rows);
    RemainingStep(Unfinished(p.world.gens, domain), rows, faults);
    SkippedStep(pki, domain, p.world, next.world, rows, faults);
    NothingLeftKeeps(pki, domain, next, input, rows[1..], faults);
    var (q, recovery) := Recover(pki, domain, p, input, rows, faults);
    if recovery.NothingLeft? { ShapeTransitive(p.world.gens, next.world.gens, q.world.gens, domain); }
  }

  lemma FailRowKeeps(domain: string, p: Path, id: nat, rows: seq<nat>, faults: set<Fault>)
    requires G.Valid(p.world.gens) && InDomain(p.world.gens, domain, rows) && id in Unfinished(p.world.gens, domain)
    ensures var v := FailRow(p, id, faults).world;
      && v.tree == p.world.tree && v.jobs == p.world.jobs && G.Valid(v.gens) && InDomain(v.gens, domain, rows)
      && SameShape(p.world.gens, v.gens, domain)
      && Unfinished(v.gens, domain) == Unfinished(p.world.gens, domain) - (if MarkFailed(id) in faults then {}
           else {id})
  {
    G.SetStatusKeepsValid(p.world.gens, id, G.Failed, "");
    StatusFinishes(p.world.gens, domain, id, G.Failed, "");
  }

  lemma ShapeTransitive(t: G.Table, s: G.Table, u: G.Table, domain: string)
    requires SameShape(t, s, domain) && SameShape(s, u, domain)
    ensures SameShape(t, u, domain)
  {
  }

  // ---- issuing ----

  /** A publish that fails leaves readers of `current` with something else than before. */
  ghost predicate Misleads(pki: Pki, domain: string, t: Tree, input: Input) {
    var gen := Runs.PickFresh(t.releases.Keys, input.publish.tokens, 8);
    && Boundaries.Strays(pki, domain, t, input.publish, input.steps)
    && (!Removal.Removes(gen.value, input.publish.order, input.steps)
        || (!Boundaries.Recedes(t, gen.value, input.publish, input.steps) && ReadCurrent(pki, domain, t).Reading?))
  }

  /** A publish for row `id`: after success, unless nothing can be recorded and the row stays publishing;
      after a failure that misleads, once the row is marked failed. */
  ghost predicate PublishLoses(pki: Pki, domain: string, t: Tree, input: Input, id: nat, faults: set<Fault>) {
    if PublishSafety.Publishable(pki, domain, t, input.publish) && PublishSafety.Unhindered(input.steps)
    then (LoadPublished !in faults && MarkIssued(id) !in faults) || MarkFailed(id) !in faults
    else MarkFailed(id) !in faults && Misleads(pki, domain, t, input)
  }

  /** The run gets as far as publishing, and the publish loses. */
  ghost predicate IssueLoses(pki: Pki, domain: string, w: World, input: Input, faults: set<Fault>) {
    && CreateRow !in faults && G.Create(w.gens, Domains(w.jobs), NewRow(input, domain), Top(w.gens, domain)).1.Some?
    && PrepareIssue !in faults && input.issued && MarkPublishing !in faults
    && PublishLoses(pki, domain, w.tree, input, w.gens.next, faults)
  }

  /** A generation newer than all of the accord's is described by no row. */
  lemma NewestDisagrees(pki: Pki, domain: string, w: World, v: World, input: Input)
    requires Concords(pki, domain, w, input) && v.gens == w.gens
    requires ReadCurrent(pki, domain, v.tree).Reading? && Sound(pki, domain, w.tree)
    requires PublishSafety.Newest(pki, domain, w.tree, ReadCurrent(pki, domain, v.tree).loaded)
    ensures !Concords(pki, domain, v, input)
  {
    forall x | G.IsCurrent(w.gens, domain, x)
      ensures w.gens.rows[x].revision < ReadCurrent(pki, domain, v.tree).loaded.manifest.revision
    {
      AccordIsBelow(pki, domain, w, input, x, ReadCurrent(pki, domain, v.tree).loaded);
    }
  }

  lemma AccordIsBelow(pki: Pki, domain: string, w: World, input: Input, id: nat, newest: Loaded)
    requires Concords(pki, domain, w, input) && G.IsCurrent(w.gens, domain, id) && Sound(pki, domain, w.tree)
    requires PublishSafety.Newest(pki, domain, w.tree, newest)
    ensures w.gens.rows[id].revision < newest.manifest.revision
  {
    var other :| Agrees(pki, domain, w, input, other);
    assert other == id && ReadByName(pki, domain, w.tree, w.tree.current.gen) == ReadCurrent(pki, domain, w.tree);
  }

  lemma AccordHasRowIff(pki: Pki, domain: string, w: World, v: World, input: Input)
    requires Concords(pki, domain, w, input) && v.gens == w.gens && !ReadCurrent(pki, domain, v.tree).Reading?
    ensures Concords(pki, domain, v, input) <==> !ReadCurrent(pki, domain, w.tree).Reading?
  {
    if ReadCurrent(pki, domain, w.tree).Reading? { var y :| Agrees(pki, domain, w, input, y); }
  }

  /** After a publish that fails the stores are at odds exactly if it misleads. */
  lemma FailedPublishAccord(pki: Pki, domain: string, w: World, input: Input)
    requires Concords(pki, domain, w, input) && Sound(pki, domain, w.tree)
    requires !Runs.Publish(pki, domain, w.tree, input.publish, input.steps).disk.ok
    ensures var v := w.(tree := Runs.Publish(pki, domain, w.tree, input.publish, input.steps).disk.tree);
      Concords(pki, domain, v, input) <==> !Misleads(pki, domain, w.tree, input)
  {
    var out := Runs.Publish(pki, domain, w.tree, input.publish, input.steps);
    var v := w.(tree := out.disk.tree);
    Boundaries.FailureReads(pki, domain, w.tree, input.publish, input.steps);
    PublishSafety.PublishUnfolds(pki, domain, w.tree, input.publish, input.steps);
    var after := ReadCurrent(pki, domain, v.tree);
    assert Boundaries.Strays(pki, domain, w.tree, input.publish, input.steps) ==>
      out.gen == Runs.PickFresh(w.tree.releases.Keys, input.publish.tokens, 8).value;
    if after == ReadCurrent(pki, domain, w.tree) { SameAccord(pki, domain, w, v, input); }
    if after.Reading? && PublishSafety.Newest(pki, domain, w.tree, after.loaded) {
      NewestDisagrees(pki, domain, w, v, input);
    }
    if !after.Reading? { AccordHasRowIff(pki, domain, w, v, input); }
  }

  lemma AfterPublishLoss(pki: Pki, domain: string, p: Path, disk: Runs.Io, input: Input, id: nat)
    requires Fresh(pki, domain, p, input) && id in Unfinished(p.world.gens, domain)
    ensures Fresh(pki, domain, AfterPublish(p, disk), input)
  {
    var q := AfterPublish(p, disk);
    assert q.seen[|q.seen| - 1] == q.world;
    forall s | s in q.seen ensures s in p.seen || s.gens == p.world.gens {
      var i :| 0 <= i < |q.seen| && q.seen[i] == s;
    }
  }

  lemma PublishRowLossIff(pki: Pki, domain: string, p: Path, input: Input, id: nat, faults: set<Fault>)
    requires Sound(pki, domain, p.world.tree) && Fresh(pki, domain, p, input) && DigestsFit(input)
    requires Unfinished(p.world.gens, domain) == {id} && Concords(pki, domain, p.world, input)
    requires p.world.gens.rows[id].digest == "" && !p.world.gens.rows[id].current
    ensures PassesLoss(pki, domain, PublishRow(pki, domain, p, input, id, faults).0, input) <==>
      PublishLoses(pki, domain, p.world.tree, input, id, faults)
  {
    var out := Runs.Publish(pki, domain, p.world.tree, input.publish, input.steps);
    var q := AfterPublish(p, out.disk);
    assert q.world == p.world.(tree := out.disk.tree);
    AfterPublishLoss(pki, domain, p, out.disk, input, id);
    PublishSafety.PublishSucceedsIff(pki, domain, p.world.tree, input.publish, input.steps);
    FinishFailureLoss(pki, domain, q, input, Some(id), faults);
    FailingKeepsAccord(pki, domain, q.world, input, id);
    if out.disk.ok {
      PublishedLossIff(pki, domain, p, input, id, faults);
    } else {
      FailedPublishAccord(pki, domain, p.world, input);
    }
  }

  lemma PublishedLossIff(pki: Pki, domain: string, p: Path, input: Input, id: nat, faults: set<Fault>)
    requires Sound(pki, domain, p.world.tree) && DigestsFit(input)
    requires Unfinished(p.world.gens, domain) == {id} && Concords(pki, domain, p.world, input)
    requires p.world.gens.rows[id].digest == "" && !p.world.gens.rows[id].current
    requires Runs.Publish(pki, domain, p.world.tree, input.publish, input.steps).disk.ok
    requires Fresh(pki, domain,
      AfterPublish(p, Runs.Publish(pki, domain, p.world.tree, input.publish, input.steps).disk), input)
    ensures PassesLoss(pki, domain, PublishRow(pki, domain, p, input, id, faults).0, input) <==>
      (LoadPublished !in faults && MarkIssued(id) !in faults) || MarkFailed(id) !in faults
  {
    var out := Runs.Publish(pki, domain, p.world.tree, input.publish, input.steps);
    var q := AfterPublish(p, out.disk);
    PublishedReads(pki, domain, p.world.tree, input.publish, input.steps);
    PublishedIsNewest(pki, domain, p.world.tree, input.publish, input.steps);
    NewestDisagrees(pki, domain, p.world, q.world, input);
    FinishFailureLoss(pki, domain, q, input, Some(id), faults);
    FailingKeepsAccord(pki, domain, q.world, input, id);
    FinalizeLoss(pki, domain, q, input, id, faults);
    var m := ReadCurrent(pki, domain, q.world.tree).loaded.manifest;
    assert !Described(p.world.gens.rows[id], m, input);
    var final := Finalize(q, input, id, out.gen, m, faults).0;
    FinishFailureLoss(pki, domain, final, input, Some(id), faults);
    SetJobStatusLoss(pki, domain, final, input, J.Succeeded, faults);
  }

  lemma PublishedIsNewest(pki: Pki, domain: string, t: Tree, input: Runs.PublishInput, steps: set<Runs.Step>)
    requires Sound(pki, domain, t) && Runs.Publish(pki, domain, t, input, steps).disk.ok
    ensures var s := ReadCurrent(pki, domain, Runs.Publish(pki, domain, t, input, steps).disk.tree);
      s.Reading? && PublishSafety.Newest(pki, domain, t, s.loaded)
  {
    PublishSafety.PublishDelivers(pki, domain, t, input, steps);
    forall g { Safety.NextRevisionExceeds(pki, domain, t, g); }
  }

  /** A row has just been created, and marked publishing. */
  lemma MarkedRow(pki: Pki, domain: string, w: World, input: Input)
    requires G.Valid(w.gens) && G.Create(w.gens, Domains(w.jobs), NewRow(input, domain), Top(w.gens, domain)).1.Some?
    ensures var (gens, made) := G.Create(w.gens, Domains(w.jobs), NewRow(input, domain), Top(w.gens, domain));
      var (created, marked) := (w.(gens := gens), w.(gens := G.SetStatus(gens, made.value, G.Publishing, "").0));
      && made == Some(w.gens.next) && w.gens.next !in w.gens.rows
      && InDomain(gens, domain, [w.gens.next]) && InDomain(marked.gens, domain, [w.gens.next])
      && !gens.rows[w.gens.next].current && !marked.gens.rows[w.gens.next].current
      && marked.gens.rows[w.gens.next].digest == ""
      && Unfinished(gens, domain) == Unfinished(w.gens, domain)
      && Unfinished(marked.gens, domain) == Unfinished(w.gens, domain) + {w.gens.next}
      && (Concords(pki, domain, created, input) <==> Concords(pki, domain, w, input))
      && (Concords(pki, domain, marked, input) <==> Concords(pki, domain, w, input))
  {
    var (gens, made) := G.Create(w.gens, Domains(w.jobs), NewRow(input, domain), Top(w.gens, domain));
    MadeRow(w.gens, domain, Domains(w.jobs), input);
    SameAccord(pki, domain, w, w.(gens := gens), input);
    SameAccord(pki, domain, w, w.(gens := G.SetStatus(gens, made.value, G.Publishing, "").0), input);
  }

  lemma MadeRow(t: G.Table, domain: string, jobs: map<string, string>, input: Input)
    requires G.Valid(t) && G.Create(t, jobs, NewRow(input, domain), Top(t, domain)).1.Some?
    ensures var (s, made) := G.Create(t, jobs, NewRow(input, domain), Top(t, domain));
      var u := G.SetStatus(s, made.value, G.Publishing, "").0;
      && made == Some(t.next) && t.next !in t.rows && t.next in s.rows && t.next in u.rows
      && s.rows[t.next].domain == domain == u.rows[t.next].domain
      && !s.rows[t.next].current && !u.rows[t.next].current && u.rows[t.next].digest == ""
      && Unfinished(s, domain) == Unfinished(t, domain) && Unfinished(u, domain) == Unfinished(t, domain) + {t.next}
      && (forall id :: id in t.rows ==> id in s.rows && id in u.rows && s.rows[id] == t.rows[id] == u.rows[id])
      && s.rows.Keys == t.rows.Keys + {t.next} == u.rows.Keys
  {
  }

  /** From a settled state, issuing passes through a loss exactly if it loses. */
  lemma IssueRowLossIff(pki: Pki, domain: string, p: Path, input: Input, faults: set<Fault>)
    requires Good(pki, domain, p.world) && Fresh(pki, domain, p, input) && DigestsFit(input)
    requires Unfinished(p.world.gens, domain) == {} && Concords(pki, domain, p.world, input)
    ensures PassesLoss(pki, domain, IssueRow(pki, domain, p, input, faults).0, input) <==>
      IssueLoses(pki, domain, p.world, input, faults)
  {
    var w := p.world;
    var (gens, made) := G.Create(w.gens, Domains(w.jobs), NewRow(input, domain), Top(w.gens, domain));
    IssueRowUnfolds(pki, domain, p, input, faults);
    IssueLosesIff(pki, domain, w, input, faults);
    FreshParts(pki, domain, p, input);
    assert Lost(pki, domain, w, input) <==> !Concords(pki, domain, w, input);
    hide *;
    FinishFailureLoss(pki, domain, p, input, None, faults);
    if made.Some? && CreateRow !in faults {
      var id := made.value;
      MarkedRow(pki, domain, w, input);
      OneInDomain(gens, domain, id);
      var created := SetGens(p, gens);
      CreatedLoss(pki, domain, p, gens, input, id, faults);
      if !(PrepareIssue in faults || !input.issued || MarkPublishing in faults) {
        var marked := G.SetStatus(gens, id, G.Publishing, "").0;
        OneInDomain(marked, domain, id);
        MarkedFresh(pki, domain, created, marked, input, id);
        SetGensWorlds(p, gens, marked);
        PublishRowLossIff(pki, domain, SetGens(created, marked), input, id, faults);
      }
    }
  }

  lemma FreshParts(pki: Pki, domain: string, p: Path, input: Input)
    ensures Fresh(pki, domain, p, input) <==> p.world in p.seen && !PassesLoss(pki, domain, p, input)
    ensures Good(pki, domain, p.world) ==> Sound(pki, domain, p.world.tree) && G.Valid(p.world.gens)
  {
  }

  lemma OneInDomain(t: G.Table, domain: string, id: nat)
    requires InDomain(t, domain, [id])
    ensures id in t.rows && t.rows[id].domain == domain
  {
    assert id in [id];
  }

  lemma SetGensWorlds(p: Path, gens: G.Table, marked: G.Table)
    ensures SetGens(p, gens).world == p.world.(gens := gens)
    ensures SetGens(SetGens(p, gens), marked).world == p.world.(gens := marked)
  {
  }

  /** A row that was only created, and then failed, is no loss. */
  lemma CreatedLoss(pki: Pki, domain: string, p: Path, gens: G.Table, input: Input, id: nat, faults: set<Fault>)
    requires Fresh(pki, domain, p, input) && Concords(pki, domain, p.world.(gens := gens), input)
    requires id in gens.rows && gens.rows[id].domain == domain && !gens.rows[id].current
    ensures Fresh(pki, domain, SetGens(p, gens), input)
    ensures !PassesLoss(pki, domain, FinishFailure(SetGens(p, gens), input, Some(id), faults), input)
  {
    SetGensLoss(pki, domain, p, gens, input);
    FinishFailureLoss(pki, domain, SetGens(p, gens), input, Some(id), faults);
    FailingKeepsAccord(pki, domain, p.world.(gens := gens), input, id);
  }

  lemma MarkedFresh(pki: Pki, domain: string, p: Path, marked: G.Table, input: Input, id: nat)
    requires Fresh(pki, domain, p, input) && id in Unfinished(marked, domain)
    ensures Fresh(pki, domain, SetGens(p, marked), input)
  {
    SetGensLoss(pki, domain, p, marked, input);
  }

  lemma IssueLosesIff(pki: Pki, domain: string, w: World, input: Input, faults: set<Fault>)
    ensures IssueLoses(pki, domain, w, input, faults) <==>
      && CreateRow !in faults && G.Create(w.gens, Domains(w.jobs), NewRow(input, domain), Top(w.gens, domain)).1.Some?
      && PrepareIssue !in faults && input.issued && MarkPublishing !in faults
      && PublishLoses(pki, domain, w.tree, input, w.gens.next, faults)
  {
  }

  lemma IssueRowUnfolds(pki: Pki, domain: string, p: Path, input: Input, faults: set<Fault>)
    ensures var (gens, made) := G.Create(p.world.gens, Domains(p.world.jobs), NewRow(input, domain),
      Top(p.world.gens, domain));
      IssueRow(pki, domain, p, input, faults).0 ==
        if CreateRow in faults || made.None? then FinishFailure(p, input, None, faults)
        else if PrepareIssue in faults || !input.issued || MarkPublishing in faults
        then FinishFailure(SetGens(p, gens), input, Some(made.value), faults)
        else
          var marked := SetGens(SetGens(p, gens), G.SetStatus(gens, made.value, G.Publishing, "").0);
          PublishRow(pki, domain, marked, input, made.value, faults).0
  {
  }

  // ---- while another row stays publishing ----

  /** Nothing is lost as long as some row stays publishing. */
  ghost predicate Busy(pki: Pki, domain: string, p: Path, input: Input, id: nat) {
    Fresh(pki, domain, p, input) && id in Unfinished(p.world.gens, domain)
  }

  lemma SetGensBusy(pki: Pki, domain: string, p: Path, gens: G.Table, input: Input, id: nat)
    requires Busy(pki, domain, p, input, id) && id in Unfinished(gens, domain)
    ensures Busy(pki, domain, SetGens(p, gens), input, id)
  {
    SetGensLoss(pki, domain, p, gens, input);
  }

  lemma StatusKeepsOther(t: G.Table, domain: string, id: nat, status: G.Status, ref: string, other: nat)
    requires other in Unfinished(t, domain) && other != id
    ensures other in Unfinished(G.SetStatus(t, id, status, ref).0, domain)
  {
  }

  lemma FinishFailureBusy(pki: Pki, domain: string, p: Path, input: Input, row: Option<nat>, faults: set<Fault>,
                          id: nat)
    requires Busy(pki, domain, p, input, id) && row != Some(id)
    ensures !PassesLoss(pki, domain, FinishFailure(p, input, row, faults), input)
  {
    FinishFailureLoss(pki, domain, p, input, row, faults);
    if row.Some? { StatusKeepsOther(p.world.gens, domain, row.value, G.Failed, "", id); }
  }

  lemma FinalizeBusy(pki: Pki, domain: string, p: Path, input: Input, row: nat, gen: Id, m: Manifest,
                     faults: set<Fault>, id: nat)
    requires Busy(pki, domain, p, input, id) && row != id
    ensures Busy(pki, domain, Finalize(p, input, row, gen, m, faults).0, input, id)
  {
    var gens := G.SetStatus(p.world.gens, row, G.Issued, Ref(gen)).0;
    StatusKeepsOther(p.world.gens, domain, row, G.Issued, Ref(gen), id);
    SetGensBusy(pki, domain, p, gens, input, id);
    ArtifactKeepsUnfinished(gens, domain, row, ArtifactOf(input, m));
    SetGensBusy(pki, domain, SetGens(p, gens), G.SetArtifact(gens, row, ArtifactOf(input, m)).0, input, id);
  }

  lemma PublishRowBusy(pki: Pki, domain: string, p: Path, input: Input, row: nat, faults: set<Fault>, id: nat)
    requires Busy(pki, domain, p, input, id) && row != id
    ensures !PassesLoss(pki, domain, PublishRow(pki, domain, p, input, row, faults).0, input)
  {
    var out := Runs.Publish(pki, domain, p.world.tree, input.publish, input.steps);
    var q := AfterPublish(p, out.disk);
    AfterPublishLoss(pki, domain, p, out.disk, input, id);
    FinishFailureBusy(pki, domain, q, input, Some(row), faults, id);
    var published := ReadByName(pki, domain, q.world.tree, out.gen);
    if published.Reading? {
      FinalizeBusy(pki, domain, q, input, row, out.gen, published.loaded.manifest, faults, id);
      var final := Finalize(q, input, row, out.gen, published.loaded.manifest, faults).0;
      FinishFailureBusy(pki, domain, final, input, Some(row), faults, id);
      SetJobStatusLoss(pki, domain, final, input, J.Succeeded, faults);
    }
  }

  lemma IssueRowBusy(pki: Pki, domain: string, p: Path, input: Input, faults: set<Fault>, id: nat)
    requires G.Valid(p.world.gens) && Busy(pki, domain, p, input, id)
    ensures !PassesLoss(pki, domain, IssueRow(pki, domain, p, input, faults).0, input)
  {
    var w := p.world;
    var (gens, made) := G.Create(w.gens, Domains(w.jobs), NewRow(input, domain), Top(w.gens, domain));
    FinishFailureBusy(pki, domain, p, input, None, faults, id);
    if made.Some? && CreateRow !in faults {
      MarkedRow(pki, domain, w, input);
      var created := SetGens(p, gens);
      SetGensBusy(pki, domain, p, gens, input, id);
      FinishFailureBusy(pki, domain, created, input, made, faults, id);
      var marked := G.SetStatus(gens, made.value, G.Publishing, "").0;
      SetGensBusy(pki, domain, created, marked, input, id);
      PublishRowBusy(pki, domain, SetGens(created, marked), input, made.value, faults, id);
    }
  }

  // ---- losses stay in sight ----

  ghost predicate Sees(p: Path, q: Path) { q.world in q.seen && forall s :: s in p.seen ==> s in q.seen }

  lemma SetGensSees(p: Path, gens: G.Table)
    ensures Sees(p, SetGens(p, gens))
  {
    var q := SetGens(p, gens);
    assert q.seen[|p.seen|] == q.world;
  }

  lemma SetJobsSees(p: Path, jobs: J.Table)
    ensures Sees(p, SetJobs(p, jobs))
  {
    var q := SetJobs(p, jobs);
    assert q.seen[|p.seen|] == q.world;
  }

  lemma FinishFailureSees(p: Path, input: Input, row: Option<nat>, faults: set<Fault>)
    requires p.world in p.seen
    ensures Sees(p, FinishFailure(p, input, row, faults))
  {
    var q := if row.Some? then FailRow(p, row.value, faults) else p;
    FinishFailureUnfolds(p, input, row, faults);
    if row.Some? { SetGensSees(p, Failing(p.world, row.value).gens); }
    SetJobsSees(q, Retried(q.world, input));
    SetJobsSees(q, J.SetStatus(q.world.jobs, input.job, J.Failed, input.now).0);
  }

  lemma PublishRowSees(pki: Pki, domain: string, p: Path, input: Input, id: nat, faults: set<Fault>)
    requires p.world in p.seen
    ensures Sees(p, PublishRow(pki, domain, p, input, id, faults).0)
  {
    var out := Runs.Publish(pki, domain, p.world.tree, input.publish, input.steps);
    var q := AfterPublish(p, out.disk);
    assert q.seen[|q.seen| - 1] == q.world;
    FinishFailureSees(q, input, Some(id), faults);
    var published := ReadByName(pki, domain, q.world.tree, out.gen);
    if published.Reading? {
      FinalizeGrows(q, input, id, out.gen, published.loaded.manifest, faults);
      var final := Finalize(q, input, id, out.gen, published.loaded.manifest, faults).0;
      FinishFailureSees(final, input, Some(id), faults);
      SetJobsSees(final, J.SetStatus(final.world.jobs, input.job, J.Succeeded, input.now).0);
    }
  }

  lemma IssueRowSees(pki: Pki, domain: string, p: Path, input: Input, faults: set<Fault>)
    requires p.world in p.seen
    ensures forall s :: s in p.seen ==> s in IssueRow(pki, domain, p, input, faults).0.seen
  {
    var (gens, made) := G.Create(p.world.gens, Domains(p.world.jobs), NewRow(input, domain), Top(p.world.gens, domain));
    FinishFailureSees(p, input, None, faults);
    if made.Some? && CreateRow !in faults {
      var created := SetGens(p, gens);
      SetGensSees(p, gens);
      FinishFailureSees(created, input, made, faults);
      var marked := G.SetStatus(gens, made.value, G.Publishing, "").0;
      SetGensSees(created, marked);
      PublishRowSees(pki, domain, SetGens(created, marked), input, made.value, faults);
    }
  }

  // ---- whole runs ----

  /** Recovery clears every publishing row, so that the run goes on to issue. */
  ghost predicate RecoveryClears(pki: Pki, domain: string, w: World, faults: set<Fault>) {
    forall id :: id in Unfinished(w.gens, domain) ==> Clears(pki, domain, w, id, faults)
  }

  /** The run loses: in recovery, or in issuing once recovery has cleared every row. */
  ghost predicate RunLoses(pki: Pki, domain: string, w: World, input: Input, faults: set<Fault>) {
    && !Halts(pki, domain, w, input, faults)
    && (RecoveryLoses(pki, domain, w, input, input.listing, faults)
        || (RecoveryClears(pki, domain, w, faults) && IssueLoses(pki, domain, w, input, faults)))
  }

  lemma ShapeKeepsIssue(pki: Pki, domain: string, w: World, v: World, input: Input, faults: set<Fault>)
    requires SameShape(w.gens, v.gens, domain) && v.tree == w.tree && v.jobs == w.jobs
    ensures IssueLoses(pki, domain, v, input, faults) <==> IssueLoses(pki, domain, w, input, faults)
    ensures Concords(pki, domain, v, input) <==> Concords(pki, domain, w, input)
  {
    ShapeKeepsCreate(w.gens, v.gens, domain, Domains(w.jobs), input);
    SameAccord(pki, domain, w, v, input);
  }

  lemma ShapeKeepsCreate(t: G.Table, s: G.Table, domain: string, jobs: map<string, string>, input: Input)
    requires SameShape(t, s, domain)
    ensures G.Create(t, jobs, NewRow(input, domain), Top(t, domain)).1.Some? <==>
            G.Create(s, jobs, NewRow(input, domain), Top(s, domain)).1.Some?
  {
    var (gt, gs) := (Numbered(t, domain), Numbered(s, domain));
    forall x | x in gt ensures x in gs {
      var a :| a in t.rows && t.rows[a].domain == domain && t.rows[a].generation == x;
      assert s.rows[a].generation == x;
    }
    forall x | x in gs ensures x in gt {
      var a :| a in s.rows && s.rows[a].domain == domain && s.rows[a].generation == x;
      assert t.rows[a].generation == x;
    }
    assert gt == gs;
    var row := G.Numbered(NewRow(input, domain), Top(t, domain));
    assert G.Clashes(t, t.next, row) <==> G.Clashes(s, s.next, row);
  }

  ghost function Numbered(t: G.Table, domain: string): set<int> {
    set a | a in t.rows && t.rows[a].domain == domain :: t.rows[a].generation
  }

  lemma ListedRows(t: G.Table, domain: string, rows: seq<nat>)
    requires Lists(t, domain, rows)
    ensures Distinct(rows) && InDomain(t, domain, rows) && forall id :: id in Unfinished(t, domain) ==> id in rows
  {
  }

  /** The loss theorem. From any good world that is not lost, a run passes through a lost one, where a crash
      would leave it or the run ends, exactly if it loses. */
  lemma RunLossIff(pki: Pki, domain: string, w: World, input: Input, faults: set<Fault>)
    requires Good(pki, domain, w) && Lists(w.gens, domain, input.listing) && DigestsFit(input)
      && !Lost(pki, domain, w, input)
    ensures (exists s :: s in Execute(pki, domain, w, input, faults).0.seen && Lost(pki, domain, s, input)) <==>
      RunLoses(pki, domain, w, input, faults)
  {
    var p := Path(w, [w]);
    assert PassesLoss(pki, domain, Execute(pki, domain, w, input, faults).0, input) <==>
      exists s :: s in Execute(pki, domain, w, input, faults).0.seen && Lost(pki, domain, s, input);
    assert p.seen[0] == w && Fresh(pki, domain, p, input);
    if Halts(pki, domain, w, input, faults) {
      FinishFailureLoss(pki, domain, p, input, None, faults);
      SetJobStatusLoss(pki, domain, p, input, J.Succeeded, faults);
      SetJobStatusLoss(pki, domain, p, input, J.Failed, faults);
    } else {
      RunUnlessHalted(pki, domain, w, input, faults);
      ListedRows(w.gens, domain, input.listing);
      RecoveryLossIff(pki, domain, p, input, input.listing, faults);
      NothingLeftKeeps(pki, domain, p, input, input.listing, faults);
      var (q, recovery) := Recover(pki, domain, p, input, input.listing, faults);
      SetJobStatusLoss(pki, domain, q, input, J.Succeeded, faults);
      SetJobStatusLoss(pki, domain, q, input, J.Failed, faults);
      if recovery.NothingLeft? {
        IssueAfterRecovery(pki, domain, w, q, input, faults);
      } else {
        assert !RecoveryClears(pki, domain, w, faults);
      }
    }
  }

  lemma IssueAfterRecovery(pki: Pki, domain: string, w: World, q: Path, input: Input, faults: set<Fault>)
    requires Good(pki, domain, w) && DigestsFit(input) && !Lost(pki, domain, w, input)
    requires q.world in q.seen && G.Valid(q.world.gens) && q.world.tree == w.tree && q.world.jobs == w.jobs
    requires SameShape(w.gens, q.world.gens, domain)
    requires forall id :: id in Unfinished(w.gens, domain) ==>
      id in input.listing && Skipped(pki, domain, w, id, faults)
    requires Unfinished(q.world.gens, domain) == Remaining(Unfinished(w.gens, domain), input.listing, faults)
    requires PassesLoss(pki, domain, q, input) <==> RecoveryLoses(pki, domain, w, input, input.listing, faults)
    ensures PassesLoss(pki, domain, IssueRow(pki, domain, q, input, faults).0, input) <==>
      RecoveryLoses(pki, domain, w, input, input.listing, faults)
      || (RecoveryClears(pki, domain, w, faults) && IssueLoses(pki, domain, w, input, faults))
  {
    ClearsIff(pki, domain, w, q.world, input, faults);
    ShapeKeepsIssue(pki, domain, w, q.world, input, faults);
    if PassesLoss(pki, domain, q, input) {
      IssueRowSees(pki, domain, q, input, faults);
    } else if id :| id in Unfinished(q.world.gens, domain) {
      IssueRowBusy(pki, domain, q, input, faults, id);
    } else {
      assert !Lost(pki, domain, q.world, input);
      IssueRowLossIff(pki, domain, q, input, faults);
    }
  }

  lemma ClearsIff(pki: Pki, domain: string, w: World, v: World, input: Input, faults: set<Fault>)
    requires forall id :: id in Unfinished(w.gens, domain) ==>
      id in input.listing && Skipped(pki, domain, w, id, faults)
    requires Unfinished(v.gens, domain) == Remaining(Unfinished(w.gens, domain), input.listing, faults)
    ensures RecoveryClears(pki, domain, w, faults) <==> Unfinished(v.gens, domain) == {}
  {
    if Unfinished(v.gens, domain) == {} {
      forall id | id in Unfinished(w.gens, domain) ensures Clears(pki, domain, w, id, faults) {
        assert id !in Unfinished(v.gens, domain);
      }
    }
  }

  lemma PublishedIssues(pki: Pki, domain: string, p: Path, input: Input, faults: set<Fault>)
    requires G.Valid(p.world.gens) && Sound(pki, domain, p.world.tree)
    requires IssueRow(pki, domain, p, input, faults).1 == Published
    ensures IssueLoses(pki, domain, p.world, input, faults)
  {
    var w := p.world;
    var (gens, made) := G.Create(w.gens, Domains(w.jobs), NewRow(input, domain), Top(w.gens, domain));
    MarkedRow(pki, domain, w, input);
    var marked := SetGens(SetGens(p, gens), G.SetStatus(gens, made.value, G.Publishing, "").0);
    PublishRowEnds(pki, domain, marked, input, made.value, faults);
    PublishSafety.PublishSucceedsIff(pki, domain, w.tree, input.publish, input.steps);
  }

  /** In particular every run that publishes, once recovery has cleared the rows it found, passes through a loss:
      a crash there is enough. */
  lemma EveryPublishingRunLoses(pki: Pki, domain: string, w: World, input: Input, faults: set<Fault>)
    requires Good(pki, domain, w) && Lists(w.gens, domain, input.listing) && DigestsFit(input)
    requires Execute(pki, domain, w, input, faults).1 == Published && forall id :: MarkFailed(id) !in faults
    ensures exists s :: s in Execute(pki, domain, w, input, faults).0.seen && Lost(pki, domain, s, input)
  {
    if Halts(pki, domain, w, input, faults) { HaltedRun(pki, domain, w, input, faults); }
    RunUnlessHalted(pki, domain, w, input, faults);
    var p := Path(w, [w]);
    ListedRows(w.gens, domain, input.listing);
    NothingLeftKeeps(pki, domain, p, input, input.listing, faults);
    var q := Recover(pki, domain, p, input, input.listing, faults).0;
    PublishedIssues(pki, domain, q, input, faults);
    ShapeKeepsIssue(pki, domain, w, q.world, input, faults);
    if Lost(pki, domain, w, input) {
      assert p.seen[0] == w;
      RecoverGrows(pki, domain, p, input, input.listing, faults);
      IssueRowSees(pki, domain, q, input, faults);
    } else {
      RunLossIff(pki, domain, w, input, faults);
    }
  }

  // ---- and nothing repairs it ----

  /** From a lost world no run recovers anything: it halts, leaving rows and files as they are, or it issues
      a new certificate. */
  lemma NoRecoveryRepairs(pki: Pki, domain: string, w: World, input: Input, faults: set<Fault>)
    requires Unfinished(w.gens, domain) == {} && Lists(w.gens, domain, input.listing)
    ensures var (p, outcome) := Execute(pki, domain, w, input, faults);
      && outcome != Recovered
      && (if Halts(pki, domain, w, input, faults) then p.world.gens == w.gens && p.world.tree == w.tree
          else (p, outcome) == IssueRow(pki, domain, Path(w, [w]), input, faults))
  {
    if !Halts(pki, domain, w, input, faults) {
      RunUnlessHalted(pki, domain, w, input, faults);
      ListedRows(w.gens, domain, input.listing);
      IdleRecovery(pki, domain, Path(w, [w]), input, input.listing, faults);
      IssueRowOutcome(pki, domain, Path(w, [w]), input, faults);
    }
  }

  lemma {:induction false} IdleRecovery(pki: Pki, domain: string, p: Path, input: Input, rows: seq<nat>,
                                        faults: set<Fault>)
    requires Unfinished(p.world.gens, domain) == {} && InDomain(p.world.gens, domain, rows)
    ensures Recover(pki, domain, p, input, rows, faults) == (p, NothingLeft)
  {
    if rows != [] {
      RecoverUnfolds(pki, domain, p, input, rows, faults);
      IdleRecovery(pki, domain, p, input, rows[1..], faults);
    }
  }

  lemma IssueRowOutcome(pki: Pki, domain: string, p: Path, input: Input, faults: set<Fault>)
    ensures IssueRow(pki, domain, p, input, faults).1 != Recovered
  {
  }
}
