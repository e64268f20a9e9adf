/** Exactly when a run recovers and exactly when it publishes, and what it makes of the rows on the way. */
module ServiceOutcomes {
  import opened Common
  import opened FileTree
  import opened ServiceRuns
  import opened ServiceSafety
  import opened GenerationEffects
  import Runs = CertRuns
  import PublishSafety
  import ServiceEndings
  import G = Generations
  import J = Jobs

  // ---- recovery ----

  /** Recovery turns to this row: it is publishing, and the current release can be read for it. */
  ghost predicate Takes(pki: Pki, domain: string, w: World, id: nat, faults: set<Fault>) {
    && id in w.gens.rows && w.gens.rows[id].status == G.Publishing
    && ReadFiles(id) !in faults && ReadCurrent(pki, domain, w.tree).Reading?
  }

  /** No other row of the domain carries the revision, as the column stores it, and all values fit their columns. */
  ghost predicate Fits(t: G.Table, domain: string, id: nat, input: Input, m: Manifest) {
    && 1 <= Stored(m.revision) && HexDigest(input.digest(m)) && HexDigest(m.fingerprint)
    && forall a :: a in t.rows && a != id && t.rows[a].domain == domain ==> t.rows[a].revision != Stored(m.revision)
  }

  /** A uint64 as an int64: from 2^63 on it turns negative. */
  function Stored(revision: int): int {
    if revision <= 0x7FFF_FFFF_FFFF_FFFF then revision else revision - 0x1_0000_0000_0000_0000
  }

  lemma FinalizesIff(p: Path, input: Input, domain: string, id: nat, gen: Id, m: Manifest, faults: set<Fault>)
    requires G.Valid(p.world.gens) && id in p.world.gens.rows && p.world.gens.rows[id].domain == domain
    ensures Finalize(p, input, id, gen, m, faults).1 <==>
      MarkIssued(id) !in faults && WriteArtifact(id) !in faults && Fits(p.world.gens, domain, id, input, m)
  {
    FinalizeSucceedsIff(p, input, id, gen, m, faults);
    DigestIs(input.digest(m));
    DigestIs(m.fingerprint);
  }

  /** Status `Failed` for the publishing rows that recovery gives up on, and nothing else but reference and mark. */
  ghost predicate OnlyFails(t: G.Table, s: G.Table, ids: set<nat>) {
    && s.rows.Keys == t.rows.Keys && s.next == t.next
    && forall a :: a in t.rows ==>
         if a in ids then s.rows[a] == t.rows[a].(status := G.Failed, ref := "", current := false)
         else s.rows[a] == t.rows[a]
  }

  /** The rows before place `at` that are marked failed. */
  ghost function GivenUp(t: G.Table, rows: seq<nat>, at: nat, faults: set<Fault>): set<nat>
    requires at <= |rows|
  {
    set id | id in rows[..at] && id in t.rows && t.rows[id].status == G.Publishing && MarkFailed(id) !in faults
  }

  lemma FailRowOnlyFails(p: Path, id: nat, faults: set<Fault>)
    requires id in p.world.gens.rows
    ensures OnlyFails(p.world.gens, FailRow(p, id, faults).world.gens, if MarkFailed(id) in faults then {} else {id})
    ensures FailRow(p, id, faults).world.tree == p.world.tree && FailRow(p, id, faults).world.jobs == p.world.jobs
  {
  }

  lemma OnlyFailsTwice(t: G.Table, u: G.Table, s: G.Table, first: set<nat>, second: set<nat>)
    requires OnlyFails(t, u, first) && OnlyFails(u, s, second)
    ensures OnlyFails(t, s, first + second)
  {
  }

  /** A row that recovery does not turn to is marked failed if it is publishing, and otherwise left alone. */
  ghost function PassedOver(p: Path, id: nat, faults: set<Fault>): Path {
    if id in p.world.gens.rows && p.world.gens.rows[id].status == G.Publishing then FailRow(p, id, faults) else p
  }

  lemma PassedOverFails(pki: Pki, domain: string, p: Path, rows: seq<nat>, faults: set<Fault>, at: nat)
    requires rows != [] && at < |rows|
    ensures var q := PassedOver(p, rows[0], faults);
      && q.world.tree == p.world.tree && q.world.jobs == p.world.jobs
      && OnlyFails(p.world.gens, q.world.gens, GivenUp(p.world.gens, rows, 1, faults))
      && GivenUp(p.world.gens, rows, at + 1, faults)
         == GivenUp(p.world.gens, rows, 1, faults) + GivenUp(q.world.gens, rows[1..], at, faults)
  {
    var (q, id) := (PassedOver(p, rows[0], faults), rows[0]);
    assert rows[..at + 1] == [id] + rows[1..][..at] && rows[..1] == [id];
    if id in p.world.gens.rows { FailRowOnlyFails(p, id, faults); }
  }

  lemma PassingKeepsTakes(pki: Pki, domain: string, p: Path, id: nat, faults: set<Fault>, other: nat)
    requires !Takes(pki, domain, p.world, id, faults)
    ensures Takes(pki, domain, PassedOver(p, id, faults).world, other, faults)
       <==> Takes(pki, domain, p.world, other, faults)
  {
    if id in p.world.gens.rows { FailRowOnlyFails(p, id, faults); }
  }

  lemma RecoverUnfolds(pki: Pki, domain: string, p: Path, input: Input, rows: seq<nat>, faults: set<Fault>)
    requires rows != []
    ensures !Takes(pki, domain, p.world, rows[0], faults) ==>
      Recover(pki, domain, p, input, rows, faults)
        == Recover(pki, domain, PassedOver(p, rows[0], faults), input, rows[1..], faults)
    ensures Takes(pki, domain, p.world, rows[0], faults) ==>
      Recover(pki, domain, p, input, rows, faults) == Taken(pki, domain, p, input, rows[0], faults)
  {
    hide FailRow, Finalize, ReadCurrent;
  }

  lemma NothingPassed(pki: Pki, domain: string, p: Path, input: Input, rows: seq<nat>, faults: set<Fault>)
    ensures GivenUp(p.world.gens, rows, 0, faults) == {} && OnlyFails(p.world.gens, p.world.gens, {})
    ensures rows == [] ==> Recover(pki, domain, p, input, rows, faults) == (p, NothingLeft)
  {
  }

  /** Recording the current release in a row. */
  ghost function Taken(pki: Pki, domain: string, q: Path, input: Input, id: nat, faults: set<Fault>): (Path, Recovery)
    requires ReadCurrent(pki, domain, q.world.tree).Reading?
  {
    var current := ReadCurrent(pki, domain, q.world.tree);
    var (r, ok) := Finalize(q, input, id, current.gen, current.loaded.manifest, faults);
    (r, if ok then Finalized(id) else RecoveryFailed)
  }

  /** Recovery decides on the first row that it can turn to. The publishing rows before it are marked failed, and
      so are all of them if there is no such row. */
  lemma {:induction false} RecoveryIs(pki: Pki, domain: string, p: Path, input: Input, rows: seq<nat>,
                                      faults: set<Fault>) returns (at: nat, q: Path)
    ensures at <= |rows| && forall i :: 0 <= i < at ==> !Takes(pki, domain, p.world, rows[i], faults)
    ensures at < |rows| ==> Takes(pki, domain, p.world, rows[at], faults)
    ensures q.world.tree == p.world.tree && q.world.jobs == p.world.jobs
      && OnlyFails(p.world.gens, q.world.gens, GivenUp(p.world.gens, rows, at, faults))
    ensures Recover(pki, domain, p, input, rows, faults) ==
      if at == |rows| then (q, NothingLeft) else Taken(pki, domain, q, input, rows[at], faults)
    decreases |rows|
  {
    hide Recover, Taken, PassedOver, OnlyFails, GivenUp, ReadCurrent;
    at, q := 0, p;
    NothingPassed(pki, domain, p, input, rows, faults);
    if rows != [] {
      RecoverUnfolds(pki, domain, p, input, rows, faults);
      if !Takes(pki, domain, p.world, rows[0], faults) {
        var u := PassedOver(p, rows[0], faults);
        at, q := RecoveryIs(pki, domain, u, input, rows[1..], faults);
        PassedOverFails(pki, domain, p, rows, faults, at);
        OnlyFailsTwice(p.world.gens, u.world.gens, q.world.gens, GivenUp(p.world.gens, rows, 1, faults),
          GivenUp(u.world.gens, rows[1..], at, faults));
        forall i | 0 <= i < |rows| - 1
          ensures Takes(pki, domain, u.world, rows[1..][i], faults) <==>
            Takes(pki, domain, p.world, rows[i + 1], faults)
        {
          PassingKeepsTakes(pki, domain, p, rows[0], faults, rows[i + 1]);
        }
        at := at + 1;
      }
    }
  }

  lemma OnlyFailsKeepsValid(t: G.Table, s: G.Table, ids: set<nat>)
    requires OnlyFails(t, s, ids) && G.Valid(t)
    ensures G.Valid(s)
  {
  }

  lemma OnlyFailsKeepsNumbers(t: G.Table, s: G.Table, ids: set<nat>, domain: string)
    requires OnlyFails(t, s, ids)
    ensures forall a :: a in t.rows ==>
      && s.rows[a].domain == t.rows[a].domain && s.rows[a].generation == t.rows[a].generation
      && s.rows[a].revision == t.rows[a].revision
    ensures Top(s, domain) == Top(t, domain)
  {
    assert (set a | a in s.rows && s.rows[a].domain == domain :: s.rows[a].generation)
        == set a | a in t.rows && t.rows[a].domain == domain :: t.rows[a].generation;
  }

  lemma OnlyFailsKeeps(t: G.Table, s: G.Table, ids: set<nat>, domain: string)
    requires OnlyFails(t, s, ids) && G.Valid(t)
    ensures G.Valid(s) && Top(s, domain) == Top(t, domain)
    ensures forall id, input, m :: Fits(s, domain, id, input, m) <==> Fits(t, domain, id, input, m)
    ensures forall id, generation, revision ::
      NumbersFree(s, id, domain, generation, revision) <==> NumbersFree(t, id, domain, generation, revision)
  {
    OnlyFailsKeepsValid(t, s, ids);
    OnlyFailsKeepsNumbers(t, s, ids, domain);
    assert s.rows.Keys == t.rows.Keys;
    hide G.Valid, OnlyFails;
  }

  /** The current release can be recorded in the row. */
  ghost predicate Records(pki: Pki, domain: string, w: World, input: Input, id: nat, faults: set<Fault>) {
    var current := ReadCurrent(pki, domain, w.tree);
    && MarkIssued(id) !in faults && WriteArtifact(id) !in faults
    && current.Reading? && Fits(w.gens, domain, id, input, current.loaded.manifest)
  }

  /** Recovery as a whole: the first row that it can turn to decides. */
  lemma RecoveryEndsIff(pki: Pki, domain: string, w: World, input: Input, faults: set<Fault>) returns (at: nat)
    requires Good(pki, domain, w) && ServiceRuns.Lists(w.gens, domain, input.listing)
    ensures at <= |input.listing| && forall i :: 0 <= i < at ==> !Takes(pki, domain, w, input.listing[i], faults)
    ensures at < |input.listing| ==> Takes(pki, domain, w, input.listing[at], faults)
    ensures Recover(pki, domain, Path(w, [w]), input, input.listing, faults).1 ==
      if at == |input.listing| then NothingLeft
      else if Records(pki, domain, w, input, input.listing[at], faults) then Finalized(input.listing[at])
      else RecoveryFailed
  {
    hide Recover, Finalize, ReadCurrent, GivenUp, Fits, G.Valid, Sound;
    var q: Path;
    at, q := RecoveryIs(pki, domain, Path(w, [w]), input, input.listing, faults);
    OnlyFailsKeeps(w.gens, q.world.gens, GivenUp(w.gens, input.listing, at, faults), domain);
    if at < |input.listing| {
      var (id, current) := (input.listing[at], ReadCurrent(pki, domain, w.tree));
      FinalizesIff(q, input, domain, id, current.gen, current.loaded.manifest, faults);
    }
  }

  /** Exactly when a run ends by recovery: it gets past the checks, some listed row can be turned to, and the
      current release can be recorded in the first such row. It stops there exactly if the rows cannot be listed, or
      the release cannot be recorded in that row. */
  lemma RunRecoversIff(pki: Pki, domain: string, w: World, input: Input, faults: set<Fault>) returns (at: nat)
    requires Good(pki, domain, w) && ServiceRuns.Lists(w.gens, domain, input.listing)
    ensures at <= |input.listing| && forall i :: 0 <= i < at ==> !Takes(pki, domain, w, input.listing[i], faults)
    ensures at < |input.listing| ==> Takes(pki, domain, w, input.listing[at], faults)
    ensures Execute(pki, domain, w, input, faults).1 == Recovered <==>
      && !Halts(pki, domain, w, input, faults) && at < |input.listing|
      && Records(pki, domain, w, input, input.listing[at], faults)
    ensures ServiceEndings.StopsAtRecovery(pki, domain, w, input, faults) <==>
      && !ServiceEndings.Unreadable(pki, domain, w, input, faults)
      && (ListRows in faults
          || (at < |input.listing| && !Records(pki, domain, w, input, input.listing[at], faults)))
  {
    hide Execute, Recover, IssueRow, ReadCurrent, Halts, Takes, Records, Good, ServiceEndings.Unreadable;
    at := RecoveryEndsIff(pki, domain, w, input, faults);
    if Halts(pki, domain, w, input, faults) {
      HaltedRun(pki, domain, w, input, faults);
    } else {
      RunUnlessHalted(pki, domain, w, input, faults);
      IssueRowNeverRecovers(pki, domain, Recover(pki, domain, Path(w, [w]), input, input.listing, faults).0, input,
        faults);
    }
  }

  lemma IssueRowNeverRecovers(pki: Pki, domain: string, p: Path, input: Input, faults: set<Fault>)
    ensures var outcome := IssueRow(pki, domain, p, input, faults).1; outcome == Published || outcome == Errored
  {
    hide Runs.Publish, Finalize, FinishFailure;
  }

  // ---- issuing ----

  /** The files are published, and the row takes them over. */
  ghost predicate Delivers(pki: Pki, domain: string, w: World, input: Input, id: nat, faults: set<Fault>) {
    var out := Runs.Publish(pki, domain, w.tree, input.publish, input.steps);
    && out.disk.ok && out.manifest.Some? && input.job in w.jobs
    && LoadPublished !in faults && MarkIssued(id) !in faults && WriteArtifact(id) !in faults && SetJob !in faults
    && Fits(w.gens, domain, id, input, out.manifest.value)
  }

  lemma PublishedManifest(pki: Pki, domain: string, t: Tree, input: Runs.PublishInput, steps: set<Runs.Step>)
    requires Sound(pki, domain, t) && Runs.Publish(pki, domain, t, input, steps).disk.ok
    ensures var out := Runs.Publish(pki, domain, t, input, steps);
      && ReadByName(pki, domain, out.disk.tree, out.gen).Reading? && out.manifest.Some?
      && ReadByName(pki, domain, out.disk.tree, out.gen).loaded.manifest == out.manifest.value
  {
    hide Runs.Publish, ReadByName, ReadCurrent, Sound;
    PublishedReads(pki, domain, t, input, steps);
    PublishSafety.PublishDelivers(pki, domain, t, input, steps);
  }

  lemma PublishRowSucceedsIff(pki: Pki, domain: string, p: Path, input: Input, id: nat, faults: set<Fault>)
    requires Sound(pki, domain, p.world.tree) && G.Valid(p.world.gens)
    requires id in p.world.gens.rows && p.world.gens.rows[id].domain == domain
    ensures PublishRow(pki, domain, p, input, id, faults).1 == Published <==>
      Delivers(pki, domain, p.world, input, id, faults)
  {
    hide Runs.Publish, Finalize, FinishFailure, ReadByName, Fits, Sound, SetJobStatus, AfterPublish;
    var out := Runs.Publish(pki, domain, p.world.tree, input.publish, input.steps);
    var q := AfterPublish(p, out.disk);
    AfterPublishIs(p, out.disk);
    if out.disk.ok {
      PublishedManifest(pki, domain, p.world.tree, input.publish, input.steps);
      var m := out.manifest.value;
      FinalizesIff(q, input, domain, id, out.gen, m, faults);
      FinalizeKeepsJobs(q, input, id, out.gen, m, faults);
    }
  }

  lemma AfterPublishIs(p: Path, disk: Runs.Io)
    ensures AfterPublish(p, disk).world == p.world.(tree := disk.tree)
  {
  }

  lemma FinalizeKeepsJobs(p: Path, input: Input, id: nat, gen: Id, m: Manifest, faults: set<Fault>)
    ensures Finalize(p, input, id, gen, m, faults).0.world.jobs == p.world.jobs
  {
  }

  /** A row can be made for the run: its job is one of this domain, and the next number is free as a revision. */
  ghost predicate Makes(domain: string, w: World, input: Input) {
    var next := Top(w.gens, domain) + 1;
    && input.job != "" && domain != "" && input.job in w.jobs && w.jobs[input.job].domain == domain
    && 1 <= next && NumbersFree(w.gens, w.gens.next, domain, next, next)
  }

  /** The rows after a new row is made and marked as publishing: one more, and the others as they were. */
  ghost predicate Adds(domain: string, t: G.Table, s: G.Table, input: Input, status: G.Status) {
    && t.next !in t.rows && s.rows.Keys == t.rows.Keys + {t.next} && s.next == t.next + 1
    && (forall a :: a in t.rows ==> s.rows[a] == t.rows[a])
    && var (row, next) := (s.rows[t.next], Top(t, domain) + 1);
       row == G.Row(input.job, domain, next, next, status, "", "", "", "", false)
  }

  lemma NewRowIs(domain: string, w: World, input: Input)
    requires G.Valid(w.gens)
    ensures var (s, id) := G.Create(w.gens, Domains(w.jobs), NewRow(input, domain), Top(w.gens, domain));
      && (id.Some? <==> Makes(domain, w, input))
      && (id.Some? ==> id.value == w.gens.next && G.Valid(s) && Adds(domain, w.gens, s, input, G.Pending))
  {
    hide G.Create, NumbersFree;
    CreateEffect(w.gens, Domains(w.jobs), NewRow(input, domain), Top(w.gens, domain));
    G.CreateKeepsValid(w.gens, Domains(w.jobs), NewRow(input, domain), Top(w.gens, domain));
  }

  lemma MarkedRowIs(domain: string, t: G.Table, s: G.Table, input: Input)
    requires G.Valid(s) && Adds(domain, t, s, input, G.Pending)
    ensures var u := G.SetStatus(s, t.next, G.Publishing, "").0;
      G.Valid(u) && Adds(domain, t, u, input, G.Publishing)
  {
    SetStatusEffect(s, t.next, G.Publishing, "");
    G.SetStatusKeepsValid(s, t.next, G.Publishing, "");
  }

  lemma AddsKeepsFit(domain: string, t: G.Table, s: G.Table, input: Input, status: G.Status, m: Manifest)
    requires Adds(domain, t, s, input, status)
    ensures Fits(s, domain, t.next, input, m) <==> Fits(t, domain, t.next, input, m)
  {
  }

  /** Exactly when issuing succeeds. */
  lemma IssueRowPublishesIff(pki: Pki, domain: string, p: Path, input: Input, faults: set<Fault>)
    requires Good(pki, domain, p.world)
    ensures IssueRow(pki, domain, p, input, faults).1 == Published <==>
      && CreateRow !in faults && PrepareIssue !in faults && MarkPublishing !in faults && input.issued
      && Makes(domain, p.world, input) && Delivers(pki, domain, p.world, input, p.world.gens.next, faults)
  {
    hide G.Create, G.SetStatus, PublishRow, FinishFailure, Delivers, Makes, Adds, G.Valid, Sound;
    var (s, id) := G.Create(p.world.gens, Domains(p.world.jobs), NewRow(input, domain), Top(p.world.gens, domain));
    NewRowIs(domain, p.world, input);
    if id.Some? {
      MarkedRowIs(domain, p.world.gens, s, input);
      var marked := SetGens(SetGens(p, s), G.SetStatus(s, id.value, G.Publishing, "").0);
      PublishRowSucceedsIff(pki, domain, marked, input, id.value, faults);
      SameDelivery(pki, domain, p.world, marked.world, input, faults);
    }
  }

  lemma SameDelivery(pki: Pki, domain: string, w: World, v: World, input: Input, faults: set<Fault>)
    requires Adds(domain, w.gens, v.gens, input, G.Publishing) && v.tree == w.tree && v.jobs == w.jobs
    ensures Delivers(pki, domain, v, input, w.gens.next, faults) <==>
      Delivers(pki, domain, w, input, w.gens.next, faults)
  {
    hide Runs.Publish, Fits, Adds;
    var out := Runs.Publish(pki, domain, w.tree, input.publish, input.steps);
    if out.manifest.Some? {
      AddsKeepsFit(domain, w.gens, v.gens, input, G.Publishing, out.manifest.value);
    }
  }

  /** Exactly when a run publishes: it gets past the checks, no row can take the current release over, a row can be
      made, the issuer succeeds, the files are published, and the row and the job take that down. */
  lemma RunPublishesIff(pki: Pki, domain: string, w: World, input: Input, faults: set<Fault>)
    requires Good(pki, domain, w) && ServiceRuns.Lists(w.gens, domain, input.listing)
    ensures Execute(pki, domain, w, input, faults).1 == Published <==>
      && !Halts(pki, domain, w, input, faults)
      && (forall id :: id in input.listing ==> !Takes(pki, domain, w, id, faults))
      && CreateRow !in faults && PrepareIssue !in faults && MarkPublishing !in faults && input.issued
      && Makes(domain, w, input) && Delivers(pki, domain, w, input, w.gens.next, faults)
  {
    hide Execute, Recover, IssueRow, Halts, OnlyFails, GivenUp, G.Valid, Sound, Takes, Delivers, Makes;
    var p := Path(w, [w]);
    var at, q := RecoveryIs(pki, domain, p, input, input.listing, faults);
    OnlyFailsKeeps(w.gens, q.world.gens, GivenUp(w.gens, input.listing, at, faults), domain);
    if Halts(pki, domain, w, input, faults) {
      HaltedRun(pki, domain, w, input, faults);
    } else {
      RunUnlessHalted(pki, domain, w, input, faults);
      if at == |input.listing| {
        IssueRowPublishesIff(pki, domain, q, input, faults);
        SameMaking(pki, domain, w, q.world, GivenUp(w.gens, input.listing, at, faults), input, faults);
      }
    }
  }

  lemma SameMaking(pki: Pki, domain: string, w: World, v: World, ids: set<nat>, input: Input, faults: set<Fault>)
    requires G.Valid(w.gens) && OnlyFails(w.gens, v.gens, ids) && v.tree == w.tree && v.jobs == w.jobs
    ensures Makes(domain, v, input) <==> Makes(domain, w, input)
    ensures Delivers(pki, domain, v, input, v.gens.next, faults) <==>
      Delivers(pki, domain, w, input, w.gens.next, faults)
  {
    hide Runs.Publish, Fits, G.Valid, NumbersFree;
    OnlyFailsKeeps(w.gens, v.gens, ids, domain);
  }

  // ---- the row that a run makes ----

  /** The row, if it is there, is the one made for this run. */
  predicate MadeFor(t: G.Table, id: nat, input: Input, domain: string, number: int) {
    id in t.rows && t.rows[id].job == input.job && t.rows[id].domain == domain && t.rows[id].generation == number
  }

  /** The row is marked failed, unless that update fails too. */
  predicate MarkedFailed(t: G.Table, id: nat, faults: set<Fault>)
    requires id in t.rows
  {
    MarkFailed(id) in faults || (t.rows[id].status == G.Failed && t.rows[id].ref == "" && !t.rows[id].current)
  }

  lemma FailureMarks(p: Path, input: Input, id: nat, domain: string, number: int, faults: set<Fault>)
    requires MadeFor(p.world.gens, id, input, domain, number)
    ensures var t := FinishFailure(p, input, Some(id), faults).world.gens;
      MadeFor(t, id, input, domain, number) && MarkedFailed(t, id, faults)
  {
    FailRowOnlyFails(p, id, faults);
  }

  lemma FinalizeKeepsMade(p: Path, input: Input, id: nat, gen: Id, m: Manifest, domain: string, number: int,
                          faults: set<Fault>)
    requires MadeFor(p.world.gens, id, input, domain, number)
    ensures MadeFor(Finalize(p, input, id, gen, m, faults).0.world.gens, id, input, domain, number)
  {
    SetStatusEffect(p.world.gens, id, G.Issued, Ref(gen));
    SetArtifactEffect(G.SetStatus(p.world.gens, id, G.Issued, Ref(gen)).0, id, ArtifactOf(input, m));
    hide G.SetStatus, G.SetArtifact, ArtifactOf, HexDigest;
  }

  lemma PublishRowLeaves(pki: Pki, domain: string, p: Path, input: Input, id: nat, number: int, faults: set<Fault>)
    requires MadeFor(p.world.gens, id, input, domain, number) && input.job in p.world.jobs
    ensures var (q, outcome) := PublishRow(pki, domain, p, input, id, faults);
      && MadeFor(q.world.gens, id, input, domain, number)
      && (outcome == Errored && SetJob !in faults ==> MarkedFailed(q.world.gens, id, faults))
  {
    hide Runs.Publish, Finalize, FinishFailure, ReadByName, AfterPublish, MadeFor, MarkedFailed;
    var out := Runs.Publish(pki, domain, p.world.tree, input.publish, input.steps);
    var q := AfterPublish(p, out.disk);
    AfterPublishIs(p, out.disk);
    FailureMarks(q, input, id, domain, number, faults);
    var published := ReadByName(pki, domain, q.world.tree, out.gen);
    if published.Reading? {
      var m := published.loaded.manifest;
      FinalizeKeepsMade(q, input, id, out.gen, m, domain, number, faults);
      FinalizeKeepsJobs(q, input, id, out.gen, m, faults);
      FailureMarks(Finalize(q, input, id, out.gen, m, faults).0, input, id, domain, number, faults);
    }
  }

  /** What issuing leaves in the generations table: nothing if no row can be made; otherwise the new row, which is
      marked failed whenever the run reports an error and the database can still be written. */
  lemma IssueRowLeaves(pki: Pki, domain: string, p: Path, input: Input, faults: set<Fault>)
    requires G.Valid(p.world.gens)
    ensures var (q, outcome) := IssueRow(pki, domain, p, input, faults);
      var (n, made) := (p.world.gens.next, CreateRow !in faults && Makes(domain, p.world, input));
      && (!made ==> outcome == Errored && q.world.gens == p.world.gens && q.world.tree == p.world.tree)
      && (made ==>
           && MadeFor(q.world.gens, n, input, domain, Top(p.world.gens, domain) + 1)
           && (outcome == Errored && SetJob !in faults ==> MarkedFailed(q.world.gens, n, faults)))
  {
    hide G.Create, G.SetStatus, PublishRow, G.Valid, MarkedFailed;
    var (t, number) := (p.world.gens, Top(p.world.gens, domain) + 1);
    var (s, id) := G.Create(t, Domains(p.world.jobs), NewRow(input, domain), Top(t, domain));
    NewRowIs(domain, p.world, input);
    if id.Some? {
      MarkedRowIs(domain, t, s, input);
      FailureMarks(SetGens(p, s), input, t.next, domain, number, faults);
      var marked := SetGens(SetGens(p, s), G.SetStatus(s, t.next, G.Publishing, "").0);
      PublishRowLeaves(pki, domain, marked, input, t.next, number, faults);
    }
  }

  // ---- what a crash can leave of a publish ----

  lemma AfterPublishSees(p: Path, disk: Runs.Io, s: Tree)
    requires s in disk.trace
    ensures p.world.(tree := s) in AfterPublish(p, disk).seen
  {
    var i :| 0 <= i < |disk.trace| && disk.trace[i] == s;
    assert AfterPublish(p, disk).seen[|p.seen| + i] == p.world.(tree := s);
  }

  lemma EndingsGrow(q: Path, input: Input, id: nat, gen: Id, m: Manifest, row: Option<nat>, status: J.Status,
                    faults: set<Fault>)
    ensures q.seen <= FinishFailure(q, input, row, faults).seen
    ensures q.seen <= Finalize(q, input, id, gen, m, faults).0.seen
    ensures q.seen <= SetJobStatus(q, input, status, faults).seen
  {
    hide G.SetStatus, G.SetArtifact, J.SetStatus, J.Retry;
  }

  /** Every tree that a publish passes through is one that a crash of the run can leave, with both tables as they were
      before it. */
  lemma PublishRowSees(pki: Pki, domain: string, p: Path, input: Input, id: nat, faults: set<Fault>, s: Tree)
    requires s in Runs.Publish(pki, domain, p.world.tree, input.publish, input.steps).disk.trace
    ensures p.world.(tree := s) in PublishRow(pki, domain, p, input, id, faults).0.seen
  {
    hide Runs.Publish, AfterPublish, Finalize, FinishFailure, SetJobStatus, ReadByName;
    var out := Runs.Publish(pki, domain, p.world.tree, input.publish, input.steps);
    var q := AfterPublish(p, out.disk);
    AfterPublishSees(p, out.disk, s);
    var published := ReadByName(pki, domain, q.world.tree, out.gen);
    var m := if published.Reading? then published.loaded.manifest else Manifest(out.gen, 0, "", {}, "", "", []);
    var final := Finalize(q, input, id, out.gen, m, faults).0;
    EndingsGrow(q, input, id, out.gen, m, Some(id), J.Succeeded, faults);
    EndingsGrow(final, input, id, out.gen, m, Some(id), J.Succeeded, faults);
  }
}
