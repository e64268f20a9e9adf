/** Rows are numbered by attempts and the certificate store by successes, but both numbers end up in one
    column with a unique index. As long as every attempt succeeds they agree; after the first failed
    issuance no attempt can ever record its generation again. No call fails in these runs. */
module ServiceDrift {
  import opened Common
  import opened FileTree
  import opened ServiceRuns
  import opened ServiceSafety
  import Runs = CertRuns
  import CertSafety
  import PublishSafety
  import G = Generations
  import J = Jobs

  // ---- what matters of the rows ----

  datatype Number = Number(generation: int, revision: int)

  function Numbers(t: G.Table, domain: string): map<nat, Number> {
    map id | id in t.rows && t.rows[id].domain == domain :: Number(t.rows[id].generation, t.rows[id].revision)
  }

  ghost predicate HasRevision(ns: map<nat, Number>, v: int) { exists id :: id in ns && ns[id].revision == v }

  /** The certificate store's next revision is the number of the next row, and no row is ahead of it. */
  ghost predicate Level(pki: Pki, domain: string, w: World) {
    && Unfinished(w.gens, domain) == {}
    && Runs.NextRevision(pki, domain, w.tree) == Some(Top(w.gens, domain) + 1)
    && (forall id :: id in Numbers(w.gens, domain) ==> Numbers(w.gens, domain)[id].revision <= Top(w.gens, domain))
  }

  /** Every revision the store can hand out next is already taken, up to the last row. */
  ghost predicate Drifted(pki: Pki, domain: string, w: World) {
    && Unfinished(w.gens, domain) == {}
    && Top(w.gens, domain) >= 0
    && (Runs.NextRevision(pki, domain, w.tree).Some? ==>
        && Runs.NextRevision(pki, domain, w.tree).value <= Top(w.gens, domain)
        && Covers(Numbers(w.gens, domain), Runs.NextRevision(pki, domain, w.tree).value, Top(w.gens, domain)))
  }

  ghost predicate Covers(ns: map<nat, Number>, from: int, to: int) {
    forall v :: from <= v <= to ==> HasRevision(ns, v)
  }

  // ---- runs in which nothing but the issuer may fail ----

  ghost predicate Clean(pki: Pki, domain: string, w: World, input: Input) {
    Ready(pki, domain, w, input) && Lists(w.gens, domain, input.listing)
  }

  ghost predicate Ready(pki: Pki, domain: string, w: World, input: Input) {
    FilesFit(pki, domain, w.tree, input) && JobFits(domain, w.jobs, input)
  }

  predicate JobFits(domain: string, jobs: J.Table, input: Input) {
    input.job != "" && domain != "" && input.job in jobs && jobs[input.job].domain == domain
  }

  /** No file operation fails, and what the issuer stages, if it succeeds, can be published. */
  ghost predicate FilesFit(pki: Pki, domain: string, t: Tree, input: Input) {
    && input.steps == {}
    && (input.issued ==> PublishSafety.Publishable(pki, domain, t, input.publish))
    && (forall m: Manifest :: G.ValidDigest(input.digest(m)))
    && (forall data :: pki.leaf(data).Some? ==> G.ValidDigest(pki.leaf(data).value.fingerprint))
  }

  /** The run gets as far as creating a row. */
  ghost predicate Attempts(pki: Pki, domain: string, w: World, input: Input) {
    var current := ReadCurrent(pki, domain, w.tree);
    && !current.Refused?
    && (current.Reading? ==>
         input.notDue(current.loaded).Some? && (input.forced || !input.notDue(current.loaded).value))
  }

  // ---- how the numbers change ----

  lemma TopBounds(t: G.Table, domain: string)
    ensures forall id :: id in Numbers(t, domain) ==> Numbers(t, domain)[id].generation <= Top(t, domain)
    ensures Numbers(t, domain) != map[] ==>
      exists id :: id in Numbers(t, domain) && Numbers(t, domain)[id].generation == Top(t, domain)
    ensures Numbers(t, domain) == map[] ==> Top(t, domain) == 0
  {
    var gs := set a | a in t.rows && t.rows[a].domain == domain :: t.rows[a].generation;
    forall id | id in Numbers(t, domain) ensures Numbers(t, domain)[id].generation <= Top(t, domain) {
      assert t.rows[id].generation in gs;
    }
    if Numbers(t, domain) != map[] {
      var id :| id in Numbers(t, domain);
      assert t.rows[id].generation in gs;
      var top :| top in t.rows && t.rows[top].domain == domain && t.rows[top].generation == Runs.SetMax(gs);
      assert top in Numbers(t, domain);
    } else {
      assert forall a :: a in t.rows ==> a !in Numbers(t, domain);
      assert gs == {};
    }
  }

  lemma SameNumbersSameTop(t: G.Table, s: G.Table, domain: string)
    requires Numbers(t, domain) == Numbers(s, domain)
    ensures Top(t, domain) == Top(s, domain)
  {
    TopBounds(t, domain);
    TopBounds(s, domain);
  }

  lemma StatusKeepsNumbers(t: G.Table, domain: string, id: nat, status: G.Status, ref: string)
    ensures Numbers(G.SetStatus(t, id, status, ref).0, domain) == Numbers(t, domain)
  {
  }

  /** A new row is accepted exactly if no row has the next number as revision. */
  lemma NewRowAccepted(t: G.Table, domain: string, jobs: map<string, string>, input: Input)
    requires domain != "" && input.job != "" && input.job in jobs && jobs[input.job] == domain
    requires G.Valid(t) && Top(t, domain) >= 0
    ensures G.Create(t, jobs, NewRow(input, domain), Top(t, domain)).1.Some? <==>
      !HasRevision(Numbers(t, domain), Top(t, domain) + 1)
  {
    var top := Top(t, domain);
    TopBounds(t, domain);
    forall a | a in t.rows && t.rows[a].domain == domain
      ensures t.rows[a].generation <= top && Numbers(t, domain)[a] == Number(t.rows[a].generation, t.rows[a].revision)
    { assert a in Numbers(t, domain); }
  }

  /** An accepted row takes the next number, twice. */
  lemma NewRowNumbers(t: G.Table, domain: string, jobs: map<string, string>, input: Input)
    requires G.Valid(t) && Top(t, domain) >= 0 && G.Create(t, jobs, NewRow(input, domain), Top(t, domain)).1.Some?
    ensures var (s, id) := G.Create(t, jobs, NewRow(input, domain), Top(t, domain));
      && id == Some(t.next) && t.next !in Numbers(t, domain) && t.next in s.rows && s.rows[t.next].domain == domain
      && Numbers(s, domain) == Numbers(t, domain)[t.next := Number(Top(t, domain) + 1, Top(t, domain) + 1)]
      && Unfinished(s, domain) == Unfinished(t, domain)
  {
  }

  // ---- how the next revision changes ----

  lemma SetMaxIs(s: set<int>, m: int)
    requires m in s && forall x :: x in s ==> x <= m
    ensures Runs.SetMax(s) == m
  {
  }

  /** NextRevision in terms of the verdicts on the two directories. */
  lemma NextFromVerdicts(pki: Pki, domain: string, t: Tree)
    ensures var (rs, ls) := (Runs.Verdicts(pki, domain, t.releases), Runs.Verdicts(pki, domain, t.legacy));
      Runs.NextRevision(pki, domain, t) ==
        if Runs.SomeUnreadable(rs) || Runs.SomeUnreadable(ls) then None
        else
          var top := Runs.SetMax(Runs.RevisionsIn(rs) + Runs.RevisionsIn(ls) + {0});
          if top == MAX_REVISION then None else Some(top + 1)
  {
  }

  lemma VerdictsExtend(pki: Pki, domain: string, slots: map<Id, Slot>, gen: Id, slot: Slot)
    ensures Runs.Verdicts(pki, domain, slots[gen := slot]) == Runs.Verdicts(pki, domain,
      slots)[gen := Runs.Judge(pki, domain, gen, slot)]
    ensures gen !in slots ==> gen !in Runs.Verdicts(pki, domain, slots)
  {
  }

  /** A readable release with the next revision moves the next revision up by one. */
  lemma NextRevisionSteps(pki: Pki, domain: string, t: Tree, s: Tree, gen: Id)
    requires Runs.NextRevision(pki, domain, t).Some?
    requires gen !in t.releases && gen in s.releases && s.legacy == t.legacy
      && s.releases == t.releases[gen := s.releases[gen]]
    requires Runs.Judge(pki, domain, gen, s.releases[gen]) == Runs.At(Runs.NextRevision(pki, domain, t).value)
    ensures var r := Runs.NextRevision(pki, domain, t).value;
      Runs.NextRevision(pki, domain, s) == if r == MAX_REVISION then None else Some(r + 1)
  {
    hide *;
    var r := Runs.NextRevision(pki, domain, t).value;
    var before, legacy := Runs.Verdicts(pki, domain, t.releases), Runs.Verdicts(pki, domain, t.legacy);
    NextFromVerdicts(pki, domain, t);
    NextFromVerdicts(pki, domain, s);
    VerdictsExtend(pki, domain, t.releases, gen, s.releases[gen]);
    VerdictAdds(before, gen, r);
    var stored := Runs.RevisionsIn(before) + Runs.RevisionsIn(legacy) + {0};
    assert Runs.RevisionsIn(before[gen := Runs.At(r)]) + Runs.RevisionsIn(legacy) + {0} == stored + {r};
    SetMaxIs(stored + {r}, r);
  }

  lemma VerdictAdds(vs: map<Id, Runs.Verdict>, gen: Id, r: int)
    requires gen !in vs
    ensures Runs.RevisionsIn(vs[gen := Runs.At(r)]) == Runs.RevisionsIn(vs) + {r}
    ensures Runs.SomeUnreadable(vs[gen := Runs.At(r)]) == Runs.SomeUnreadable(vs)
  {
    var ws := vs[gen := Runs.At(r)];
    assert gen in ws && ws[gen].At? && ws[gen].revision == r;
    forall x | x in Runs.RevisionsIn(vs) ensures x in Runs.RevisionsIn(ws) {
      var id :| id in vs && vs[id].At? && vs[id].revision == x;
      assert id in ws && ws[id].At? && ws[id].revision == x;
    }
    if Runs.SomeUnreadable(vs) {
      var id :| id in vs && vs[id].Unreadable?;
      assert id in ws && ws[id].Unreadable?;
    }
  }

  lemma PublishedJudgement(pki: Pki, domain: string, t: Tree, gen: Id)
    requires Sound(pki, domain, t) && t.current == Link(gen) && gen in t.releases
      && ReadCurrent(pki, domain, t).Reading?
    ensures Runs.Judge(pki, domain, gen,
      t.releases[gen]) == Runs.At(ReadCurrent(pki, domain, t).loaded.manifest.revision)
  {
  }

  lemma PublishSteps(pki: Pki, domain: string, t: Tree, input: Runs.PublishInput)
    requires Sound(pki, domain, t) && PublishSafety.Publishable(pki, domain, t, input)
    ensures var out := Runs.Publish(pki, domain, t, input, {});
      && out.disk.ok && Runs.NextRevision(pki, domain, t).Some?
      && var r := Runs.NextRevision(pki, domain, t).value;
         && Runs.NextRevision(pki, domain, out.disk.tree) == (if r == MAX_REVISION then None else Some(r + 1))
         && ReadCurrent(pki, domain, out.disk.tree).Reading?
         && ReadCurrent(pki, domain, out.disk.tree).loaded.manifest.revision == r
  {
    PublishWorks(pki, domain, t, input);
    hide *;
    PublishSafety.PublishDelivers(pki, domain, t, input, {});
    var out := Runs.Publish(pki, domain, t, input, {});
    PublishedJudgement(pki, domain, out.disk.tree, out.gen);
    NextRevisionSteps(pki, domain, t, out.disk.tree, out.gen);
  }

  lemma PublishWorks(pki: Pki, domain: string, t: Tree, input: Runs.PublishInput)
    requires Sound(pki, domain, t) && PublishSafety.Publishable(pki, domain, t, input)
    ensures var out := Runs.Publish(pki, domain, t, input, {}); out.disk.ok && Sound(pki, domain, out.disk.tree)
  {
    PublishSafety.PublishSucceedsIff(pki, domain, t, input, {});
    PublishSafety.PublishIsSafe(pki, domain, t, input, {});
  }

  // ---- one run ----

  lemma {:induction false} RecoverNothing(pki: Pki, domain: string, p: Path, input: Input, rows: seq<nat>)
    requires Unfinished(p.world.gens, domain) == {}
    requires forall id :: id in rows ==> id in p.world.gens.rows && p.world.gens.rows[id].domain == domain
    ensures Recover(pki, domain, p, input, rows, {}) == (p, NothingLeft)
  {
    if rows != [] {
      assert rows == [rows[0]] + rows[1..];
      assert rows[0] !in Unfinished(p.world.gens, domain);
      RecoverNothing(pki, domain, p, input, rows[1..]);
    }
  }

  lemma CleanRunIssues(pki: Pki, domain: string, w: World, input: Input)
    requires Clean(pki, domain, w, input) && Unfinished(w.gens, domain) == {}
    ensures var (p, outcome) := Execute(pki, domain, w, input, {});
      if Attempts(pki, domain, w, input) then (p, outcome) == IssueRow(pki, domain, Path(w, [w]), input, {})
      else outcome in {NotDue, Errored} && p.world.gens == w.gens && p.world.tree == w.tree
  {
    RecoverNothing(pki, domain, Path(w, [w]), input, input.listing);
  }

  /** The row that a run creates, if the indexes let it in. */
  ghost function Made(domain: string, w: World, input: Input): (G.Table, Option<nat>) {
    G.Create(w.gens, Domains(w.jobs), NewRow(input, domain), Top(w.gens, domain))
  }

  ghost function Extended(domain: string, w: World): map<nat, Number> {
    Numbers(w.gens, domain)[w.gens.next := Number(Top(w.gens, domain) + 1, Top(w.gens, domain) + 1)]
  }

  lemma MadeNumbers(domain: string, w: World, input: Input)
    requires G.Valid(w.gens) && JobFits(domain, w.jobs, input) && Top(w.gens, domain) >= 0
    ensures var (s, id) := Made(domain, w, input);
      && (id.Some? <==> !HasRevision(Numbers(w.gens, domain), Top(w.gens, domain) + 1))
      && (id.Some? ==>
          && id.value == w.gens.next && w.gens.next !in Numbers(w.gens, domain) && w.gens.next in s.rows
          && s.rows[w.gens.next].domain == domain
          && Numbers(s, domain) == Extended(domain, w) && Unfinished(s, domain) == Unfinished(w.gens, domain)
          && G.Valid(s))
  {
    hide G.Valid, G.Create, Numbers, HasRevision, Unfinished;
    NewRowAccepted(w.gens, domain, Domains(w.jobs), input);
    if Made(domain, w, input).1.Some? { NewRowNumbers(w.gens, domain, Domains(w.jobs), input); }
    G.CreateKeepsValid(w.gens, Domains(w.jobs), NewRow(input, domain), Top(w.gens, domain));
  }

  /** What a run that could not record its generation leaves of the rows. */
  lemma FailureLeaves(p: Path, domain: string, input: Input, id: nat)
    requires id in p.world.gens.rows && Unfinished(p.world.gens, domain) <= {id}
    ensures var q := FinishFailure(p, input, Some(id), {});
      && q.world.tree == p.world.tree
      && Numbers(q.world.gens, domain) == Numbers(p.world.gens, domain) && Unfinished(q.world.gens, domain) == {}
  {
    StatusKeepsNumbers(p.world.gens, domain, id, G.Failed, "");
    StatusFinishes(p.world.gens, domain, id, G.Failed, "");
  }

  lemma FailedIssue(pki: Pki, domain: string, w: World, input: Input)
    requires G.Valid(w.gens) && JobFits(domain, w.jobs, input) && Unfinished(w.gens, domain) == {}
      && Top(w.gens, domain) >= 0
    requires !input.issued || Made(domain, w, input).1.None?
    ensures var (p, outcome) := IssueRow(pki, domain, Path(w, [w]), input, {});
      && outcome == Errored && p.world.tree == w.tree && Unfinished(p.world.gens, domain) == {}
      && Numbers(p.world.gens, domain) == (if Made(domain, w, input).1.Some? then Extended(domain, w)
           else Numbers(w.gens, domain))
  {
    MadeNumbers(domain, w, input);
    var (s, id) := Made(domain, w, input);
    if id.Some? { FailureLeaves(SetGens(Path(w, [w]), s), domain, input, id.value); }
  }

  lemma ArtifactNumbers(t: G.Table, domain: string, id: nat, a: G.Artifact)
    requires id in t.rows && t.rows[id].domain == domain
    ensures var (s, ok) := G.SetArtifact(t, id, a);
      Numbers(s, domain) == if ok then Numbers(t, domain)[id := Number(t.rows[id].generation, a.revision)]
        else Numbers(t, domain)
  {
  }

  lemma FinalizeNumbers(p: Path, domain: string, input: Input, id: nat, gen: Id, m: Manifest)
    requires id in p.world.gens.rows && p.world.gens.rows[id].domain == domain
    ensures var ((q, ok), t) := (Finalize(p, input, id, gen, m, {}), p.world.gens);
      && id in q.world.gens.rows && q.world.gens.rows[id].domain == domain && q.world.jobs == p.world.jobs
      && q.world.tree == p.world.tree
      && Numbers(q.world.gens, domain) == (if ok
           then Numbers(t, domain)[id := Number(t.rows[id].generation, Int64(m.revision))] else Numbers(t, domain))
      && Unfinished(q.world.gens, domain) == Unfinished(t, domain) - {id}
  {
    var gens := G.SetStatus(p.world.gens, id, G.Issued, Ref(gen)).0;
    StatusKeepsNumbers(p.world.gens, domain, id, G.Issued, Ref(gen));
    StatusFinishes(p.world.gens, domain, id, G.Issued, Ref(gen));
    ArtifactKeepsUnfinished(gens, domain, id, ArtifactOf(input, m));
    ArtifactNumbers(gens, domain, id, ArtifactOf(input, m));
  }

  lemma ReadingHasLeaf(pki: Pki, domain: string, t: Tree)
    requires ReadCurrent(pki, domain, t).Reading?
    ensures var l := ReadCurrent(pki, domain, t).loaded;
      Cert in l.files && pki.leaf(l.files[Cert]).Some?
        && pki.leaf(l.files[Cert]).value.fingerprint == l.manifest.fingerprint
  {
  }

  /** The end of a run in which every call goes through: record the generation, then settle the job. */
  ghost function Record(q: Path, input: Input, id: nat, gen: Id, m: Manifest): (Path, Outcome) {
    var (final, ok) := Finalize(q, input, id, gen, m, {});
    if !ok then (FinishFailure(final, input, Some(id), {}), Errored)
    else if input.job !in final.world.jobs then (final, Errored)
    else (SetJobStatus(final, input, J.Succeeded, {}), Published)
  }

  lemma RecordResult(q: Path, domain: string, input: Input, id: nat, gen: Id, m: Manifest)
    requires G.Valid(q.world.gens) && id in q.world.gens.rows && q.world.gens.rows[id].domain == domain
    requires Unfinished(q.world.gens, domain) <= {id} && input.job in q.world.jobs
    requires G.ValidDigest(input.digest(m)) && G.ValidDigest(m.fingerprint) && 0 < m.revision <= MAX_REVISION
    ensures var ((final, outcome), t) := (Record(q, input, id, gen, m), q.world.gens);
      && (outcome == Published <==> m.revision < INT64_LIMIT && G.RevisionFree(t, id, m.revision))
      && (outcome == Published || outcome == Errored)
      && final.world.tree == q.world.tree && Unfinished(final.world.gens, domain) == {}
      && Numbers(final.world.gens, domain) ==
           if outcome == Published then Numbers(t, domain)[id := Number(t.rows[id].generation, m.revision)]
             else Numbers(t, domain)
  {
    FinalizeSucceedsIff(q, input, id, gen, m, {});
    FinalizeNumbers(q, domain, input, id, gen, m);
    var (final, ok) := Finalize(q, input, id, gen, m, {});
    if !ok { FailureLeaves(final, domain, input, id); }
  }

  lemma CleanPublishRecords(pki: Pki, domain: string, p: Path, input: Input, id: nat) returns (q: Path, gen: Id,
                            m: Manifest)
    requires Sound(pki, domain, p.world.tree) && FilesFit(pki, domain, p.world.tree, input) && input.issued
    ensures Runs.NextRevision(pki, domain, p.world.tree) == Some(m.revision) && 0 < m.revision <= MAX_REVISION
    ensures G.ValidDigest(m.fingerprint) && q.world == p.world.(tree := q.world.tree)
    ensures Runs.NextRevision(pki, domain, q.world.tree) == if m.revision == MAX_REVISION then None
      else Some(m.revision + 1)
    ensures PublishRow(pki, domain, p, input, id, {}) == Record(q, input, id, gen, m)
  {
    var out := Runs.Publish(pki, domain, p.world.tree, input.publish, {});
    CleanPublishUnfolds(pki, domain, p, input, id);
    LeavesFit(pki, domain, p.world.tree, input);
    assert AfterPublish(p, out.disk).world == p.world.(tree := out.disk.tree);
    hide *;
    PublishSteps(pki, domain, p.world.tree, input.publish);
    PublishedReads(pki, domain, p.world.tree, input.publish, {});
    q := AfterPublish(p, out.disk);
    gen := out.gen;
    m := ReadCurrent(pki, domain, q.world.tree).loaded.manifest;
    ReadingHasLeaf(pki, domain, q.world.tree);
    NextIsPositive(pki, domain, p.world.tree);
  }

  lemma CleanPublishUnfolds(pki: Pki, domain: string, p: Path, input: Input, id: nat)
    requires FilesFit(pki, domain, p.world.tree, input)
    ensures var out := Runs.Publish(pki, domain, p.world.tree, input.publish, {});
      var (q, published) := (AfterPublish(p, out.disk), ReadByName(pki, domain, out.disk.tree, out.gen));
      out.disk.ok && published.Reading? ==>
        PublishRow(pki, domain, p, input, id, {}) == Record(q, input, id, out.gen, published.loaded.manifest)
  {
  }

  lemma LeavesFit(pki: Pki, domain: string, t: Tree, input: Input)
    requires FilesFit(pki, domain, t, input)
    ensures input.issued ==> PublishSafety.Publishable(pki, domain, t, input.publish)
    ensures forall data :: pki.leaf(data).Some? ==> G.ValidDigest(pki.leaf(data).value.fingerprint)
  {
  }

  lemma NextIsPositive(pki: Pki, domain: string, t: Tree)
    requires Runs.NextRevision(pki, domain, t).Some?
    ensures 0 < Runs.NextRevision(pki, domain, t).value <= MAX_REVISION
  {
    CertSafety.NextRevisionExceeds(pki, domain, t, Name(""));
  }

  lemma FreeIsUnused(t: G.Table, domain: string, id: nat, r: int)
    requires id in t.rows && t.rows[id].domain == domain
    ensures G.RevisionFree(t, id, r) <==> !HasRevision(Numbers(t, domain) - {id}, r)
  {
    forall a | a in t.rows && a != id && t.rows[a].domain == domain ensures a in Numbers(t, domain) - {id} {}
  }

  /** The new row, marked publishing. */
  lemma MarkedNumbers(t: G.Table, domain: string, id: nat, ns: map<nat, Number>, n: int)
    requires id in t.rows && t.rows[id].domain == domain && Unfinished(t, domain) == {} && G.Valid(t)
    requires id !in ns && Numbers(t, domain) == ns[id := Number(n, n)]
    ensures var s := G.SetStatus(t, id, G.Publishing, "").0;
      && id in s.rows && s.rows[id].domain == domain && s.rows[id].generation == n
      && Numbers(s, domain) == Numbers(t, domain) && Unfinished(s, domain) == {id} && G.Valid(s)
  {
    var s := G.SetStatus(t, id, G.Publishing, "").0;
    StatusKeepsNumbers(t, domain, id, G.Publishing, "");
    G.SetStatusKeepsValid(t, id, G.Publishing, "");
    assert Numbers(s, domain)[id] == Number(n, n);
  }

  /** The world in which a run publishes: its row exists and is marked publishing. */
  ghost function Intended(domain: string, w: World, input: Input): Path
    requires Made(domain, w, input).1.Some?
  {
    var (s, id) := Made(domain, w, input);
    SetGens(SetGens(Path(w, [w]), s), G.SetStatus(s, id.value, G.Publishing, "").0)
  }

  lemma IssueRowPublishes(pki: Pki, domain: string, w: World, input: Input)
    requires input.issued && Made(domain, w, input).1.Some?
    ensures IssueRow(pki, domain, Path(w, [w]), input, {}) ==
      PublishRow(pki, domain, Intended(domain, w, input), input, Made(domain, w, input).1.value, {})
  {
  }

  /** A row numbered `n` twice, marked publishing, beside the rows `ns`. */
  ghost predicate Marked(domain: string, t: G.Table, id: nat, ns: map<nat, Number>, n: int) {
    && id in t.rows && t.rows[id].domain == domain && t.rows[id].generation == n && id !in ns
    && Numbers(t, domain) == ns[id := Number(n, n)] && Unfinished(t, domain) == {id} && G.Valid(t)
  }

  lemma IntendedIsMarked(domain: string, w: World, input: Input)
    requires G.Valid(w.gens) && JobFits(domain, w.jobs, input) && Unfinished(w.gens, domain) == {}
      && Top(w.gens, domain) >= 0
    requires Made(domain, w, input).1.Some?
    ensures var (v, id) := (Intended(domain, w, input).world, w.gens.next);
      && Made(domain, w, input).1 == Some(id)
      && v == w.(gens := v.gens) && Marked(domain, v.gens, id, Numbers(w.gens, domain), Top(w.gens, domain) + 1)
  {
    var s := Made(domain, w, input).0;
    MadeNumbers(domain, w, input);
    MarkedNumbers(s, domain, w.gens.next, Numbers(w.gens, domain), Top(w.gens, domain) + 1);
  }

  /** A run whose issuer succeeds and whose row is accepted publishes and then records. */
  lemma IssuedRowPublishes(pki: Pki, domain: string, w: World, input: Input) returns (q: Path, gen: Id, m: Manifest)
    requires Sound(pki, domain, w.tree) && FilesFit(pki, domain, w.tree, input)
    requires input.issued && Made(domain, w, input).1.Some?
    ensures Runs.NextRevision(pki, domain, w.tree) == Some(m.revision) && 0 < m.revision <= MAX_REVISION
      && G.ValidDigest(m.fingerprint)
    ensures G.ValidDigest(input.digest(m))
    ensures q.world == Intended(domain, w, input).world.(tree := q.world.tree)
    ensures Runs.NextRevision(pki, domain, q.world.tree) == if m.revision == MAX_REVISION then None
      else Some(m.revision + 1)
    ensures IssueRow(pki, domain, Path(w, [w]), input, {}) == Record(q, input, Made(domain, w, input).1.value, gen, m)
  {
    q, gen, m := CleanPublishRecords(pki, domain, Intended(domain, w, input), input, Made(domain, w, input).1.value);
    IssueRowPublishes(pki, domain, w, input);
  }

  lemma IssuedRowRecords(pki: Pki, domain: string, w: World, input: Input) returns (q: Path, gen: Id, m: Manifest)
    requires Good(pki, domain, w) && Ready(pki, domain, w, input) && Unfinished(w.gens, domain) == {}
      && Top(w.gens, domain) >= 0
    requires input.issued && Made(domain, w, input).1.Some?
    ensures Runs.NextRevision(pki, domain, w.tree) == Some(m.revision)
    ensures Recordable(domain, q, input, w.gens.next, m, Numbers(w.gens, domain), Top(w.gens, domain) + 1)
    ensures Runs.NextRevision(pki, domain, q.world.tree) == if m.revision == MAX_REVISION then None
      else Some(m.revision + 1)
    ensures IssueRow(pki, domain, Path(w, [w]), input, {}) == Record(q, input, w.gens.next, gen, m)
  {
    IntendedIsMarked(domain, w, input);
    q, gen, m := IssuedRowPublishes(pki, domain, w, input);
  }

  ghost predicate Recordable(domain: string, q: Path, input: Input, id: nat, m: Manifest, ns: map<nat, Number>,
                             n: int) {
    && Marked(domain, q.world.gens, id, ns, n) && input.job in q.world.jobs
    && G.ValidDigest(input.digest(m)) && G.ValidDigest(m.fingerprint) && 0 < m.revision <= MAX_REVISION
  }

  lemma MarkedFree(domain: string, t: G.Table, id: nat, ns: map<nat, Number>, n: int, r: int)
    requires Marked(domain, t, id, ns, n)
    ensures G.RevisionFree(t, id, r) <==> !HasRevision(ns, r)
  {
    FreeIsUnused(t, domain, id, r);
    assert Numbers(t, domain) - {id} == ns;
  }

  lemma Overwrite(ns: map<nat, Number>, id: nat, a: Number, b: Number)
    ensures ns[id := a][id := b] == ns[id := b]
  {
  }

  /** Recording in a marked row works exactly if the revision fits the column and no other row has it. */
  lemma RecordMarked(q: Path, domain: string, input: Input, id: nat, gen: Id, m: Manifest, ns: map<nat, Number>, n: int)
    requires Recordable(domain, q, input, id, m, ns, n)
    ensures var (final, outcome) := Record(q, input, id, gen, m);
      && outcome == (if m.revision < INT64_LIMIT && !HasRevision(ns, m.revision) then Published else Errored)
      && final.world.tree == q.world.tree && Unfinished(final.world.gens, domain) == {}
      && Numbers(final.world.gens, domain) == ns[id := Number(n, if outcome == Published then m.revision else n)]
  {
    RecordResult(q, domain, input, id, gen, m);
    MarkedFree(domain, q.world.gens, id, ns, n, m.revision);
    Overwrite(ns, id, Number(n, n), Number(n, m.revision));
  }

  // ---- the theorems ----

  /** Numbers after a run that added row `id`, numbered `n`. */
  lemma AddedTop(t: G.Table, s: G.Table, domain: string, id: nat, v: int)
    requires id !in Numbers(t, domain) && Numbers(s, domain) == Numbers(t, domain)[id := Number(Top(t, domain) + 1, v)]
    ensures Top(s, domain) == Top(t, domain) + 1
  {
    TopBounds(t, domain);
    TopBounds(s, domain);
    assert id in Numbers(s, domain);
  }

  lemma AddedCovers(ns: map<nat, Number>, id: nat, from: int, n: int)
    requires id !in ns && Covers(ns, from, n - 1)
    ensures Covers(ns[id := Number(n, n)], from, n)
  {
    var ms := ns[id := Number(n, n)];
    forall v | from <= v <= n ensures HasRevision(ms, v) {
      if v == n {
        assert id in ms && ms[id].revision == n;
      } else {
        assert HasRevision(ns, v);
        var a :| a in ns && ns[a].revision == v;
        assert a in ms && ms[a].revision == v;
      }
    }
  }

  /** What a run leaves whose row is accepted and whose issuer succeeds. */
  lemma IssuedRow(pki: Pki, domain: string, w: World, input: Input) returns (q: World, outcome: Outcome)
    requires Good(pki, domain, w) && Ready(pki, domain, w, input) && Unfinished(w.gens, domain) == {}
      && Top(w.gens, domain) >= 0
    requires input.issued && Made(domain, w, input).1.Some?
    ensures var run := IssueRow(pki, domain, Path(w, [w]), input, {}); q == run.0.world && outcome == run.1
    ensures Runs.NextRevision(pki, domain, w.tree).Some? && Unfinished(q.gens, domain) == {}
      && w.gens.next !in Numbers(w.gens, domain)
    ensures var (r, n, ns) := (Runs.NextRevision(pki, domain, w.tree).value, Top(w.gens, domain) + 1,
      Numbers(w.gens, domain));
      && outcome == (if r < INT64_LIMIT && !HasRevision(ns, r) then Published else Errored)
      && Runs.NextRevision(pki, domain, q.tree) == (if r == MAX_REVISION then None else Some(r + 1))
      && Numbers(q.gens, domain) == ns[w.gens.next := Number(n, if outcome == Published then r else n)]
  {
    hide *;
    var published, gen, m := IssuedRowRecords(pki, domain, w, input);
    var ns, n := Numbers(w.gens, domain), Top(w.gens, domain) + 1;
    q, outcome := Recorded(published, domain, input, w.gens.next, gen, m, ns, n);
  }

  lemma Recorded(p: Path, domain: string, input: Input, id: nat, gen: Id, m: Manifest, ns: map<nat, Number>,
                 n: int) returns (q: World, outcome: Outcome)
    requires Recordable(domain, p, input, id, m, ns, n)
    ensures q == Record(p, input, id, gen, m).0.world && outcome == Record(p, input, id, gen, m).1
    ensures outcome == (if m.revision < INT64_LIMIT && !HasRevision(ns, m.revision) then Published else Errored)
    ensures q.tree == p.world.tree && Unfinished(q.gens, domain) == {} && id !in ns
    ensures Numbers(q.gens, domain) == ns[id := Number(n, if outcome == Published then m.revision else n)]
  {
    RecordMarked(p, domain, input, id, gen, m, ns, n);
    q, outcome := Record(p, input, id, gen, m).0.world, Record(p, input, id, gen, m).1;
  }

  lemma LevelIsFree(pki: Pki, domain: string, w: World)
    requires Level(pki, domain, w)
    ensures Top(w.gens, domain) >= 0 && !HasRevision(Numbers(w.gens, domain), Top(w.gens, domain) + 1)
  {
    NextIsPositive(pki, domain, w.tree);
  }

  /** A new domain starts level. */
  lemma EmptyIsLevel(pki: Pki, domain: string, jobs: J.Table)
    ensures Level(pki, domain, World(Tree(Absent, map[], map[], map[]), G.Table(map[], 1), jobs))
  {
    var w := World(Tree(Absent, map[], map[], map[]), G.Table(map[], 1), jobs);
    TopBounds(w.gens, domain);
    assert Runs.Verdicts(pki, domain, map[]) == map[];
    SetMaxIs({0}, 0);
    assert Runs.Revisions(pki, domain, map[]) + Runs.Revisions(pki, domain, map[]) + {0} == {0};
  }

  lemma LevelMore(pki: Pki, domain: string, w: World, q: World)
    requires Level(pki, domain, w) && w.gens.next !in Numbers(w.gens, domain) && Unfinished(q.gens, domain) == {}
    requires Numbers(q.gens, domain) == Extended(domain, w)
    ensures Top(q.gens, domain) == Top(w.gens, domain) + 1
    ensures Runs.NextRevision(pki, domain, q.tree) == Some(Top(w.gens, domain) + 2) ==> Level(pki, domain, q)
    ensures q.tree == w.tree ==> Drifted(pki, domain, q)
  {
    LevelIsFree(pki, domain, w);
    AddedTop(w.gens, q.gens, domain, w.gens.next, Top(w.gens, domain) + 1);
    AddedCovers(Numbers(w.gens, domain), w.gens.next, Top(w.gens, domain) + 1, Top(w.gens, domain) + 1);
  }

  lemma LevelAttempt(pki: Pki, domain: string, w: World, input: Input)
    requires Good(pki, domain, w) && Ready(pki, domain, w, input) && Level(pki, domain, w)
      && Top(w.gens, domain) + 1 < INT64_LIMIT
    ensures var (p, outcome) := IssueRow(pki, domain, Path(w, [w]), input, {});
      && Top(p.world.gens, domain) == Top(w.gens, domain) + 1
      && if input.issued then outcome == Published && Level(pki, domain, p.world)
         else outcome == Errored && Drifted(pki, domain, p.world)
  {
    LevelIsFree(pki, domain, w);
    MadeNumbers(domain, w, input);
    if input.issued {
      var q, outcome := IssuedRow(pki, domain, w, input);
      LevelMore(pki, domain, w, q);
    } else {
      FailedIssue(pki, domain, w, input);
      LevelMore(pki, domain, w, IssueRow(pki, domain, Path(w, [w]), input, {}).0.world);
    }
  }

  /** While every issuance has succeeded the next one is recorded and the numbers stay level; the first
      failed issuance makes them drift. */
  lemma FirstFailureDrifts(pki: Pki, domain: string, w: World, input: Input)
    requires Good(pki, domain, w) && Clean(pki, domain, w, input) && Level(pki, domain, w)
    requires Attempts(pki, domain, w, input) && Top(w.gens, domain) + 1 < INT64_LIMIT
    ensures var (p, outcome) := Execute(pki, domain, w, input, {});
      && Top(p.world.gens, domain) == Top(w.gens, domain) + 1
      && if input.issued then outcome == Published && Level(pki, domain, p.world)
         else outcome == Errored && Drifted(pki, domain, p.world)
  {
    CleanRunIssues(pki, domain, w, input);
    LevelAttempt(pki, domain, w, input);
  }

  /** From then on no run records a generation, whether its issuer succeeds or not. */
  lemma DriftStays(pki: Pki, domain: string, w: World, input: Input)
    requires Good(pki, domain, w) && Clean(pki, domain, w, input) && Drifted(pki, domain, w)
    ensures var (p, outcome) := Execute(pki, domain, w, input, {});
      (outcome == NotDue || outcome == Errored) && Drifted(pki, domain, p.world)
  {
    CleanRunIssues(pki, domain, w, input);
    if Attempts(pki, domain, w, input) {
      DriftedAttempt(pki, domain, w, input);
    }
  }

  lemma DriftTakesNext(pki: Pki, domain: string, w: World)
    requires Drifted(pki, domain, w)
    ensures Unfinished(w.gens, domain) == {} && Top(w.gens, domain) >= 0
    ensures Runs.NextRevision(pki, domain, w.tree).Some? ==>
      HasRevision(Numbers(w.gens, domain), Runs.NextRevision(pki, domain, w.tree).value)
  {
  }

  lemma ExtendedIs(domain: string, w: World)
    ensures Extended(domain, w) == Numbers(w.gens,
      domain)[w.gens.next := Number(Top(w.gens, domain) + 1, Top(w.gens, domain) + 1)]
  {
  }

  lemma DriftedIssue(pki: Pki, domain: string, w: World, input: Input)
    requires Good(pki, domain, w) && Ready(pki, domain, w, input) && Drifted(pki, domain, w)
    requires input.issued && Made(domain, w, input).1.Some?
    ensures var (p, outcome) := IssueRow(pki, domain, Path(w, [w]), input, {});
      outcome == Errored && Drifted(pki, domain, p.world)
  {
    hide *;
    DriftTakesNext(pki, domain, w);
    ExtendedIs(domain, w);
    var q, outcome := IssuedRow(pki, domain, w, input);
    DriftedMore(pki, domain, w, q);
  }

  lemma DriftedFailure(pki: Pki, domain: string, w: World, input: Input)
    requires Good(pki, domain, w) && Ready(pki, domain, w, input) && Drifted(pki, domain, w)
    requires !input.issued || Made(domain, w, input).1.None?
    ensures var (p, outcome) := IssueRow(pki, domain, Path(w, [w]), input, {});
      outcome == Errored && Drifted(pki, domain, p.world)
  {
    GoodIsValid(pki, domain, w);
    ReadyFits(pki, domain, w, input);
    hide *;
    DriftTakesNext(pki, domain, w);
    FailedIssue(pki, domain, w, input);
    MadeNumbers(domain, w, input);
    var q := IssueRow(pki, domain, Path(w, [w]), input, {}).0.world;
    if Made(domain, w, input).1.Some? { DriftedMore(pki, domain, w, q); } else { DriftedSame(pki, domain, w, q); }
  }

  lemma GoodIsValid(pki: Pki, domain: string, w: World)
    requires Good(pki, domain, w)
    ensures G.Valid(w.gens) && Sound(pki, domain, w.tree)
  {
  }

  lemma ReadyFits(pki: Pki, domain: string, w: World, input: Input)
    requires Ready(pki, domain, w, input)
    ensures FilesFit(pki, domain, w.tree, input) && JobFits(domain, w.jobs, input)
  {
  }

  lemma DriftedSame(pki: Pki, domain: string, w: World, q: World)
    requires Drifted(pki, domain, w) && q.tree == w.tree && Unfinished(q.gens, domain) == {}
      && Numbers(q.gens, domain) == Numbers(w.gens, domain)
    ensures Drifted(pki, domain, q)
  {
    SameNumbersSameTop(w.gens, q.gens, domain);
  }

  lemma DriftedAttempt(pki: Pki, domain: string, w: World, input: Input)
    requires Good(pki, domain, w) && Ready(pki, domain, w, input) && Drifted(pki, domain, w)
    ensures var (p, outcome) := IssueRow(pki, domain, Path(w, [w]), input, {});
      outcome == Errored && Drifted(pki, domain, p.world)
  {
    hide *;
    if input.issued && Made(domain, w, input).1.Some? {
      DriftedIssue(pki, domain, w, input);
    } else {
      DriftedFailure(pki, domain, w, input);
    }
  }

  /** One more row with its own number, and at most one more revision: still drifted. */
  lemma DriftedMore(pki: Pki, domain: string, w: World, q: World)
    requires Drifted(pki, domain, w) && w.gens.next !in Numbers(w.gens, domain) && Unfinished(q.gens, domain) == {}
    requires Numbers(q.gens, domain) == Extended(domain, w)
    requires var (before, after) := (Runs.NextRevision(pki, domain, w.tree), Runs.NextRevision(pki, domain, q.tree));
      after.Some? ==> before.Some? && before.value <= after.value <= before.value + 1
    ensures Drifted(pki, domain, q)
  {
    AddedTop(w.gens, q.gens, domain, w.gens.next, Top(w.gens, domain) + 1);
    var after := Runs.NextRevision(pki, domain, q.tree);
    if after.Some? {
      AddedCovers(Numbers(w.gens, domain), w.gens.next, after.value, Top(w.gens, domain) + 1);
    }
  }

  /** Any sequence of clean runs. */
  ghost predicate CleanHistory(pki: Pki, domain: string, worlds: seq<World>, inputs: seq<Input>) {
    && |worlds| == |inputs| + 1
    && Good(pki, domain, worlds[0])
    && forall i :: 0 <= i < |inputs| ==>
        Clean(pki, domain, worlds[i], inputs[i])
          && worlds[i + 1] == Execute(pki, domain, worlds[i], inputs[i], {}).0.world
  }

  lemma CleanRunIsGood(pki: Pki, domain: string, w: World, input: Input)
    requires Good(pki, domain, w) && Clean(pki, domain, w, input)
    ensures Good(pki, domain, Execute(pki, domain, w, input, {}).0.world)
  {
    assert NothingBreaks(pki, domain, w.tree, input);
    hide *;
    EveryCrashIsGood(pki, domain, w, input, {});
    GoodEnd(pki, domain, Execute(pki, domain, w, input, {}).0);
  }

  lemma GoodEnd(pki: Pki, domain: string, p: Path)
    requires AllGood(pki, domain, p)
    ensures Good(pki, domain, p.world)
  {
  }

  /** Drift is permanent: in no later run of the history is a generation recorded. */
  lemma {:induction false} DriftIsPermanent(pki: Pki, domain: string, worlds: seq<World>, inputs: seq<Input>, k: nat)
    requires CleanHistory(pki, domain, worlds, inputs) && Drifted(pki, domain, worlds[0]) && k < |inputs|
    ensures Good(pki, domain, worlds[k]) && Drifted(pki, domain, worlds[k])
    ensures Execute(pki, domain, worlds[k], inputs[k], {}).1 in {NotDue, Errored}
  {
    if k > 0 {
      DriftIsPermanent(pki, domain, worlds, inputs, k - 1);
      CleanRunIsGood(pki, domain, worlds[k - 1], inputs[k - 1]);
      DriftStays(pki, domain, worlds[k - 1], inputs[k - 1]);
    }
    DriftStays(pki, domain, worlds[k], inputs[k]);
  }

  /** Every run before the `k`-th that attempted anything had a certificate issued. */
  ghost predicate AllIssued(pki: Pki, domain: string, worlds: seq<World>, inputs: seq<Input>, k: nat)
    requires k <= |inputs| <= |worlds|
  {
    forall i :: 0 <= i < k && Attempts(pki, domain, worlds[i], inputs[i]) ==> inputs[i].issued
  }

  lemma IdleRunKeeps(pki: Pki, domain: string, w: World, input: Input)
    requires Clean(pki, domain, w, input) && Unfinished(w.gens, domain) == {} && !Attempts(pki, domain, w, input)
    ensures var (p, outcome) := Execute(pki, domain, w, input, {});
      && outcome != Published && Top(p.world.gens, domain) == Top(w.gens, domain)
      && (Level(pki, domain, w) ==> Level(pki, domain, p.world))
  {
    var v := Execute(pki, domain, w, input, {}).0.world;
    hide *;
    CleanRunIssues(pki, domain, w, input);
    if Level(pki, domain, w) { SameStoresLevel(pki, domain, w, v); }
  }

  lemma SameStoresLevel(pki: Pki, domain: string, w: World, v: World)
    requires Level(pki, domain, w) && v.gens == w.gens && v.tree == w.tree
    ensures Level(pki, domain, v)
  {
  }

  lemma HistoryStart(pki: Pki, domain: string, worlds: seq<World>, inputs: seq<Input>)
    requires CleanHistory(pki, domain, worlds, inputs)
    ensures |inputs| <= |worlds| && Good(pki, domain, worlds[0]) && AllIssued(pki, domain, worlds, inputs, 0)
  {
  }

  lemma HistoryStep(pki: Pki, domain: string, worlds: seq<World>, inputs: seq<Input>, k: nat)
    requires CleanHistory(pki, domain, worlds, inputs) && k < |inputs|
    ensures |worlds| == |inputs| + 1 && Clean(pki, domain, worlds[k], inputs[k])
    ensures worlds[k + 1] == Execute(pki, domain, worlds[k], inputs[k], {}).0.world
  {
  }

  /** As long as every attempt has succeeded the numbers are level; after that they have drifted. */
  lemma {:induction false} HistoryState(pki: Pki, domain: string, worlds: seq<World>, inputs: seq<Input>, k: nat)
    requires CleanHistory(pki, domain, worlds, inputs) && Level(pki, domain, worlds[0]) && k <= |inputs|
    requires Top(worlds[0].gens, domain) + |inputs| < INT64_LIMIT
    ensures Good(pki, domain, worlds[k])
    ensures if AllIssued(pki, domain, worlds, inputs, k)
            then Level(pki, domain, worlds[k]) && Top(worlds[k].gens, domain) <= Top(worlds[0].gens, domain) + k
            else Drifted(pki, domain, worlds[k])
  {
    hide *;
    HistoryStart(pki, domain, worlds, inputs);
    if k > 0 {
      var w, input := worlds[k - 1], inputs[k - 1];
      HistoryStep(pki, domain, worlds, inputs, k - 1);
      HistoryState(pki, domain, worlds, inputs, k - 1);
      CleanRunIsGood(pki, domain, w, input);
      AllIssuedMore(pki, domain, worlds, inputs, k);
      StepState(pki, domain, w, input);
    }
  }

  lemma AllIssuedMore(pki: Pki, domain: string, worlds: seq<World>, inputs: seq<Input>, k: nat)
    requires 0 < k <= |inputs| <= |worlds|
    ensures AllIssued(pki, domain, worlds, inputs, k) <==>
      && AllIssued(pki, domain, worlds, inputs, k - 1)
      && (Attempts(pki, domain, worlds[k - 1], inputs[k - 1]) ==> inputs[k - 1].issued)
  {
  }

  /** What one clean run does to the numbers, from a level or a drifted world. */
  lemma StepState(pki: Pki, domain: string, w: World, input: Input)
    requires Good(pki, domain, w) && Clean(pki, domain, w, input)
    ensures var (p, outcome) := Execute(pki, domain, w, input, {});
      && (Drifted(pki, domain, w) ==> Drifted(pki, domain, p.world) && outcome != Published)
      && (Level(pki, domain, w) && Top(w.gens, domain) + 1 < INT64_LIMIT ==>
            && Top(p.world.gens, domain) <= Top(w.gens, domain) + 1
            && (if Attempts(pki, domain, w, input) && !input.issued then Drifted(pki, domain, p.world)
                else Level(pki, domain, p.world))
            && (outcome == Published <==> Attempts(pki, domain, w, input) && input.issued))
  {
    if Drifted(pki, domain, w) { DriftStays(pki, domain, w, input); }
    if Level(pki, domain, w) && Top(w.gens, domain) + 1 < INT64_LIMIT {
      if Attempts(pki, domain, w, input) {
        FirstFailureDrifts(pki, domain, w, input);
      } else {
        IdleRunKeeps(pki, domain, w, input);
      }
    }
  }

  /** Which runs record a generation, over any clean history from a level world: exactly those that attempt
      one while every attempt so far, their own included, has had a certificate issued. */
  lemma RecordsIff(pki: Pki, domain: string, worlds: seq<World>, inputs: seq<Input>, k: nat)
    requires CleanHistory(pki, domain, worlds, inputs) && Level(pki, domain, worlds[0]) && k < |inputs|
    requires Top(worlds[0].gens, domain) + |inputs| < INT64_LIMIT
    ensures Execute(pki, domain, worlds[k], inputs[k], {}).1 == Published <==>
      Attempts(pki, domain, worlds[k], inputs[k]) && AllIssued(pki, domain, worlds, inputs, k + 1)
  {
    HistoryState(pki, domain, worlds, inputs, k);
    AllIssuedMore(pki, domain, worlds, inputs, k + 1);
    StepState(pki, domain, worlds[k], inputs[k]);
  }

  const NO_FILES := Tree(Absent, map[], map[], map[])
  const NO_ROWS := G.Table(map[], 1)

  /** The same for a domain that starts with nothing: after its first failed issuance no later run records. */
  lemma NewDomainRecordsIff(pki: Pki, domain: string, jobs: J.Table, worlds: seq<World>, inputs: seq<Input>, k: nat)
    requires |worlds| == |inputs| + 1 && worlds[0] == World(NO_FILES, NO_ROWS, jobs)
    requires forall i :: 0 <= i < |inputs| ==>
      Clean(pki, domain, worlds[i], inputs[i])
        && worlds[i + 1] == Execute(pki, domain, worlds[i], inputs[i], {}).0.world
    requires k < |inputs| < INT64_LIMIT
    ensures Execute(pki, domain, worlds[k], inputs[k], {}).1 == Published <==>
      Attempts(pki, domain, worlds[k], inputs[k]) && AllIssued(pki, domain, worlds, inputs, k + 1)
  {
    EmptyIsLevel(pki, domain, jobs);
    TopBounds(NO_ROWS, domain);
    assert Numbers(NO_ROWS, domain) == map[];
    assert Good(pki, domain, worlds[0]);
    RecordsIff(pki, domain, worlds, inputs, k);
  }
}
