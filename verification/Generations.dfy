/** The certificate_generations table. Every operation is one transaction: it applies as a whole or, on any
    error, not at all. The unique indexes of the schema are part of the model. */
module Generations {
  import opened Common

  datatype Status = Pending | Publishing | Issued | Failed | Revoked

  /** `ref` is the certificate store's name for the generation; "" stands for NULL. */
  datatype Row = Row(
    job: string, domain: string, generation: int, revision: int, status: Status, ref: string,
    digest: string, serial: string, fingerprint: string, current: bool)

  /** Rows by id; `next` is the id that AUTOINCREMENT hands out next. */
  datatype Table = Table(rows: map<nat, Row>, next: nat)

  datatype Artifact = Artifact(revision: int, digest: string, serial: string, fingerprint: string, current: bool)

  // ---- what the schema and the code promise ----

  /** UNIQUE(domain, generation) and UNIQUE(domain, revision). */
  ghost predicate IndexesHold(t: Table) {
    forall a, b :: (a in t.rows && b in t.rows && a != b && t.rows[a].domain == t.rows[b].domain) ==>
      t.rows[a].generation != t.rows[b].generation && t.rows[a].revision != t.rows[b].revision
  }

  /** At most one row of a domain is current, and current rows are issued. */
  ghost predicate CurrentIsClear(t: Table) {
    && (forall a :: a in t.rows && t.rows[a].current ==> t.rows[a].status == Issued)
    && (forall a, b :: (a in t.rows && b in t.rows && t.rows[a].domain == t.rows[b].domain && t.rows[a].current
         && t.rows[b].current) ==> a == b)
  }

  ghost predicate Valid(t: Table) {
    && IndexesHold(t) && CurrentIsClear(t)
    && (forall a :: a in t.rows ==> a < t.next && t.rows[a].revision >= 1)
  }

  // ---- the statements ----

  function Unmark(t: Table, domain: string, except: nat): Table {
    t.(rows := map a | a in t.rows ::
      if t.rows[a].domain == domain && a != except
        && t.rows[a].current then t.rows[a].(current := false) else t.rows[a])
  }

  /** Store a row; when it is current, no other row of its domain stays so. */
  function Put(t: Table, id: nat, row: Row): Table {
    var u := if row.current then Unmark(t, row.domain, id) else t;
    u.(rows := u.rows[id := row])
  }

  predicate Clashes(t: Table, id: nat, row: Row) {
    exists a :: a in t.rows && a != id && t.rows[a].domain == row.domain
      && (t.rows[a].generation == row.generation || t.rows[a].revision == row.revision)
  }

  /** SELECT COALESCE(MAX(generation), 0): the greatest generation of the domain; 0 if it has no row. */
  ghost predicate IsTop(t: Table, domain: string, top: int) {
    && (forall a :: a in t.rows && t.rows[a].domain == domain ==> t.rows[a].generation <= top)
    && if exists a :: a in t.rows && t.rows[a].domain == domain
       then exists a :: a in t.rows && t.rows[a].domain == domain && t.rows[a].generation == top
       else top == 0
  }

  /** Fill in the generation and the revision that the caller left at 0. */
  function Numbered(row: Row, top: int): Row {
    var generation := if row.generation == 0 then top + 1 else row.generation;
    row.(generation := generation, revision := if row.revision == 0 then generation else row.revision)
  }

  /** CreateCertificateGeneration: `jobs` gives the domain of each job, `top` the MAX(generation) read. */
  function Create(t: Table, jobs: map<string, string>, row: Row, top: int): (Table, Option<nat>) {
    var r := Numbered(row, top);
    if row.job == "" || row.domain == "" || r.revision < 1 || r.job !in jobs || jobs[r.job] != r.domain
       || (r.current && r.status != Issued) || Clashes(t, t.next, r)
    then (t, None)
    else (Put(t, t.next, r).(next := t.next + 1), Some(t.next))
  }

  /** UpdateCertificateGenerationStatus: an issued row with a reference becomes the current one. */
  function SetStatus(t: Table, id: nat, status: Status, ref: string): (Table, bool) {
    if id !in t.rows then (t, false)
    else
      (Put(t, id, t.rows[id].(status := status, ref := ref, current := status == Issued && ref != "")), true)
  }

  predicate Hex(c: char) { '0' <= c <= '9' || 'a' <= c <= 'f' }

  predicate ValidDigest(s: string) { |s| == 64 && forall i :: 0 <= i < |s| ==> Hex(s[i]) }

  /** UpdateCertificateGenerationArtifact. */
  function SetArtifact(t: Table, id: nat, a: Artifact): (Table, bool) {
    if a.revision < 1 || !ValidDigest(a.digest) || !ValidDigest(a.fingerprint) || id !in t.rows
       || (a.current && t.rows[id].status != Issued)
    then (t, false)
    else
      var row := t.rows[id].(revision := a.revision, digest := a.digest, serial := a.serial,
        fingerprint := a.fingerprint, current := a.current);
      if Clashes(t, id, row) then (t, false) else (Put(t, id, row), true)
  }

  function Delete(t: Table, id: nat): (Table, bool) {
    if id in t.rows then (t.(rows := t.rows - {id}), true) else (t, false)
  }

  /** GetCurrentCertificateGeneration. */
  ghost predicate IsCurrent(t: Table, domain: string, id: nat) {
    id in t.rows && t.rows[id].domain == domain && t.rows[id].current
  }

  // ---- every operation keeps the table valid ----

  lemma PutKeepsIndexes(t: Table, id: nat, row: Row)
    requires IndexesHold(t) && !Clashes(t, id, row)
    ensures IndexesHold(Put(t, id, row))
  {
    var s := Put(t, id, row);
    forall a, b | a in s.rows && b in s.rows && a != b && s.rows[a].domain == s.rows[b].domain
      ensures s.rows[a].generation != s.rows[b].generation && s.rows[a].revision != s.rows[b].revision
    {
      assert a != id ==>
        a in t.rows && s.rows[a].generation == t.rows[a].generation && s.rows[a].revision == t.rows[a].revision;
      assert b != id ==>
        b in t.rows && s.rows[b].generation == t.rows[b].generation && s.rows[b].revision == t.rows[b].revision;
    }
  }

  /** After a row is stored, it is its domain's current row if it is marked so, and otherwise the current row
      is the one it was, unless that was the row now stored. */
  lemma PutDecidesCurrent(t: Table, id: nat, row: Row, other: nat)
    ensures IsCurrent(Put(t, id, row), row.domain, other) <==>
      if other == id then row.current else !row.current && IsCurrent(t, row.domain, other)
  {
  }

  lemma PutKeepsCurrentClear(t: Table, id: nat, row: Row)
    requires CurrentIsClear(t) && (row.current ==> row.status == Issued)
    ensures CurrentIsClear(Put(t, id, row))
  {
    var s := Put(t, id, row);
    forall a, b | a in s.rows && b in s.rows && s.rows[a].domain == s.rows[b].domain && s.rows[a].current
      && s.rows[b].current
      ensures a == b
    {
      if s.rows[a].domain == row.domain {
        PutDecidesCurrent(t, id, row, a);
        PutDecidesCurrent(t, id, row, b);
      }
    }
  }

  lemma PutKeepsValid(t: Table, id: nat, row: Row)
    requires Valid(t) && !Clashes(t, id, row) && id < t.next && row.revision >= 1
      && (row.current ==> row.status == Issued)
    ensures Valid(Put(t, id, row))
  {
    PutKeepsIndexes(t, id, row);
    PutKeepsCurrentClear(t, id, row);
  }

  lemma CreateKeepsValid(t: Table, jobs: map<string, string>, row: Row, top: int)
    requires Valid(t)
    ensures Valid(Create(t, jobs, row, top).0)
  {
    if Create(t, jobs, row, top).1.Some? {
      var room := t.(next := t.next + 1);
      PutKeepsValid(room, t.next, Numbered(row, top));
      assert Create(t, jobs, row, top).0 == Put(room, t.next, Numbered(row, top));
    }
  }

  lemma SetStatusKeepsValid(t: Table, id: nat, status: Status, ref: string)
    requires Valid(t)
    ensures Valid(SetStatus(t, id, status, ref).0)
  {
    if id in t.rows {
      PutKeepsValid(t, id, t.rows[id].(status := status, ref := ref, current := status == Issued && ref != ""));
    }
  }

  lemma SetArtifactKeepsValid(t: Table, id: nat, a: Artifact)
    requires Valid(t)
    ensures Valid(SetArtifact(t, id, a).0)
  {
    if SetArtifact(t, id, a).1 { PutKeepsValid(t, id, SetArtifact(t, id, a).0.rows[id]); }
  }

  lemma DeleteKeepsValid(t: Table, id: nat)
    requires Valid(t)
    ensures Valid(Delete(t, id).0)
  {
  }

  // ---- recording a published generation: status, then artifact ----

  /** No other row of the domain has this revision. */
  ghost predicate RevisionFree(t: Table, id: nat, revision: int)
    requires id in t.rows
  {
    forall a :: a in t.rows && a != id && t.rows[a].domain == t.rows[id].domain ==> t.rows[a].revision != revision
  }

  lemma StatusKeepsFree(t: Table, id: nat, status: Status, ref: string, revision: int)
    requires id in t.rows
    ensures RevisionFree(SetStatus(t, id, status, ref).0, id, revision) <==> RevisionFree(t, id, revision)
  {
    var s := SetStatus(t, id, status, ref).0;
    forall a | a in t.rows ensures s.rows[a].revision == t.rows[a].revision && s.rows[a].domain == t.rows[a].domain {}
  }

  /** The artifact of an issued row is accepted exactly if its values fit the columns and the revision is free. */
  lemma ArtifactAcceptedIff(t: Table, id: nat, a: Artifact)
    requires IndexesHold(t) && id in t.rows && t.rows[id].status == Issued
    ensures SetArtifact(t, id, a).1 <==>
      1 <= a.revision && ValidDigest(a.digest) && ValidDigest(a.fingerprint) && RevisionFree(t, id, a.revision)
  {
  }

  /** After both steps the row is its domain's one current row, with exactly these values. */
  lemma RecordMakesCurrent(t: Table, id: nat, ref: string, a: Artifact)
    requires id in t.rows && a.current && SetArtifact(SetStatus(t, id, Issued, ref).0, id, a).1
    ensures var s := SetArtifact(SetStatus(t, id, Issued, ref).0, id, a).0;
      && id in s.rows && s.rows[id] == t.rows[id].(status := Issued, ref := ref, revision := a.revision,
           digest := a.digest,
                                                   serial := a.serial, fingerprint := a.fingerprint, current := true)
      && forall other :: IsCurrent(s, t.rows[id].domain, other) <==> other == id
  {
    var u := SetStatus(t, id, Issued, ref).0;
    var s := SetArtifact(u, id, a).0;
    forall other ensures IsCurrent(s, t.rows[id].domain, other) <==> other == id {
      PutDecidesCurrent(u, id, s.rows[id], other);
    }
  }
}
