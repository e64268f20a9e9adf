/** The generations table as the Store object changes it, and what holds after any history of operations. */
module GenerationTable {
  import opened Common
  import opened Generations

  datatype Op =
    | Creating(jobs: map<string, string>, row: Row, top: int)
    | SettingStatus(id: nat, status: Status, ref: string)
    | SettingArtifact(id: nat, artifact: Artifact)
    | Deleting(id: nat)

  function Apply(t: Table, op: Op): Table {
    match op
    case Creating(jobs, row, top) => Create(t, jobs, row, top).0
    case SettingStatus(id, status, ref) => SetStatus(t, id, status, ref).0
    case SettingArtifact(id, artifact) => SetArtifact(t, id, artifact).0
    case Deleting(id) => Delete(t, id).0
  }

  function After(ops: seq<Op>): Table {
    if ops == [] then Table(map[], 1) else Apply(After(ops[..|ops| - 1]), ops[|ops| - 1])
  }

  lemma {:induction false} HistoryIsValid(ops: seq<Op>)
    ensures Valid(After(ops))
  {
    if ops != [] {
      var t := After(ops[..|ops| - 1]);
      HistoryIsValid(ops[..|ops| - 1]);
      match ops[|ops| - 1]
      case Creating(jobs, row, top) => CreateKeepsValid(t, jobs, row, top);
      case SettingStatus(id, status, ref) => SetStatusKeepsValid(t, id, status, ref);
      case SettingArtifact(id, artifact) => SetArtifactKeepsValid(t, id, artifact);
      case Deleting(id) => DeleteKeepsValid(t, id);
    }
  }

  /** After any history of creations, updates and deletions a domain has at most one current row, and that
      row is issued. */
  lemma OneCurrentPerDomain(ops: seq<Op>, domain: string, a: nat, b: nat)
    requires IsCurrent(After(ops), domain, a) && IsCurrent(After(ops), domain, b)
    ensures a == b && After(ops).rows[a].status == Issued
  {
    HistoryIsValid(ops);
  }

  class Store {
    var rows: map<nat, Row>
    var next: nat
    var jobs: map<string, string>

    function Contents(): Table
      reads this
    {
      Table(rows, next)
    }

    /** MAX(generation) of a domain, or 0. */
    method MaxGeneration(domain: string) returns (top: int)
      ensures IsTop(Contents(), domain, top)
    {
      var seen := false;
      top := 0;
      var rest := rows.Keys;
      while rest != {}
        invariant rest <= rows.Keys
        invariant !seen ==> top == 0 && forall a :: a in rows && a !in rest ==> rows[a].domain != domain
        invariant seen ==> exists a :: a in rows && rows[a].domain == domain && rows[a].generation == top
        invariant seen ==> forall a :: a in rows && a !in rest && rows[a].domain == domain ==> rows[a].generation <= top
        decreases |rest|
      {
        var a :| a in rest;
        rest := rest - {a};
        if rows[a].domain == domain && (!seen || rows[a].generation > top) {
          seen, top := true, rows[a].generation;
        }
      }
    }

    /** UPDATE ... SET current=0 WHERE domain=? AND id<>? AND current=1 */
    method ClearCurrent(domain: string, except: nat)
      modifies this`rows
      ensures Contents() == Unmark(old(Contents()), domain, except)
    {
      rows := map a | a in rows :: if rows[a].domain == domain && a != except
        && rows[a].current then rows[a].(current := false) else rows[a];
    }

    method CreateGeneration(row: Row) returns (id: Option<nat>, ghost top: int)
      requires next !in rows
      modifies this`rows, this`next
      ensures IsTop(old(Contents()), row.domain, top)
      ensures (Contents(), id) == Create(old(Contents()), jobs, row, top)
    {
      var max := MaxGeneration(row.domain);
      top := max;
      if row.job == "" || row.domain == "" { return None, top; }
      var r := row;
      if r.generation == 0 { r := r.(generation := max + 1); }
      if r.revision == 0 { r := r.(revision := r.generation); }
      if r.revision < 1 || r.job !in jobs || jobs[r.job] != r.domain { return None, top; }
      if r.current && r.status != Issued { return None, top; }
      if Clashes(Contents(), next, r) { return None, top; }
      if r.current { ClearCurrent(r.domain, next); }
      rows := rows[next := r];
      id := Some(next);
      next := next + 1;
    }

    method UpdateStatus(id: nat, status: Status, ref: string) returns (ok: bool)
      modifies this`rows
      ensures (Contents(), ok) == SetStatus(old(Contents()), id, status, ref)
    {
      if id !in rows { return false; }
      var row := rows[id];
      var current := status == Issued && ref != "";
      if current { ClearCurrent(row.domain, id); }
      rows := rows[id := row.(status := status, ref := ref, current := current)];
      ok := true;
    }

    method UpdateArtifact(id: nat, a: Artifact) returns (ok: bool)
      modifies this`rows
      ensures (Contents(), ok) == SetArtifact(old(Contents()), id, a)
    {
      if a.revision < 1 || !ValidDigest(a.digest) || !ValidDigest(a.fingerprint) || id !in rows { return false; }
      var row := rows[id];
      if a.current && row.status != Issued { return false; }
      row := row.(revision := a.revision, digest := a.digest, serial := a.serial, fingerprint := a.fingerprint,
        current := a.current);
      if Clashes(Contents(), id, row) { return false; }
      if a.current { ClearCurrent(row.domain, id); }
      rows := rows[id := row];
      ok := true;
    }

    method DeleteGeneration(id: nat) returns (ok: bool)
      modifies this`rows
      ensures (Contents(), ok) == Delete(old(Contents()), id)
    {
      ok := id in rows;
      if ok { rows := rows - {id}; }
    }
  }
}
