/** What the transactions on the generations table do, column by column. */
module GenerationEffects {
  import opened Common
  import opened Generations

  /** The other rows are as they were, except that a new current row takes the mark from those of its domain. */
  ghost predicate OthersKeep(t: Table, s: Table, id: nat) {
    && id in s.rows && s.rows.Keys == t.rows.Keys + {id}
    && forall a :: a in t.rows && a != id ==>
         && s.rows[a].(current := t.rows[a].current) == t.rows[a]
         && (s.rows[a].current <==>
              t.rows[a].current && !(s.rows[id].current && t.rows[a].domain == s.rows[id].domain))
  }

  /** No other row of the domain has this generation or this revision. */
  ghost predicate NumbersFree(t: Table, id: nat, domain: string, generation: int, revision: int) {
    forall a :: a in t.rows && a != id && t.rows[a].domain == domain ==>
      t.rows[a].generation != generation && t.rows[a].revision != revision
  }

  lemma ClashesIff(t: Table, id: nat, row: Row)
    ensures Clashes(t, id, row) <==> !NumbersFree(t, id, row.domain, row.generation, row.revision)
  {
  }

  /** A new row is numbered one above the domain's greatest generation, and that is its revision too, unless it
      brings its own numbers. It is stored, under the next identifier, exactly if it belongs to a job of its domain,
      is issued if it is current, and brings no number that is taken. */
  lemma CreateEffect(t: Table, jobs: map<string, string>, row: Row, top: int)
    ensures var (s, id) := Create(t, jobs, row, top);
      var generation := if row.generation != 0 then row.generation else top + 1;
      var revision := if row.revision != 0 then row.revision else generation;
      && (id.Some? <==>
           && row.job != "" && row.domain != "" && row.job in jobs && jobs[row.job] == row.domain && 1 <= revision
           && (row.current ==> row.status == Issued) && NumbersFree(t, t.next, row.domain, generation, revision))
      && (id.None? ==> s == t)
      && (id.Some? ==>
           && id.value == t.next && s.next == t.next + 1 && OthersKeep(t, s, t.next)
           && s.rows[t.next].generation == generation && s.rows[t.next].revision == revision
           && s.rows[t.next].(generation := row.generation, revision := row.revision) == row)
  {
    var (s, id) := Create(t, jobs, row, top);
    ClashesIff(t, t.next, Numbered(row, top));
    if id.Some? {
      assert s.rows[t.next].(generation := row.generation, revision := row.revision) == row;
      PutEffect(t, t.next, Numbered(row, top));
    }
  }

  lemma PutEffect(t: Table, id: nat, row: Row)
    ensures var s := Put(t, id, row); OthersKeep(t, s, id) && s.rows[id] == row && s.next == t.next
  {
    var s := Put(t, id, row);
    forall a | a in t.rows && a != id ensures s.rows[a].(current := t.rows[a].current) == t.rows[a] {}
  }

  /** A status comes with its reference; a row is current afterwards exactly if it is issued and has one. */
  lemma SetStatusEffect(t: Table, id: nat, status: Status, ref: string)
    ensures var (s, ok) := SetStatus(t, id, status, ref);
      && (ok <==> id in t.rows)
      && (!ok ==> s == t)
      && (ok ==>
           && OthersKeep(t, s, id) && s.next == t.next
           && s.rows[id].status == status && s.rows[id].ref == ref
           && (s.rows[id].current <==> status == Issued && ref != "")
           && s.rows[id].(status := t.rows[id].status, ref := t.rows[id].ref, current := t.rows[id].current)
              == t.rows[id])
  {
    if id in t.rows {
      var row := SetStatus(t, id, status, ref).0.rows[id];
      PutEffect(t, id, row);
      assert row.(status := t.rows[id].status, ref := t.rows[id].ref, current := t.rows[id].current) == t.rows[id];
    }
  }

  /** 64 lower-case hexadecimal digits. */
  predicate HexDigest(s: string) { |s| == 64 && forall c :: c in s ==> c in "0123456789abcdef" }

  lemma DigestIs(s: string)
    ensures ValidDigest(s) <==> HexDigest(s)
  {
    if ValidDigest(s) {
      forall c | c in s ensures c in "0123456789abcdef" {
        var i :| 0 <= i < |s| && s[i] == c;
        HexIs(s[i]);
      }
    } else if |s| == 64 {
      var i :| 0 <= i < |s| && !Hex(s[i]);
      HexIs(s[i]);
      assert s[i] in s;
    }
  }

  lemma HexIs(c: char)
    ensures Hex(c) <==> c in "0123456789abcdef"
  {
    var digits := "0123456789abcdef";
    if '0' <= c <= '9' { assert digits[(c - '0') as int] == c; }
    if 'a' <= c <= 'f' { assert digits[(c - 'a') as int + 10] == c; }
  }

  /** An artifact is stored, as it is given, exactly if its values fit, its revision is free and the row is issued
      should it become current. */
  lemma SetArtifactEffect(t: Table, id: nat, a: Artifact)
    ensures var (s, ok) := SetArtifact(t, id, a);
      && (ok <==>
           && id in t.rows && 1 <= a.revision && HexDigest(a.digest) && HexDigest(a.fingerprint)
           && (a.current ==> t.rows[id].status == Issued)
           && NumbersFree(t, id, t.rows[id].domain, t.rows[id].generation, a.revision))
      && (!ok ==> s == t)
      && (ok ==>
           && OthersKeep(t, s, id) && s.next == t.next
           && var (before, row) := (t.rows[id], s.rows[id]);
           && row.revision == a.revision && row.digest == a.digest && row.serial == a.serial
           && row.fingerprint == a.fingerprint && row.current == a.current
           && row.(revision := before.revision, digest := before.digest, serial := before.serial,
                   fingerprint := before.fingerprint, current := before.current) == before)
  {
    var (s, ok) := SetArtifact(t, id, a);
    DigestIs(a.digest);
    DigestIs(a.fingerprint);
    if id in t.rows {
      var row := t.rows[id].(revision := a.revision, digest := a.digest, serial := a.serial,
        fingerprint := a.fingerprint, current := a.current);
      ClashesIff(t, id, row);
      if ok { PutEffect(t, id, row); }
    }
  }

  /** Deleting removes the row and nothing else. */
  lemma DeleteEffect(t: Table, id: nat)
    ensures var (s, ok) := Delete(t, id);
      && (ok <==> id in t.rows) && s.next == t.next
      && (forall a :: a in s.rows <==> a in t.rows && a != id)
      && (forall a :: a in s.rows ==> s.rows[a] == t.rows[a])
  {
  }
}
