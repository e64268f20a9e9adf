/** The store object that holds the keys and migrates the encrypted columns row by row. */
module KeyStore {
  import opened Common
  import opened Keys

  function TokenRecords(ids: seq<string>): seq<Record> { seq(|ids|, i requires 0 <= i < |ids| => TokenRecord(ids[i])) }

  function DnsRecords(ns: seq<nat>): seq<Record> { seq(|ns|, i requires 0 <= i < |ns| => DnsRecord(ns[i])) }

  /** The rows in the order in which the two queries return them. */
  function Records(tokens: seq<string>, dns: seq<nat>): seq<Record> { TokenRecords(tokens) + DnsRecords(dns) }

  lemma MigrateMore(db: Db, ring: Ring, records: seq<Record>, r: Record, nonces: Record -> int, faults: set<Record>)
    ensures var before := Migrate(db, ring, records, nonces, faults);
      var next := MigrateRecord(before.db, ring, r, nonces);
      Migrate(db, ring, records + [r], nonces, faults) ==
        if !before.ok || next == before.db then before
        else if r in faults then before.(ok := false)
        else Io(next, before.trace + [next], true)
  {
    assert (records + [r])[..|records|] == records;
  }

  datatype KeyStatus = KeyStatus(encrypted: nat, unreadable: nat, ready: bool)

  class Store {
    const ring: Ring
    var db: Db
    ghost var trace: seq<Db>

    constructor (db: Db, ring: Ring)
      ensures this.db == db && this.ring == ring && trace == [db]
    {
      this.db, this.ring := db, ring;
      trace := [db];
    }

    ghost function Disk(ok: bool): Io
      reads this
    {
      Io(db, trace, ok)
    }

    /** One UPDATE, unless nothing changes. */
    method Write(r: Record, next: Db, faults: set<Record>) returns (ok: bool)
      modifies this
      ensures next == old(db) ==> ok && Disk(true) == old(Disk(true))
      ensures next != old(db) && r in faults ==> !ok && Disk(true) == old(Disk(true))
      ensures next != old(db) && r !in faults ==> ok && db == next && trace == old(trace) + [next]
    {
      if next == db { return true; }
      if r in faults { return false; }
      db := next;
      trace := trace + [next];
      ok := true;
    }

    method MigrateTokenRow(id: string, nonces: Record -> int, faults: set<Record>) returns (ok: bool)
      modifies this
      ensures var next := MigrateRecord(old(db), ring, TokenRecord(id), nonces);
        && (next == old(db) ==> ok && Disk(true) == old(Disk(true)))
        && (next != old(db) && TokenRecord(id) in faults ==> !ok && Disk(true) == old(Disk(true)))
        && (next != old(db) && TokenRecord(id) !in faults ==> ok && db == next && trace == old(trace) + [next])
    {
      if id !in db.tokens { return true; }
      var t, r, aad := db.tokens[id], TokenRecord(id), TokenAad(id);
      assert db.tokens[id := t] == db.tokens;
      if t.cipher.Some? && !t.cipher.value.Empty? {
        if Decrypt(t.cipher.value, ring.active, aad).Some? || ring.legacy.None? { return true; }
        var plain := Decrypt(t.cipher.value, ring.legacy.value, aad);
        if plain.None? { return true; }
        var box := Sealed(ring.active, aad, nonces(r), plain.value);
        ok := Write(r, db.(tokens := db.tokens[id := t.(cipher := Some(box), secret := None)]), faults);
        return;
      }
      if t.secret.Some? && t.secret.value != "" {
        var box := Sealed(ring.active, aad, nonces(r), t.secret.value);
        ok := Write(r, db.(tokens := db.tokens[id := Token(None, Some(box), TOKEN_VERSION)]), faults);
        return;
      }
      ok := true;
    }

    method MigrateDnsRow(n: nat, nonces: Record -> int, faults: set<Record>) returns (ok: bool)
      modifies this
      ensures var next := MigrateRecord(old(db), ring, DnsRecord(n), nonces);
        && (next == old(db) ==> ok && Disk(true) == old(Disk(true)))
        && (next != old(db) && DnsRecord(n) in faults ==> !ok && Disk(true) == old(Disk(true)))
        && (next != old(db) && DnsRecord(n) !in faults ==> ok && db == next && trace == old(trace) + [next])
    {
      if n !in db.dns { return true; }
      var d, r := db.dns[n], DnsRecord(n);
      assert db.dns[n := d] == db.dns;
      if Decrypt(d.cipher, ring.active, DnsAad(d)).Some? || ring.legacy.None? { return true; }
      var plain := Decrypt(d.cipher, ring.legacy.value, DnsAad(d));
      if plain.None? { return true; }
      ok := Write(r, db.(dns := db.dns[n := d.(cipher := Sealed(ring.active, DnsAad(d), nonces(r), plain.value))]),
        faults);
    }

    method MigrateTokens(tokens: seq<string>, nonces: Record -> int, faults: set<Record>) returns (ok: bool)
      requires trace == [db]
      modifies this
      ensures Disk(ok) == Migrate(old(db), ring, TokenRecords(tokens), nonces, faults)
    {
      ok := true;
      for i := 0 to |tokens|
        invariant Disk(ok) == Migrate(old(db), ring, TokenRecords(tokens[..i]), nonces, faults)
      {
        MigrateMore(old(db), ring, TokenRecords(tokens[..i]), TokenRecord(tokens[i]), nonces, faults);
        assert TokenRecords(tokens[..i + 1]) == TokenRecords(tokens[..i]) + [TokenRecord(tokens[i])];
        if ok { ok := MigrateTokenRow(tokens[i], nonces, faults); }
      }
      assert tokens[..|tokens|] == tokens;
    }

    method MigrateDnsSecrets(dns: seq<nat>, nonces: Record -> int, faults: set<Record>, ghost start: Db,
                             ghost done: seq<Record>) returns (ok: bool)
      requires Disk(true) == Migrate(start, ring, done, nonces, faults)
      modifies this
      ensures Disk(ok) == Migrate(start, ring, done + DnsRecords(dns), nonces, faults)
    {
      ok := true;
      assert done + DnsRecords(dns[..0]) == done;
      for i := 0 to |dns|
        invariant Disk(ok) == Migrate(start, ring, done + DnsRecords(dns[..i]), nonces, faults)
      {
        MigrateMore(start, ring, done + DnsRecords(dns[..i]), DnsRecord(dns[i]), nonces, faults);
        assert done + DnsRecords(dns[..i + 1]) == done + DnsRecords(dns[..i]) + [DnsRecord(dns[i])];
        if ok { ok := MigrateDnsRow(dns[i], nonces, faults); }
      }
      assert dns[..|dns|] == dns;
    }

    /** migrateLegacyCiphertexts: all tokens, then all DNS secrets, stopping at the first statement that fails. */
    method MigrateLegacyCiphertexts(tokens: seq<string>, dns: seq<nat>, nonces: Record -> int,
                                    faults: set<Record>) returns (ok: bool)
      modifies this
      ensures Disk(ok) == Migrate(old(db), ring, Records(tokens, dns), nonces, faults)
    {
      trace := [db];
      ok := MigrateTokens(tokens, nonces, faults);
      if ok {
        ok := MigrateDnsSecrets(dns, nonces, faults, old(db), TokenRecords(tokens));
      } else {
        StoppedStays(old(db), ring, TokenRecords(tokens), DnsRecords(dns), nonces, faults);
      }
    }

    /** KeyStatus over the rows that the query returns: each token with a ciphertext, each DNS secret. */
    method CheckKeys(tokens: seq<string>, dns: seq<nat>) returns (status: KeyStatus)
      requires forall id :: id in db.tokens <==> id in tokens
      requires forall n :: n in db.dns <==> n in dns
      ensures status.ready <==> status.unreadable == 0
      ensures status.ready <==> Ready(db, ring.active)
    {
      var encrypted, unreadable := 0, 0;
      for i := 0 to |tokens|
        invariant unreadable == 0 <==>
          forall j :: 0 <= j < i ==> ReadyToken(db.tokens[tokens[j]], ring.active, tokens[j])
      {
        var t := db.tokens[tokens[i]];
        if t.cipher.Some? {
          encrypted := encrypted + 1;
          if Decrypt(t.cipher.value, ring.active, TokenAad(tokens[i])).None? { unreadable := unreadable + 1; }
        }
      }
      for i := 0 to |dns|
        invariant unreadable == 0 <==>
          && (forall j :: 0 <= j < |tokens| ==> ReadyToken(db.tokens[tokens[j]], ring.active, tokens[j]))
          && (forall j :: 0 <= j < i ==> Decrypt(db.dns[dns[j]].cipher, ring.active, DnsAad(db.dns[dns[j]])).Some?)
      {
        var d := db.dns[dns[i]];
        encrypted := encrypted + 1;
        if Decrypt(d.cipher, ring.active, DnsAad(d)).None? { unreadable := unreadable + 1; }
      }
      status := KeyStatus(encrypted, unreadable, unreadable == 0);
    }

    /** Open, as far as secrets are concerned. */
    method Open(tokens: seq<string>, dns: seq<nat>, nonces: Record -> int, faults: set<Record>) returns (ok: bool)
      requires forall id :: id in db.tokens <==> id in tokens
      requires forall n :: n in db.dns <==> n in dns
      modifies this
      ensures Disk(ok) == Keys.Open(old(db), ring, Records(tokens, dns), nonces, faults)
    {
      ok := MigrateLegacyCiphertexts(tokens, dns, nonces, faults);
      if !ok { return; }
      MigrateKeepsKeys(old(db), ring, Records(tokens, dns), nonces, faults);
      var status := CheckKeys(tokens, dns);
      ok := status.ready;
    }
  }

  lemma {:induction false} StoppedStays(db: Db, ring: Ring, records: seq<Record>, more: seq<Record>,
                                        nonces: Record -> int, faults: set<Record>)
    requires !Migrate(db, ring, records, nonces, faults).ok
    ensures Migrate(db, ring, records + more, nonces, faults) == Migrate(db, ring, records, nonces, faults)
    decreases |more|
  {
    if more == [] {
      assert records + more == records;
    } else {
      var init := more[..|more| - 1];
      StoppedStays(db, ring, records, init, nonces, faults);
      assert (records + more)[..|records + more| - 1] == records + init;
    }
  }

  lemma {:induction false} MigrateKeepsKeys(db: Db, ring: Ring, records: seq<Record>, nonces: Record -> int,
                                            faults: set<Record>)
    ensures var next := Migrate(db, ring, records, nonces, faults).db;
      next.tokens.Keys == db.tokens.Keys && next.dns.Keys == db.dns.Keys
  {
    if records != [] { MigrateKeepsKeys(db, ring, records[..|records| - 1], nonces, faults); }
  }
}
