/** Encrypted columns and their migration to a new root key. Authenticated encryption is symbolic: a sealed
    box opens only under the key and the additional data it was sealed with. Migration is a run that a
    failing statement or a crash can cut short after any row. */
module Keys {
  import opened Common

  type Key = string

  /** What a ciphertext column can hold, besides NULL: the empty string, a sealed box, anything else. */
  datatype Cipher = Empty | Sealed(key: Key, aad: string, nonce: int, plain: string) | Garbage(text: string)

  datatype Token = Token(secret: Option<string>, cipher: Option<Cipher>, version: int)

  datatype DnsSecret = DnsSecret(provider: string, profile: string, envKey: string, cipher: Cipher)

  datatype Db = Db(tokens: map<string, Token>, dns: map<nat, DnsSecret>)

  /** The active key and the key of an older installation, if there still is one. */
  datatype Ring = Ring(active: Key, legacy: Option<Key>)

  datatype Record = TokenRecord(id: string) | DnsRecord(number: nat)

  /** A migration so far: every state of the database it passed through, and whether it is still going. */
  datatype Io = Io(db: Db, trace: seq<Db>, ok: bool)

  const TOKEN_VERSION := 2

  function TokenAad(id: string): string { "certkeeper/tokens/v2/id=" + id }

  function DnsAad(d: DnsSecret): string {
    "certkeeper/dns-profiles/v2/provider=" + d.provider + "/profile=" + d.profile + "/env_key=" + d.envKey
  }

  /** decryptAESGCM */
  function Decrypt(c: Cipher, key: Key, aad: string): Option<string> {
    if c.Sealed? && c.key == key && c.aad == aad then Some(c.plain) else None
  }

  /** decryptStoredSecret: the active key, then the legacy one. */
  function DecryptStored(c: Cipher, ring: Ring, aad: string): Option<string> {
    var plain := Decrypt(c, ring.active, aad);
    if plain.Some? || ring.legacy.None? then plain else Decrypt(c, ring.legacy.value, aad)
  }

  // ---- what readers get ----

  /** getTokenWithSecret; None when it returns an error. */
  function ReadToken(db: Db, ring: Ring, id: string): Option<string> {
    if id !in db.tokens then None
    else
      var t := db.tokens[id];
      if t.cipher.None? || t.cipher.value.Empty? then t.secret
      else if t.version != TOKEN_VERSION then None
      else DecryptStored(t.cipher.value, ring, TokenAad(id))
  }

  function ReadDns(db: Db, ring: Ring, number: nat): Option<string> {
    if number !in db.dns then None else DecryptStored(db.dns[number].cipher, ring, DnsAad(db.dns[number]))
  }

  ghost predicate ReadsAs(db: Db, ring: Ring, other: Db, otherRing: Ring) {
    && (forall id :: ReadToken(db, ring, id) == ReadToken(other, otherRing, id))
    && (forall n :: ReadDns(db, ring, n) == ReadDns(other, otherRing, n))
  }

  // ---- migration, row by row ----

  /** A ciphertext that only the legacy key opens, sealed anew. */
  function Reseal(c: Cipher, ring: Ring, aad: string, nonce: int): Cipher {
    if Decrypt(c, ring.active, aad).Some? || ring.legacy.None? then c
    else
      match Decrypt(c, ring.legacy.value, aad)
      case None => c
      case Some(plain) => Sealed(ring.active, aad, nonce, plain)
  }

  function MigrateToken(t: Token, ring: Ring, id: string, nonce: int): Token {
    if t.cipher.Some? && !t.cipher.value.Empty? then
      var c := Reseal(t.cipher.value, ring, TokenAad(id), nonce);
      if c == t.cipher.value then t else t.(cipher := Some(c), secret := None)
    else if t.secret.Some? && t.secret.value != "" then
      Token(None, Some(Sealed(ring.active, TokenAad(id), nonce, t.secret.value)), TOKEN_VERSION)
    else t
  }

  function MigrateDns(d: DnsSecret, ring: Ring, nonce: int): DnsSecret {
    d.(cipher := Reseal(d.cipher, ring, DnsAad(d), nonce))
  }

  function MigrateRecord(db: Db, ring: Ring, r: Record, nonces: Record -> int): Db {
    match r
    case TokenRecord(id) =>
      if id in db.tokens then db.(tokens := db.tokens[id := MigrateToken(db.tokens[id], ring, id, nonces(r))]) else db
    case DnsRecord(n) =>
      if n in db.dns then db.(dns := db.dns[n := MigrateDns(db.dns[n], ring, nonces(r))]) else db
  }

  /** migrateLegacyCiphertexts over the records in order. A record that needs no change causes no statement,
      and so cannot fail. */
  function Migrate(db: Db, ring: Ring, records: seq<Record>, nonces: Record -> int, faults: set<Record>): Io {
    if records == [] then Io(db, [db], true)
    else
      var before := Migrate(db, ring, records[..|records| - 1], nonces, faults);
      var r := records[|records| - 1];
      var next := MigrateRecord(before.db, ring, r, nonces);
      if !before.ok || next == before.db then before
      else if r in faults then before.(ok := false)
      else Io(next, before.trace + [next], true)
  }

  predicate ReadyToken(t: Token, active: Key, id: string) {
    t.cipher.Some? ==> Decrypt(t.cipher.value, active, TokenAad(id)).Some?
  }

  /** KeyStatus finds every non-null ciphertext readable with the active key alone. */
  predicate Ready(db: Db, active: Key) {
    && (forall id :: id in db.tokens ==> ReadyToken(db.tokens[id], active, id))
    && (forall n :: n in db.dns ==> Decrypt(db.dns[n].cipher, active, DnsAad(db.dns[n])).Some?)
  }

  /** Every record, tokens first: the order in which rows are visited. */
  ghost predicate Lists(db: Db, records: seq<Record>) {
    && (forall id :: id in db.tokens ==> TokenRecord(id) in records)
    && (forall n :: n in db.dns ==> DnsRecord(n) in records)
  }

  /** Open, as far as secrets are concerned: migrate, then check. */
  function Open(db: Db, ring: Ring, records: seq<Record>, nonces: Record -> int, faults: set<Record>): Io {
    var d := Migrate(db, ring, records, nonces, faults);
    d.(ok := d.ok && Ready(d.db, ring.active))
  }

  // ---- theorems ----

  lemma MigrateRecordReadsAs(db: Db, ring: Ring, r: Record, nonces: Record -> int)
    ensures ReadsAs(MigrateRecord(db, ring, r, nonces), ring, db, ring)
  {
  }

  /** Readers get the same answers from every state that a migration passes through, a crash or a failing
      statement at any row included. */
  lemma {:induction false} MigrationIsInvisible(db: Db, ring: Ring, records: seq<Record>, nonces: Record -> int,
                                                faults: set<Record>)
    ensures var d := Migrate(db, ring, records, nonces, faults);
      && ReadsAs(d.db, ring, db, ring)
      && forall s :: s in d.trace ==> ReadsAs(s, ring, db, ring)
  {
    if records != [] {
      var init := records[..|records| - 1];
      MigrationIsInvisible(db, ring, init, nonces, faults);
      MigrateRecordReadsAs(Migrate(db, ring, init, nonces, faults).db, ring, records[|records| - 1], nonces);
    }
  }

  lemma MigrateTwice(t: Token, d: DnsSecret, ring: Ring, id: string, nonce: int, again: int)
    ensures MigrateToken(MigrateToken(t, ring, id, nonce), ring, id, again) == MigrateToken(t, ring, id, nonce)
    ensures MigrateDns(MigrateDns(d, ring, nonce), ring, again) == MigrateDns(d, ring, nonce)
  {
  }

  /** What one record becomes under a migration that nothing interrupts. */
  ghost predicate Done(db: Db, next: Db, ring: Ring, r: Record, nonces: Record -> int) {
    match r
    case TokenRecord(id) => id in db.tokens ==>
      id in next.tokens && next.tokens[id] == MigrateToken(db.tokens[id], ring, id, nonces(r))
    case DnsRecord(n) => n in db.dns ==> n in next.dns && next.dns[n] == MigrateDns(db.dns[n], ring, nonces(r))
  }

  ghost predicate Undone(db: Db, next: Db, r: Record) {
    match r
    case TokenRecord(id) => id in db.tokens ==> id in next.tokens && next.tokens[id] == db.tokens[id]
    case DnsRecord(n) => n in db.dns ==> n in next.dns && next.dns[n] == db.dns[n]
  }

  /** An uninterrupted migration changes exactly the records it visits, each once. */
  lemma {:induction false} MigrateVisits(db: Db, ring: Ring, records: seq<Record>, nonces: Record -> int)
    ensures var d := Migrate(db, ring, records, nonces, {});
      && d.ok && d.db.tokens.Keys == db.tokens.Keys && d.db.dns.Keys == db.dns.Keys
      && forall r: Record :: if r in records then Done(db, d.db, ring, r, nonces) else Undone(db, d.db, r)
  {
    if records != [] {
      var init, last := records[..|records| - 1], records[|records| - 1];
      assert records == init + [last];
      MigrateVisits(db, ring, init, nonces);
      var before := Migrate(db, ring, init, nonces, {}).db;
      var next := MigrateRecord(before, ring, last, nonces);
      forall r: Record ensures if r in records then Done(db, next, ring, r, nonces) else Undone(db, next, r) {
        assert if r in init then Done(db, before, ring, r, nonces) else Undone(db, before, r);
        VisitOne(db, before, ring, r, last, nonces);
        if r == last && r in init { VisitTwice(db, before, ring, r, nonces); }
      }
    }
  }

  lemma VisitOne(db: Db, before: Db, ring: Ring, r: Record, last: Record, nonces: Record -> int)
    requires before.tokens.Keys == db.tokens.Keys && before.dns.Keys == db.dns.Keys
    ensures var next := MigrateRecord(before, ring, last, nonces);
      && (r != last ==>
           (Done(db, before, ring, r, nonces) ==> Done(db, next, ring, r, nonces))
             && (Undone(db, before, r) ==> Undone(db, next, r)))
      && (r == last && Undone(db, before, r) ==> Done(db, next, ring, r, nonces))
  {
  }

  lemma VisitTwice(db: Db, before: Db, ring: Ring, r: Record, nonces: Record -> int)
    requires Done(db, before, ring, r, nonces)
    ensures Done(db, MigrateRecord(before, ring, r, nonces), ring, r, nonces)
  {
    match r
    case TokenRecord(id) =>
      if id in db.tokens { MigrateTwice(db.tokens[id], DnsSecret("", "", "", Empty), ring, id, nonces(r), nonces(r)); }
    case DnsRecord(n) =>
      if n in db.dns { MigrateTwice(Token(None, None, 0), db.dns[n], ring, "", nonces(r), nonces(r)); }
  }

  /** A database to which an uninterrupted migration over all records has been applied. */
  ghost predicate Settled(db: Db, ring: Ring) {
    && (forall id, nonce :: id in db.tokens ==> MigrateToken(db.tokens[id], ring, id, nonce) == db.tokens[id])
    && (forall n, nonce :: n in db.dns ==> MigrateDns(db.dns[n], ring, nonce) == db.dns[n])
  }

  lemma MigrateSettles(db: Db, ring: Ring, records: seq<Record>, nonces: Record -> int)
    requires Lists(db, records)
    ensures Settled(Migrate(db, ring, records, nonces, {}).db, ring)
  {
    var next := Migrate(db, ring, records, nonces, {}).db;
    MigrateVisits(db, ring, records, nonces);
    forall id, nonce | id in next.tokens ensures MigrateToken(next.tokens[id], ring, id, nonce) == next.tokens[id] {
      assert Done(db, next, ring, TokenRecord(id), nonces);
      MigrateTwice(db.tokens[id], DnsSecret("", "", "", Empty), ring, id, nonces(TokenRecord(id)), nonce);
    }
    forall n, nonce | n in next.dns ensures MigrateDns(next.dns[n], ring, nonce) == next.dns[n] {
      assert Done(db, next, ring, DnsRecord(n), nonces);
      MigrateTwice(Token(None, None, 0), next.dns[n], ring, "", nonce, nonce);
      MigrateTwice(Token(None, None, 0), db.dns[n], ring, "", nonces(DnsRecord(n)), nonce);
    }
  }

  lemma {:induction false} SettledStays(db: Db, ring: Ring, records: seq<Record>, nonces: Record -> int,
                                        faults: set<Record>)
    requires Settled(db, ring)
    ensures Migrate(db, ring, records, nonces, faults) == Io(db, [db], true)
  {
    if records != [] {
      SettledStays(db, ring, records[..|records| - 1], nonces, faults);
      var r := records[|records| - 1];
      assert MigrateRecord(db, ring, r, nonces) == db by {
        match r
        case TokenRecord(id) => if id in db.tokens { assert db.tokens[id := db.tokens[id]] == db.tokens; }
        case DnsRecord(n) => if n in db.dns { assert db.dns[n := db.dns[n]] == db.dns; }
      }
    }
  }

  /** Migrating again issues no statement at all: nothing changes, so nothing can fail. */
  lemma MigrationIsIdempotent(db: Db, ring: Ring, records: seq<Record>, more: seq<Record>, nonces: Record -> int,
                              others: Record -> int, faults: set<Record>)
    requires Lists(db, records)
    ensures var once := Migrate(db, ring, records, nonces, {}).db;
      Migrate(once, ring, more, others, faults) == Io(once, [once], true)
  {
    MigrateSettles(db, ring, records, nonces);
    SettledStays(Migrate(db, ring, records, nonces, {}).db, ring, more, others, faults);
  }

  // ---- opening the database ----

  predicate OpenableToken(t: Token, ring: Ring, id: string) {
    t.cipher.Some? ==>
      if t.cipher.value.Empty? then t.secret.Some? && t.secret.value != ""
      else DecryptStored(t.cipher.value, ring, TokenAad(id)).Some?
  }

  /** Every ciphertext opens under one of the two keys; an empty one is allowed only where a plaintext
      can replace it. */
  ghost predicate Openable(db: Db, ring: Ring) {
    && (forall id :: id in db.tokens ==> OpenableToken(db.tokens[id], ring, id))
    && (forall n :: n in db.dns ==> DecryptStored(db.dns[n].cipher, ring, DnsAad(db.dns[n])).Some?)
  }

  lemma MigratedIsReadyIff(t: Token, d: DnsSecret, ring: Ring, id: string, nonce: int)
    ensures ReadyToken(MigrateToken(t, ring, id, nonce), ring.active, id) <==> OpenableToken(t, ring, id)
    ensures Decrypt(MigrateDns(d, ring, nonce).cipher, ring.active, DnsAad(MigrateDns(d, ring, nonce))).Some?
       <==> DecryptStored(d.cipher, ring, DnsAad(d)).Some?
  {
  }

  /** When no statement fails, what Open leaves is ready exactly on these databases. */
  lemma MigratedIsReady(db: Db, ring: Ring, records: seq<Record>, nonces: Record -> int)
    requires Lists(db, records)
    ensures Ready(Migrate(db, ring, records, nonces, {}).db, ring.active) <==> Openable(db, ring)
  {
    var next := Migrate(db, ring, records, nonces, {}).db;
    MigrateVisits(db, ring, records, nonces);
    forall id | id in db.tokens ensures ReadyToken(next.tokens[id], ring.active, id) <==>
      OpenableToken(db.tokens[id], ring, id) {
      assert Done(db, next, ring, TokenRecord(id), nonces);
      MigratedIsReadyIff(db.tokens[id], DnsSecret("", "", "", Empty), ring, id, nonces(TokenRecord(id)));
    }
    forall n | n in db.dns
      ensures Decrypt(next.dns[n].cipher, ring.active, DnsAad(next.dns[n])).Some? <==>
        DecryptStored(db.dns[n].cipher, ring, DnsAad(db.dns[n])).Some?
    {
      assert Done(db, next, ring, DnsRecord(n), nonces);
      MigratedIsReadyIff(Token(None, None, 0), db.dns[n], ring, "", nonces(DnsRecord(n)));
    }
  }

  lemma {:induction false} OkMeansNoFault(db: Db, ring: Ring, records: seq<Record>, nonces: Record -> int,
                                          faults: set<Record>)
    requires Migrate(db, ring, records, nonces, faults).ok
    ensures Migrate(db, ring, records, nonces, faults) == Migrate(db, ring, records, nonces, {})
  {
    if records != [] { OkMeansNoFault(db, ring, records[..|records| - 1], nonces, faults); }
  }

  /** The migration issues a statement for the record. */
  predicate Changes(db: Db, ring: Ring, r: Record, nonces: Record -> int) { MigrateRecord(db, ring, r, nonces) != db }

  lemma RecordChanges(db: Db, before: Db, ring: Ring, r: Record, nonces: Record -> int)
    requires before.tokens.Keys == db.tokens.Keys && before.dns.Keys == db.dns.Keys
    ensures Undone(db, before, r) ==> (Changes(before, ring, r, nonces) <==> Changes(db, ring, r, nonces))
    ensures Done(db, before, ring, r, nonces) ==> !Changes(before, ring, r, nonces)
  {
    SameRecord(db, ring, r, nonces);
    SameRecord(before, ring, r, nonces);
    match r
    case TokenRecord(id) =>
      if id in db.tokens { MigrateTwice(db.tokens[id], DnsSecret("", "", "", Empty), ring, id, nonces(r), nonces(r)); }
    case DnsRecord(n) =>
      if n in db.dns { MigrateTwice(Token(None, None, 0), db.dns[n], ring, "", nonces(r), nonces(r)); }
  }

  lemma SameRecord(db: Db, ring: Ring, r: Record, nonces: Record -> int)
    ensures Changes(db, ring, r, nonces) <==>
      match r
      case TokenRecord(id) => id in db.tokens && MigrateToken(db.tokens[id], ring, id, nonces(r)) != db.tokens[id]
      case DnsRecord(n) => n in db.dns && MigrateDns(db.dns[n], ring, nonces(r)) != db.dns[n]
  {
    match r
    case TokenRecord(id) => if id in db.tokens { assert db.tokens[id := db.tokens[id]] == db.tokens; }
    case DnsRecord(n) => if n in db.dns { assert db.dns[n := db.dns[n]] == db.dns; }
  }

  /** A migration goes through exactly if no statement fails that it issues. */
  lemma {:induction false} MigrateOkIff(db: Db, ring: Ring, records: seq<Record>, nonces: Record -> int,
                                        faults: set<Record>)
    ensures Migrate(db, ring, records, nonces, faults).ok <==>
      forall r :: r in records && r in faults ==> !Changes(db, ring, r, nonces)
  {
    if records != [] {
      var init, last := records[..|records| - 1], records[|records| - 1];
      assert records == init + [last];
      MigrateOkIff(db, ring, init, nonces, faults);
      if Migrate(db, ring, init, nonces, faults).ok {
        OkMeansNoFault(db, ring, init, nonces, faults);
        MigrateVisits(db, ring, init, nonces);
        RecordChanges(db, Migrate(db, ring, init, nonces, {}).db, ring, last, nonces);
      }
    }
  }

  /** Open succeeds exactly on these databases, unless a statement fails that it issues. */
  lemma OpenSucceedsIff(db: Db, ring: Ring, records: seq<Record>, nonces: Record -> int, faults: set<Record>)
    requires Lists(db, records)
    ensures Open(db, ring, records, nonces, faults).ok <==>
      Openable(db, ring) && forall r :: r in records && r in faults ==> !Changes(db, ring, r, nonces)
  {
    MigrateOkIff(db, ring, records, nonces, faults);
    if Migrate(db, ring, records, nonces, faults).ok { OkMeansNoFault(db, ring, records, nonces, faults); }
    MigratedIsReady(db, ring, records, nonces);
  }

  /** With every ciphertext readable under the active key, and every plaintext migrated, nothing is left to do. */
  lemma ReadyIsSettled(db: Db, ring: Ring, alone: Ring)
    requires Settled(db, ring) && Ready(db, ring.active) && alone.active == ring.active
    ensures Settled(db, alone)
  {
    forall id, nonce | id in db.tokens ensures MigrateToken(db.tokens[id], alone, id, nonce) == db.tokens[id] {
      assert MigrateToken(db.tokens[id], ring, id, nonce) == db.tokens[id];
    }
  }

  /** After a successful Open every non-null ciphertext opens under the active key alone. Readers get what
      they got before, and go on getting it once the legacy key is gone: opening without it succeeds and
      writes nothing. */
  lemma OpenNeedsNoLegacyKey(db: Db, ring: Ring, records: seq<Record>, nonces: Record -> int, faults: set<Record>,
                             more: seq<Record>, others: Record -> int, moreFaults: set<Record>)
    requires Open(db, ring, records, nonces, faults).ok && Lists(db, records)
    ensures var (after, alone) := (Open(db, ring, records, nonces, faults).db, Ring(ring.active, None));
      && Ready(after, ring.active)
      && ReadsAs(after, alone, db, ring)
      && Open(after, alone, more, others, moreFaults) == Io(after, [after], true)
  {
    var after, alone := Open(db, ring, records, nonces, faults).db, Ring(ring.active, None);
    MigrationIsInvisible(db, ring, records, nonces, faults);
    assert ReadsAs(after, alone, after, ring);
    OkMeansNoFault(db, ring, records, nonces, faults);
    MigrateSettles(db, ring, records, nonces);
    ReadyIsSettled(after, ring, alone);
    SettledStays(after, alone, more, others, moreFaults);
  }

  /** A secret that anybody who can read the database can read. */
  predicate PlainIn(t: Token) { t.secret.Some? && t.secret.value != "" }

  /** The ciphertext opens under this key for this token. */
  predicate OpensAs(c: Option<Cipher>, key: Key, aad: string) {
    c.Some? && c.value.Sealed? && c.value.key == key && c.value.aad == aad
  }

  /** What readers of a token get: the plaintext if there is no ciphertext, and otherwise, for version 2 only, what
      the active or else the legacy key opens. */
  lemma TokenReadsIff(db: Db, ring: Ring, id: string, plain: string)
    ensures var aad := "certkeeper/tokens/v2/id=" + id;
      ReadToken(db, ring, id) == Some(plain) <==>
        && id in db.tokens
        && var t := db.tokens[id];
           || ((t.cipher.None? || t.cipher.value.Empty?) && t.secret == Some(plain))
           || (&& t.version == 2 && t.cipher.Some? && t.cipher.value.Sealed? && t.cipher.value.plain == plain
               && (|| OpensAs(t.cipher, ring.active, aad)
                   || (ring.legacy.Some? && OpensAs(t.cipher, ring.legacy.value, aad))))
  {
  }

  /** What a successful Open makes of a token. A plaintext without a ciphertext is sealed under the active key and
      erased; a ciphertext that only the legacy key opens is sealed anew and any plaintext beside it erased; any
      other token stays as it is. So a plaintext is left exactly where it stood beside a ciphertext that the active
      key already opened. */
  lemma OpenLeaves(db: Db, ring: Ring, records: seq<Record>, nonces: Record -> int, faults: set<Record>, id: string)
    requires Open(db, ring, records, nonces, faults).ok && Lists(db, records) && id in db.tokens
    ensures var (after, aad) := (Open(db, ring, records, nonces, faults).db, "certkeeper/tokens/v2/id=" + id);
      && id in after.tokens
      && var (t, u, nonce) := (db.tokens[id], after.tokens[id], nonces(TokenRecord(id)));
      && (PlainIn(u) <==> PlainIn(t) && OpensAs(t.cipher, ring.active, aad))
      && (OpensAs(t.cipher, ring.active, aad) ==> u == t)
      && (!OpensAs(t.cipher, ring.active, aad) && PlainIn(t) && (t.cipher.None? || t.cipher.value.Empty?) ==>
           u.secret == None && u.cipher == Some(Sealed(ring.active, aad, nonce, t.secret.value)) && u.version == 2)
      && (!OpensAs(t.cipher, ring.active, aad) && ring.legacy.Some? && OpensAs(t.cipher, ring.legacy.value, aad) ==>
           u.secret == None && u.cipher == Some(Sealed(ring.active, aad, nonce, t.cipher.value.plain))
             && u.version == t.version)
      && (t.cipher.None? && !PlainIn(t) ==> u == t)
  {
    OkMeansNoFault(db, ring, records, nonces, faults);
    MigrateVisits(db, ring, records, nonces);
    MigratedIsReady(db, ring, records, nonces);
    assert Done(db, Migrate(db, ring, records, nonces, {}).db, ring, TokenRecord(id), nonces);
    assert OpenableToken(db.tokens[id], ring, id);
  }

  /** And of a DNS secret: one that only the legacy key opens is sealed anew, with the same text. */
  lemma OpenLeavesDns(db: Db, ring: Ring, records: seq<Record>, nonces: Record -> int, faults: set<Record>, n: nat)
    requires Open(db, ring, records, nonces, faults).ok && Lists(db, records) && n in db.dns
    ensures var after := Open(db, ring, records, nonces, faults).db;
      && n in after.dns
      && var (d, e) := (db.dns[n], after.dns[n]);
         var aad :=
           "certkeeper/dns-profiles/v2/provider=" + d.provider + "/profile=" + d.profile + "/env_key=" + d.envKey;
      && (OpensAs(Some(d.cipher), ring.active, aad) ==> e == d)
      && (!OpensAs(Some(d.cipher), ring.active, aad) ==>
           && d.cipher.Sealed?
           && e == DnsSecret(d.provider, d.profile, d.envKey,
                     Sealed(ring.active, aad, nonces(DnsRecord(n)), d.cipher.plain)))
  {
    OkMeansNoFault(db, ring, records, nonces, faults);
    MigrateVisits(db, ring, records, nonces);
    MigratedIsReady(db, ring, records, nonces);
    assert Done(db, Migrate(db, ring, records, nonces, {}).db, ring, DnsRecord(n), nonces);
    assert DecryptStored(db.dns[n].cipher, ring, DnsAad(db.dns[n])).Some?;
  }
}
