/** Version 2 URL paths: the client's builders and the server's parser. */
module UrlPaths {
  import opened Common
  import opened UrlEscape

  // ---- splitting and joining at slashes ----

  /** strings.Split(s, "/") */
  function Split(s: string): (r: seq<string>)
    ensures |r| >= 1
  {
    if s == "" then [""]
    else if s[0] == '/' then [""] + Split(s[1..])
    else
      var rest := Split(s[1..]);
      [[s[0]] + rest[0]] + rest[1..]
  }

  /** strings.Join(parts, "/") */
  function Join(parts: seq<string>): string {
    if parts == [] then "" else if |parts| == 1 then parts[0] else parts[0] + "/" + Join(parts[1..])
  }

  function TrimLeft(s: string): string { if s != "" && s[0] == '/' then TrimLeft(s[1..]) else s }

  function TrimRight(s: string): string { if s != "" && s[|s| - 1] == '/' then TrimRight(s[..|s| - 1]) else s }

  function SplitPath(p: string): seq<string> {
    var trimmed := TrimRight(TrimLeft(p));
    if trimmed == "" then [] else Split(trimmed)
  }

  function RouteParts(path: string, prefix: string): seq<string> {
    if path != prefix && !(prefix + "/" <= path) then [] else SplitPath(path[|prefix|..])
  }

  lemma {:induction false} SplitText(s: string, after: string)
    requires Slashless(s)
    ensures Split(s) == [s]
    ensures Split(s + "/" + after) == [s] + Split(after)
  {
    if s == "" {
      assert ("/" + after)[1..] == after && s + "/" + after == "/" + after;
    } else {
      SplitText(s[1..], after);
      assert (s + "/" + after)[1..] == s[1..] + "/" + after;
      assert s == [s[0]] + s[1..];
    }
  }

  predicate Slashless(s: string) { '/' !in s }

  predicate AllSlashless(parts: seq<string>) { forall i :: 0 <= i < |parts| ==> Slashless(parts[i]) }

  lemma {:induction false} SplitJoin(parts: seq<string>)
    requires parts != [] && AllSlashless(parts)
    ensures Split(Join(parts)) == parts
  {
    assert Slashless(parts[0]);
    if |parts| == 1 {
      SplitText(parts[0], "");
      assert parts == [parts[0]];
    } else {
      var rest := parts[1..];
      assert AllSlashless(rest);
      SplitJoin(rest);
      SplitText(parts[0], Join(rest));
      assert parts == [parts[0]] + rest;
    }
  }

  lemma {:induction false} JoinSplit(s: string)
    ensures Join(Split(s)) == s
  {
    if s != "" {
      JoinSplit(s[1..]);
      var rest := Split(s[1..]);
      if s[0] == '/' {
        assert ([""] + rest)[1..] == rest;
      } else {
        assert ([[s[0]] + rest[0]] + rest[1..])[1..] == rest[1..];
      }
      assert s == [s[0]] + s[1..];
    }
  }

  /** Segments that are neither empty nor contain a slash. */
  predicate Solid(parts: seq<string>) {
    parts != [] && AllSlashless(parts) && forall i :: 0 <= i < |parts| ==> parts[i] != ""
  }

  lemma {:induction false} JoinEnds(parts: seq<string>)
    requires Solid(parts)
    ensures Join(parts) != "" && Join(parts)[0] != '/' && Join(parts)[|Join(parts)| - 1] != '/'
  {
    assert Slashless(parts[0]) && parts[0][0] in parts[0] && parts[0][|parts[0]| - 1] in parts[0];
    if |parts| > 1 {
      assert Solid(parts[1..]);
      JoinEnds(parts[1..]);
    }
  }

  /** Splitting a joined path gives its segments back. */
  lemma SplitPathJoin(parts: seq<string>)
    requires Solid(parts)
    ensures SplitPath("/" + Join(parts)) == parts
  {
    var j := Join(parts);
    JoinEnds(parts);
    SplitJoin(parts);
    assert ("/" + j)[1..] == j;
    assert TrimLeft("/" + j) == TrimLeft(j) == j && TrimRight(j) == j;
  }

  // ---- building ----

  /** validatePathSegment */
  predicate ValidSegment(s: string) {
    && s != "" && s != "." && s != ".." && Bytes(s)
    && forall i :: 0 <= i < |s| ==> s[i] != '/' && s[i] != '\\' && s[i] as int >= 0x20 && s[i] as int != 0x7F
  }

  function EscapeAll(segments: seq<string>): seq<string>
    requires forall s :: s in segments ==> Bytes(s)
  {
    seq(|segments|, i requires 0 <= i < |segments| => assert segments[i] in segments; Escape(segments[i]))
  }

  /** BuildURLPath as a value; the method below fills the segments in a loop. */
  function Built(segments: seq<string>): Option<string> {
    if segments == [] || exists s :: s in segments && !ValidSegment(s) then None
    else Some("/" + Join(EscapeAll(segments)))
  }

  lemma JoinMore(first: string, rest: seq<string>)
    requires rest != []
    ensures Join([first] + rest) == first + "/" + Join(rest)
  {
    assert ([first] + rest)[1..] == rest;
  }

  lemma DecodeSlash(body: string)
    ensures Decode("/" + body) == Prepend("/", Decode(body))
  {
    assert ("/" + body)[1..] == body;
  }

  lemma DecodeSegment(s: string, body: string)
    requires Bytes(s) && Decode(body).Some?
    ensures Decode(Escape(s) + "/" + body) == Some(s + "/" + Decode(body).value)
  {
    hide Escape, Decode;
    assert Escape(s) + "/" + body == Escape(s) + ("/" + body);
    DecodeEscape(s, "/" + body);
    DecodeSlash(body);
    assert s + ("/" + Decode(body).value) == s + "/" + Decode(body).value;
  }

  lemma {:induction false} DecodeJoin(segments: seq<string>)
    requires segments != [] && forall s :: s in segments ==> Bytes(s)
    ensures Decode(Join(EscapeAll(segments))) == Some(Join(segments))
  {
    var first, rest := segments[0], segments[1..];
    assert segments == [first] + rest && first in segments;
    if rest == [] {
      DecodeEscape(first, "");
      assert Escape(first) + "" == Escape(first) && first + "" == first;
      assert EscapeAll(segments) == [Escape(first)];
    } else {
      DecodeJoin(rest);
      assert EscapeAll(segments) == [Escape(first)] + EscapeAll(rest);
      JoinMore(Escape(first), EscapeAll(rest));
      JoinMore(first, rest);
      DecodeSegment(first, Join(EscapeAll(rest)));
    }
  }

  /** A built path decodes to its segments, each of them still one segment. */
  lemma BuiltDecodes(segments: seq<string>)
    requires Built(segments).Some?
    ensures Decode(Built(segments).value) == Some("/" + Join(segments))
    ensures SplitPath("/" + Join(segments)) == segments
  {
    SegmentsAreSolid(segments);
    DecodeJoin(segments);
    DecodeSlash(Join(EscapeAll(segments)));
    SplitPathJoin(segments);
  }

  method BuildURLPath(segments: seq<string>) returns (path: Option<string>)
    ensures path == Built(segments)
  {
    if segments == [] { return None; }
    var escaped: seq<string> := [];
    for i := 0 to |segments|
      invariant forall j :: 0 <= j < i ==> ValidSegment(segments[j])
      invariant |escaped| == i && forall j :: 0 <= j < i ==> escaped[j] == Escape(segments[j])
    {
      if !ValidSegment(segments[i]) { return None; }
      escaped := escaped + [Escape(segments[i])];
    }
    assert escaped == EscapeAll(segments);
    path := Some("/" + Join(escaped));
  }

  // ---- certificate operations ----

  datatype Op =
    | Reconcile(domain: string)
    | Status(domain: string)
    | Deployments(domain: string)
    | Manifest(domain: string, generation: string)
    | File(domain: string, generation: string, fileName: string)

  datatype Method = Get | Post

  function MethodOf(op: Op): Method { if op.Reconcile? || op.Deployments? then Post else Get }

  const FILE_NAMES: set<string> := {"cert.pem", "key.pem", "fullchain.pem", "ca.pem", "time.log"}
  const API: seq<string> := ["api", "v2"]
  const CERTS_PREFIX := "/api/v2/certs"
  const JOBS_PREFIX := "/api/v2/jobs"

  predicate DomainChar(c: char) { 'a' <= c <= 'z' || '0' <= c <= '9' || c == '-' }

  predicate ValidLabel(l: string) {
    0 < |l| <= 63 && l[0] != '-' && l[|l| - 1] != '-' && forall i :: 0 <= i < |l| ==> DomainChar(l[i])
  }

  /** The labels of a domain name. */
  function Labels(domain: string): (r: seq<string>)
    ensures |r| >= 1
  {
    if domain == "" then [""]
    else if domain[0] == '.' then [""] + Labels(domain[1..])
    else
      var rest := Labels(domain[1..]);
      [[domain[0]] + rest[0]] + rest[1..]
  }

  /** ValidateDomain; `isIP` is net.ParseIP. */
  predicate ValidDomain(domain: string, isIP: string -> bool) {
    0 < |domain| <= 253 && !isIP(domain) && |Labels(domain)| >= 2 && forall l :: l in Labels(domain) ==> ValidLabel(l)
  }

  /** ValidateGenerationID and ValidateJobID. */
  predicate ValidName(id: string) {
    0 < |id| <= 128 && id != "." && id != ".." && forall i :: 0 <= i < |id| ==> Unreserved(id[i])
  }

  predicate ValidOp(op: Op, isIP: string -> bool) {
    && ValidDomain(op.domain, isIP)
    && (op.Manifest? || op.File? ==> ValidName(op.generation))
    && (op.File? ==> op.fileName in FILE_NAMES)
  }

  function Parts(op: Op): seq<string> {
    match op
    case Reconcile(d) => [d, "reconcile"]
    case Status(d) => [d, "status"]
    case Deployments(d) => [d, "deployments"]
    case Manifest(d, g) => [d, "generations", g, "manifest"]
    case File(d, g, f) => [d, "generations", g, "files", f]
  }

  /** The five certificate path builders. */
  function BuildPath(op: Op, isIP: string -> bool): Option<string> {
    if ValidOp(op, isIP) then Built(API + ["certs"] + Parts(op)) else None
  }

  /** parseV2CertPath */
  function ParseParts(parts: seq<string>): Option<Op> {
    if parts == [] || parts[0] == "" then None
    else if |parts| == 2 && parts[1] == "reconcile" then Some(Reconcile(parts[0]))
    else if |parts| == 2 && parts[1] == "status" then Some(Status(parts[0]))
    else if |parts| == 2 && parts[1] == "deployments" then Some(Deployments(parts[0]))
    else if |parts| == 4 && parts[1] == "generations" && parts[2] != ""
      && parts[3] == "manifest" then Some(Manifest(parts[0], parts[2]))
    else if |parts| == 5 && parts[1] == "generations" && parts[2] != ""
      && parts[3] == "files" then Some(File(parts[0], parts[2], parts[4]))
    else None
  }

  function ParsePath(path: string): Option<Op> { ParseParts(RouteParts(path, CERTS_PREFIX)) }

  /** v2CertMethods: the method a path allows; none for a path that does not parse. */
  function AllowedMethod(path: string): Option<Method> {
    match ParsePath(path)
    case None => None
    case Some(op) => Some(MethodOf(op))
  }

  lemma {:induction false} LabelChars(domain: string)
    requires forall l :: l in Labels(domain) ==> forall i :: 0 <= i < |l| ==> DomainChar(l[i])
    ensures forall i :: 0 <= i < |domain| ==> DomainChar(domain[i]) || domain[i] == '.'
  {
    if domain != "" {
      var rest := Labels(domain[1..]);
      if domain[0] == '.' {
        forall l | l in rest ensures l in Labels(domain) {}
      } else {
        forall l | l in rest ensures forall i :: 0 <= i < |l| ==> DomainChar(l[i]) {
          var k :| 0 <= k < |rest| && rest[k] == l;
          if k == 0 {
            var first := [domain[0]] + l;
            assert first in Labels(domain);
            forall i | 0 <= i < |l| ensures DomainChar(l[i]) { assert first[i + 1] == l[i]; }
          } else {
            assert rest[1..][k - 1] == l;
          }
        }
        assert Labels(domain)[0][0] == domain[0] && Labels(domain)[0] in Labels(domain);
      }
      LabelChars(domain[1..]);
    }
  }

  lemma LeadingDot(domain: string)
    ensures domain != "" && domain[0] == '.' ==> Labels(domain)[0] == "" && Labels(domain)[0] in Labels(domain)
  {
  }

  /** A domain name is a valid path segment that escaping leaves alone. */
  lemma DomainIsSegment(domain: string, isIP: string -> bool)
    requires ValidDomain(domain, isIP)
    ensures ValidSegment(domain) && Escape(domain) == domain
  {
    LabelChars(domain);
    EscapeUnreserved(domain);
    LeadingDot(domain);
  }

  lemma NameIsSegment(id: string)
    requires ValidName(id)
    ensures ValidSegment(id) && Escape(id) == id
  {
    EscapeUnreserved(id);
  }

  // ---- round trips ----

  /** Lower-case words, as all fixed segments are but the file names. */
  predicate Word(s: string) { s != "" && forall i :: 0 <= i < |s| ==> 'a' <= s[i] <= 'z' }

  lemma WordIsSegment(s: string)
    requires Word(s)
    ensures ValidSegment(s)
  {
    assert s[0] != '.';
  }

  lemma VersionIsSegment()
    ensures ValidSegment("v2")
  {
  }

  lemma FileNameIsSegment(s: string)
    requires s in FILE_NAMES
    ensures ValidSegment(s)
  {
    assert s == "cert.pem" || s == "key.pem" || s == "fullchain.pem" || s == "ca.pem" || s == "time.log";
    assert forall i :: 0 <= i < |s| ==> 'a' <= s[i] <= 'z' || s[i] == '.';
    assert s[0] != '.';
  }

  lemma SegmentsAreSolid(parts: seq<string>)
    requires parts != [] && forall s :: s in parts ==> ValidSegment(s)
    ensures Solid(parts)
  {
    forall i | 0 <= i < |parts| ensures parts[i] != "" && Slashless(parts[i]) { assert parts[i] in parts; }
  }

  lemma PairIsValid(a: string, b: string)
    requires ValidSegment(a) && Word(b)
    ensures forall s :: s in [a, b] ==> ValidSegment(s)
  {
    WordIsSegment(b);
  }

  lemma AppendIsValid(parts: seq<string>, s: string)
    requires ValidSegment(s) && forall p :: p in parts ==> ValidSegment(p)
    ensures forall p :: p in parts + [s] ==> ValidSegment(p)
  {
  }

  lemma BelowGeneration(d: string, g: string)
    requires ValidSegment(d) && ValidName(g)
    ensures forall s :: s in [d, "generations", g] ==> ValidSegment(s)
  {
    PairIsValid(d, "generations");
    NameIsSegment(g);
    AppendIsValid([d, "generations"], g);
    assert [d, "generations", g] == [d, "generations"] + [g];
  }

  lemma ManifestParts(d: string, g: string)
    requires ValidSegment(d) && ValidName(g)
    ensures forall s :: s in Parts(Manifest(d, g)) ==> ValidSegment(s)
  {
    BelowGeneration(d, g);
    WordIsSegment("manifest");
    AppendIsValid([d, "generations", g], "manifest");
    assert Parts(Manifest(d, g)) == [d, "generations", g] + ["manifest"];
  }

  lemma FileParts(d: string, g: string, f: string)
    requires ValidSegment(d) && ValidName(g) && f in FILE_NAMES
    ensures forall s :: s in Parts(File(d, g, f)) ==> ValidSegment(s)
  {
    BelowGeneration(d, g);
    WordIsSegment("files");
    FileNameIsSegment(f);
    AppendIsValid([d, "generations", g], "files");
    AppendIsValid([d, "generations", g] + ["files"], f);
    assert Parts(File(d, g, f)) == [d, "generations", g] + ["files"] + [f];
  }

  lemma ShortParts(d: string)
    requires ValidSegment(d)
    ensures forall s :: s in Parts(Reconcile(d)) ==> ValidSegment(s)
    ensures forall s :: s in Parts(Status(d)) ==> ValidSegment(s)
    ensures forall s :: s in Parts(Deployments(d)) ==> ValidSegment(s)
  {
    PairIsValid(d, "reconcile");
    PairIsValid(d, "status");
    PairIsValid(d, "deployments");
  }

  lemma ValidFields(op: Op, isIP: string -> bool)
    requires ValidOp(op, isIP)
    ensures ValidSegment(op.domain) && Parts(op) != []
    ensures op.Manifest? || op.File? ==> ValidName(op.generation)
    ensures op.File? ==> op.fileName in FILE_NAMES
  {
    DomainIsSegment(op.domain, isIP);
  }

  lemma PartsAreSegments(op: Op, isIP: string -> bool)
    requires ValidOp(op, isIP)
    ensures (forall s :: s in Parts(op) ==> ValidSegment(s)) && Solid(Parts(op))
  {
    hide *;
    ValidFields(op, isIP);
    match op {
      case Reconcile(d) => ShortParts(d);
      case Status(d) => ShortParts(d);
      case Deployments(d) => ShortParts(d);
      case Manifest(d, g) => ManifestParts(d, g);
      case File(d, g, f) => FileParts(d, g, f);
    }
    SegmentsAreSolid(Parts(op));
  }

  lemma CollectionIsValid(collection: string, parts: seq<string>)
    requires Word(collection) && forall s :: s in parts ==> ValidSegment(s)
    ensures Built(API + [collection] + parts).Some?
  {
    WordIsSegment("api");
    VersionIsSegment();
    WordIsSegment(collection);
    forall s | s in API + [collection] + parts ensures ValidSegment(s) {
      assert s in parts || s == "api" || s == "v2" || s == collection;
    }
  }

  /** The common prefix of the paths below one collection. */
  lemma UnderPrefix(collection: string, parts: seq<string>)
    requires parts != []
    ensures "/" + Join(API + [collection] + parts) == "/api/v2/" + collection + "/" + Join(parts)
  {
    assert API + [collection] + parts == ["api"] + (["v2"] + ([collection] + parts));
    JoinMore("api", ["v2"] + ([collection] + parts));
    JoinMore("v2", [collection] + parts);
    JoinMore(collection, parts);
    assert "/" + ("api" + "/" + ("v2" + "/" + (collection + "/" + Join(parts)))) ==
      "/api/v2/" + collection + "/" + Join(parts);
  }

  lemma RouteUnderPrefix(prefix: string, parts: seq<string>)
    requires Solid(parts)
    ensures RouteParts(prefix + "/" + Join(parts), prefix) == parts
  {
    var path := prefix + "/" + Join(parts);
    assert path[|prefix|..] == "/" + Join(parts);
    assert prefix + "/" <= path;
    SplitPathJoin(parts);
  }

  /** A path built below a collection decodes to the prefix and the parts, and routes back to the parts. */
  lemma CollectionPath(collection: string, parts: seq<string>, prefix: string)
    requires Word(collection) && prefix == "/api/v2/" + collection && Solid(parts) && forall s :: s in parts ==>
      ValidSegment(s)
    ensures var built := Built(API + [collection] + parts);
      && built.Some? && Decode(built.value).Some?
      && Decode(built.value).value == prefix + "/" + Join(parts)
      && RouteParts(Decode(built.value).value, prefix) == parts
  {
    CollectionIsValid(collection, parts);
    BuiltDecodes(API + [collection] + parts);
    UnderPrefix(collection, parts);
    RouteUnderPrefix(prefix, parts);
  }

  lemma ManifestJoined(d: string, g: string)
    ensures Join(Parts(Manifest(d, g))) == d + "/generations/" + g + "/manifest"
  {
    assert Parts(Manifest(d, g)) == [d, "generations", g] + ["manifest"];
    JoinBelow(d, g, ["manifest"]);
    assert Join(["manifest"]) == "manifest";
    hide Join;
    assert d + "/generations/" + g + "/" + "manifest" == d + "/generations/" + g + "/manifest";
  }

  lemma FileJoined(d: string, g: string, f: string)
    ensures Join(Parts(File(d, g, f))) == d + "/generations/" + g + "/files/" + f
  {
    hide Join;
    assert Parts(File(d, g, f)) == [d, "generations", g] + ["files", f];
    JoinBelow(d, g, ["files", f]);
    JoinPair("files", f);
    assert d + "/generations/" + g + "/" + ("files" + "/" + f) == d + "/generations/" + g + "/files/" + f;
  }

  /** The segments of an operation, joined, as the API writes them. */
  lemma PartsJoined(op: Op)
    ensures Join(Parts(op)) ==
      match op
      case Reconcile(d) => d + "/reconcile"
      case Status(d) => d + "/status"
      case Deployments(d) => d + "/deployments"
      case Manifest(d, g) => d + "/generations/" + g + "/manifest"
      case File(d, g, f) => d + "/generations/" + g + "/files/" + f
  {
    hide Join;
    match op
    case Reconcile(d) => JoinPair(d, "reconcile");
    case Status(d) => JoinPair(d, "status");
    case Deployments(d) => JoinPair(d, "deployments");
    case Manifest(d, g) => ManifestJoined(d, g);
    case File(d, g, f) => FileJoined(d, g, f);
  }

  lemma JoinPair(a: string, b: string)
    ensures Join([a, b]) == a + "/" + b
  {
    assert [a, b] == [a] + [b];
    JoinMore(a, [b]);
  }

  lemma JoinBelow(d: string, g: string, rest: seq<string>)
    requires rest != []
    ensures Join([d, "generations", g] + rest) == d + "/generations/" + g + "/" + Join(rest)
  {
    assert [d, "generations", g] + rest == [d] + (["generations"] + ([g] + rest));
    JoinMore(d, ["generations"] + ([g] + rest));
    JoinMore("generations", [g] + rest);
    JoinMore(g, rest);
    assert d + "/" + ("generations" + "/" + (g + "/" + Join(rest))) == d + "/generations/" + g + "/" + Join(rest);
  }

  /** Every built certificate path, once decoded, is the one the API documents, parses to the operation it was
      built for and allows its method. */
  lemma CertPathRoundTrip(op: Op, isIP: string -> bool)
    requires ValidOp(op, isIP)
    ensures BuildPath(op, isIP).Some? && Decode(BuildPath(op, isIP).value).Some?
    ensures var path := Decode(BuildPath(op, isIP).value).value;
      && path == "/api/v2/certs/" + Join(Parts(op)) && ParsePath(path) == Some(op)
      && AllowedMethod(path) == Some(if op.Reconcile? || op.Deployments? then Post else Get)
  {
    PartsAreSegments(op, isIP);
    CollectionPath("certs", Parts(op), CERTS_PREFIX);
    assert ParseParts(Parts(op)) == Some(op);
  }

  /** No two operations share a path. */
  lemma CertPathsAreDistinct(a: Op, b: Op, isIP: string -> bool)
    requires ValidOp(a, isIP) && ValidOp(b, isIP) && BuildPath(a, isIP) == BuildPath(b, isIP)
    ensures a == b
  {
    CertPathRoundTrip(a, isIP);
    CertPathRoundTrip(b, isIP);
  }

  /** Every field of the operation fills one path segment. */
  predicate Fills(op: Op) {
    && op.domain != "" && Slashless(op.domain)
    && (op.Manifest? || op.File? ==> op.generation != "" && Slashless(op.generation))
    && (op.File? ==> op.fileName != "" && Slashless(op.fileName))
  }

  lemma {:induction false} SplitIsSlashless(s: string)
    ensures AllSlashless(Split(s))
  {
    if s != "" {
      SplitIsSlashless(s[1..]);
      var rest := Split(s[1..]);
      assert Slashless(rest[0]);
    }
  }

  lemma {:induction false} LastPart(s: string)
    requires s != "" && s[|s| - 1] != '/'
    ensures Split(s)[|Split(s)| - 1] != ""
  {
    if |s| > 1 { LastPart(s[1..]); }
  }

  lemma {:induction false} TrimmedEnd(s: string)
    ensures TrimRight(s) == "" || TrimRight(s)[|TrimRight(s)| - 1] != '/'
  {
    if s != "" && s[|s| - 1] == '/' { TrimmedEnd(s[..|s| - 1]); }
  }

  lemma FilledParts(op: Op)
    requires Fills(op)
    ensures Solid(Parts(op)) && ParseParts(Parts(op)) == Some(op)
  {
    WordsAreSlashless();
  }

  lemma WordsAreSlashless()
    ensures Slashless("reconcile") && Slashless("status") && Slashless("deployments")
    ensures Slashless("generations") && Slashless("manifest") && Slashless("files")
  {
  }

  /** Parsing is exact: a path reaches an operation exactly if it lies under the prefix, the operation fills
      its segments, and, up to slashes at either end, the rest of the path is those segments. */
  lemma ParseIsExact(path: string, op: Op)
    ensures ParsePath(path) == Some(op) <==>
      CERTS_PREFIX + "/" <= path && Fills(op) && TrimRight(TrimLeft(path[|CERTS_PREFIX|..])) == Join(Parts(op))
  {
    if ParsePath(path) == Some(op) {
      var trimmed := TrimRight(TrimLeft(path[|CERTS_PREFIX|..]));
      JoinSplit(trimmed);
      assert CERTS_PREFIX[|CERTS_PREFIX|..] == "" && SplitPath("") == [];
      assert Split(trimmed) == Parts(op);
      SplitIsSlashless(trimmed);
      TrimmedEnd(TrimLeft(path[|CERTS_PREFIX|..]));
      LastPart(trimmed);
      FieldsFill(op);
    } else if CERTS_PREFIX + "/" <= path && Fills(op) {
      FilledParts(op);
      SplitJoin(Parts(op));
      JoinEnds(Parts(op));
    }
  }

  lemma FieldsFill(op: Op)
    requires AllSlashless(Parts(op)) && Parts(op)[|Parts(op)| - 1] != "" && ParseParts(Parts(op)) == Some(op)
    ensures Fills(op)
  {
    var parts := Parts(op);
    assert Slashless(parts[0]);
    if op.Manifest? || op.File? { assert Slashless(parts[2]); }
    if op.File? { assert Slashless(parts[4]); }
  }

  // ---- jobs ----

  function BuildJobPath(id: string): Option<string> {
    if ValidName(id) then Built(API + ["jobs", id]) else None
  }

  /** The job a path names, as v2JobMethods accepts it. */
  function ParseJobPath(path: string): Option<string> {
    var parts := RouteParts(path, JOBS_PREFIX);
    if |parts| == 1 && parts[0] != "" then Some(parts[0]) else None
  }

  /** Job paths round-trip too, and are no certificate paths. */
  lemma JobPathRoundTrip(id: string)
    requires ValidName(id)
    ensures BuildJobPath(id).Some? && Decode(BuildJobPath(id).value).Some?
    ensures var path := Decode(BuildJobPath(id).value).value;
      ParseJobPath(path) == Some(id) && ParsePath(path) == None
  {
    hide Escape, Decode, Split, TrimLeft, TrimRight, Join;
    NameIsSegment(id);
    SegmentsAreSolid([id]);
    assert API + ["jobs", id] == API + ["jobs"] + [id];
    CollectionPath("jobs", [id], JOBS_PREFIX);
    var path := Decode(BuildJobPath(id).value).value;
    assert path[8] == JOBS_PREFIX[8] == 'j' && CERTS_PREFIX[8] == 'c';
  }
}
