/** Looking for leaked credentials in files, chunk by chunk, and through a directory tree. */
module SecretScan {
  import opened Text

  /** How reading a file ends: at its end, with an error that is skipped, or with any other error. */
  datatype End = Eof | Ignorable | Broken

  datatype Verdict = Clean | Residue | Error

  function Joined(chunks: seq<string>): string {
    if chunks == [] then "" else Joined(chunks[..|chunks| - 1]) + chunks[|chunks| - 1]
  }

  ghost predicate Leaks(data: string, canaries: seq<string>) {
    exists k :: 0 <= k < |canaries| && Contains(data, canaries[k])
  }

  /** dnsCanaries: the values without empty ones and repetitions, for any order of the map. */
  method Canaries(values: seq<string>) returns (canaries: seq<string>)
    ensures forall v :: v in canaries <==> v in values && v != ""
    ensures forall i, j :: 0 <= i < j < |canaries| ==> canaries[i] != canaries[j]
  {
    canaries := [];
    for i := 0 to |values|
      invariant forall v :: v in canaries <==> v in values[..i] && v != ""
      invariant forall a, b :: 0 <= a < b < |canaries| ==> canaries[a] != canaries[b]
    {
      if values[i] != "" && values[i] !in canaries { canaries := canaries + [values[i]]; }
    }
  }

  method MaxCanaryLength(canaries: seq<string>) returns (max: nat)
    ensures forall c :: c in canaries ==> |c| <= max
    ensures max == 0 || exists c :: c in canaries && |c| == max
  {
    max := 0;
    for i := 0 to |canaries|
      invariant forall j :: 0 <= j < i ==> |canaries[j]| <= max
      invariant max == 0 || exists c :: c in canaries && |c| == max
    {
      if |canaries[i]| > max { max := |canaries[i]|; }
    }
  }

  method ContainsAny(contents: string, canaries: seq<string>) returns (found: bool)
    ensures found <==> Leaks(contents, canaries)
  {
    for k := 0 to |canaries|
      invariant forall j :: 0 <= j < k ==> !Contains(contents, canaries[j])
    {
      var present := Search(contents, canaries[k]);
      if present { return true; }
    }
    found := false;
  }

  method Search(s: string, t: string) returns (found: bool)
    ensures found <==> Contains(s, t)
  {
    var i := 0;
    while i <= |s| - |t|
      invariant 0 <= i
      invariant forall j :: 0 <= j < i && j <= |s| - |t| ==> !At(s, t, j)
    {
      if s[i..i + |t|] == t {
        assert At(s, t, i);
        return true;
      }
      i := i + 1;
    }
    found := false;
  }

  /** An occurrence that ends in the new chunk lies within the carry and the chunk: the carry reaches back
      far enough. */
  lemma CarryReaches(read: string, carry: string, chunk: string, canary: string)
    requires HasSuffix(read, carry) && (carry == read || |canary| <= |carry| + 1)
    requires !Contains(read, canary)
    ensures Contains(read + chunk, canary) <==> Contains(carry + chunk, canary)
  {
    var all := read + chunk;
    var base := |read| - |carry|;
    assert read[..base] + (carry + chunk) + "" == all;
    if Contains(carry + chunk, canary) { ContainsMore(carry + chunk, read[..base], "", canary); }
    if Contains(all, canary) {
      var i :| 0 <= i <= |all| - |canary| && At(all, canary, i);
      if i + |canary| <= |read| {
        assert read[i..i + |canary|] == all[i..i + |canary|];
        assert At(read, canary, i);
      }
      assert i >= base;
      assert (carry + chunk)[i - base..i - base + |canary|] == all[i..i + |canary|];
      assert At(carry + chunk, canary, i - base);
    }
  }

  /** The carry is an end of what was read, long enough for every canary. */
  ghost predicate Carried(read: string, carry: string, canaries: seq<string>) {
    HasSuffix(read, carry) && forall c :: c in canaries ==> carry == read || |c| <= |carry| + 1
  }

  lemma CarryReachesAll(read: string, carry: string, chunk: string, canaries: seq<string>)
    requires Carried(read, carry, canaries) && !Leaks(read, canaries)
    ensures Leaks(read + chunk, canaries) <==> Leaks(carry + chunk, canaries)
  {
    forall k | 0 <= k < |canaries| ensures Contains(read + chunk, canaries[k]) <==>
      Contains(carry + chunk, canaries[k]) {
      CarryReaches(read, carry, chunk, canaries[k]);
    }
  }

  /** Keep the last `longest` - 1 bytes, or everything while there is less or nothing to keep. */
  function NextCarry(contents: string, longest: int): string
    requires longest >= 0
  {
    if longest - 1 > 0 && |contents| > longest - 1 then contents[|contents| - (longest - 1)..] else contents
  }

  lemma NextIsCarried(read: string, carry: string, chunk: string, canaries: seq<string>, longest: int)
    requires Carried(read, carry, canaries) && longest >= 0 && forall c :: c in canaries ==> |c| <= longest
    ensures Carried(read + chunk, NextCarry(carry + chunk, longest), canaries)
  {
    var contents := carry + chunk;
    var next := NextCarry(contents, longest);
    SuffixExtends(read, carry, chunk);
    SuffixOfSuffix(read + chunk, contents, next);
  }

  lemma SuffixExtends(read: string, carry: string, chunk: string)
    requires HasSuffix(read, carry)
    ensures HasSuffix(read + chunk, carry + chunk) && (carry == read ==> carry + chunk == read + chunk)
  {
    assert read == read[..|read| - |carry|] + carry;
    assert read + chunk == read[..|read| - |carry|] + (carry + chunk);
  }

  lemma SuffixOfSuffix(whole: string, part: string, end: string)
    requires HasSuffix(whole, part) && HasSuffix(part, end)
    ensures HasSuffix(whole, end)
  {
    assert whole[|whole| - |part|..][|part| - |end|..] == whole[|whole| - |end|..];
  }

  lemma {:induction false} JoinedSplit(chunks: seq<string>, i: nat)
    requires i <= |chunks|
    ensures Joined(chunks) == Joined(chunks[..i]) + Joined(chunks[i..])
    decreases |chunks|
  {
    if i == |chunks| {
      assert chunks[..i] == chunks && chunks[i..] == [];
    } else {
      var init := chunks[..|chunks| - 1];
      JoinedSplit(init, i);
      assert init[..i] == chunks[..i] && init[i..] == chunks[i..][..|chunks[i..]| - 1];
    }
  }

  /** scanFileCanaries: a residue is reported exactly if some canary occurs in what could be read, however
      the reads split it into chunks. */
  method ScanFile(chunks: seq<string>, end: End, canaries: seq<string>) returns (verdict: Verdict)
    requires forall c :: c in canaries ==> c != ""
    ensures verdict == Residue <==> Leaks(Joined(chunks), canaries)
    ensures verdict == Error <==> !Leaks(Joined(chunks), canaries) && end == Broken
  {
    var carry := "";
    NothingLeaks(canaries);
    assert Joined(chunks[..0]) == "";
    for i := 0 to |chunks|
      invariant Carried(Joined(chunks[..i]), carry, canaries) && !Leaks(Joined(chunks[..i]), canaries)
    {
      assert chunks[..i + 1][..i] == chunks[..i];
      CarryReachesAll(Joined(chunks[..i]), carry, chunks[i], canaries);
      var contents := carry + chunks[i];
      var found := ContainsAny(contents, canaries);
      if found {
        LeakStays(chunks, i + 1, canaries);
        return Residue;
      }
      var longest := MaxCanaryLength(canaries);
      NextIsCarried(Joined(chunks[..i]), carry, chunks[i], canaries, longest);
      carry := NextCarry(contents, longest);
    }
    assert chunks[..|chunks|] == chunks;
    verdict := if end == Broken then Error else Clean;
  }

  lemma LeakStays(chunks: seq<string>, i: nat, canaries: seq<string>)
    requires i <= |chunks| && Leaks(Joined(chunks[..i]), canaries)
    ensures Leaks(Joined(chunks), canaries)
  {
    JoinedSplit(chunks, i);
    LeakMore(Joined(chunks[..i]), Joined(chunks[i..]), canaries);
  }

  lemma LeakMore(data: string, more: string, canaries: seq<string>)
    requires Leaks(data, canaries)
    ensures Leaks(data + more, canaries)
  {
    var k :| 0 <= k < |canaries| && Contains(data, canaries[k]);
    ContainsMore(data, "", more, canaries[k]);
    assert "" + data + more == data + more;
  }

  lemma NothingLeaks(canaries: seq<string>)
    requires forall c :: c in canaries ==> c != ""
    ensures !Leaks("", canaries)
  {
    forall k | 0 <= k < |canaries| ensures !Contains("", canaries[k]) { assert canaries[k] in canaries; }
  }

  // ---- directory trees ----

  /** What a path holds. Symbolic links, special files and paths that must not be read are skipped. */
  datatype Node = File(chunks: seq<string>, end: End) | Folder(entries: seq<Node>) | Skipped | Unreadable

  function Worst(first: Verdict, rest: Verdict): Verdict { if first == Clean then rest else first }

  ghost function FileVerdict(chunks: seq<string>, end: End, canaries: seq<string>): Verdict {
    if Leaks(Joined(chunks), canaries) then Residue else if end == Broken then Error else Clean
  }

  /** scanPersistentPath: the first entry that is not clean decides. */
  ghost function ScanPath(node: Node, canaries: seq<string>): Verdict {
    match node
    case File(chunks, end) => FileVerdict(chunks, end, canaries)
    case Folder(entries) => ScanEntries(entries, canaries)
    case Skipped => Clean
    case Unreadable => Error
  }

  ghost function ScanEntries(entries: seq<Node>, canaries: seq<string>): Verdict {
    if entries == [] then Clean else Worst(ScanPath(entries[0], canaries), ScanEntries(entries[1..], canaries))
  }

  /** Every path below, by the indices that lead to it. */
  ghost predicate Reaches(node: Node, path: seq<nat>, leaf: Node) {
    if path == [] then node == leaf
    else node.Folder? && path[0] < |node.entries| && Reaches(node.entries[path[0]], path[1..], leaf)
  }

  ghost predicate Bad(leaf: Node, canaries: seq<string>) {
    leaf.Unreadable? || (leaf.File? && FileVerdict(leaf.chunks, leaf.end, canaries) != Clean)
  }

  /** A clean verdict vouches for every file below: none holds a canary, none was left unread. */
  lemma {:induction false} CleanVouches(node: Node, canaries: seq<string>, path: seq<nat>, leaf: Node)
    requires ScanPath(node, canaries) == Clean && Reaches(node, path, leaf)
    ensures !Bad(leaf, canaries)
    decreases |path|
  {
    if path != [] {
      EntryIsClean(node.entries, canaries, path[0]);
      CleanVouches(node.entries[path[0]], canaries, path[1..], leaf);
    }
  }

  lemma {:induction false} EntryIsClean(entries: seq<Node>, canaries: seq<string>, i: nat)
    requires ScanEntries(entries, canaries) == Clean && i < |entries|
    ensures ScanPath(entries[i], canaries) == Clean
    decreases |entries|
  {
    if i > 0 { EntryIsClean(entries[1..], canaries, i - 1); }
  }

  /** Any other verdict names a path to a file with that verdict. */
  lemma {:induction false} VerdictHasWitness(node: Node, canaries: seq<string>) returns (path: seq<nat>, leaf: Node)
    requires ScanPath(node, canaries) != Clean
    ensures Reaches(node, path, leaf) && !leaf.Folder? && Bad(leaf, canaries)
      && ScanPath(leaf, canaries) == ScanPath(node, canaries)
    decreases node, 1, 0
  {
    if node.Folder? {
      var i, below;
      i, below, leaf := EntryHasWitness(node.entries, canaries, node);
      path := [i] + below;
    } else {
      path, leaf := [], node;
    }
  }

  lemma {:induction false} EntryHasWitness(entries: seq<Node>, canaries: seq<string>, node: Node) returns (i: nat,
                                           path: seq<nat>, leaf: Node)
    requires ScanEntries(entries, canaries) != Clean && forall e :: e in entries ==> e < node
    ensures i < |entries| && Reaches(entries[i], path, leaf) && !leaf.Folder? && Bad(leaf, canaries)
    ensures ScanPath(leaf, canaries) == ScanEntries(entries, canaries)
    decreases node, 0, |entries|
  {
    if ScanPath(entries[0], canaries) != Clean {
      i := 0;
      assert entries[0] in entries;
      path, leaf := VerdictHasWitness(entries[0], canaries);
    } else {
      assert forall e :: e in entries[1..] ==> e in entries;
      i, path, leaf := EntryHasWitness(entries[1..], canaries, node);
      i := i + 1;
    }
  }

  method ScanTree(node: Node, canaries: seq<string>) returns (verdict: Verdict)
    requires forall c :: c in canaries ==> c != ""
    ensures verdict == ScanPath(node, canaries)
    decreases node
  {
    match node
    case File(chunks, end) => verdict := ScanFile(chunks, end, canaries);
    case Skipped => verdict := Clean;
    case Unreadable => verdict := Error;
    case Folder(entries) =>
      assert entries[0..] == entries;
      for i := 0 to |entries|
        invariant ScanEntries(entries, canaries) == ScanEntries(entries[i..], canaries)
      {
        assert entries[i..][1..] == entries[i + 1..];
        verdict := ScanTree(entries[i], canaries);
        if verdict != Clean { return; }
      }
      verdict := Clean;
  }
}
