/** Command output: capture of a limited prefix, and removal of secrets from it. */
module Redaction {
  import opened Text

  const MASK := "***"

  /** strings.ReplaceAll(s, v, "***"): leftmost matches, not overlapping. */
  function ReplaceAll(s: string, v: string): string
    requires v != ""
    decreases |s|
  {
    if |s| < |v| then s
    else if s[..|v|] == v then MASK + ReplaceAll(s[|v|..], v)
    else [s[0]] + ReplaceAll(s[1..], v)
  }

  /** The longest proper prefix of `v`, of length `n` or less, that `s` ends in is masked. */
  function CutSuffix(s: string, v: string, n: nat): string
    requires n <= |v|
  {
    if n == 0 then s
    else if HasSuffix(s, v[..n]) then s[..|s| - n] + MASK
    else CutSuffix(s, v, n - 1)
  }

  function RedactOne(s: string, v: string): string {
    if v == "" then s else CutSuffix(ReplaceAll(s, v), v, |v| - 1)
  }

  function Redact(s: string, secrets: seq<string>): string {
    if secrets == [] then s else RedactOne(Redact(s, secrets[..|secrets| - 1]), secrets[|secrets| - 1])
  }

  /** The text breaks off after `n` characters of the secret. */
  predicate BreaksOff(s: string, v: string, n: nat)
    requires n <= |v|
  {
    HasSuffix(s, v[..n])
  }

  /** The secret does not occur, and the text does not break off inside it. */
  ghost predicate Clean(s: string, v: string) {
    !Contains(s, v) && forall n :: 0 < n < |v| ==> !BreaksOff(s, v, n)
  }

  // ---- what masking can and cannot create ----

  /** The mask can help to spell the secret: it begins or ends with a star, or holds the whole mask. */
  ghost predicate Forgeable(v: string) {
    v != "" && (v[0] == '*' || v[|v| - 1] == '*' || Contains(v, MASK))
  }

  /** No mask reaches into the beginning of the text, or lies in it. */
  ghost predicate Unmasked(t: string) { t != "" && t[0] != '*' && !Contains(t, MASK) }

  lemma MaskAt(t: string, i: nat)
    requires i + 3 <= |t| && t[i] == t[i + 1] == t[i + 2] == '*'
    ensures Contains(t, MASK)
  {
    assert At(t, MASK, i);
  }

  lemma PrefixIsUnmasked(w: string, n: nat)
    requires w != "" && !Forgeable(w) && 0 < n <= |w|
    ensures Unmasked(w[..n])
  {
    if Contains(w[..n], MASK) { PrefixContains(w, n, MASK); }
  }

  lemma {:induction false} PrefixSurvives(s: string, v: string, t: string)
    requires v != "" && !Contains(t, MASK) && (t != "" ==> t[|t| - 1] != '*') && t <= ReplaceAll(s, v)
    ensures t <= s
    decreases |s|
  {
    if |s| >= |v| && t != "" {
      var r := ReplaceAll(s, v);
      assert forall i :: 0 <= i < |t| ==> t[i] == r[i];
      if v <= s {
        assert r[0] == r[1] == r[2] == '*';
        if |t| >= 3 { MaskAt(t, 0); }
      } else {
        if Contains(t[1..], MASK) { ContainsRest(t, 1, MASK); }
        assert t[1..] <= ReplaceAll(s[1..], v);
        PrefixSurvives(s[1..], v, t[1..]);
        assert t == [s[0]] + t[1..];
      }
    }
  }

  /** One step of the replacement: how much of `s` is consumed, and what is written for it. */
  lemma ReplaceStep(s: string, v: string) returns (step: nat, head: string)
    requires v != "" && |s| >= |v|
    ensures 0 < step <= |s| && ReplaceAll(s, v) == head + ReplaceAll(s[step..], v)
    ensures if v <= s then head == MASK && step == |v| else head == [s[0]] && step == 1
  {
    if v <= s { step, head := |v|, MASK; } else { step, head := 1, [s[0]]; }
  }

  lemma AtRest(head: string, rest: string, t: string, i: nat)
    requires i + |t| <= |head + rest| && At(head + rest, t, i) && t != ""
    ensures t[0] == (head + rest)[i]
    ensures i >= |head| ==> At(rest, t, i - |head|)
  {
    assert (head + rest)[i..i + |t|][0] == (head + rest)[i];
    if i >= |head| { assert (head + rest)[i..i + |t|] == rest[i - |head|..i - |head| + |t|]; }
  }

  lemma ContainsRest(s: string, n: nat, t: string)
    requires n <= |s| && Contains(s[n..], t)
    ensures Contains(s, t)
  {
    ContainsMore(s[n..], s[..n], "", t);
    assert s[..n] + s[n..] + "" == s;
  }

  /** Where a text that masks cannot spell occurs after masking, it occurred before; the masked secret itself
      is gone. */
  lemma {:induction false} OccurrenceSurvives(s: string, v: string, t: string, i: nat)
    requires v != "" && !Forgeable(t) && t != "" && i <= |ReplaceAll(s, v)| - |t| && At(ReplaceAll(s, v), t, i)
    ensures Contains(s, t) && t != v
    decreases |s|
  {
    if |s| < |v| {
      assert At(s, t, i);
    } else {
      var step, head := ReplaceStep(s, v);
      AtRest(head, ReplaceAll(s[step..], v), t, i);
      if i >= |head| {
        OccurrenceSurvives(s[step..], v, t, i - |head|);
        ContainsRest(s, step, t);
      } else if head != MASK {
        PrefixSurvives(s, v, t);
        assert At(s, t, 0);
      }
    }
  }

  lemma {:induction false} WithoutMaskUnchanged(s: string, v: string)
    requires v != "" && !Contains(ReplaceAll(s, v), MASK)
    ensures ReplaceAll(s, v) == s
    decreases |s|
  {
    if |s| >= |v| {
      var r := ReplaceAll(s, v);
      if v <= s {
        MaskAt(r, 0);
      } else {
        assert r[1..] == ReplaceAll(s[1..], v);
        if Contains(r[1..], MASK) { ContainsRest(r, 1, MASK); }
        WithoutMaskUnchanged(s[1..], v);
        assert s == [s[0]] + s[1..];
      }
    }
  }

  lemma SuffixOfRest(head: string, rest: string, t: string)
    requires HasSuffix(head + rest, t)
    ensures |t| <= |rest| ==> HasSuffix(rest, t)
    ensures |t| > |rest| ==> t[0] == head[|head| + |rest| - |t|]
    ensures |t| > |rest| && |head| == 1 ==> t == head + rest
  {
    var r := head + rest;
    if |t| <= |rest| {
      assert rest[|rest| - |t|..] == r[|r| - |t|..];
    } else {
      assert r[|r| - |t|..][0] == r[|r| - |t|];
    }
  }

  lemma SuffixOfWhole(s: string, n: nat, t: string)
    requires n <= |s| && HasSuffix(s[n..], t)
    ensures HasSuffix(s, t)
  {
    assert s[n..][|s[n..]| - |t|..] == s[|s| - |t|..];
  }

  /** An ending of the masked text that neither starts in a mask nor holds one was an ending before. */
  lemma {:induction false} SuffixSurvives(s: string, v: string, t: string)
    requires v != "" && Unmasked(t) && HasSuffix(ReplaceAll(s, v), t)
    ensures HasSuffix(s, t)
    decreases |s|
  {
    if |s| >= |v| {
      var step, head := ReplaceStep(s, v);
      var rest := ReplaceAll(s[step..], v);
      SuffixOfRest(head, rest, t);
      if |t| <= |rest| {
        SuffixSurvives(s[step..], v, t);
        SuffixOfWhole(s, step, t);
      } else if head != MASK {
        WithoutMaskUnchanged(s, v);
      }
    }
  }

  lemma MaskedEnd(p: string, t: string)
    requires Unmasked(t)
    ensures !HasSuffix(p + MASK, t)
    ensures t[|t| - 1] != '*' && Contains(p + MASK, t) ==> Contains(p, t)
  {
    hide Contains;
    var r := p + MASK;
    if HasSuffix(r, t) {
      assert forall i :: |r| - |t| <= i < |r| ==> r[i] == t[i - (|r| - |t|)];
      assert t[0] == r[|r| - |t|] && t[|t| - 1] == r[|r| - 1] == '*';
      if |t| >= 3 { MaskAt(t, |t| - 3); }
    }
    if t[|t| - 1] != '*' && Contains(r, t) { BeforeMask(p, t); }
  }

  lemma BeforeMask(p: string, t: string)
    requires t != "" && t[|t| - 1] != '*' && Contains(p + MASK, t)
    ensures Contains(p, t)
  {
    var r := p + MASK;
    var i :| 0 <= i <= |r| - |t| && At(r, t, i);
    assert r[i..i + |t|][|t| - 1] == r[i + |t| - 1];
    assert p[i..i + |t|] == r[i..i + |t|];
    assert At(p, t, i);
  }

  // ---- one secret ----

  /** Cutting masks the longest proper prefix the text ends in, if there is one. */
  lemma {:induction false} CutSuffixResult(s: string, v: string, n: nat) returns (cut: nat)
    requires n < |v|
    ensures cut <= n && forall k :: cut < k <= n ==> !BreaksOff(s, v, k)
    ensures cut == 0 ==> CutSuffix(s, v, n) == s
    ensures cut > 0 ==> BreaksOff(s, v, cut) && CutSuffix(s, v, n) == s[..|s| - cut] + MASK
  {
    if n == 0 {
      cut := 0;
    } else if BreaksOff(s, v, n) {
      cut := n;
    } else {
      cut := CutSuffixResult(s, v, n - 1);
    }
  }

  lemma ReplaceKeepsClean(s: string, v: string, w: string)
    requires v != "" && w != "" && !Forgeable(w)
    ensures Clean(s, w) || v == w ==> !Contains(ReplaceAll(s, v), w)
    ensures Clean(s, w) ==> Clean(ReplaceAll(s, v), w)
  {
    var r := ReplaceAll(s, v);
    if Contains(r, w) {
      var i :| 0 <= i <= |r| - |w| && At(r, w, i);
      OccurrenceSurvives(s, v, w, i);
    }
    forall n | 0 < n < |w| && BreaksOff(r, w, n) ensures BreaksOff(s, w, n) {
      PrefixIsUnmasked(w, n);
      SuffixSurvives(s, v, w[..n]);
    }
  }

  lemma CutKeepsClean(s: string, v: string, w: string)
    requires v != "" && w != "" && !Forgeable(w) && !Contains(s, w)
    ensures Clean(s, w) || v == w ==> Clean(CutSuffix(s, v, |v| - 1), w)
  {
    hide Contains, CutSuffix;
    var cut := CutSuffixResult(s, v, |v| - 1);
    if cut > 0 {
      var p := s[..|s| - cut];
      MaskedEnd(p, w);
      if Contains(p, w) { PrefixContains(s, |s| - cut, w); }
      forall n | 0 < n < |w| ensures !BreaksOff(p + MASK, w, n) {
        PrefixIsUnmasked(w, n);
        MaskedEnd(p, w[..n]);
      }
    }
  }

  /** Redacting `v` cleans it, unless masks can spell it, and keeps clean what was. */
  lemma RedactOneCleans(s: string, v: string, w: string)
    requires w != "" && !Forgeable(w) && (Clean(s, w) || v == w)
    ensures Clean(RedactOne(s, v), w)
  {
    if v != "" {
      ReplaceKeepsClean(s, v, w);
      CutKeepsClean(ReplaceAll(s, v), v, w);
    }
  }

  // ---- all secrets ----

  /** Whatever order the map yields its secrets in, each that masks cannot spell is gone in
      the end. */
  lemma {:induction false} RedactCleans(s: string, secrets: seq<string>, w: string)
    requires w in secrets && w != "" && !Forgeable(w)
    ensures Clean(Redact(s, secrets), w)
  {
    var init, last := secrets[..|secrets| - 1], secrets[|secrets| - 1];
    assert secrets == init + [last];
    if w in init { RedactCleans(s, init, w); }
    RedactOneCleans(Redact(s, init), last, w);
  }

  lemma {:induction false} NothingToReplace(s: string, v: string)
    requires v != "" && !Contains(s, v)
    ensures ReplaceAll(s, v) == s
    decreases |s|
  {
    if |s| >= |v| {
      assert !At(s, v, 0);
      assert [s[0]] + s[1..] + "" == s;
      if Contains(s[1..], v) { ContainsMore(s[1..], [s[0]], "", v); }
      NothingToReplace(s[1..], v);
    }
  }

  /** Output in which no secret occurs or is broken off is left as it is. */
  lemma {:induction false} RedactLeavesClean(s: string, secrets: seq<string>)
    requires forall v :: v in secrets && v != "" ==> Clean(s, v)
    ensures Redact(s, secrets) == s
  {
    if secrets != [] {
      var init, last := secrets[..|secrets| - 1], secrets[|secrets| - 1];
      assert secrets == init + [last];
      RedactLeavesClean(s, init);
      assert last in secrets;
      if last != "" {
        NothingToReplace(s, last);
        var cut := CutSuffixResult(s, last, |last| - 1);
      }
    }
  }

  // ---- secrets that masks can spell ----

  predicate RunOf(s: string, c: char) { forall i :: 0 <= i < |s| ==> s[i] == c }

  function Repeat(c: char, n: nat): (r: string)
    ensures |r| == n && RunOf(r, c)
  {
    seq(n, _ => c)
  }

  /** Replacing the only occurrence. */
  lemma {:induction false} ReplaceOnce(p: string, u: string, q: string)
    requires u != "" && |q| < |u| && forall i :: 0 <= i < |p| ==> !At(p + u + q, u, i)
    ensures ReplaceAll(p + u + q, u) == p + MASK + q
  {
    var s := p + u + q;
    if p == "" {
      assert s[..|u|] == u && s[|u|..] == q;
    } else {
      assert !At(s, u, 0);
      var rest := p[1..] + u + q;
      assert s[1..] == rest;
      forall i | 0 <= i < |p[1..]| ensures !At(rest, u, i) {
        assert !At(s, u, i + 1);
        assert rest[i..i + |u|] == s[i + 1..i + 1 + |u|];
      }
      ReplaceOnce(p[1..], u, q);
      assert p + MASK + q == [p[0]] + (p[1..] + MASK + q);
    }
  }

  /** A text that ends in a run of a character with which `v` does not begin does not break off inside `v`. */
  lemma RunsEndClean(s: string, v: string, a: char, n: nat)
    requires v != "" && v[0] != a && n >= |v| - 1
    ensures forall k :: 0 < k < |v| ==> !BreaksOff(s + Repeat(a, n), v, k)
  {
    var r := s + Repeat(a, n);
    forall k | 0 < k < |v| ensures !BreaksOff(r, v, k) {
      assert r[|r| - k..][0] == a;
    }
  }

  lemma RedactedAsBefore(s: string, v: string)
    requires v != "" && Clean(s, v)
    ensures RedactOne(s, v) == s
  {
    NothingToReplace(s, v);
    var cut := CutSuffixResult(s, v, |v| - 1);
  }

  /** How a star of a secret can be forged: `v` is x + f + y, and f is part of a mask. */
  predicate Forges(x: string, f: string, y: string) {
    f == MASK || (f == "*" && (x == "" || y == ""))
  }

  lemma ForgeableSplits(v: string) returns (x: string, f: string, y: string)
    requires Forgeable(v)
    ensures Forges(x, f, y) && v == x + f + y
  {
    if v[0] == '*' {
      x, f, y := "", "*", v[1..];
    } else if v[|v| - 1] == '*' {
      x, f, y := v[..|v| - 1], "*", "";
    } else {
      var i :| 0 <= i <= |v| - |MASK| && At(v, MASK, i);
      x, f, y := v[..i], MASK, v[i + 3..];
    }
  }

  lemma BehindMarker(x: string, u: string, rest: string, i: nat)
    requires |x| <= i < |x + u + rest| && (x + u + rest)[i] == '*' && '*' !in u
    ensures i >= |x| + |u|
  {
    var s := x + u + rest;
    forall k | |x| <= k < |x| + |u| ensures s[k] != '*' { assert s[k] == u[k - |x|]; }
  }

  /** With a marker in place of its star, followed by a run of another character, the secret is not there. */
  lemma MarkedIsClean(v: string, x: string, f: string, y: string, u: string, a: char)
    requires v == x + f + y && Forges(x, f, y) && a != '*' && v[0] != a
    requires |u| >= 2 * |v| && '*' !in u
    ensures Clean(x + u + y + Repeat(a, |v|), v)
  {
    var s := x + u + y + Repeat(a, |v|);
    RunsEndClean(x + u + y, v, a, |v|);
    if Contains(s, v) {
      var p :| 0 <= p <= |s| - |v| && At(s, v, p);
      var j := LastStar(v, |x|);
      assert s[p..p + |v|][|x|] == s[p + |x|] && s[p..p + |v|][j] == s[p + j];
      BehindMarker(x, u, y + Repeat(a, |v|), p + |x|);
      assert s == x + u + (y + Repeat(a, |v|));
      MarkedStar(v, x, f, y, u, a, p + j);
    }
  }

  /** Behind the marker, a star stands where `v` has one, moved by the marker. */
  lemma MarkedStar(v: string, x: string, f: string, y: string, u: string, a: char, i: nat)
    requires v == x + f + y && a != '*'
    requires var s := x + u + y + Repeat(a, |v|); |x| + |u| <= i < |s| && s[i] == '*'
    ensures i - |u| + |f| < |v| && v[i - |u| + |f|] == '*'
  {
    var s := x + u + y + Repeat(a, |v|);
    assert s[i] == (y + Repeat(a, |v|))[i - |x| - |u|];
  }

  lemma {:induction false} LastStar(v: string, i: nat) returns (j: nat)
    requires i < |v| && v[i] == '*'
    ensures i <= j < |v| && v[j] == '*' && forall k :: j < k < |v| ==> v[k] != '*'
    decreases |v| - i
  {
    j := i;
    if k :| i < k < |v| && v[k] == '*' { j := LastStar(v, k); }
  }

  /** Masking the marker spells the secret, wherever its star may have been. */
  lemma MaskSpells(v: string, x: string, f: string, y: string, e: string)
    requires v == x + f + y && Forges(x, f, y)
    ensures Contains(x + MASK + y + e, v)
  {
    var r := x + MASK + y + e;
    if f == MASK {
      assert r[0..|v|] == v;
      assert At(r, v, 0);
    } else if x == "" {
      assert r[2..2 + |v|] == v;
      assert At(r, v, 2);
    } else {
      assert r[0..|v|] == v;
      assert At(r, v, 0);
    }
  }

  lemma SuffixEnd(r: string, t: string)
    requires t != "" && r != ""
    ensures HasSuffix(r, t) ==> t[|t| - 1] == r[|r| - 1]
  {
    if HasSuffix(r, t) { assert r[|r| - |t|..][|t| - 1] == r[|r| - 1]; }
  }

  lemma NothingToCut(r: string, u: string, b: char)
    requires r != "" && r[|r| - 1] != b && u != "" && RunOf(u, b)
    ensures CutSuffix(r, u, |u| - 1) == r
  {
    forall n | 0 < n < |u| ensures !BreaksOff(r, u, n) { SuffixEnd(r, u[..n]); }
    var cut := CutSuffixResult(r, u, |u| - 1);
  }

  lemma RedactTwice(s: string, v: string, u: string, r: string)
    requires u != "" && RedactOne(s, v) == s && ReplaceAll(s, u) == r && CutSuffix(r, u, |u| - 1) == r
    ensures Redact(s, [v, u]) == r
  {
    assert [v, u][..1] == [v] && [v][..0] == [];
    assert Redact(s, [v]) == RedactOne(Redact(s, []), v);
  }

  /** Output and a second secret that make redaction spell `v`. */
  lemma ForgedByMask(v: string) returns (s: string, marker: string)
    requires Forgeable(v)
    ensures Contains(Redact(s, [v, marker]), v)
  {
    assert v != "" && MASK != "";
    var x, f, y := ForgeableSplits(v);
    var a := if v[0] == 'a' then 'b' else 'a';
    var b := if x != "" && x[|x| - 1] == 'c' then 'd' else 'c';
    marker := Repeat(b, 2 * |v|);
    assert '*' !in marker;
    hide *;
    var e := Repeat(a, |v|);
    s := x + marker + y + e;
    var r := x + MASK + y + e;
    MarkedIsClean(v, x, f, y, marker, a);
    RedactedAsBefore(s, v);
    assert s == x + marker + (y + e) && r == x + MASK + (y + e);
    SplitLength(v, x, f, y);
    MarkerReplaced(x, marker, y + e, b);
    LastOfRun(x + MASK + y, e, a);
    NothingToCut(r, marker, b);
    RedactTwice(s, v, marker, r);
    MaskSpells(v, x, f, y, e);
  }

  lemma SplitLength(v: string, x: string, f: string, y: string)
    requires v == x + f + y && Forges(x, f, y)
    ensures |x| < |v| && |y| < |v|
  {
  }

  lemma LastOfRun(p: string, e: string, a: char)
    requires e != "" && RunOf(e, a)
    ensures (p + e)[|p + e| - 1] == a
  {
  }

  lemma NotBeforeMarker(x: string, u: string, q: string, b: char, i: nat)
    requires RunOf(u, b) && |q| < |u| && i < |x| <= |u| && x[|x| - 1] != b
    ensures !At(x + u + q, u, i)
  {
    var s := x + u + q;
    assert s[|x| - 1] == x[|x| - 1];
    assert s[i..i + |u|][|x| - 1 - i] == s[|x| - 1];
  }

  lemma MarkerReplaced(x: string, u: string, q: string, b: char)
    requires RunOf(u, b) && |q| < |u| && |x| <= |u| && (x == "" || x[|x| - 1] != b)
    ensures ReplaceAll(x + u + q, u) == x + MASK + q
  {
    hide *;
    forall i | 0 <= i < |x| ensures !At(x + u + q, u, i) { NotBeforeMarker(x, u, q, b, i); }
    ReplaceOnce(x, u, q);
  }

  /** The exact condition: a secret is sure to be gone, whatever the output, the other secrets and their
      order, exactly if masks cannot spell it. */
  lemma RedactionIsSureIff(v: string)
    requires v != ""
    ensures (forall s, secrets :: v in secrets ==> Clean(Redact(s, secrets), v)) <==> !Forgeable(v)
    ensures (forall s, secrets :: v in secrets ==> !Contains(Redact(s, secrets), v)) <==> !Forgeable(v)
  {
    if Forgeable(v) {
      var s, marker := ForgedByMask(v);
      var secrets := [v, marker];
      assert v in secrets && !Clean(Redact(s, secrets), v);
    } else {
      forall s, secrets | v in secrets ensures Clean(Redact(s, secrets), v) { RedactCleans(s, secrets, v); }
    }
  }

  datatype Capture = Capture(text: string, truncated: bool)

  function Limited(s: string, limit: nat): Capture {
    if |s| <= limit then Capture(s, false) else Capture(s[..limit], true)
  }

  /** redactAndLimit */
  method RedactAndLimit(output: string, secrets: seq<string>, limit: nat) returns (r: Capture)
    ensures r == Limited(Redact(output, secrets), limit)
    ensures |r.text| <= limit
    ensures forall v :: v in secrets && v != "" && !Forgeable(v) ==>
      !Contains(r.text, v) && (!r.truncated ==> Clean(r.text, v))
  {
    var text := output;
    for i := 0 to |secrets|
      invariant text == Redact(output, secrets[..i])
    {
      assert secrets[..i + 1][..i] == secrets[..i];
      var value := secrets[i];
      if value != "" {
        text := ReplaceAll(text, value);
        ghost var whole := text;
        var n := |value| - 1;
        while n > 0
          invariant 0 <= n < |value|
          invariant CutSuffix(whole, value, |value| - 1) == CutSuffix(text, value, n)
        {
          if HasSuffix(text, value[..n]) {
            text := text[..|text| - n] + MASK;
            break;
          }
          n := n - 1;
        }
        assert text == CutSuffix(whole, value, |value| - 1);
      }
    }
    assert secrets[..|secrets|] == secrets;
    r := Limited(text, limit);
    forall v | v in secrets && v != "" && !Forgeable(v) ensures !Contains(r.text, v)
      && (!r.truncated ==> Clean(r.text, v)) {
      RedactCleans(output, secrets, v);
      if Contains(r.text, v) && r.truncated { PrefixContains(text, limit, v); }
    }
  }

  // ---- capturing the output ----

  function Written(writes: seq<string>): string {
    if writes == [] then "" else Written(writes[..|writes| - 1]) + writes[|writes| - 1]
  }

  /** The first `limit` bytes. A limit of 0 or less captures nothing and reports no truncation. */
  function Captured(all: string, limit: int): Capture {
    if limit <= 0 then Capture("", false) else Limited(all, limit)
  }

  class LimitedBuffer {
    const limit: int
    var buffer: string
    var truncated: bool
    ghost var all: string

    /** What has been captured is exactly a limited prefix of everything written. */
    ghost predicate Valid()
      reads this
    {
      Capture(buffer, truncated) == Captured(all, limit)
    }

    constructor (limit: int)
      ensures Valid() && all == "" && this.limit == limit
    {
      this.limit, buffer, truncated, all := limit, "", false, "";
    }

    method Write(data: string) returns (written: nat)
      requires Valid()
      modifies this
      ensures Valid() && all == old(all) + data && written == |data|
    {
      all := all + data;
      written := |data|;
      if limit <= 0 { return; }
      var remaining := limit - |buffer|;
      if remaining > 0 {
        if remaining > |data| { remaining := |data|; }
        buffer := buffer + data[..remaining];
      }
      if |data| > remaining { truncated := true; }
    }
  }

  /** However the command's writes are split, the buffer ends with the first `limit` bytes of all of them, and
      says whether there were more. */
  method CaptureWrites(writes: seq<string>, limit: int) returns (captured: Capture)
    ensures captured == Captured(Written(writes), limit)
  {
    var buffer := new LimitedBuffer(limit);
    for i := 0 to |writes|
      invariant buffer.Valid() && buffer.all == Written(writes[..i]) && buffer.limit == limit
    {
      assert writes[..i + 1][..i] == writes[..i];
      var _ := buffer.Write(writes[i]);
    }
    assert writes[..|writes|] == writes;
    captured := Capture(buffer.buffer, buffer.truncated);
  }

  /** What execute reports of a command: captured up to the limit, redacted, and limited again. A secret that
      the capture cut short leaves no beginning behind, unless the redacted text itself had to be cut. */
  method CommandOutput(writes: seq<string>, secrets: seq<string>, limit: nat) returns (output: Capture)
    requires limit > 0
    ensures output.text == Limited(Redact(Captured(Written(writes), limit).text, secrets), limit).text
      && |output.text| <= limit
    ensures |Written(writes)| > limit ==> output.truncated
    ensures forall v :: v in secrets && v != "" && !Forgeable(v) ==> !Contains(output.text, v)
    ensures |Redact(Captured(Written(writes), limit).text, secrets)| <= limit ==>
      forall v :: v in secrets && v != "" && !Forgeable(v) ==> Clean(output.text, v)
  {
    var raw := CaptureWrites(writes, limit);
    var redacted := RedactAndLimit(raw.text, secrets, limit);
    output := Capture(redacted.text, redacted.truncated || raw.truncated);
  }
}
