/** What replacing a secret does to a text, by the parts between its matches. */
module Replacement {
  import opened Text
  import opened Redaction

  /** The parts, with `between` after each but the last. */
  function Spliced(parts: seq<string>, between: string): string
    requires parts != []
  {
    if |parts| == 1 then parts[0] else parts[0] + between + Spliced(parts[1..], between)
  }

  /** A part with what follows it up to where the next match is complete. */
  function Reach(parts: seq<string>, i: nat, v: string): string
    requires i < |parts| && v != ""
  {
    if i == |parts| - 1 then parts[i] else parts[i] + v[..|v| - 1]
  }

  /** No match starts in a part: neither inside it nor reaching from it into the match that follows. */
  ghost predicate Between(parts: seq<string>, v: string) {
    v != "" && parts != [] && forall i :: 0 <= i < |parts| ==> !Contains(Reach(parts, i, v), v)
  }

  /** Replacing cuts the text at its leftmost matches, puts a mask for each, and keeps everything else. */
  lemma {:induction false} ReplaceSplits(s: string, v: string) returns (parts: seq<string>)
    requires v != ""
    ensures Between(parts, v) && s == Spliced(parts, v) && ReplaceAll(s, v) == Spliced(parts, MASK)
    decreases |s|
  {
    if |s| < |v| {
      parts := [s];
    } else {
      hide Between, Spliced, ReplaceAll;
      var step, head := ReplaceStep(s, v);
      var rest := ReplaceSplits(s[step..], v);
      if v <= s {
        parts := [""] + rest;
        MatchFirst(rest, v);
      } else {
        parts := [head + rest[0]] + rest[1..];
        SpliceMore(s[0], rest, v);
        SpliceMore(s[0], rest, MASK);
        BetweenMore(s, rest, v);
      }
      assert s == s[..step] + s[step..];
    }
  }

  lemma MatchFirst(rest: seq<string>, v: string)
    requires Between(rest, v)
    ensures Between([""] + rest, v)
    ensures forall between: string ::
      Spliced([""] + rest, between) == between + Spliced(rest, between)
  {
    var parts := [""] + rest;
    assert parts[1..] == rest;
    forall i | 0 <= i < |parts| ensures !Contains(Reach(parts, i, v), v) {
      if i > 0 { assert Reach(parts, i, v) == Reach(rest, i - 1, v); }
    }
  }

  lemma SpliceMore(c: char, rest: seq<string>, between: string)
    requires rest != []
    ensures Spliced([[c] + rest[0]] + rest[1..], between) == [c] + Spliced(rest, between)
  {
    assert ([[c] + rest[0]] + rest[1..])[1..] == rest[1..];
  }

  lemma ReachIsStart(parts: seq<string>, v: string)
    requires parts != [] && v != ""
    ensures Reach(parts, 0, v) <= Spliced(parts, v)
  {
    if |parts| > 1 { assert v == v[..|v| - 1] + v[|v| - 1..]; }
  }

  /** One more character at the start makes no match, unless the text now begins with one. */
  lemma NoMatchAtStart(s: string, tail: string, v: string)
    requires s != "" && !(v <= s) && tail <= s[1..] && !Contains(tail, v)
    ensures !Contains([s[0]] + tail, v)
  {
    var first := [s[0]] + tail;
    assert s == [s[0]] + s[1..];
    assert first <= s;
    forall i | 0 <= i <= |first| - |v| ensures !At(first, v, i) {
      if i == 0 {
        assert first[..|v|] == s[..|v|];
      } else {
        assert first[i..i + |v|] == tail[i - 1..i - 1 + |v|];
        assert !At(tail, v, i - 1);
      }
    }
  }

  lemma BetweenMore(s: string, rest: seq<string>, v: string)
    requires Between(rest, v) && s != "" && !(v <= s) && s[1..] == Spliced(rest, v)
    ensures Between([[s[0]] + rest[0]] + rest[1..], v)
  {
    hide Spliced, Contains;
    var parts := [[s[0]] + rest[0]] + rest[1..];
    forall i | 0 <= i < |parts| ensures !Contains(Reach(parts, i, v), v) {
      if i == 0 {
        ReachIsStart(rest, v);
        NoMatchAtStart(s, Reach(rest, 0, v), v);
        assert Reach(parts, 0, v) == [s[0]] + Reach(rest, 0, v);
      } else {
        assert Reach(parts, i, v) == Reach(rest, i, v);
      }
    }
  }
}
