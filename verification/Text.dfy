/** Substrings and suffixes. */
module Text {

  /** strings.Contains */
  ghost predicate Contains(s: string, t: string) {
    exists i :: 0 <= i <= |s| - |t| && At(s, t, i)
  }

  predicate At(s: string, t: string, i: int)
    requires 0 <= i <= |s| - |t|
  {
    s[i..i + |t|] == t
  }

  /** strings.HasSuffix */
  predicate HasSuffix(s: string, t: string) { |t| <= |s| && s[|s| - |t|..] == t }

  lemma ContainsMore(s: string, before: string, after: string, t: string)
    requires Contains(s, t)
    ensures Contains(before + s + after, t)
  {
    var i :| 0 <= i <= |s| - |t| && At(s, t, i);
    var more := before + s + after;
    assert more[|before| + i..|before| + i + |t|] == s[i..i + |t|];
    assert At(more, t, |before| + i);
  }

  lemma PrefixContains(s: string, n: nat, t: string)
    requires n <= |s| && Contains(s[..n], t)
    ensures Contains(s, t)
  {
    ContainsMore(s[..n], "", s[n..], t);
    assert "" + s[..n] + s[n..] == s;
  }
}
