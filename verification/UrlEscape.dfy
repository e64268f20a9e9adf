/** Percent-encoding of one URL path segment, as url.PathEscape does it, and its decoding. Strings are
    sequences of bytes. */
module UrlEscape {
  import opened Common

  predicate Bytes(s: string) { forall i :: 0 <= i < |s| ==> s[i] as int < 256 }

  /** Bytes that url.PathEscape leaves alone: the unreserved ones and "$&+:=@". */
  predicate Plain(c: char) { Unreserved(c) || c == '$' || c == '&' || c == '+' || c == ':' || c == '=' || c == '@' }

  const HEX := "0123456789ABCDEF"

  function HexDigit(n: nat): char
    requires n < 16
  {
    HEX[n]
  }

  function HexValue(c: char): Option<nat> {
    if '0' <= c <= '9' then Some(c as nat - '0' as nat)
    else if 'A' <= c <= 'F' then Some(c as nat - 'A' as nat + 10)
    else if 'a' <= c <= 'f' then Some(c as nat - 'a' as nat + 10)
    else None
  }

  function EscapeByte(c: char): string
    requires c as int < 256
  {
    if Plain(c) then [c] else ['%', HexDigit(c as nat / 16), HexDigit(c as nat % 16)]
  }

  function Escape(s: string): string
    requires Bytes(s)
  {
    if s == "" then "" else EscapeByte(s[0]) + Escape(s[1..])
  }

  /** What the server's URL parser makes of a path; None for a malformed escape. */
  function Decode(s: string): Option<string> {
    if s == "" then Some("")
    else if s[0] != '%' then
      var rest := Decode(s[1..]);
      if rest.None? then None else Some([s[0]] + rest.value)
    else if |s| < 3 || HexValue(s[1]).None? || HexValue(s[2]).None? then None
    else
      var rest := Decode(s[3..]);
      if rest.None? then None else Some([(HexValue(s[1]).value * 16 + HexValue(s[2]).value) as char] + rest.value)
  }

  lemma HexRoundTrip(n: nat)
    requires n < 16
    ensures HexValue(HexDigit(n)) == Some(n) && HexDigit(n) != '/'
  {
  }

  function Prepend(s: string, rest: Option<string>): Option<string> {
    if rest.None? then None else Some(s + rest.value)
  }

  lemma PrependTwice(c: char, s: string, rest: Option<string>)
    ensures Prepend([c], Prepend(s, rest)) == Prepend([c] + s, rest)
  {
    if rest.Some? { assert [c] + (s + rest.value) == [c] + s + rest.value; }
  }

  lemma DecodeByte(c: char, tail: string)
    requires c as int < 256
    ensures Decode(EscapeByte(c) + tail) == Prepend([c], Decode(tail))
  {
    var n := c as nat;
    HexRoundTrip(n / 16);
    HexRoundTrip(n % 16);
    if Plain(c) {
      assert ([c] + tail)[1..] == tail;
    } else {
      assert (EscapeByte(c) + tail)[3..] == tail;
      assert n / 16 * 16 + n % 16 == n;
    }
  }

  /** Decoding a text that starts with an escaped segment gives the segment back, whatever follows. */
  lemma {:induction false} DecodeEscape(s: string, after: string)
    requires Bytes(s)
    ensures Decode(Escape(s) + after) == Prepend(s, Decode(after))
  {
    if s == "" {
      assert Escape(s) + after == after;
      if Decode(after).Some? { assert "" + Decode(after).value == Decode(after).value; }
    } else {
      var tail := Escape(s[1..]) + after;
      assert Escape(s) + after == EscapeByte(s[0]) + tail;
      DecodeByte(s[0], tail);
      DecodeEscape(s[1..], after);
      PrependTwice(s[0], s[1..], Decode(after));
      assert [s[0]] + s[1..] == s;
    }
  }

  /** Section 2.3 of RFC 3986: unreserved characters stand for themselves. */
  lemma {:induction false} EscapeUnreserved(s: string)
    requires forall i :: 0 <= i < |s| ==> Unreserved(s[i])
    ensures Bytes(s) && Escape(s) == s
  {
    if s != "" {
      EscapeUnreserved(s[1..]);
      assert s == [s[0]] + s[1..];
    }
  }

  /** An escaped segment never adds a path level. */
  lemma {:induction false} EscapeHasNoSlash(s: string)
    requires Bytes(s)
    ensures '/' !in Escape(s)
  {
    if s != "" {
      EscapeHasNoSlash(s[1..]);
      HexRoundTrip(s[0] as nat / 16);
      HexRoundTrip(s[0] as nat % 16);
    }
  }

  /** Escaping is injective. */
  lemma EscapeInjective(a: string, b: string)
    requires Bytes(a) && Bytes(b) && Escape(a) == Escape(b)
    ensures a == b
  {
    DecodeEscape(a, "");
    DecodeEscape(b, "");
    assert Escape(a) + "" == Escape(a) && Escape(b) + "" == Escape(b) && a + "" == a && b + "" == b;
  }
}
