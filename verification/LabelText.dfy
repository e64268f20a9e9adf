/** The two ways the metrics registry writes label values: quoted into series keys, and escaped into the
    Prometheus text. Strings are sequences of Unicode characters. */
module LabelText {

  // ---- escapeLabelValue ----

  /** strings.ReplaceAll for a pattern of one character. */
  function ReplaceChar(s: string, c: char, text: string): string {
    if s == "" then "" else (if s[0] == c then text else [s[0]]) + ReplaceChar(s[1..], c, text)
  }

  /** Three replacements, one after the other. */
  function EscapeValue(value: string): string {
    ReplaceChar(ReplaceChar(ReplaceChar(value, '\\', "\\\\"), '\n', "\\n"), '"', "\\\"")
  }

  function EscapeChar(c: char): string {
    if c == '\\' then "\\\\" else if c == '\n' then "\\n" else if c == '"' then "\\\"" else [c]
  }

  /** One pass over the value. */
  function EscapeOnce(value: string): string {
    if value == "" then "" else EscapeChar(value[0]) + EscapeOnce(value[1..])
  }

  lemma {:induction false} ReplaceConcat(s: string, t: string, c: char, text: string)
    ensures ReplaceChar(s + t, c, text) == ReplaceChar(s, c, text) + ReplaceChar(t, c, text)
  {
    if s == "" {
      assert s + t == t;
    } else {
      assert (s + t)[1..] == s[1..] + t;
      ReplaceConcat(s[1..], t, c, text);
    }
  }

  lemma {:induction false} ReplaceNothing(s: string, c: char, text: string)
    requires c !in s
    ensures ReplaceChar(s, c, text) == s
  {
    if s != "" {
      ReplaceNothing(s[1..], c, text);
      assert [s[0]] + s[1..] == s;
    }
  }

  lemma EscapeOneChar(c: char)
    ensures ReplaceChar(ReplaceChar(ReplaceChar([c], '\\', "\\\\"), '\n', "\\n"), '"', "\\\"") == EscapeChar(c)
  {
    var first := ReplaceChar([c], '\\', "\\\\");
    assert [c][1..] == "" && ReplaceChar("", '\\', "\\\\") == "";
    assert first == (if c == '\\' then "\\\\" else [c]) + "";
    assert first == if c == '\\' then "\\\\" else [c];
    var second := ReplaceChar(first, '\n', "\\n");
    if c != '\n' { ReplaceNothing(first, '\n', "\\n"); }
    if c != '"' { ReplaceNothing(second, '"', "\\\""); }
  }

  /** The later replacements do not touch what the earlier ones wrote: three passes equal one. */
  lemma {:induction false} ThreePassesAreOne(value: string)
    ensures EscapeValue(value) == EscapeOnce(value)
  {
    if value != "" {
      var head, tail := [value[0]], value[1..];
      assert value == head + tail;
      ReplaceConcat(head, tail, '\\', "\\\\");
      ReplaceConcat(ReplaceChar(head, '\\', "\\\\"), ReplaceChar(tail, '\\', "\\\\"), '\n', "\\n");
      ReplaceConcat(ReplaceChar(ReplaceChar(head, '\\', "\\\\"), '\n', "\\n"),
                    ReplaceChar(ReplaceChar(tail, '\\', "\\\\"), '\n', "\\n"), '"', "\\\"");
      EscapeOneChar(value[0]);
      ThreePassesAreOne(tail);
    }
  }

  lemma SameTail(a: string, b: string, x: string, y: string)
    requires |a| == |b| && a + x == b + y
    ensures a == b && x == y
  {
    assert (a + x)[..|a|] == a && (b + y)[..|b|] == b;
    assert (a + x)[|a|..] == x && (b + y)[|b|..] == y;
  }

  lemma EscapeCharDecodes(c: char, d: char, x: string, y: string)
    requires EscapeChar(c) + x == EscapeChar(d) + y
    ensures c == d && x == y
  {
    assert (EscapeChar(c) + x)[0] == EscapeChar(c)[0] && (EscapeChar(d) + y)[0] == EscapeChar(d)[0];
    if |EscapeChar(c)| == 2 && |EscapeChar(d)| == 2 {
      assert (EscapeChar(c) + x)[1] == EscapeChar(c)[1] && (EscapeChar(d) + y)[1] == EscapeChar(d)[1];
    }
    SameTail(EscapeChar(c), EscapeChar(d), x, y);
  }

  lemma EscapedStarts(v: string, x: string)
    ensures var s := EscapeOnce(v) + "\"" + x;
      s != "" && (s[0] == '"' <==> v == "") && (v == "" ==> s[1..] == x)
  {
    if v != "" { assert (EscapeOnce(v) + "\"" + x)[0] == EscapeChar(v[0])[0]; }
  }

  /** An escaped value ends at the first quote that follows it, and determines the value. */
  lemma {:induction false} EscapedDecodes(v: string, w: string, x: string, y: string)
    requires EscapeOnce(v) + "\"" + x == EscapeOnce(w) + "\"" + y
    ensures v == w && x == y
  {
    EscapedStarts(v, x);
    EscapedStarts(w, y);
    if v != "" {
      var vRest, wRest := EscapeOnce(v[1..]) + "\"" + x, EscapeOnce(w[1..]) + "\"" + y;
      EscapeStep(v, x);
      EscapeStep(w, y);
      EscapeCharDecodes(v[0], w[0], vRest, wRest);
      EscapedDecodes(v[1..], w[1..], x, y);
      assert v == [v[0]] + v[1..] && w == [w[0]] + w[1..];
    }
  }

  // ---- strconv.Quote ----

  const DIGITS := "0123456789abcdef"

  /** `n` in hexadecimal, in exactly `width` digits. */
  function Hex(n: nat, width: nat): (r: string)
    ensures |r| == width
  {
    if width == 0 then "" else Hex(n / 16, width - 1) + [DIGITS[n % 16]]
  }

  predicate AsciiPrintable(c: char) { ' ' <= c <= '~' }

  /** One character inside the quotes. `printable` is unicode.IsPrint beyond ASCII. */
  function QuoteChar(c: char, printable: char -> bool): string {
    if c == '"' then "\\\""
    else if c == '\\' then "\\\\"
    else if AsciiPrintable(c) then [c]
    else if c as int == 7 then "\\a"
    else if c as int == 8 then "\\b"
    else if c as int == 12 then "\\f"
    else if c as int == 10 then "\\n"
    else if c as int == 13 then "\\r"
    else if c as int == 9 then "\\t"
    else if c as int == 11 then "\\v"
    else if c as int < 0x80 then "\\x" + Hex(c as nat, 2)
    else if printable(c) then [c]
    else if c as int < 0x10000 then "\\u" + Hex(c as nat, 4)
    else "\\U" + Hex(c as nat, 8)
  }

  function QuoteBody(s: string, printable: char -> bool): string {
    if s == "" then "" else QuoteChar(s[0], printable) + QuoteBody(s[1..], printable)
  }

  function Quote(s: string, printable: char -> bool): string { "\"" + QuoteBody(s, printable) + "\"" }

  function Power16(width: nat): nat { if width == 0 then 1 else 16 * Power16(width - 1) }

  lemma {:induction false} HexInjective(m: nat, n: nat, width: nat)
    requires m < Power16(width) && n < Power16(width) && Hex(m, width) == Hex(n, width)
    ensures m == n
  {
    if width > 0 {
      var a, b := Hex(m / 16, width - 1), Hex(n / 16, width - 1);
      assert (a + [DIGITS[m % 16]])[..width - 1] == a && (b + [DIGITS[n % 16]])[..width - 1] == b;
      assert (a + [DIGITS[m % 16]])[width - 1] == DIGITS[m % 16] && (b + [DIGITS[n % 16]])[width - 1] == DIGITS[n % 16];
      DigitInjective(m % 16, n % 16);
      HexInjective(m / 16, n / 16, width - 1);
    }
  }

  lemma DigitInjective(m: nat, n: nat)
    requires m < 16 && n < 16 && DIGITS[m] == DIGITS[n]
    ensures m == n
  {
  }

  /** How many characters an escape takes, told by the one after the backslash. */
  function EscapeWidth(kind: char): nat {
    if kind == 'x' then 4 else if kind == 'u' then 6 else if kind == 'U' then 10 else 2
  }

  lemma QuoteCharShape(c: char, printable: char -> bool)
    ensures var q := QuoteChar(c, printable);
      && q != "" && q[0] != '"'
      && (q[0] != '\\' ==> q == [c])
      && (q[0] == '\\' ==> |q| >= 2 && |q| == EscapeWidth(q[1]))
  {
  }

  lemma HexPart(c: char, d: char, lead: string, width: nat)
    requires lead + Hex(c as nat, width) == lead + Hex(d as nat, width) && c as nat < Power16(width)
      && d as nat < Power16(width)
    ensures c == d
  {
    SameTail(lead, lead, Hex(c as nat, width), Hex(d as nat, width));
    HexInjective(c as nat, d as nat, width);
  }

  lemma QuoteCharInjective(c: char, d: char, printable: char -> bool)
    requires QuoteChar(c, printable) == QuoteChar(d, printable)
    ensures c == d
  {
    var q := QuoteChar(c, printable);
    QuoteCharShape(c, printable);
    QuoteCharShape(d, printable);
    assert Power16(2) == 256 && Power16(4) == 0x10000 && Power16(8) == 0x1_0000_0000;
    if q[0] == '\\' && q[1] == 'x' {
      HexPart(c, d, "\\x", 2);
    } else if q[0] == '\\' && q[1] == 'u' {
      HexPart(c, d, "\\u", 4);
    } else if q[0] == '\\' && q[1] == 'U' {
      HexPart(c, d, "\\U", 8);
    }
  }

  lemma QuoteCharDecodes(c: char, d: char, x: string, y: string, printable: char -> bool)
    requires QuoteChar(c, printable) + x == QuoteChar(d, printable) + y
    ensures c == d && x == y
  {
    var p, q := QuoteChar(c, printable), QuoteChar(d, printable);
    QuoteCharShape(c, printable);
    QuoteCharShape(d, printable);
    assert (p + x)[0] == p[0] && (q + y)[0] == q[0];
    if p[0] == '\\' { assert (p + x)[1] == p[1] && (q + y)[1] == q[1]; }
    SameTail(p, q, x, y);
    QuoteCharInjective(c, d, printable);
  }

  lemma QuoteStep(v: string, x: string, printable: char -> bool)
    requires v != ""
    ensures QuoteBody(v, printable) + "\"" + x == QuoteChar(v[0], printable) + (QuoteBody(v[1..], printable) + "\"" + x)
  {
  }

  lemma EscapeStep(v: string, x: string)
    requires v != ""
    ensures EscapeOnce(v) + "\"" + x == EscapeChar(v[0]) + (EscapeOnce(v[1..]) + "\"" + x)
  {
  }

  lemma QuotedStarts(v: string, x: string, printable: char -> bool)
    ensures var s := QuoteBody(v, printable) + "\"" + x;
      s != "" && (s[0] == '"' <==> v == "") && (v == "" ==> s[1..] == x)
  {
    if v != "" {
      QuoteCharShape(v[0], printable);
      assert (QuoteBody(v, printable) + "\"" + x)[0] == QuoteChar(v[0], printable)[0];
    }
  }

  /** A quoted value ends at its closing quote, and determines the value. */
  lemma {:induction false} QuotedDecodes(v: string, w: string, x: string, y: string, printable: char -> bool)
    requires QuoteBody(v, printable) + "\"" + x == QuoteBody(w, printable) + "\"" + y
    ensures v == w && x == y
  {
    QuotedStarts(v, x, printable);
    QuotedStarts(w, y, printable);
    if v != "" {
      var vRest, wRest := QuoteBody(v[1..], printable) + "\"" + x, QuoteBody(w[1..], printable) + "\"" + y;
      QuoteStep(v, x, printable);
      QuoteStep(w, y, printable);
      QuoteCharDecodes(v[0], w[0], vRest, wRest, printable);
      QuotedDecodes(v[1..], w[1..], x, y, printable);
      assert v == [v[0]] + v[1..] && w == [w[0]] + w[1..];
    }
  }
}
