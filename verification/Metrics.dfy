/** Metric series: keyed by a text made of the labels, they behave as if keyed by the label sets themselves.
    Values are real numbers; rounding and infinities are left out. */
module Metrics {
  import opened Common
  import opened LabelText

  type Labels = map<string, string>

  // ---- names ----

  /** sort.Strings, and no repetition. */
  ghost predicate Sorted(names: seq<string>) {
    forall i, j :: 0 <= i < j < |names| ==> LexLess(names[i], names[j])
  }

  /** A set of names has one sorted list. */
  lemma {:induction false} SortedIsUnique(a: seq<string>, b: seq<string>)
    requires Sorted(a) && Sorted(b) && forall n :: n in a <==> n in b
    ensures a == b
  {
    assert forall i :: 0 <= i < |a| ==> a[i] in a;
    assert forall i :: 0 <= i < |b| ==> b[i] in b;
    if a != [] && b != [] {
      LeastFirst(a, b);
      LeastFirst(b, a);
      if a[0] != b[0] { LexTransitive(a[0], b[0], a[0]); LexIrreflexive(a[0]); }
      forall n ensures n in a[1..] <==> n in b[1..] {
        RestHas(a, n);
        RestHas(b, n);
      }
      SortedIsUnique(a[1..], b[1..]);
      assert a == [a[0]] + a[1..] && b == [b[0]] + b[1..];
    }
  }

  lemma LeastFirst(a: seq<string>, b: seq<string>)
    requires a != [] && b != [] && Sorted(a) && b[0] in a
    ensures a[0] == b[0] || LexLess(a[0], b[0])
  {
    var i :| 0 <= i < |a| && a[i] == b[0];
  }

  lemma RestHas(a: seq<string>, n: string)
    requires a != [] && Sorted(a)
    ensures n in a[1..] <==> n in a && n != a[0]
  {
    LexIrreflexive(a[0]);
    if n in a && n != a[0] {
      var i :| 0 <= i < |a| && a[i] == n;
      assert a[1..][i - 1] == n;
    }
    if n in a[1..] {
      var i :| 0 <= i < |a[1..]| && a[1..][i] == n;
      assert a[i + 1] == n && LexLess(a[0], a[i + 1]);
    }
  }

  /** An identifier's characters; in particular neither '=' nor a quote. */
  predicate IdentifierChar(c: char) { c == '_' || 'a' <= c <= 'z' || 'A' <= c <= 'Z' || '0' <= c <= '9' }

  /** validIdentifier without colons, as for label names. */
  predicate ValidIdentifier(name: string) {
    && name != "" && !("__" <= name) && !('0' <= name[0] <= '9')
    && forall i :: 0 <= i < |name| ==> IdentifierChar(name[i])
  }

  // ---- labelsKey ----

  /** The series key: every name with its quoted value. */
  function LabelsKey(names: seq<string>, labels: Labels, printable: char -> bool): string
    requires forall n :: n in names ==> n in labels
  {
    if names == [] then ""
    else LabelsKey(names[..|names| - 1], labels, printable) + KeyPart(names[|names| - 1], labels[names[|names| - 1]],
      printable)
  }

  function KeyPart(name: string, value: string, printable: char -> bool): string {
    name + "=" + Quote(value, printable) + ";"
  }

  lemma Associative(a: string, b: string, c: string)
    ensures a + b + c == a + (b + c)
  {
  }

  lemma KeyPartShape(name: string, body: string, x: string)
    ensures name + "=" + ("\"" + body + "\"") + ";" + x == name + "=\"" + (body + "\"" + (";" + x))
  {
    assert name + "=\"" == name + "=" + "\"";
    Associative(name + "=", "\"", body + "\"" + (";" + x));
  }

  lemma KeyPartDecodes(name: string, v: string, w: string, x: string, y: string, printable: char -> bool)
    requires KeyPart(name, v, printable) + x == KeyPart(name, w, printable) + y
    ensures v == w && x == y
  {
    var head := name + "=\"";
    var left, right := QuoteBody(v, printable) + "\"" + (";" + x), QuoteBody(w, printable) + "\"" + (";" + y);
    KeyPartShape(name, QuoteBody(v, printable), x);
    KeyPartShape(name, QuoteBody(w, printable), y);
    SameTail(head, head, left, right);
    QuotedDecodes(v, w, ";" + x, ";" + y, printable);
    SameTail(";", ";", x, y);
  }

  lemma KeyStep(names: seq<string>, labels: Labels, x: string, printable: char -> bool)
    requires names != [] && forall n :: n in names ==> n in labels
    ensures var last := names[|names| - 1];
      LabelsKey(names, labels, printable) + x == LabelsKey(names[..|names| - 1], labels,
        printable) + (KeyPart(last, labels[last], printable) + x)
  {
    var init, last := names[..|names| - 1], names[|names| - 1];
    Associative(LabelsKey(init, labels, printable), KeyPart(last, labels[last], printable), x);
  }

  lemma {:induction false} KeyDecodes(names: seq<string>, a: Labels, b: Labels, x: string, y: string,
                                      printable: char -> bool)
    requires forall n :: n in names ==> n in a && n in b
    requires LabelsKey(names, a, printable) + x == LabelsKey(names, b, printable) + y
    ensures x == y && forall n :: n in names ==> a[n] == b[n]
  {
    if names == [] {
      assert LabelsKey(names, a, printable) + x == x && LabelsKey(names, b, printable) + y == y;
    } else {
      var init, last := names[..|names| - 1], names[|names| - 1];
      var left, right := KeyPart(last, a[last], printable) + x, KeyPart(last, b[last], printable) + y;
      KeyStep(names, a, x, printable);
      KeyStep(names, b, y, printable);
      KeyDecodes(init, a, b, left, right, printable);
      KeyPartDecodes(last, a[last], b[last], x, y, printable);
      forall n | n in names ensures a[n] == b[n] { assert n in init || n == last; }
    }
  }

  ghost predicate Fits(names: seq<string>, labels: Labels) { forall n :: n in labels <==> n in names }

  /** Two label sets of one metric share a series exactly if they are equal. */
  lemma SameSeriesIff(names: seq<string>, a: Labels, b: Labels, printable: char -> bool)
    requires Fits(names, a) && Fits(names, b)
    ensures LabelsKey(names, a, printable) == LabelsKey(names, b, printable) <==> a == b
  {
    if LabelsKey(names, a, printable) == LabelsKey(names, b, printable) {
      KeyDecodes(names, a, b, "", "", printable);
      assert a.Keys == b.Keys;
    }
  }

  // ---- formatLabels ----

  /** The labels of one sample in the Prometheus text, for names in the given order. */
  function Listed(names: seq<string>, labels: Labels): string
    requires forall n :: n in names ==> n in labels
  {
    if names == [] then "}"
    else (names[0] + "=\"" + EscapeValue(labels[names[0]]) + "\"") + (if |names| > 1 then ","
      else "") + Listed(names[1..], labels)
  }

  function FormatLabels(names: seq<string>, labels: Labels): string
    requires forall n :: n in names ==> n in labels
  {
    if names == [] then "" else "{" + Listed(names, labels)
  }

  lemma {:induction false} NameEnds(m: string, n: string, x: string, y: string)
    requires '=' !in m && '=' !in n && m + "=" + x == n + "=" + y
    ensures m == n && x == y
  {
    var left, right := m + "=" + x, n + "=" + y;
    if m == "" || n == "" {
      NameStarts(m, x);
      NameStarts(n, y);
    } else {
      assert left[0] == m[0] && right[0] == n[0];
      assert left[1..] == m[1..] + "=" + x && right[1..] == n[1..] + "=" + y;
      NameEnds(m[1..], n[1..], x, y);
      assert m == [m[0]] + m[1..] && n == [n[0]] + n[1..];
    }
  }

  lemma NameStarts(m: string, x: string)
    requires '=' !in m
    ensures (m + "=" + x)[0] == '=' <==> m == ""
    ensures m == "" ==> (m + "=" + x)[1..] == x
  {
    if m != "" { assert (m + "=" + x)[0] == m[0]; }
  }

  predicate Named(names: seq<string>) {
    forall i :: 0 <= i < |names| ==> names[i] != "" && '=' !in names[i] && names[i][0] != '}'
  }

  /** What follows the first label. */
  function Follows(names: seq<string>, labels: Labels): string
    requires names != [] && forall n :: n in names ==> n in labels
  {
    (if |names| > 1 then "," else "") + Listed(names[1..], labels)
  }

  lemma Regroup(name: string, value: string, comma: string, rest: string)
    ensures (name + "=\"" + value + "\"") + comma + rest == name + "=" + ("\"" + (value + "\"" + (comma + rest)))
  {
    assert name + "=\"" == name + "=" + "\"";
  }

  lemma ListedShape(names: seq<string>, labels: Labels)
    requires names != [] && forall n :: n in names ==> n in labels
    ensures Listed(names, labels) ==
      names[0] + "=" + ("\"" + (EscapeOnce(labels[names[0]]) + "\"" + Follows(names, labels)))
  {
    ThreePassesAreOne(labels[names[0]]);
    Regroup(names[0], EscapeOnce(labels[names[0]]), if |names| > 1 then "," else "", Listed(names[1..], labels));
  }

  lemma ListedStarts(names: seq<string>, labels: Labels)
    requires Named(names) && forall n :: n in names ==> n in labels
    ensures Listed(names, labels) != "" && (Listed(names, labels)[0] == '}' <==> names == [])
  {
    if names != [] {
      ListedShape(names, labels);
      assert Listed(names, labels)[0] == names[0][0];
    }
  }

  lemma FollowsStarts(names: seq<string>, labels: Labels)
    requires names != [] && Named(names) && forall n :: n in names ==> n in labels
    ensures Follows(names, labels) != "" && (Follows(names, labels)[0] == ',' <==> |names| > 1)
    ensures |names| == 1 ==> names[1..] == []
  {
  }

  lemma {:induction false} ListedDecodes(m: seq<string>, n: seq<string>, a: Labels, b: Labels)
    requires Named(m) && Named(n) && (forall k :: k in m ==> k in a) && (forall k :: k in n ==> k in b)
    requires Listed(m, a) == Listed(n, b)
    ensures m == n && forall k :: k in m ==> a[k] == b[k]
    decreases |m|
  {
    ListedStarts(m, a);
    ListedStarts(n, b);
    if m != [] {
      ListedShape(m, a);
      ListedShape(n, b);
      var left, right := EscapeOnce(a[m[0]]) + "\"" + Follows(m, a), EscapeOnce(b[n[0]]) + "\"" + Follows(n, b);
      NameEnds(m[0], n[0], "\"" + left, "\"" + right);
      SameTail("\"", "\"", left, right);
      EscapedDecodes(a[m[0]], b[n[0]], Follows(m, a), Follows(n, b));
      FollowsStarts(m, a);
      FollowsStarts(n, b);
      var comma := if |m| > 1 then "," else "";
      SameTail(comma, comma, Listed(m[1..], a), Listed(n[1..], b));
      ListedDecodes(m[1..], n[1..], a, b);
      assert m == [m[0]] + m[1..] && n == [n[0]] + n[1..];
    }
  }

  lemma IdentifiersAreNamed(names: seq<string>)
    requires forall i :: 0 <= i < |names| ==> ValidIdentifier(names[i])
    ensures Named(names)
  {
    forall i | 0 <= i < |names| ensures '=' !in names[i] && names[i][0] != '}' { assert IdentifierChar(names[i][0]); }
  }

  /** Two label sets print alike exactly if they are equal, whatever characters their values hold. */
  lemma SamePrintIff(m: seq<string>, n: seq<string>, a: Labels, b: Labels)
    requires Sorted(m) && Sorted(n) && Fits(m, a) && Fits(n, b)
    requires (forall i :: 0 <= i < |m| ==> ValidIdentifier(m[i]))
      && (forall i :: 0 <= i < |n| ==> ValidIdentifier(n[i]))
    ensures FormatLabels(m, a) == FormatLabels(n, b) <==> a == b
  {
    IdentifiersAreNamed(m);
    IdentifiersAreNamed(n);
    if FormatLabels(m, a) == FormatLabels(n, b) {
      if m != [] && n != [] { SameTail("{", "{", Listed(m, a), Listed(n, b)); }
      if m != [] && n != [] { ListedDecodes(m, n, a, b); }
      assert a.Keys == b.Keys;
    }
    if a == b { SortedIsUnique(m, n); }
  }
}
