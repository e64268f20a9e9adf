/** The metrics registry: registration, and counters and gauges whose series live in a map. */
module MetricRegistry {
  import opened Common
  import opened LabelText
  import opened Metrics

  datatype Kind = Counter | Gauge

  datatype Series = Series(labels: Labels, value: real)

  datatype Metric = Metric(kind: Kind, help: string, labelNames: seq<string>, series: map<string, Series>)

  datatype Update = Adding(labels: Labels, value: real) | Setting(labels: Labels, value: real)

  /** Every series is filed under the key of its own labels. */
  ghost predicate Filed(m: Metric, printable: char -> bool) {
    && Sorted(m.labelNames)
    && forall key :: key in m.series ==>
        Fits(m.labelNames, m.series[key].labels) && key == LabelsKey(m.labelNames, m.series[key].labels, printable)
  }

  /** The value of a label set, if it has a series. */
  ghost function Value(m: Metric, labels: Labels, printable: char -> bool): Option<real>
    requires Fits(m.labelNames, labels)
  {
    var key := LabelsKey(m.labelNames, labels, printable);
    if key in m.series then Some(m.series[key].value) else None
  }

  /** add and set, once the labels have been accepted. */
  function Change(m: Metric, u: Update, printable: char -> bool): Metric
    requires forall n :: n in m.labelNames ==> n in u.labels
  {
    var key := LabelsKey(m.labelNames, u.labels, printable);
    var before := if u.Adding? && key in m.series then m.series[key].value else 0.0;
    m.(series := m.series[key := Series(u.labels, before + u.value)])
  }

  ghost function Changes(m: Metric, us: seq<Update>, printable: char -> bool): (r: Metric)
    requires AllFit(m.labelNames, us)
    ensures r.labelNames == m.labelNames
  {
    if us == [] then m else Change(Changes(m, us[..|us| - 1], printable), us[|us| - 1], printable)
  }

  ghost predicate AllFit(names: seq<string>, us: seq<Update>) {
    forall i :: 0 <= i < |us| ==> Fits(names, us[i].labels)
  }

  /** What the updates of one label set amount to. */
  function Fold(us: seq<Update>, labels: Labels): Option<real> {
    if us == [] then None
    else
      var before, u := Fold(us[..|us| - 1], labels), us[|us| - 1];
      if u.labels != labels then before
      else if u.Setting? then Some(u.value)
      else Some((if before.Some? then before.value else 0.0) + u.value)
  }

  lemma ChangeIsFiled(m: Metric, u: Update, labels: Labels, printable: char -> bool)
    requires Filed(m, printable) && Fits(m.labelNames, u.labels) && Fits(m.labelNames, labels)
    ensures var r := Change(m, u, printable);
      && Filed(r, printable)
      && Value(r, labels, printable) ==
           if labels != u.labels then Value(m, labels, printable)
           else if u.Setting? then Some(u.value)
           else Some((if Value(m, labels, printable).Some? then Value(m, labels, printable).value else 0.0) + u.value)
  {
    SameSeriesIff(m.labelNames, labels, u.labels, printable);
  }

  /** Whatever the order of updates, each label set's series holds the fold of its own updates. */
  lemma {:induction false} SeriesFold(m: Metric, us: seq<Update>, labels: Labels, printable: char -> bool)
    requires Sorted(m.labelNames) && m.series == map[] && Fits(m.labelNames, labels)
    requires AllFit(m.labelNames, us)
    ensures Filed(Changes(m, us, printable), printable)
    ensures Value(Changes(m, us, printable), labels, printable) == Fold(us, labels)
  {
    if us != [] {
      var init, last := us[..|us| - 1], us[|us| - 1];
      assert AllFit(m.labelNames, init) && Fits(m.labelNames, last.labels);
      SeriesFold(m, init, labels, printable);
      ChangeIsFiled(Changes(m, init, printable), last, labels, printable);
    }
  }

  /** A value that was there is still there, and no smaller. */
  predicate NotBelow(before: Option<real>, after: Option<real>) {
    after.Some? && (before.Some? ==> before.value <= after.value)
  }

  /** A counter never falls, however many increments of any labels follow. */
  lemma {:induction false} CounterNeverFalls(us: seq<Update>, more: seq<Update>, labels: Labels)
    requires Fold(us, labels).Some? && forall u :: u in more ==> u.Adding? && u.value >= 0.0
    ensures NotBelow(Fold(us, labels), Fold(us + more, labels))
  {
    if more == [] {
      assert us + more == us;
    } else {
      var init, last := more[..|more| - 1], more[|more| - 1];
      CounterNeverFalls(us, init, labels);
      assert (us + more)[..|us + more| - 1] == us + init;
      assert last in more;
    }
  }

  ghost predicate Distinct(names: seq<string>) { forall i, j :: 0 <= i < j < |names| ==> names[i] != names[j] }

  lemma {:induction false} DistinctCounts(names: seq<string>)
    requires Distinct(names)
    ensures |set n | n in names| == |names|
  {
    if names != [] {
      var init, last := names[..|names| - 1], names[|names| - 1];
      assert names == init + [last];
      DistinctCounts(init);
      assert (set n | n in names) == (set n | n in init) + {last};
    }
  }

  lemma SubsetOfSameSize(a: set<string>, b: set<string>)
    requires a <= b && |a| == |b|
    ensures a == b
  {
    assert b == a + (b - a);
  }

  /** As many labels as names, and every name among them: the labels are exactly the names. */
  lemma CountsFit(names: seq<string>, labels: Labels)
    requires Sorted(names)
    ensures Fits(names, labels) <==> |labels| == |names| && forall i :: 0 <= i < |names| ==> names[i] in labels
  {
    var all := set n | n in names;
    forall i, j | 0 <= i < j < |names| ensures names[i] != names[j] { LexIrreflexive(names[i]); }
    DistinctCounts(names);
    assert |labels| == |labels.Keys|;
    if Fits(names, labels) { assert all == labels.Keys; }
    if |labels| == |names| && forall i :: 0 <= i < |names| ==> names[i] in labels {
      SubsetOfSameSize(all, labels.Keys);
    }
  }

  class Registry {
    const printable: char -> bool      // unicode.IsPrint
    const sensitive: string -> bool    // isSensitiveName
    var metrics: map<string, Metric>

    predicate ValidLabelName(name: string) { !sensitive(name) && ValidIdentifier(name) }

    ghost predicate Valid()
      reads this
    {
      forall name :: name in metrics ==> ValidMetric(metrics[name])
    }

    ghost predicate ValidMetric(m: Metric) {
      Filed(m, printable) && forall i :: 0 <= i < |m.labelNames| ==> ValidLabelName(m.labelNames[i])
    }

    lemma ChangeIsValid(m: Metric, u: Update)
      requires ValidMetric(m) && Fits(m.labelNames, u.labels)
      ensures ValidMetric(Change(m, u, printable))
    {
      ChangeIsFiled(m, u, u.labels, printable);
    }

    /** normalizedLabelNames: sorted; nothing if a name is invalid or repeated. */
    method Normalize(labelNames: seq<string>) returns (names: Option<seq<string>>)
      ensures names.Some? <==>
        Distinct(labelNames) && forall i :: 0 <= i < |labelNames| ==> ValidLabelName(labelNames[i])
      ensures names.Some? ==> Sorted(names.value) && forall n :: n in names.value <==> n in labelNames
    {
      var sorted := [];
      for i := 0 to |labelNames|
        invariant Sorted(sorted) && forall n :: n in sorted <==> n in labelNames[..i]
        invariant Distinct(labelNames[..i]) && forall j :: 0 <= j < i ==> ValidLabelName(labelNames[j])
      {
        assert labelNames[..i + 1] == labelNames[..i] + [labelNames[i]];
        if labelNames[i] in sorted {
          assert !Distinct(labelNames) by {
            var j :| 0 <= j < i && labelNames[..i][j] == labelNames[i];
            assert labelNames[j] == labelNames[i];
          }
          return None;
        }
        if !ValidLabelName(labelNames[i]) { return None; }
        sorted := InsertName(sorted, labelNames[i]);
      }
      assert labelNames[..|labelNames|] == labelNames;
      names := Some(sorted);
    }

    method InsertName(sorted: seq<string>, name: string) returns (r: seq<string>)
      requires Sorted(sorted) && name !in sorted
      ensures Sorted(r) && forall n :: n in r <==> n in sorted || n == name
    {
      var i := 0;
      while i < |sorted| && LexLess(sorted[i], name)
        invariant 0 <= i <= |sorted| && forall j :: 0 <= j < i ==> LexLess(sorted[j], name)
      {
        i := i + 1;
      }
      forall j | i <= j < |sorted| ensures LexLess(name, sorted[j]) {
        assert sorted[i] in sorted;
        LexConnected(name, sorted[i]);
        if j > i { LexTransitive(name, sorted[i], sorted[j]); }
      }
      r := sorted[..i] + [name] + sorted[i..];
      assert sorted == sorted[..i] + sorted[i..];
    }

    /** register: a metric is created once; naming it again needs the same kind, help and set of labels. */
    method Register(name: string, help: string, kind: Kind, labelNames: seq<string>, validName: bool) returns (ok: bool)
      requires Valid()
      modifies this
      ensures Valid()
      ensures name in old(metrics) ==> metrics == old(metrics)
      ensures name in old(metrics) ==>
        (ok <==>
          && validName && Distinct(labelNames)
          && (forall i :: 0 <= i < |labelNames| ==> ValidLabelName(labelNames[i]))
          && metrics[name].kind == kind && metrics[name].help == help
          && forall n :: n in metrics[name].labelNames <==> n in labelNames)
      ensures name !in old(metrics) && !ok ==> metrics == old(metrics)
      ensures name !in old(metrics) && ok ==>
        && metrics.Keys == old(metrics).Keys + {name}
        && (forall other :: other in old(metrics) ==> metrics[other] == old(metrics)[other])
        && metrics[name].kind == kind && metrics[name].help == help && metrics[name].series == map[]
        && Sorted(metrics[name].labelNames) && (forall n :: n in metrics[name].labelNames <==> n in labelNames)
    {
      if !validName { return false; }
      var names := Normalize(labelNames);
      if names.None? { return false; }
      if name in metrics {
        var m := metrics[name];
        if forall n :: n in m.labelNames <==> n in labelNames { SortedIsUnique(m.labelNames, names.value); }
        return m.kind == kind && m.help == help && m.labelNames == names.value;
      }
      forall i | 0 <= i < |names.value| ensures ValidLabelName(names.value[i]) { assert names.value[i] in labelNames; }
      metrics := metrics[name := Metric(kind, help, names.value, map[])];
      ok := true;
    }

    /** metricFor: the metric exists with this kind, and the labels are exactly its own, without NUL. */
    ghost predicate Accepts(name: string, kind: Kind, labels: Labels)
      reads this
    {
      && name in metrics && metrics[name].kind == kind && Fits(metrics[name].labelNames, labels)
      && forall n :: n in labels ==> '\0' !in labels[n]
    }

    method CheckLabels(name: string, kind: Kind, labels: Labels) returns (ok: bool)
      requires Valid()
      ensures ok <==> Accepts(name, kind, labels)
    {
      if name !in metrics || metrics[name].kind != kind { return false; }
      var names := metrics[name].labelNames;
      CountsFit(names, labels);
      forall n | n in names ensures ValidLabelName(n) { var i :| 0 <= i < |names| && names[i] == n; }
      var rest := labels.Keys;
      while rest != {}
        invariant rest <= labels.Keys
        invariant forall n :: n in labels && n !in rest ==> ValidLabelName(n) && '\0' !in labels[n]
        decreases |rest|
      {
        var n :| n in rest;
        rest := rest - {n};
        if !ValidLabelName(n) || '\0' in labels[n] { return false; }
      }
      if |labels| != |names| { return false; }
      for i := 0 to |names|
        invariant forall j :: 0 <= j < i ==> names[j] in labels
      {
        if names[i] !in labels { return false; }
      }
      ok := true;
    }

    /** Put the update into its series. */
    method File(name: string, u: Update)
      requires name in metrics && forall n :: n in metrics[name].labelNames ==> n in u.labels
      modifies this
      ensures metrics == old(metrics)[name := Change(old(metrics)[name], u, printable)]
    {
      var m := metrics[name];
      var key := LabelsKey(m.labelNames, u.labels, printable);
      var before := 0.0;
      if u.Adding? && key in m.series { before := m.series[key].value; }
      metrics := metrics[name := m.(series := m.series[key := Series(u.labels, before + u.value)])];
    }

    /** add and set. A counter's increment must not be negative. */
    method Apply(name: string, kind: Kind, u: Update) returns (ok: bool)
      requires Valid() && (kind == Counter ==> u.Adding?)
      modifies this
      ensures Valid()
      ensures ok <==> old(Accepts(name, kind, u.labels)) && (kind == Counter ==> u.value >= 0.0)
      ensures !ok ==> metrics == old(metrics)
      ensures ok ==> metrics == old(metrics)[name := Change(old(metrics)[name], u, printable)]
      ensures ok && kind == Counter ==>
        NotBelow(Value(old(metrics)[name], u.labels, printable), Value(metrics[name], u.labels, printable))
    {
      if kind == Counter && u.value < 0.0 { return false; }
      ok := CheckLabels(name, kind, u.labels);
      if !ok { return; }
      ChangeIsValid(metrics[name], u);
      ChangeIsFiled(metrics[name], u, u.labels, printable);
      File(name, u);
    }

    /** labelsKey */
    method BuildKey(names: seq<string>, labels: Labels) returns (key: string)
      requires forall n :: n in names ==> n in labels
      ensures key == LabelsKey(names, labels, printable)
    {
      key := "";
      for i := 0 to |names|
        invariant key == LabelsKey(names[..i], labels, printable)
      {
        assert names[..i + 1][..i] == names[..i];
        key := key + KeyPart(names[i], labels[names[i]], printable);
      }
      assert names[..|names|] == names;
    }

    /** The names of a label set, sorted. */
    method SortNames(labels: Labels) returns (sorted: seq<string>)
      ensures Sorted(sorted) && Fits(sorted, labels)
    {
      sorted := [];
      var rest := labels.Keys;
      while rest != {}
        invariant Sorted(sorted) && rest <= labels.Keys && forall n :: n in sorted <==> n in labels && n !in rest
        decreases |rest|
      {
        var n :| n in rest;
        rest := rest - {n};
        sorted := InsertName(sorted, n);
      }
    }

    /** formatLabels: the names sorted, then one label after the other. */
    method PrintLabels(labels: Labels) returns (text: string, names: seq<string>)
      ensures Sorted(names) && Fits(names, labels) && text == FormatLabels(names, labels)
    {
      var sorted := SortNames(labels);
      names := sorted;
      if sorted == [] { return "", names; }
      text := "{";
      assert sorted[0..] == sorted;
      for i := 0 to |sorted|
        invariant FormatLabels(sorted, labels) == text + Remaining(sorted, i, labels)
      {
        var name := sorted[i];
        var comma := if i > 0 then "," else "";
        var part := name + "=\"" + EscapeValue(labels[name]) + "\"";
        RemainingStep(text, sorted, i, labels);
        text := text + comma + part;
      }
      text := text + "}";
    }
  }

  /** What is still to be written before label `i`. */
  function Remaining(names: seq<string>, i: nat, labels: Labels): string
    requires i <= |names| && forall n :: n in names ==> n in labels
  {
    (if 0 < i < |names| then "," else "") + Listed(names[i..], labels)
  }

  lemma RemainingStep(text: string, names: seq<string>, i: nat, labels: Labels)
    requires i < |names| && forall n :: n in names ==> n in labels
    ensures text + Remaining(names, i, labels) ==
      (text + (if i > 0 then ","
        else "") + (names[i] + "=\"" + EscapeValue(labels[names[i]]) + "\"")) + Remaining(names, i + 1, labels)
  {
    var comma, part := if i > 0 then "," else "", names[i] + "=\"" + EscapeValue(labels[names[i]]) + "\"";
    assert names[i..][0] == names[i] && names[i..][1..] == names[i + 1..];
    Splice(text, comma, part, if i + 1 < |names| then "," else "", Listed(names[i + 1..], labels));
  }

  lemma Splice(text: string, comma: string, part: string, next: string, rest: string)
    ensures text + (comma + (part + next + rest)) == (text + comma + part) + (next + rest)
  {
  }
}
