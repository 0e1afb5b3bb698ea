/**
 The report of the gauge check over the declared types: which expressions it names, with
 which families, and what its silence says about the dashboards.
 */
module PromTypes {
  import opened Text
  import opened PromText
  import opened PromShield
  import opened PromMeaning
  import opened PromWalk
  import opened PromRender
  import opened PromMask
  import opened PromRoundTrip
  import opened PromSound
  import opened PromGate
  import opened PromSums

  // ------------------------------------------------------------ gauges a sum counts once per process

  /** The label names the process that was scraped. */
  predicate NamesProcess(name: string) {
    || name == "instance" || name == "pod" || name == "job" || name == "replica" || name == "container"
    || name == "kubernetes_pod_name" || name == "host"
  }

  /** One value per group whatever the number of processes, and groups that drop them. */
  predicate IsShield(op: string, grouping: Grouping) {
    && (op == "max" || op == "min" || op == "avg" || op == "group" || op == "quantile")
    && match grouping
       case Bare => true
       case By(labels) => forall name | name in labels :: !NamesProcess(name)
       case Without(labels) => exists name :: name in labels && NamesProcess(name)
  }

  lemma ShieldsCollapse(op: string, grouping: Grouping)
    ensures Collapses(op, grouping) <==> IsShield(op, grouping)
  {
    assert forall name :: name in REPLICA_LABELS <==> NamesProcess(name);
    match grouping
    case Bare =>
    case By(labels) =>
      assert forall name | name in labels :: exists k :: 0 <= k < |labels| && labels[k] == name;
    case Without(labels) =>
      assert forall k | 0 <= k < |labels| :: labels[k] in labels;
  }

  /** A series of the family: the family itself, or one of the three a histogram or summary adds. */
  predicate IsOfFamily(name: string, family: string) {
    || name == family + "_bucket" || name == family + "_sum" || name == family + "_count"
    || (name == family && !EndsWith(name, "_bucket") && !EndsWith(name, "_sum") && !EndsWith(name, "_count"))
  }

  lemma FamilyIs(name: string, family: string)
    ensures BaseMetricName(name) == family <==> IsOfFamily(name, family)
  {
    var base := BaseMetricName(name);
    EndingOf(name, "_bucket");
    EndingOf(name, "_sum");
    EndingOf(name, "_count");
    HasEnding(family, "_bucket");
    HasEnding(family, "_sum");
    HasEnding(family, "_count");
    OneEnding(family);
    hide EndsWith;
  }

  lemma EndingOf(name: string, ending: string)
    ensures EndsWith(name, ending) ==> name == name[..|name| - |ending|] + ending
  {
  }

  lemma HasEnding(front: string, ending: string)
    ensures EndsWith(front + ending, ending) && (front + ending)[..|front|] == front
  {
  }

  lemma OtherEnding(text: string, ending: string, k: nat)
    requires 0 < k <= |ending| && k <= |text| && text[|text| - k] != ending[|ending| - k]
    ensures !EndsWith(text, ending)
  {
    if |text| >= |ending| { assert text[|text| - |ending|..][|ending| - k] == text[|text| - k]; }
  }

  lemma OneEnding(family: string)
    ensures !EndsWith(family + "_sum", "_bucket") && !EndsWith(family + "_count", "_bucket")
    ensures !EndsWith(family + "_count", "_sum")
  {
    hide EndsWith;
    OtherEnding(family + "_sum", "_bucket", 1);
    OtherEnding(family + "_count", "_bucket", 2);
    OtherEnding(family + "_count", "_sum", 1);
  }

  /** The reference is read with no shield around it. */
  predicate IsUnshielded(e: Expr, reference: string) {
    match e
    case Metric(r) => r == reference
    case PerSeries(_, arg) => IsUnshielded(arg, reference)
    case Paired(left, right) => IsUnshielded(left, reference) || IsUnshielded(right, reference)
    case Agg(op, grouping, arg) => !IsShield(op, grouping) && IsUnshielded(arg, reference)
  }

  /** An unshielded reference of the expression reads the family. */
  ghost predicate Reads(e: Expr, family: string) {
    exists reference :: IsUnshielded(e, reference) && IsOfFamily(MetricName(reference), family)
  }

  lemma {:induction false} TreeWalkMeaning(e: Expr, gauges: set<string>, shielded: bool, family: string)
    ensures family in TreeWalk(e, gauges, shielded) <==> !shielded && family in gauges && Reads(e, family)
  {
    hide IsOfFamily, BaseMetricName, IsShield, Collapses, MetricName;
    match e
    case Metric(reference) =>
      FamilyIs(MetricName(reference), family);
      assert IsUnshielded(e, reference);
    case PerSeries(_, arg) =>
      TreeWalkMeaning(arg, gauges, shielded, family);
      ReadsBelow(e, arg, family);
    case Paired(left, right) =>
      TreeWalkMeaning(left, gauges, shielded, family);
      TreeWalkMeaning(right, gauges, shielded, family);
      ReadsOfPair(left, right, family);
    case Agg(op, grouping, arg) =>
      ShieldsCollapse(op, grouping);
      TreeWalkMeaning(arg, gauges, shielded || Collapses(op, grouping), family);
      ReadsOfAgg(op, grouping, arg, family);
  }

  lemma ReadsBelow(e: Expr, arg: Expr, family: string)
    requires forall reference :: IsUnshielded(e, reference) <==> IsUnshielded(arg, reference)
    ensures Reads(e, family) <==> Reads(arg, family)
  {
    hide IsUnshielded, IsOfFamily;
  }

  lemma ReadsOfPair(left: Expr, right: Expr, family: string)
    ensures Reads(Paired(left, right), family) <==> Reads(left, family) || Reads(right, family)
  {
    hide IsOfFamily;
    if reference :| IsUnshielded(left, reference) && IsOfFamily(MetricName(reference), family) {
      assert IsUnshielded(Paired(left, right), reference);
    }
    if reference :| IsUnshielded(right, reference) && IsOfFamily(MetricName(reference), family) {
      assert IsUnshielded(Paired(left, right), reference);
    }
  }

  lemma ReadsOfAgg(op: string, grouping: Grouping, arg: Expr, family: string)
    ensures Reads(Agg(op, grouping, arg), family) <==> !IsShield(op, grouping) && Reads(arg, family)
  {
    hide IsOfFamily, IsShield;
    if reference :| IsUnshielded(arg, reference) && IsOfFamily(MetricName(reference), family) {
      assert !IsShield(op, grouping) ==> IsUnshielded(Agg(op, grouping, arg), reference);
    }
  }

  /** Some `sum` of the expression reads the family, declared a gauge, with no shield in between. */
  ghost predicate SumsGauge(e: Expr, family: string, types: map<string, string>) {
    && family in types && types[family] == "gauge"
    && exists grouping, arg :: HasSum(e, grouping, arg) && Reads(arg, family)
  }

  // ------------------------------------------------------------ what the scanner reads of an expression

  lemma {:induction false} ListedToken(scan: string, from: nat, group: Option<Group>) returns (p: nat)
    requires group in SumsFrom(scan, from)
    ensures TokenAt(scan, p, "sum") && ArgumentAfter(scan, p + 3) == group && p < |scan|
    decreases |scan| - from
  {
    hide ArgumentAfter, TokenAt;
    if TokenAt(scan, from, "sum") {
      TokenFits(scan, from);
      if ArgumentAfter(scan, from + 3) == group { return from; }
    }
    p := ListedToken(scan, from + 1, group);
  }

  lemma TokenFits(scan: string, p: nat)
    requires TokenAt(scan, p, "sum")
    ensures p + 3 <= |scan|
  {
  }

  lemma {:induction false} ListedText(expr: string, groups: seq<Option<Group>>, k: nat) returns (group: Option<Group>)
    requires AllFit(groups, |expr|) && k < |TextsIn(expr, groups)|
    ensures group in groups && group.Some? && FitsIn(group, |expr|)
    ensures TextsIn(expr, groups)[k] == expr[group.value.open + 1..group.value.closed]
  {
    if groups[0].Some? && k == 0 {
      group := groups[0];
    } else {
      group := ListedText(expr, groups[1..], if groups[0].Some? then k - 1 else k);
    }
  }

  /** The scan of a written expression: its mask, read from the start. */
  lemma WrittenScan(e: Expr, style: Style)
    requires WellNamed(e)
    ensures var text := Render(e, style);
            && Masked(text) == Render(Seen(e), style) && !Unterminated(text)
            && Stands(text, 0, text, []) && Stands(Masked(text), 0, Render(Seen(e), style), [])
            && Fresh(Masked(text), 0) && Behind([]) && |Masked(text)| == |text|
  {
    hide Masked, Unterminated, Render, Seen;
    MaskOfRender(e, style);
  }

  /** A listed token of a written expression is accounted for by its tree. */
  lemma ListedIsAccounted(e: Expr, style: Style, group: Option<Group>) returns (p: nat)
    requires WellNamed(e) && group in SumsFrom(Masked(Render(e, style)), 0)
    ensures var text := Render(e, style);
            && TokenAt(Masked(text), p, "sum") && ArgumentAfter(Masked(text), p + 3) == group
            && IsAccounted(e, text, Masked(text), p)
  {
    hide *;
    var text := Render(e, style);
    WrittenScan(e, style);
    p := ListedToken(Masked(text), 0, group);
    EveryTokenIsAccounted(e, style, text, [], Masked(text), 0, [], p);
  }

  /** The scan fails on a written expression exactly where a modifier lists a label called `sum`. */
  lemma ReadableIff(e: Expr, style: Style)
    requires WellNamed(e)
    ensures None in SumsFrom(Masked(Render(e, style)), 0) <==> LabelsSum(e)
  {
    var text := Render(e, style);
    hide SumsFrom, TokenAt, ArgumentAfter, Masked, Render, Seen, LabelsSum, HasSum, Unterminated;
    WrittenScan(e, style);
    if LabelsSum(e) {
      var p := LabelledSumIsRead(e, style, Masked(text), 0, []);
      TokenFits(Masked(text), p);
      TokenIsListed(Masked(text), 0, p);
    }
    if None in SumsFrom(Masked(text), 0) {
      var p := ListedIsAccounted(e, style, None);
      NoArgumentIsLabel(e, text, Masked(text), p);
    }
  }

  lemma NoArgumentIsLabel(e: Expr, text: string, scan: string, p: nat)
    requires TokenAt(scan, p, "sum") && ArgumentAfter(scan, p + 3) == None && IsAccounted(e, text, scan, p)
    ensures LabelsSum(e)
  {
    hide TokenAt, ArgumentAfter, LabelsSum, HasSum, Render;
  }

  lemma ReadIsShown(e: Expr, text: string, scan: string, p: nat, group: Group)
    returns (grouping: Grouping, arg: Expr, own: Style)
    requires TokenAt(scan, p, "sum") && ArgumentAfter(scan, p + 3) == Some(group) && IsAccounted(e, text, scan, p)
    ensures Shows(e, text, scan, p, grouping, arg, own, group)
  {
    hide TokenAt, ArgumentAfter, LabelsSum, HasSum, Render;
    var g, a, o, found :| Shows(e, text, scan, p, g, a, o, found);
    grouping, arg, own := g, a, o;
  }

  /** Every argument the scan lists is the argument of a `sum` of the tree. */
  lemma ListedIsSum(e: Expr, style: Style, k: nat) returns (grouping: Grouping, arg: Expr, own: Style)
    requires WellNamed(e) && k < |TextsIn(Render(e, style), SumsFrom(Masked(Render(e, style)), 0))|
    ensures HasSum(e, grouping, arg)
    ensures TextsIn(Render(e, style), SumsFrom(Masked(Render(e, style)), 0))[k] == Render(arg, own)
  {
    var text := Render(e, style);
    var scan := Masked(text);
    hide SumsFrom, TextsIn, TokenAt, ArgumentAfter, Masked, Render, LabelsSum, HasSum, WellNamed, IsAccounted, SumAt;
    var group := ListedText(text, SumsFrom(scan, 0), k);
    var p := ListedIsAccounted(e, style, group);
    grouping, arg, own := ReadIsShown(e, text, scan, p, group.value);
  }

  /** And every `sum` of the tree has its argument listed. */
  lemma SumIsListed(e: Expr, style: Style, grouping: Grouping, arg: Expr) returns (k: nat, own: Style)
    requires WellNamed(e) && HasSum(e, grouping, arg)
    ensures k < |TextsIn(Render(e, style), SumsFrom(Masked(Render(e, style)), 0))|
    ensures TextsIn(Render(e, style), SumsFrom(Masked(Render(e, style)), 0))[k] == Render(arg, own)
  {
    var text := Render(e, style);
    var scan := Masked(text);
    hide SumsFrom, TextsIn, Masked, Unterminated, ArgumentAfter, TokenAt, Render, IsReference, HasSum, WellNamed;
    WrittenScan(e, style);
    var p, group, found := EverySumIsFound(e, grouping, arg, style, text, [], scan, 0, []);
    own := found;
    TokenIsListed(scan, 0, p);
    TextIsListed(text, SumsFrom(scan, 0), Some(group));
    k :| 0 <= k < |TextsIn(text, SumsFrom(scan, 0))|
      && TextsIn(text, SumsFrom(scan, 0))[k] == text[group.open + 1..group.closed];
  }

  // ------------------------------------------------------------ what is reported

  lemma ArgumentIsWalked(expr: string, arg: Expr, own: Style, gauges: set<string>, family: string)
    requires WellNamed(arg)
    ensures !ArgumentFinds(Unreadable(expr), expr, Render(arg, own), gauges)
    ensures ArgumentFinds(SummedGauge(expr, family), expr, Render(arg, own), gauges)
       <==> family in gauges && Reads(arg, family)
  {
    hide Walk, TreeWalk, Render, Reads, WellNamed;
    WalkOfRender(arg, own, gauges, false);
    TreeWalkMeaning(arg, gauges, false, family);
  }

  /** What one written expression gives. */
  lemma WhatIsFound(e: Expr, style: Style, types: map<string, string>, family: string)
    requires WellNamed(e)
    ensures Finds(Unreadable(Render(e, style)), Render(e, style), GaugesOf(types)) <==> LabelsSum(e)
    ensures Finds(SummedGauge(Render(e, style), family), Render(e, style), GaugesOf(types))
       <==> !LabelsSum(e) && SumsGauge(e, family, types)
  {
    var text, gauges := Render(e, style), GaugesOf(types);
    assert family in gauges <==> family in types && types[family] == "gauge";
    hide SumsFrom, TextsIn, Masked, Unterminated, ArgumentFinds, LabelsSum, HasSum, Reads, Render, WellNamed, GaugesOf;
    WrittenScan(e, style);
    ReadableIff(e, style);
    var args := TextsIn(text, SumsFrom(Masked(text), 0));
    if !LabelsSum(e) {
      forall k | 0 <= k < |args|
        ensures !ArgumentFinds(Unreadable(text), text, args[k], gauges)
        ensures ArgumentFinds(SummedGauge(text, family), text, args[k], gauges) ==> SumsGauge(e, family, types)
      {
        var grouping, arg, own := ListedIsSum(e, style, k);
        SumArgumentIsNamed(e, grouping, arg);
        ArgumentIsWalked(text, arg, own, gauges, family);
      }
      if SumsGauge(e, family, types) {
        var grouping, arg :| HasSum(e, grouping, arg) && Reads(arg, family);
        var k, own := SumIsListed(e, style, grouping, arg);
        SumArgumentIsNamed(e, grouping, arg);
        ArgumentIsWalked(text, arg, own, gauges, family);
        assert ArgumentFinds(SummedGauge(text, family), text, args[k], gauges);
      }
    }
  }

  lemma OwnReport(p: Problem, expr: string, exprs: seq<string>, types: map<string, string>)
    requires expr in exprs && |types| > 0 && !p.NoTypes? && p.expr == expr
    ensures Reports(p, exprs, types) <==> Finds(p, expr, GaugesOf(types))
  {
    hide SumsFrom, TextsIn, Masked, Unterminated, Walk, GaugesOf;
    var k :| 0 <= k < |exprs| && exprs[k] == expr;
    assert forall j | 0 <= j < |exprs| && Finds(p, exprs[j], GaugesOf(types)) :: exprs[j] == expr;
  }

  /**
   The report on a written expression, in terms of the declared types: it cannot be read
   exactly when a modifier lists a label called `sum`; a family is named exactly when it is
   declared a gauge and some `sum` reads it with no shield in between.
   */
  lemma WhatIsReported(e: Expr, style: Style, exprs: seq<string>, types: map<string, string>, family: string)
    requires WellNamed(e) && Render(e, style) in exprs && |types| > 0
    ensures Reports(Unreadable(Render(e, style)), exprs, types) <==> LabelsSum(e)
    ensures Reports(SummedGauge(Render(e, style), family), exprs, types)
       <==> !LabelsSum(e) && SumsGauge(e, family, types)
  {
    hide *;
    WhatIsFound(e, style, types, family);
    OwnReport(Unreadable(Render(e, style)), Render(e, style), exprs, types);
    OwnReport(SummedGauge(Render(e, style), family), Render(e, style), exprs, types);
  }

  /** An expression that reads no family declared a gauge is not reported. */
  lemma NoGaugeNoReport(e: Expr, style: Style, exprs: seq<string>, types: map<string, string>, family: string)
    requires WellNamed(e) && !LabelsSum(e) && Render(e, style) in exprs && |types| > 0
    requires forall reference, f | reference in PromShield.Leaves(e) && IsOfFamily(MetricName(reference), f) ::
               f !in types || types[f] != "gauge"
    ensures !Reports(Unreadable(Render(e, style)), exprs, types)
    ensures !Reports(SummedGauge(Render(e, style), family), exprs, types)
  {
    WhatIsReported(e, style, exprs, types, family);
    hide Reports, Render, IsOfFamily, MetricName, LabelsSum, WellNamed, HasSum;
    if SumsGauge(e, family, types) {
      var grouping, arg :| HasSum(e, grouping, arg) && Reads(arg, family);
      var reference :| IsUnshielded(arg, reference) && IsOfFamily(MetricName(reference), family);
      UnshieldedIsLeaf(arg, reference);
      SumLeaves(e, grouping, arg);
    }
  }

  lemma {:induction false} UnshieldedIsLeaf(e: Expr, reference: string)
    requires IsUnshielded(e, reference)
    ensures reference in PromShield.Leaves(e)
  {
    match e
    case Metric(_) =>
    case PerSeries(_, arg) => UnshieldedIsLeaf(arg, reference);
    case Paired(left, right) =>
      if IsUnshielded(left, reference) {
        UnshieldedIsLeaf(left, reference);
      } else {
        UnshieldedIsLeaf(right, reference);
      }
    case Agg(_, _, arg) => UnshieldedIsLeaf(arg, reference);
  }

  lemma {:induction false} SumLeaves(e: Expr, grouping: Grouping, arg: Expr)
    requires HasSum(e, grouping, arg)
    ensures PromShield.Leaves(arg) <= PromShield.Leaves(e)
  {
    match e
    case PerSeries(_, inner) => SumLeaves(inner, grouping, arg);
    case Paired(left, right) =>
      if HasSum(left, grouping, arg) {
        SumLeaves(left, grouping, arg);
      } else {
        SumLeaves(right, grouping, arg);
      }
    case Agg(op, own, inner) =>
      if !(op == "sum" && own == grouping && inner == arg) { SumLeaves(inner, grouping, arg); }
  }

  /** A `sum` straight over a gauge is reported, with the gauge's family. */
  lemma SummedGaugeIsReported(grouping: Grouping, reference: string, style: Style, exprs: seq<string>,
                              types: map<string, string>, family: string)
    requires IsReference(reference) && IsOfFamily(MetricName(reference), family)
    requires (grouping.Bare? || AreLabels(grouping.labels)) && !ListsSum(grouping)
    requires family in types && types[family] == "gauge"
    requires Render(Agg("sum", grouping, Metric(reference)), style) in exprs
    ensures Reports(SummedGauge(Render(Agg("sum", grouping, Metric(reference)), style), family), exprs, types)
  {
    assert |types| > 0;
    SumOfReference(grouping, reference, family, types);
    hide *;
    WhatIsReported(Agg("sum", grouping, Metric(reference)), style, exprs, types, family);
  }

  /** The idiom the message recommends is not: a `sum` over a shield around a gauge. */
  lemma ShieldedIsAccepted(grouping: Grouping, op: string, inner: Grouping, reference: string, style: Style,
                           exprs: seq<string>, types: map<string, string>, family: string)
    requires IsReference(reference) && IsShield(op, inner) && |types| > 0
    requires (grouping.Bare? || AreLabels(grouping.labels)) && !ListsSum(grouping)
    requires (inner.Bare? || AreLabels(inner.labels)) && !ListsSum(inner)
    requires Render(Agg("sum", grouping, Agg(op, inner, Metric(reference))), style) in exprs
    ensures var text := Render(Agg("sum", grouping, Agg(op, inner, Metric(reference))), style);
            !Reports(Unreadable(text), exprs, types) && !Reports(SummedGauge(text, family), exprs, types)
  {
    SumOfShield(grouping, op, inner, reference, family, types);
    hide *;
    WhatIsReported(Agg("sum", grouping, Agg(op, inner, Metric(reference))), style, exprs, types, family);
  }

  lemma SumOfReference(grouping: Grouping, reference: string, family: string, types: map<string, string>)
    requires IsReference(reference) && IsOfFamily(MetricName(reference), family)
    requires (grouping.Bare? || AreLabels(grouping.labels)) && !ListsSum(grouping)
    requires family in types && types[family] == "gauge"
    ensures var plain := Agg("sum", grouping, Metric(reference));
            WellNamed(plain) && !LabelsSum(plain) && SumsGauge(plain, family, types)
  {
    hide IsReference, IsOfFamily, MetricName, AreLabels, ListsSum;
    var plain := Agg("sum", grouping, Metric(reference));
    assert HasSum(plain, grouping, Metric(reference)) && IsUnshielded(Metric(reference), reference);
    assert Reads(Metric(reference), family);
  }

  lemma SumOfShield(grouping: Grouping, op: string, inner: Grouping, reference: string, family: string,
                    types: map<string, string>)
    requires IsReference(reference) && IsShield(op, inner)
    requires (grouping.Bare? || AreLabels(grouping.labels)) && !ListsSum(grouping)
    requires (inner.Bare? || AreLabels(inner.labels)) && !ListsSum(inner)
    ensures var shielded := Agg("sum", grouping, Agg(op, inner, Metric(reference)));
            WellNamed(shielded) && !LabelsSum(shielded) && !SumsGauge(shielded, family, types)
  {
    assert op != "sum" && op in ACROSS_SERIES_AGGREGATIONS;
    hide IsReference, IsOfFamily, MetricName, AreLabels, ListsSum, IsShield;
    var around := Agg(op, inner, Metric(reference));
    var shielded := Agg("sum", grouping, around);
    assert WellNamed(Metric(reference)) && !LabelsSum(Metric(reference));
    assert WellNamed(around) && !LabelsSum(around);
    assert forall r :: !IsUnshielded(around, r);
    assert forall g, a :: !HasSum(Metric(reference), g, a);
    assert forall g, a :: !HasSum(around, g, a);
    assert forall g, a | HasSum(shielded, g, a) :: a == around;
  }

  // ------------------------------------------------------------ what silence means

  /** Every reference of the expression reads a family declared a gauge. */
  predicate AllTyped(e: Expr, types: map<string, string>) {
    match e
    case Metric(reference) =>
      BaseMetricName(MetricName(reference)) in types && types[BaseMetricName(MetricName(reference))] == "gauge"
    case PerSeries(_, arg) => AllTyped(arg, types)
    case Paired(left, right) => AllTyped(left, types) && AllTyped(right, types)
    case Agg(_, _, arg) => AllTyped(arg, types)
  }

  lemma {:induction false} TypedAreGauges(e: Expr, types: map<string, string>)
    requires AllTyped(e, types)
    ensures AllGauges(e, GaugesOf(types))
  {
    match e
    case Metric(_) =>
    case PerSeries(_, arg) => TypedAreGauges(arg, types);
    case Paired(left, right) =>
      TypedAreGauges(left, types);
      TypedAreGauges(right, types);
    case Agg(_, _, arg) => TypedAreGauges(arg, types);
  }

  /** An expression gives no problem exactly when the check accepts it. */
  lemma AcceptsIff(expr: string, gauges: set<string>)
    ensures Accepts(expr, gauges) <==> forall p :: !Finds(p, expr, gauges)
  {
    hide SumsFrom, TextsIn, Masked, Unterminated, Walk;
    var groups := SumsFrom(Masked(expr), 0);
    if Unterminated(expr) || None in groups {
      assert Finds(Unreadable(expr), expr, gauges);
    } else if k :| 0 <= k < |TextsIn(expr, groups)| && Walk(TextsIn(expr, groups)[k], gauges, false) != NOTHING {
      var reading := Walk(TextsIn(expr, groups)[k], gauges, false);
      if reading.unscannable {
        assert ArgumentFinds(Unreadable(expr), expr, TextsIn(expr, groups)[k], gauges);
        assert Finds(Unreadable(expr), expr, gauges);
      } else {
        var family :| family in reading.families;
        assert ArgumentFinds(SummedGauge(expr, family), expr, TextsIn(expr, groups)[k], gauges);
        assert Finds(SummedGauge(expr, family), expr, gauges);
      }
    }
  }

  /**
   When the report is empty, every `sum` on the dashboards over gauges, as the types
   declare them, has the same value for all sets of identical replicas, on the conditions
   of the tree-level claim.
   */
  lemma SilenceIsSound(exprs: seq<string>, types: map<string, string>, e: Expr, style: Style, grouping: Grouping,
                       arg: Expr, world: World, env: string -> Vector, some: seq<Labels>, others: seq<Labels>)
    requires forall p :: !Reports(p, exprs, types)
    requires WellNamed(e) && Render(e, style) in exprs && HasSum(e, grouping, arg) && AllTyped(arg, types)
    requires Sensible(arg, some) && Sensible(arg, others) && ShieldsLeaveLabels(arg, world)
    requires Resources(env) && Replicas(some) && Replicas(others)
    ensures Denote(Agg("sum", grouping, arg), world, Scraped(env, some))
              == Denote(Agg("sum", grouping, arg), world, Scraped(env, others))
  {
    var text := Render(e, style);
    SilentAccepts(exprs, types, text);
    hide *;
    TypedAreGauges(arg, types);
    AcceptedExpressionIsSound(e, style, GaugesOf(types), grouping, arg, world, env, some, others);
  }

  lemma SilentAccepts(exprs: seq<string>, types: map<string, string>, text: string)
    requires (forall p :: !Reports(p, exprs, types)) && text in exprs
    ensures Accepts(text, GaugesOf(types))
  {
    hide Finds, GaugesOf, Accepts;
    assert !Reports(NoTypes, exprs, types);
    var k :| 0 <= k < |exprs| && exprs[k] == text;
    AcceptsIff(text, GaugesOf(types));
    forall p
      ensures !Finds(p, text, GaugesOf(types))
    {
      assert !Reports(p, exprs, types);
    }
  }
}
