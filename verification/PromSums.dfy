/**
 The `sum`s the scanner finds in a written expression: the sums of its tree and, where a
 modifier lists a label called `sum`, a token without an argument.
 */
module PromSums {
  import opened Text
  import opened PromText
  import opened PromShield
  import opened PromWalk
  import opened PromRender
  import opened PromMask
  import opened PromRoundTrip
  import opened PromNames
  import opened PromGate

  /** A modifier of the expression lists a label called `sum`. */
  predicate LabelsSum(e: Expr) {
    match e
    case Metric(_) => false
    case PerSeries(_, arg) => LabelsSum(arg)
    case Paired(left, right) => LabelsSum(left) || LabelsSum(right)
    case Agg(_, grouping, arg) => ListsSum(grouping) || LabelsSum(arg)
  }

  predicate ListsSum(grouping: Grouping) {
    !grouping.Bare? && "sum" in grouping.labels
  }

  // ------------------------------------------------------------ tokens

  lemma TokenIsOp(scan: string, p: nat)
    requires TokenAt(scan, p, "sum")
    ensures p + 3 <= |scan| && OpAt(scan, p) == "sum"
  {
    assert forall k | p <= k < p + 3 :: scan[k] == scan[p..p + 3][k - p];
    NameEndIs(scan, p, p + 3);
  }

  lemma NoTokenIn(scan: string, from: nat, to: nat, p: nat)
    requires to <= |scan| && NoOps(scan, from, to) && from <= p < to
    ensures !TokenAt(scan, p, "sum")
  {
    if TokenAt(scan, p, "sum") { TokenIsOp(scan, p); }
  }

  lemma NoTokenAtMark(scan: string, p: nat)
    requires p < |scan| && !IsNameChar(scan[p])
    ensures !TokenAt(scan, p, "sum")
  {
    if p + 3 <= |scan| { assert scan[p..p + 3][0] == scan[p]; }
  }

  lemma NoTokenInside(scan: string, p: nat)
    requires 0 < p <= |scan| && IsNameChar(scan[p - 1])
    ensures !TokenAt(scan, p, "sum")
  {
  }

  /** A `sum` stands at `p` and has no argument. */
  predicate Fails(scan: string, p: nat) {
    TokenAt(scan, p, "sum") && ArgumentAfter(scan, p + 3) == None
  }

  lemma FailsBefore(scan: string, p: nat)
    requires TokenAt(scan, p, "sum") && p + 3 < |scan| && (scan[p + 3] == ',' || scan[p + 3] == ')')
    ensures Fails(scan, p)
  {
    NoSpaceHere(scan, p + 3);
    assert scan[p + 3..][0] == scan[p + 3];
  }

  // ------------------------------------------------------------ tokens among labels

  lemma JoinShape(labels: seq<string>, post: string) returns (rest: string)
    requires labels != []
    ensures Join(labels, ',') + ([')'] + post) == labels[0] + rest && rest != [] && (rest[0] == ',' || rest[0] == ')')
    ensures |labels| == 1 ==> rest == [')'] + post
    ensures |labels| > 1 ==> rest == [','] + (Join(labels[1..], ',') + ([')'] + post))
  {
    if |labels| == 1 {
      rest := [')'] + post;
    } else {
      var more := Join(labels[1..], ',');
      rest := [','] + (more + ([')'] + post));
      assert labels[0] + [','] + more + ([')'] + post) == labels[0] + rest;
    }
  }

  lemma LabelStands(scan: string, at: nat, word: string, rest: string)
    requires at <= |scan| && scan[at..] == word + rest && rest != [] && (rest[0] == ',' || rest[0] == ')')
    requires IsLabel(word) && Fresh(scan, at)
    ensures at + |word| < |scan| && scan[at + |word|..] == rest && scan[at + |word|] == rest[0]
    ensures forall p | at <= p < at + |word| && TokenAt(scan, p, "sum") :: p == at && word == "sum" && Fails(scan, p)
    ensures word == "sum" ==> Fails(scan, at)
  {
    NameStands(scan, at, word, rest);
    assert scan[at + |word|] == scan[at + |word|..][0];
    forall p | at <= p < at + |word| && TokenAt(scan, p, "sum")
      ensures p == at && word == "sum" && Fails(scan, p)
    {
      LabelToken(scan, at, word, p);
    }
    if word == "sum" { FailsBefore(scan, at); }
  }

  lemma LabelToken(scan: string, at: nat, word: string, p: nat)
    requires at <= p < at + |word| < |scan| && TokenAt(scan, p, "sum") && NameEnd(scan, at) == at + |word|
    requires scan[at..at + |word|] == word && (scan[at + |word|] == ',' || scan[at + |word|] == ')')
    requires forall k | at <= k < at + |word| :: IsNameChar(scan[k])
    ensures p == at && word == "sum" && Fails(scan, p)
  {
    hide TokenAt, Fails;
    if p > at { NoTokenInside(scan, p); }
    TokenIsOp(scan, p);
    FailsBefore(scan, p);
  }

  lemma {:induction false} LabelTokens(scan: string, at: nat, labels: seq<string>, post: string, p: nat)
    requires at <= |scan| && scan[at..] == Join(labels, ',') + ([')'] + post) && AreLabels(labels) && Fresh(scan, at)
    requires at <= p < at + |Join(labels, ',')| && TokenAt(scan, p, "sum")
    ensures "sum" in labels && Fails(scan, p)
    decreases |labels|
  {
    hide TokenAt, Fails;
    if labels != [] {
      var rest := JoinShape(labels, post);
      assert IsLabel(labels[0]);
      LabelStands(scan, at, labels[0], rest);
      var next := at + |labels[0]|;
      if p >= next {
        assert |labels| > 1;
        if p == next { NoTokenAtMark(scan, p); }
        Tail(scan, next, [','], Join(labels[1..], ',') + ([')'] + post));
        LabelTokens(scan, next + 1, labels[1..], post, p);
      }
    }
  }

  lemma {:induction false} LabelIsToken(scan: string, at: nat, labels: seq<string>, post: string) returns (p: nat)
    requires at <= |scan| && scan[at..] == Join(labels, ',') + ([')'] + post) && AreLabels(labels) && Fresh(scan, at)
    requires "sum" in labels
    ensures Fails(scan, p)
    decreases |labels|
  {
    hide TokenAt, Fails;
    var rest := JoinShape(labels, post);
    assert IsLabel(labels[0]);
    LabelStands(scan, at, labels[0], rest);
    if labels[0] == "sum" {
      p := at;
    } else {
      assert labels == [labels[0]] + labels[1..];
      var next := at + |labels[0]|;
      Tail(scan, next, [','], Join(labels[1..], ',') + ([')'] + post));
      p := LabelIsToken(scan, next + 1, labels[1..], post);
    }
  }

  lemma GroupingPlaces(scan: string, at: nat, isBy: bool, labels: seq<string>, post: string)
    requires at <= |scan| && scan[at..] == SpellGrouping(isBy, labels) + post
    ensures var end := at + |Keyword(isBy)|;
            && end + |Join(labels, ',')| + 3 <= |scan|
            && scan[at..] == Keyword(isBy) + ([' '] + (Wrapped(Join(labels, ',')) + post))
            && scan[end] == ' ' && scan[end + 1] == '(' && scan[end + |Join(labels, ',')| + 2] == ')'
            && scan[end + 2..] == Join(labels, ',') + ([')'] + post)
    ensures |SpellGrouping(isBy, labels)| == |Keyword(isBy)| + |Join(labels, ',')| + 3
  {
    var end := at + |Keyword(isBy)|;
    var inner := Join(labels, ',');
    assert scan[at..] == Keyword(isBy) + ([' '] + (Wrapped(inner) + post));
    Tail(scan, at, Keyword(isBy), [' '] + (Wrapped(inner) + post));
    assert scan[end] == scan[end..][0];
    Tail(scan, end, [' '], Wrapped(inner) + post);
    InsideWrapped(scan, end + 1, inner, post);
  }

  lemma KeywordIsName(isBy: bool)
    ensures Keyword(isBy) !in ACROSS_SERIES_AGGREGATIONS
    ensures forall k | 0 <= k < |Keyword(isBy)| :: IsNameChar(Keyword(isBy)[k])
  {
  }

  /** In a modifier only its labels can be tokens of `sum`, and those have no argument. */
  lemma GroupingTokens(scan: string, at: nat, isBy: bool, labels: seq<string>, post: string, p: nat)
    requires at <= |scan| && scan[at..] == SpellGrouping(isBy, labels) + post && AreLabels(labels) && Fresh(scan, at)
    requires at <= p < at + |SpellGrouping(isBy, labels)| && TokenAt(scan, p, "sum")
    ensures "sum" in labels && Fails(scan, p)
  {
    hide TokenAt, Fails, SpellGrouping, Keyword, NoOps, Wrapped;
    GroupingPlaces(scan, at, isBy, labels, post);
    KeywordIsName(isBy);
    var end := at + |Keyword(isBy)|;
    NoOpInName(scan, at, Keyword(isBy), [' '] + (Wrapped(Join(labels, ',')) + post));
    if p < end {
      NoTokenIn(scan, at, end, p);
    } else if p < end + 2 || p == end + |Join(labels, ',')| + 2 {
      NoTokenAtMark(scan, p);
    } else {
      LabelTokens(scan, end + 2, labels, post, p);
    }
  }

  lemma GroupingIsToken(scan: string, at: nat, isBy: bool, labels: seq<string>, post: string) returns (p: nat)
    requires at <= |scan| && scan[at..] == SpellGrouping(isBy, labels) + post && AreLabels(labels)
    requires "sum" in labels
    ensures Fails(scan, p)
  {
    hide TokenAt, Fails, SpellGrouping, Keyword, Wrapped;
    GroupingPlaces(scan, at, isBy, labels, post);
    p := LabelIsToken(scan, at + |Keyword(isBy)| + 2, labels, post);
  }

  // ------------------------------------------------------------ tokens of an aggregation

  /** Where the modifier of a written aggregation stands. */
  function ModifierPlace(op: string, inner: string, trailing: bool, start: nat): nat {
    start + |op| + 1 + if trailing then |inner| + 2 else 0
  }

  lemma ModifierStands(scan: string, start: nat, op: string, grouping: Grouping, inner: string, trailing: bool,
                       post: string)
    returns (behind: string)
    requires start <= |scan| && scan[start..] == SpellAgg(op, grouping, inner, trailing) + post && !grouping.Bare?
    ensures var at := ModifierPlace(op, inner, trailing, start);
            && at <= |scan| && Fresh(scan, at)
            && scan[at..] == SpellGrouping(grouping.By?, grouping.labels) + behind
  {
    hide SpellGrouping, Wrapped;
    var spelled := SpellGrouping(grouping.By?, grouping.labels);
    SpelledShape(op, spelled, inner, post);
    if trailing {
      behind := post;
      WrappedLength(inner);
      Tail(scan, start, op, Wrapped(inner) + ([' '] + (spelled + post)));
      Tail(scan, start + |op|, Wrapped(inner), [' '] + (spelled + post));
      BlankThen(scan, start + |op| + |inner| + 2, spelled + post);
    } else {
      behind := [' '] + (Wrapped(inner) + post);
      Tail(scan, start, op, [' '] + (spelled + behind));
      BlankThen(scan, start + |op|, spelled + behind);
    }
  }

  lemma WrappedLength(inner: string)
    ensures |Wrapped(inner)| == |inner| + 2
  {
  }

  lemma BlankThen(scan: string, at: nat, rest: string)
    requires at <= |scan| && scan[at..] == [' '] + rest
    ensures at + 1 <= |scan| && scan[at] == ' ' && scan[at + 1..] == rest && Fresh(scan, at + 1)
  {
    Tail(scan, at, [' '], rest);
    assert scan[at] == scan[at..][0];
  }

  /** The stretches of a written aggregation: the operator, blanks and parentheses, the modifier, the argument. */
  lemma AggStretches(scan: string, start: nat, op: string, grouping: Grouping, inner: string, trailing: bool,
                     post: string)
    requires start <= |scan| && scan[start..] == SpellAgg(op, grouping, inner, trailing) + post
    ensures var open := start + OpenOf(op, grouping, trailing);
            var end := start + |SpellAgg(op, grouping, inner, trailing)|;
            var at := ModifierPlace(op, inner, trailing, start);
            var spelled := if grouping.Bare? then 0 else |SpellGrouping(grouping.By?, grouping.labels)|;
            && end <= |scan| && open + |inner| + 2 <= |scan| && scan[open] == '(' && scan[open + |inner| + 1] == ')'
            && Fresh(scan, open + 1)
            && (grouping.Bare? ==> open == start + |op| && end == open + |inner| + 2)
            && (!grouping.Bare? && trailing ==>
                  open == start + |op| && at == open + |inner| + 3 && end == at + spelled && scan[at - 1] == ' ')
            && (!grouping.Bare? && !trailing ==>
                  && at == start + |op| + 1 && open == at + spelled + 1 && end == open + |inner| + 2
                  && scan[at - 1] == ' ' && scan[open - 1] == ' ')
  {
    hide SpellAgg, SpellGrouping, FrontOf, BackOf, OpenOf, Wrapped;
    var front, back := FrontOf(op, grouping, trailing), BackOf(grouping, trailing, post);
    AroundArgument(op, grouping, inner, trailing, post);
    Tail(scan, start, front, Wrapped(inner) + back);
    InsideWrapped(scan, start + |front|, inner, back);
    Tail(scan, start, SpellAgg(op, grouping, inner, trailing), post);
    SpelledStretch(op, grouping, inner, trailing);
    if !grouping.Bare? { AroundModifier(scan, start, op, grouping, inner, trailing, post); }
  }

  lemma SpelledStretch(op: string, grouping: Grouping, inner: string, trailing: bool)
    ensures var spelled := if grouping.Bare? then 0 else |SpellGrouping(grouping.By?, grouping.labels)|;
            && |SpellAgg(op, grouping, inner, trailing)|
               == |op| + |inner| + 2 + (if grouping.Bare? then 0 else spelled + if trailing then 1 else 2)
            && OpenOf(op, grouping, trailing) == |op| + if grouping.Bare? || trailing then 0 else spelled + 2
  {
    hide SpellGrouping;
  }

  lemma AroundModifier(scan: string, start: nat, op: string, grouping: Grouping, inner: string, trailing: bool,
                       post: string)
    requires start <= |scan| && scan[start..] == SpellAgg(op, grouping, inner, trailing) + post && !grouping.Bare?
    ensures var at := ModifierPlace(op, inner, trailing, start);
            var spelled := |SpellGrouping(grouping.By?, grouping.labels)|;
            && 0 < at <= |scan| && scan[at - 1] == ' '
            && (!trailing ==> at + spelled < |scan| && scan[at + spelled] == ' ')
  {
    hide SpellGrouping, Wrapped;
    var spelled := SpellGrouping(grouping.By?, grouping.labels);
    SpelledShape(op, spelled, inner, post);
    if trailing {
      WrappedLength(inner);
      Tail(scan, start, op, Wrapped(inner) + ([' '] + (spelled + post)));
      Tail(scan, start + |op|, Wrapped(inner), [' '] + (spelled + post));
      BlankThen(scan, start + |op| + |inner| + 2, spelled + post);
    } else {
      var rest := [' '] + (Wrapped(inner) + post);
      Tail(scan, start, op, [' '] + (spelled + rest));
      BlankThen(scan, start + |op|, spelled + rest);
      Tail(scan, start + |op| + 1, spelled, rest);
      BlankThen(scan, start + |op| + 1 + |spelled|, Wrapped(inner) + post);
    }
  }

  /** A token in the operator's own name is the operator. */
  lemma OperatorToken(scan: string, start: nat, op: string, grouping: Grouping, inner: string, trailing: bool,
                      post: string, p: nat)
    requires start <= |scan| && scan[start..] == SpellAgg(op, grouping, inner, trailing) + post
    requires op in ACROSS_SERIES_AGGREGATIONS && Fresh(scan, start)
    requires start <= p < start + |op| && TokenAt(scan, p, "sum")
    ensures p == start && op == "sum"
  {
    OpIsName(op);
    AggStarts(op, grouping, inner, trailing, post);
    var rest := (SpellAgg(op, grouping, inner, trailing) + post)[|op|..];
    hide SpellAgg, TokenAt;
    OpStands(scan, start, op, rest);
    NameStands(scan, start, op, rest);
    if p > start { NoTokenInside(scan, p); }
    TokenIsOp(scan, p);
  }

  /** A token of a written aggregation is its operator, one of its labels, or one of its argument. */
  lemma AggToken(scan: string, start: nat, op: string, grouping: Grouping, inner: string, trailing: bool,
                 post: string, p: nat)
    requires start <= |scan| && scan[start..] == SpellAgg(op, grouping, inner, trailing) + post
    requires op in ACROSS_SERIES_AGGREGATIONS && Fresh(scan, start) && (grouping.Bare? || AreLabels(grouping.labels))
    requires start <= p < start + |SpellAgg(op, grouping, inner, trailing)| && TokenAt(scan, p, "sum")
    ensures var open := start + OpenOf(op, grouping, trailing);
            || (p == start && op == "sum")
            || (ListsSum(grouping) && Fails(scan, p))
            || (open < p < open + |inner| + 1)
  {
    hide *;
    AggStretches(scan, start, op, grouping, inner, trailing, post);
    var open := start + OpenOf(op, grouping, trailing);
    var at := ModifierPlace(op, inner, trailing, start);
    if p < start + |op| {
      OperatorToken(scan, start, op, grouping, inner, trailing, post, p);
    } else if p == open || p == open + |inner| + 1 {
      Parentheses();
      NoTokenAtMark(scan, p);
    } else if !(open < p < open + |inner| + 1) {
      InModifier(scan, start, op, grouping, inner, trailing, post, p);
    }
  }

  lemma Parentheses()
    ensures !IsNameChar('(') && !IsNameChar(')') && !IsNameChar(' ') && !IsNameChar('+')
  {
  }

  lemma InModifier(scan: string, start: nat, op: string, grouping: Grouping, inner: string, trailing: bool,
                   post: string, p: nat)
    requires start <= |scan| && scan[start..] == SpellAgg(op, grouping, inner, trailing) + post
    requires grouping.Bare? || AreLabels(grouping.labels)
    requires start + |op| <= p < start + |SpellAgg(op, grouping, inner, trailing)| && TokenAt(scan, p, "sum")
    requires var open := start + OpenOf(op, grouping, trailing); !(open <= p < open + |inner| + 2)
    ensures ListsSum(grouping) && Fails(scan, p)
  {
    AggStretches(scan, start, op, grouping, inner, trailing, post);
    assert !grouping.Bare?;
    var at := ModifierPlace(op, inner, trailing, start);
    var behind := ModifierStands(scan, start, op, grouping, inner, trailing, post);
    hide TokenAt, Fails, SpellAgg, SpellGrouping, OpenOf, Fresh;
    if p == at - 1 || p == at + |SpellGrouping(grouping.By?, grouping.labels)| {
      Parentheses();
      NoTokenAtMark(scan, p);
    } else {
      GroupingTokens(scan, at, grouping.By?, grouping.labels, behind, p);
    }
  }

  // ------------------------------------------------------------ tokens of an expression

  /** At `p` the scanner reads a `sum` of the tree, and its argument. */
  ghost predicate Shows(e: Expr, text: string, scan: string, p: nat, grouping: Grouping, arg: Expr, own: Style,
                        group: Group)
  {
    && HasSum(e, grouping, arg) && SumAt(scan, p, group) && group.open < group.closed <= |text|
    && text[group.open + 1..group.closed] == Render(arg, own)
  }

  ghost predicate IsRead(e: Expr, text: string, scan: string, p: nat) {
    exists grouping, arg, own, group :: Shows(e, text, scan, p, grouping, arg, own, group)
  }

  /** A token is read as a sum of the tree, or it is a label without an argument. */
  ghost predicate IsAccounted(e: Expr, text: string, scan: string, p: nat) {
    IsRead(e, text, scan, p) || (LabelsSum(e) && Fails(scan, p))
  }

  ghost predicate Within(inner: Expr, e: Expr) {
    && (forall grouping, arg | HasSum(inner, grouping, arg) :: HasSum(e, grouping, arg))
    && (LabelsSum(inner) ==> LabelsSum(e))
  }

  lemma AccountedAbove(inner: Expr, e: Expr, text: string, scan: string, p: nat)
    requires Within(inner, e) && IsAccounted(inner, text, scan, p)
    ensures IsAccounted(e, text, scan, p)
  {
    hide SumAt, Fails, Render, HasSum, LabelsSum;
    if IsRead(inner, text, scan, p) {
      var grouping, arg, own, group :| Shows(inner, text, scan, p, grouping, arg, own, group);
      assert Shows(e, text, scan, p, grouping, arg, own, group);
    }
  }

  lemma ReferenceToken(scan: string, start: nat, reference: string, post: string, p: nat)
    requires IsReference(reference) && start <= |scan| && scan[start..] == Masked(reference) + post
    requires Behind(post) && Fresh(scan, start) && start <= p < start + |Masked(reference)|
    ensures !TokenAt(scan, p, "sum")
  {
    hide Masked, TokenAt, Fresh;
    BehindEndsName(post);
    NoOpInReference(scan, start, Masked(reference), post);
    NoTokenIn(scan, start, start + |Masked(reference)|, p);
  }

  /** A token of a call is one of its argument. */
  lemma CallToken(scan: string, start: nat, fn: string, inner: string, post: string, p: nat)
    requires start <= |scan| && scan[start..] == fn + Wrapped(inner) + post && IsIdentifier(fn) && Fresh(scan, start)
    requires start <= p < start + |fn| + |inner| + 2 && TokenAt(scan, p, "sum")
    ensures start + |fn| + 1 <= p < start + |fn| + 1 + |inner|
  {
    hide TokenAt, Wrapped, Fresh, NoOps;
    assert fn + Wrapped(inner) + post == fn + (Wrapped(inner) + post);
    WrappedOpens(inner, post);
    NoOpInName(scan, start, fn, Wrapped(inner) + post);
    Tail(scan, start, fn, Wrapped(inner) + post);
    InsideWrapped(scan, start + |fn|, inner, post);
    if p < start + |fn| {
      NoTokenIn(scan, start, start + |fn|, p);
    } else if p == start + |fn| || p == start + |fn| + |inner| + 1 {
      NoTokenAtMark(scan, p);
    }
  }

  lemma WrappedOpens(inner: string, post: string)
    ensures EndsName(Wrapped(inner) + post)
  {
  }

  /** A token of a pair is one of its sides. */
  lemma PairToken(scan: string, start: nat, l: string, r: string, post: string, p: nat)
    requires start <= |scan| && scan[start..] == Wrapped(l + PLUS + r) + post
    requires start <= p < start + |l| + |r| + 5 && TokenAt(scan, p, "sum")
    ensures start + 1 <= p < start + 1 + |l| || start + |l| + 4 <= p < start + |l| + 4 + |r|
  {
    hide TokenAt, Wrapped;
    InsideWrapped(scan, start, l + PLUS + r, post);
    PlusBetween(scan, start + 1, l, r, [')'] + post);
    PlusMarks(scan, start + 1 + |l|);
    if !(start + 1 <= p < start + 1 + |l| || start + |l| + 4 <= p < start + |l| + 4 + |r|) {
      NoTokenAtMark(scan, p);
    }
  }

  lemma PlusMarks(scan: string, at: nat)
    requires at + 3 <= |scan| && scan[at..at + 3] == PLUS
    ensures forall k | at <= k < at + 3 :: !IsNameChar(scan[k])
  {
    assert forall k | at <= k < at + 3 :: scan[k] == PLUS[k - at];
  }

  /** `whole` stands at `at`, and `rest` behind it. */
  predicate Stands(text: string, at: nat, whole: string, rest: string) {
    at <= |text| && text[at..] == whole + rest
  }

  lemma RootIsRead(op: string, grouping: Grouping, arg: Expr, style: Style, text: string, rest: string, scan: string,
                   start: nat, post: string)
    requires op == "sum" && WellNamed(Agg(op, grouping, arg)) && Fresh(scan, start)
    requires Stands(text, start, Render(Agg(op, grouping, arg), style), rest)
    requires Stands(scan, start, Render(Seen(Agg(op, grouping, arg)), style), post)
    ensures IsRead(Agg(op, grouping, arg), text, scan, start)
  {
    hide SumAt, Fresh, SpellAgg, IsReference;
    var group := SumAtRoot(grouping, arg, style, text, rest, scan, start, post);
    assert Shows(Agg(op, grouping, arg), text, scan, start, grouping, arg, First(style), group);
  }

  /**
   Every `sum` the scanner comes to on the mask of a written expression is a sum of the
   tree, read with its own argument, or a label called `sum` and read with none.
   */
  lemma {:induction false} EveryTokenIsAccounted(e: Expr, style: Style, text: string, rest: string, scan: string,
                                                 start: nat, post: string, p: nat)
    requires WellNamed(e) && Stands(text, start, Render(e, style), rest)
    requires Stands(scan, start, Render(Seen(e), style), post) && Behind(post) && Fresh(scan, start)
    requires start <= p < start + |Render(e, style)| && TokenAt(scan, p, "sum")
    ensures IsAccounted(e, text, scan, p)
    decreases e, 1
  {
    hide *;
    match e
    case Metric(reference) => ReferenceHasNoToken(reference, style, scan, start, post, p);
    case PerSeries(fn, inner) => CallIsAccounted(fn, inner, style, text, rest, scan, start, post, p);
    case Paired(left, right) => PairIsAccounted(left, right, style, text, rest, scan, start, post, p);
    case Agg(op, grouping, inner) => AggIsAccounted(op, grouping, inner, style, text, rest, scan, start, post, p);
  }

  lemma ReferenceHasNoToken(reference: string, style: Style, scan: string, start: nat, post: string, p: nat)
    requires WellNamed(Metric(reference)) && Behind(post) && Fresh(scan, start)
    requires Stands(scan, start, Render(Seen(Metric(reference)), style), post)
    requires start <= p < start + |Render(Metric(reference), style)|
    ensures !TokenAt(scan, p, "sum")
  {
    hide TokenAt, Fresh, Behind, Masked, IsReference;
    ReferenceToken(scan, start, reference, post, p);
  }

  lemma CallSteps(fn: string, inner: Expr, style: Style)
    requires WellNamed(PerSeries(fn, inner))
    ensures var l, ll := Render(inner, First(style)), Render(Seen(inner), First(style));
            && Render(PerSeries(fn, inner), style) == fn + Wrapped(l)
            && Render(Seen(PerSeries(fn, inner)), style) == fn + Wrapped(ll)
    ensures WellNamed(inner) && IsIdentifier(fn) && Within(inner, PerSeries(fn, inner))
  {
    hide Wrapped;
  }

  lemma {:induction false} CallIsAccounted(fn: string, inner: Expr, style: Style, text: string, rest: string,
                                           scan: string, start: nat, post: string, p: nat)
    requires WellNamed(PerSeries(fn, inner)) && Fresh(scan, start)
    requires Stands(text, start, Render(PerSeries(fn, inner), style), rest)
    requires Stands(scan, start, Render(Seen(PerSeries(fn, inner)), style), post)
    requires start <= p < start + |Render(PerSeries(fn, inner), style)| && TokenAt(scan, p, "sum")
    ensures IsAccounted(PerSeries(fn, inner), text, scan, p)
    decreases PerSeries(fn, inner), 0
  {
    var whole := PerSeries(fn, inner);
    assert inner < whole;
    hide *;
    CallSteps(fn, inner, style);
    TokenOfCall(fn, inner, style, text, rest, scan, start, post, p);
    SeenLength(inner, First(style));
    CallMoves(fn, Render(inner, First(style)), Render(Seen(inner), First(style)), text, rest, scan, start, post);
    EveryTokenIsAccounted(inner, First(style), text, [')'] + rest, scan, start + |fn| + 1, [')'] + post, p);
    AccountedAbove(inner, whole, text, scan, p);
  }

  lemma CallMoves(fn: string, l: string, ll: string, text: string, rest: string, scan: string, start: nat, post: string)
    requires Stands(text, start, fn + Wrapped(l), rest)
    requires Stands(scan, start, fn + Wrapped(ll), post) && IsIdentifier(fn)
    ensures var at := start + |fn| + 1;
            && Stands(text, at, l, [')'] + rest) && Stands(scan, at, ll, [')'] + post)
            && Fresh(scan, at) && Behind([')'] + post)
  {
    hide Wrapped, Fresh, Behind, BlocksFrom, IsIdentifier;
    CallPlaces(text, start, fn, l, rest);
    CallOpens(scan, start, fn, ll, post);
  }

  lemma TokenOfCall(fn: string, inner: Expr, style: Style, text: string, rest: string, scan: string, start: nat,
                    post: string, p: nat)
    requires WellNamed(PerSeries(fn, inner)) && Fresh(scan, start)
    requires Stands(scan, start, Render(Seen(PerSeries(fn, inner)), style), post)
    requires start <= p < start + |Render(PerSeries(fn, inner), style)| && TokenAt(scan, p, "sum")
    ensures start + |fn| + 1 <= p < start + |fn| + 1 + |Render(inner, First(style))|
  {
    hide TokenAt, Fresh, First;
    SeenLength(inner, First(style));
    WrappedLength(Render(inner, First(style)));
    CallToken(scan, start, fn, Render(Seen(inner), First(style)), post, p);
  }

  lemma {:induction false} PairIsAccounted(left: Expr, right: Expr, style: Style, text: string, rest: string,
                                           scan: string, start: nat, post: string, p: nat)
    requires WellNamed(Paired(left, right))
    requires Stands(text, start, Render(Paired(left, right), style), rest)
    requires Stands(scan, start, Render(Seen(Paired(left, right)), style), post)
    requires start <= p < start + |Render(Paired(left, right), style)| && TokenAt(scan, p, "sum")
    ensures IsAccounted(Paired(left, right), text, scan, p)
    decreases Paired(left, right), 0
  {
    var whole := Paired(left, right);
    var l, r := Render(left, First(style)), Render(right, Second(style));
    var ll, rr := Render(Seen(left), First(style)), Render(Seen(right), Second(style));
    assert left < whole && right < whole;
    hide *;
    PairSteps(left, right, style);
    SeenLength(left, First(style));
    SeenLength(right, Second(style));
    TokenOfPair(l, r, ll, rr, scan, start, post, p);
    PairMoves(l, r, ll, rr, text, rest, scan, start, post);
    if p < start + 1 + |l| {
      EveryTokenIsAccounted(left, First(style), text, Over(r, rest), scan, start + 1, Over(rr, post), p);
      AccountedAbove(left, whole, text, scan, p);
    } else {
      EveryTokenIsAccounted(right, Second(style), text, [')'] + rest, scan, start + |l| + 4, [')'] + post, p);
      AccountedAbove(right, whole, text, scan, p);
    }
  }

  /** What stands behind the left side of a pair. */
  function Over(right: string, post: string): string {
    PLUS + (right + ([')'] + post))
  }

  lemma PairMoves(l: string, r: string, ll: string, rr: string, text: string, rest: string, scan: string, start: nat,
                  post: string)
    requires Stands(text, start, Wrapped(l + PLUS + r), rest) && |l| == |ll|
    requires Stands(scan, start, Wrapped(ll + PLUS + rr), post)
    ensures var over := start + |l| + 4;
            && Stands(text, start + 1, l, Over(r, rest)) && Stands(text, over, r, [')'] + rest)
            && Stands(scan, start + 1, ll, Over(rr, post)) && Stands(scan, over, rr, [')'] + post)
            && Fresh(scan, start + 1) && Fresh(scan, over) && Behind(Over(rr, post)) && Behind([')'] + post)
  {
    hide Wrapped, Fresh, Behind, BlocksFrom, Names;
    RestPlaces(text, start, l, r, rest);
    PairOpens(scan, start, ll, rr, post);
  }

  lemma PairSteps(left: Expr, right: Expr, style: Style)
    requires WellNamed(Paired(left, right))
    ensures var l, r := Render(left, First(style)), Render(right, Second(style));
            var ll, rr := Render(Seen(left), First(style)), Render(Seen(right), Second(style));
            && Render(Paired(left, right), style) == Wrapped(l + PLUS + r)
            && Render(Seen(Paired(left, right)), style) == Wrapped(ll + PLUS + rr)
    ensures WellNamed(left) && WellNamed(right)
    ensures Within(left, Paired(left, right)) && Within(right, Paired(left, right))
  {
    hide Wrapped;
  }

  lemma TokenOfPair(l: string, r: string, ll: string, rr: string, scan: string, start: nat, post: string, p: nat)
    requires Stands(scan, start, Wrapped(ll + PLUS + rr), post) && |l| == |ll| && |r| == |rr|
    requires start <= p < start + |Wrapped(l + PLUS + r)| && TokenAt(scan, p, "sum")
    ensures start + 1 <= p < start + 1 + |l| || start + |l| + 4 <= p < start + |l| + 4 + |r|
  {
    hide Wrapped, TokenAt;
    PairLength(l, r);
    PairToken(scan, start, ll, rr, post, p);
  }

  lemma PairLength(l: string, r: string)
    ensures |Wrapped(l + PLUS + r)| == |l| + |r| + 5
  {
  }

  lemma AggUnfolds(op: string, grouping: Grouping, inner: Expr, style: Style)
    requires WellNamed(Agg(op, grouping, inner))
    ensures var l, ll := Render(inner, First(style)), Render(Seen(inner), First(style));
            && Render(Agg(op, grouping, inner), style) == SpellAgg(op, grouping, l, Trails(style))
            && Render(Seen(Agg(op, grouping, inner)), style) == SpellAgg(op, grouping, ll, Trails(style))
    ensures op in ACROSS_SERIES_AGGREGATIONS && WellNamed(inner) && (grouping.Bare? || AreLabels(grouping.labels))
    ensures Within(inner, Agg(op, grouping, inner)) && (ListsSum(grouping) ==> LabelsSum(Agg(op, grouping, inner)))
  {
    hide SpellAgg;
  }

  lemma LabelIsAccounted(e: Expr, text: string, scan: string, p: nat)
    requires (LabelsSum(e) && Fails(scan, p)) || IsRead(e, text, scan, p)
    ensures IsAccounted(e, text, scan, p)
  {
  }

  lemma {:induction false} AggIsAccounted(op: string, grouping: Grouping, inner: Expr, style: Style, text: string,
                                          rest: string, scan: string, start: nat, post: string, p: nat)
    requires WellNamed(Agg(op, grouping, inner)) && Fresh(scan, start)
    requires Stands(text, start, Render(Agg(op, grouping, inner), style), rest)
    requires Stands(scan, start, Render(Seen(Agg(op, grouping, inner)), style), post)
    requires start <= p < start + |Render(Agg(op, grouping, inner), style)| && TokenAt(scan, p, "sum")
    ensures IsAccounted(Agg(op, grouping, inner), text, scan, p)
    decreases Agg(op, grouping, inner), 0
  {
    var whole, trails := Agg(op, grouping, inner), Trails(style);
    var l, ll := Render(inner, First(style)), Render(Seen(inner), First(style));
    assert inner < whole;
    hide *;
    AggUnfolds(op, grouping, inner, style);
    SeenLength(whole, style);
    SeenLength(inner, First(style));
    AggToken(scan, start, op, grouping, ll, trails, post, p);
    if p == start && op == "sum" {
      RootIsRead(op, grouping, inner, style, text, rest, scan, start, post);
      LabelIsAccounted(whole, text, scan, p);
    } else if ListsSum(grouping) && Fails(scan, p) {
      LabelIsAccounted(whole, text, scan, p);
    } else {
      var at := start + OpenOf(op, grouping, trails) + 1;
      var behind, tail := AggMoves(op, grouping, l, ll, trails, text, rest, scan, start, post);
      EveryTokenIsAccounted(inner, First(style), text, behind, scan, at, tail, p);
      AccountedAbove(inner, whole, text, scan, p);
    }
  }

  lemma AggMoves(op: string, grouping: Grouping, l: string, ll: string, trails: bool, text: string, rest: string,
                 scan: string, start: nat, post: string)
    returns (behind: string, tail: string)
    requires Stands(text, start, SpellAgg(op, grouping, l, trails), rest)
    requires Stands(scan, start, SpellAgg(op, grouping, ll, trails), post)
    ensures var at := start + OpenOf(op, grouping, trails) + 1;
            Stands(text, at, l, behind) && Stands(scan, at, ll, tail) && Fresh(scan, at) && Behind(tail)
  {
    hide SpellAgg, OpenOf, Fresh, Behind;
    ArgumentPlace(text, start, op, grouping, l, trails, rest);
    ArgumentPlace(scan, start, op, grouping, ll, trails, post);
    var at := start + OpenOf(op, grouping, trails) + 1;
    behind :| text[at..] == l + behind;
    tail :| Behind(tail) && scan[at..] == ll + tail;
  }

  /** And a label called `sum` is such a token. */
  lemma {:induction false} LabelledSumIsRead(e: Expr, style: Style, scan: string, start: nat, post: string)
    returns (p: nat)
    requires WellNamed(e) && LabelsSum(e)
    requires start <= |scan| && scan[start..] == Render(Seen(e), style) + post
    ensures Fails(scan, p)
  {
    hide Fails, Fresh, Behind, SpellAgg, Wrapped, OpenOf, First, Second, Trails, IsReference, Masked;
    match e
    case PerSeries(fn, inner) =>
      CallPlaces(scan, start, fn, Render(Seen(inner), First(style)), post);
      p := LabelledSumIsRead(inner, First(style), scan, start + |fn| + 1, [')'] + post);
    case Paired(left, right) =>
      var l, r := Render(Seen(left), First(style)), Render(Seen(right), Second(style));
      RestPlaces(scan, start, l, r, post);
      if LabelsSum(left) {
        p := LabelledSumIsRead(left, First(style), scan, start + 1, PLUS + (r + ([')'] + post)));
      } else {
        p := LabelledSumIsRead(right, Second(style), scan, start + |l| + 4, [')'] + post);
      }
    case Agg(op, grouping, inner) =>
      var l := Render(Seen(inner), First(style));
      if ListsSum(grouping) {
        var behind := ModifierStands(scan, start, op, grouping, l, Trails(style), post);
        p := GroupingIsToken(scan, ModifierPlace(op, l, Trails(style), start), grouping.By?, grouping.labels, behind);
      } else {
        ArgumentPlace(scan, start, op, grouping, l, Trails(style), post);
        var at := start + OpenOf(op, grouping, Trails(style)) + 1;
        var tail :| scan[at..] == l + tail;
        p := LabelledSumIsRead(inner, First(style), scan, at, tail);
      }
  }
}
