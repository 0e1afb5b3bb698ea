/**
 Writing an expression out: references with their selectors and ranges, modifiers in front
 of an argument or behind it, and how one written aggregation is read back.
 */
module PromRender {
  import opened Text
  import opened PromText
  import opened PromShield
  import opened PromWalk

  // ------------------------------------------------------------ writing an expression out

  predicate IsIdentifier(name: string) {
    && name != [] && IsNameStart(name[0]) && (forall k | 0 <= k < |name| :: IsNameChar(name[k]))
    && name !in ACROSS_SERIES_AGGREGATIONS && Lower(name) !in PROMQL_NON_METRICS
  }

  predicate IsLabel(word: string) {
    word != [] && forall k | 0 <= k < |word| :: IsWordChar(word[k])
  }

  predicate AreLabels(labels: seq<string>) {
    forall k | 0 <= k < |labels| :: IsLabel(labels[k])
  }

  // A reference: a name, then a selector in braces or none, then a range in brackets or none.

  /** `[5m]` or `[5m:1m]`, or nothing. */
  predicate IsRange(text: string) {
    text == [] || (|text| > 1 && text[0] == '[' && text[|text| - 1] == ']'
                   && forall k | 0 < k < |text| - 1 :: IsNameChar(text[k]))
  }

  /** What a selector holds outside quotes, and the quotes. */
  predicate IsSelectorChar(c: char) {
    IsWordChar(c) || IsQuote(c) || c == '=' || c == '!' || c == '~' || c == ',' || c == ' '
  }

  function SelectorEnd(text: string): nat {
    |Before(text, '}')| + 1
  }

  predicate IsSelected(text: string) {
    && text != [] && text[0] == '{' && '}' in text
    && (forall k | 0 < k < |Before(text, '}')| :: IsSelectorChar(text[k]))
    && IsRange(text[SelectorEnd(text)..])
  }

  predicate NoOperator(text: string) {
    forall k | 0 <= k < |text| :: OpAt(text, k) == []
  }

  /** A reference with the contents of its quotes blanked; no label of it is called like an aggregation. */
  predicate IsScanned(reference: string) {
    var name := MetricName(reference);
    && IsIdentifier(name) && NoOperator(reference)
    && (IsRange(reference[|name|..]) || IsSelected(reference[|name|..]))
  }

  /** A reference as it is written, quotes closed; what is quoted is free. */
  predicate IsReference(reference: string) {
    !Unterminated(reference) && IsScanned(Masked(reference))
  }

  predicate WellNamed(e: Expr) {
    match e
    case Metric(reference) => IsReference(reference)
    case PerSeries(fn, arg) => IsIdentifier(fn) && ':' !in fn && WellNamed(arg)
    case Paired(left, right) => WellNamed(left) && WellNamed(right)
    case Agg(op, grouping, arg) =>
      && op in ACROSS_SERIES_AGGREGATIONS && WellNamed(arg)
      && (grouping.Bare? || AreLabels(grouping.labels))
  }

  /** The expression as the mask shows it. */
  function Seen(e: Expr): Expr {
    match e
    case Metric(reference) => Metric(Masked(reference))
    case PerSeries(fn, arg) => PerSeries(fn, Seen(arg))
    case Paired(left, right) => Paired(Seen(left), Seen(right))
    case Agg(op, grouping, arg) => Agg(op, grouping, Seen(arg))
  }

  /** Nothing quoted is left to see. */
  predicate IsSeen(e: Expr) {
    WellNamed(e) && Seen(e) == e
  }

  lemma {:induction false} SeenIsSeen(e: Expr)
    requires WellNamed(e)
    ensures IsSeen(Seen(e))
  {
    match e
    case Metric(reference) =>
      MaskIdempotent(reference, None);
    case PerSeries(_, arg) => SeenIsSeen(arg);
    case Paired(left, right) =>
      SeenIsSeen(left);
      SeenIsSeen(right);
    case Agg(_, _, arg) => SeenIsSeen(arg);
  }

  function Keyword(isBy: bool): string {
    if isBy then "by" else "without"
  }

  /** Text in parentheses. */
  function Wrapped(inner: string): string {
    ['('] + inner + [')']
  }

  function SpellGrouping(isBy: bool, labels: seq<string>): string {
    Keyword(isBy) + [' '] + Wrapped(Join(labels, ','))
  }

  /** An aggregation, its modifier in front of the argument or behind it. */
  function SpellAgg(op: string, grouping: Grouping, inner: string, trailing: bool): string {
    if grouping.Bare? then op + Wrapped(inner)
    else if trailing then op + Wrapped(inner) + [' '] + SpellGrouping(grouping.By?, grouping.labels)
    else op + [' '] + SpellGrouping(grouping.By?, grouping.labels) + [' '] + Wrapped(inner)
  }

  const PLUS: string := [' ', '+', ' ']

  /** Where the modifiers of an expression stand, aggregation by aggregation. */
  datatype Style = Ahead | Placed(trailing: bool, first: Style, second: Style)

  predicate Trails(style: Style) {
    style.Placed? && style.trailing
  }

  function First(style: Style): Style {
    if style.Placed? then style.first else Ahead
  }

  function Second(style: Style): Style {
    if style.Placed? then style.second else Ahead
  }

  /** The text of an expression; every aggregation has the place of its own modifier. */
  function Render(e: Expr, style: Style): string {
    match e
    case Metric(reference) => reference
    case PerSeries(fn, arg) => fn + Wrapped(Render(arg, First(style)))
    case Paired(left, right) => Wrapped(Render(left, First(style)) + PLUS + Render(right, Second(style)))
    case Agg(op, grouping, arg) => SpellAgg(op, grouping, Render(arg, First(style)), Trails(style))
  }

  // ------------------------------------------------------------ closed quotes, balanced parentheses

  predicate Unquoted(text: string) {
    forall k | 0 <= k < |text| :: !IsQuote(text[k])
  }

  lemma {:induction false} MaskOfUnquoted(text: string)
    requires Unquoted(text)
    ensures MaskTail(text, None) == text && OpenAtEnd(text, None) == None
    decreases |text|
  {
    if text != [] { MaskOfUnquoted(text[1..]); }
  }

  lemma {:induction false} BalancedAppend(a: string, k: nat, quote: Quote, b: string, m: nat)
    requires ValidQuote(quote) && Balanced(a, k, quote) && Balanced(b, m, None)
    ensures Balanced(a + b, k + m, quote)
    decreases |a|
  {
    if a == [] {
      assert a + b == b;
    } else {
      BalancedStays(a, b, k, quote);
      BalancedUnfolds(a, k, quote);
      BalancedUnfolds(a + b, k + m, quote);
      hide Balanced;
      if IsEscape(a, quote) {
        assert (a + b)[2..] == a[2..] + b;
        BalancedAppend(a[2..], k, quote, b, m);
      } else {
        assert (a + b)[1..] == a[1..] + b;
        BalancedAppend(a[1..], Deeper(a[0], k, quote), After(a[0], quote), b, m);
      }
    }
  }

  /** The depth behind one character; within quotes parentheses do not count. */
  function Deeper(c: char, depth: int, quote: Quote): int {
    if quote.Some? then depth else if c == '(' then depth + 1 else if c == ')' then depth - 1 else depth
  }

  lemma NothingBalances(k: nat, quote: Quote)
    requires ValidQuote(quote) && Balanced([], k, quote)
    ensures k == 0 && quote == None
  {
  }

  lemma BalancedStays(a: string, b: string, k: nat, quote: Quote)
    requires ValidQuote(quote) && a != [] && Balanced(a, k, quote)
    ensures IsEscape(a + b, quote) == IsEscape(a, quote)
  {
    assert |a| == 1 ==> a[1..] == [];
  }

  lemma BalancedUnfolds(text: string, k: nat, quote: Quote)
    requires ValidQuote(quote) && text != []
    ensures Balanced(text, k, quote) <==>
              if IsEscape(text, quote) then Balanced(text[2..], k, quote)
              else Deeper(text[0], k, quote) >= 0
                     && Balanced(text[1..], Deeper(text[0], k, quote), After(text[0], quote))
  {
  }

  lemma CloseNext(text: string, depth: int, quote: Quote)
    requires ValidQuote(quote) && text != [] && !IsEscape(text, quote)
    requires quote.None? && text[0] == ')' ==> depth > 1
    ensures CloseTail(text, depth, quote)
         == Shift(CloseTail(text[1..], Deeper(text[0], depth, quote), After(text[0], quote)), 1)
  {
    CloseUnfolds(text, depth, quote);
    hide CloseTail;
  }

  lemma SkipsOne(text: string, depth: int, quote: Quote, tail: string, found: Option<nat>, length: nat)
    requires ValidQuote(quote) && text != [] && !IsEscape(text, quote) && tail == text[1..]
    requires quote.None? && text[0] == ')' ==> depth > 1
    requires CloseTail(tail, Deeper(text[0], depth, quote), After(text[0], quote)) == Shift(found, length)
    ensures CloseTail(text, depth, quote) == Shift(found, length + 1)
  {
    hide CloseTail;
    CloseNext(text, depth, quote);
  }

  /** Balanced text is passed over without the depth coming down. */
  lemma {:induction false} BalancedSkips(inner: string, k: nat, quote: Quote, rest: string, base: nat)
    requires ValidQuote(quote) && Balanced(inner, k, quote) && base > 0
    ensures CloseTail(inner + rest, base + k, quote) == Shift(CloseTail(rest, base, None), |inner|)
    decreases |inner|
  {
    hide CloseTail, Balanced;
    if inner == [] {
      NothingBalances(k, quote);
      assert inner + rest == rest;
    } else {
      BalancedStays(inner, rest, k, quote);
      BalancedUnfolds(inner, k, quote);
      if IsEscape(inner, quote) {
        assert (inner + rest)[2..] == inner[2..] + rest;
        BalancedSkips(inner[2..], k, quote, rest, base);
        ClosePastEscape(inner + rest, base + k, quote);
      } else {
        BalancedSkips(inner[1..], Deeper(inner[0], k, quote), After(inner[0], quote), rest, base);
        assert (inner + rest)[0] == inner[0] && (inner + rest)[1..] == inner[1..] + rest;
        SkipsOne(inner + rest, base + k, quote, inner[1..] + rest, CloseTail(rest, base, None), |inner| - 1);
      }
    }
  }

  predicate Proper(text: string) {
    Balanced(text, 0, None)
  }

  predicate IsFlat(text: string) {
    forall k | 0 <= k < |text| :: text[k] != '(' && text[k] != ')'
  }

  /** Without parentheses only the quotes matter. */
  lemma {:induction false} FlatIsBalanced(text: string, quote: Quote)
    requires ValidQuote(quote) && IsFlat(text) && OpenAtEnd(text, quote) == None
    ensures Balanced(text, 0, quote)
    decreases |text|
  {
    if text != [] {
      if IsEscape(text, quote) {
        FlatIsBalanced(text[2..], quote);
      } else {
        FlatIsBalanced(text[1..], After(text[0], quote));
      }
    }
  }

  predicate IsPlain(text: string) {
    IsFlat(text) && Unquoted(text)
  }

  lemma PlainIsProper(text: string)
    requires IsPlain(text)
    ensures Proper(text)
  {
    MaskOfUnquoted(text);
    FlatIsBalanced(text, None);
  }

  lemma WrappedIsProper(inner: string)
    requires Proper(inner)
    ensures Proper(Wrapped(inner))
  {
    var tail := inner + [')'];
    assert Balanced([')'], 1, None);
    BalancedAppend(inner, 0, None, [')'], 1);
    assert Wrapped(inner)[1..] == tail;
  }

  lemma ConcatIsProper(a: string, b: string)
    requires Proper(a) && Proper(b)
    ensures Proper(a + b)
  {
    BalancedAppend(a, 0, None, b, 0);
  }

  lemma {:induction false} JoinedLabels(labels: seq<string>)
    requires AreLabels(labels)
    ensures forall k | 0 <= k < |Join(labels, ',')| :: IsWordChar(Join(labels, ',')[k]) || Join(labels, ',')[k] == ','
  {
    if |labels| == 1 {
      assert IsLabel(labels[0]);
    } else if |labels| > 1 {
      assert IsLabel(labels[0]);
      JoinedLabels(labels[1..]);
    }
  }

  lemma NamesArePlain(name: string)
    requires forall k | 0 <= k < |name| :: IsNameChar(name[k])
    ensures IsPlain(name)
  {
  }

  lemma OpIsName(op: string)
    requires op in ACROSS_SERIES_AGGREGATIONS
    ensures op != [] && forall k | 0 <= k < |op| :: IsNameChar(op[k])
  {
  }

  lemma GroupingIsProper(isBy: bool, labels: seq<string>)
    requires AreLabels(labels)
    ensures Proper(SpellGrouping(isBy, labels))
  {
    JoinedLabels(labels);
    PlainIsProper(Join(labels, ','));
    WrappedIsProper(Join(labels, ','));
    PlainIsProper(Keyword(isBy) + [' ']);
    ConcatIsProper(Keyword(isBy) + [' '], Wrapped(Join(labels, ',')));
  }

  lemma FlatConcat(a: string, b: string)
    requires IsFlat(a) && IsFlat(b)
    ensures IsFlat(a + b)
  {
  }

  lemma RangeIsFlat(text: string)
    requires IsRange(text)
    ensures IsFlat(text)
  {
  }

  lemma SelectedIsFlat(text: string)
    requires IsSelected(text)
    ensures IsFlat(text)
  {
    var end := SelectorEnd(text);
    assert text == text[..end] + text[end..];
    RangeIsFlat(text[end..]);
    hide IsRange;
    FlatConcat(text[..end], text[end..]);
  }

  /** A scanned reference holds no parenthesis. */
  lemma ScannedIsFlat(reference: string)
    requires IsScanned(reference)
    ensures IsFlat(reference)
  {
    var name := MetricName(reference);
    var rest := reference[|name|..];
    assert reference == name + rest;
    assert IsFlat(name);
    hide IsRange, IsSelected, IsFlat;
    if IsRange(rest) { RangeIsFlat(rest); } else { SelectedIsFlat(rest); }
    FlatConcat(name, rest);
  }

  lemma SeenReference(reference: string)
    requires IsReference(reference) && Masked(reference) == reference
    ensures IsScanned(reference) && Proper(reference) && reference != []
  {
    ScannedIsFlat(reference);
    FlatIsBalanced(reference, None);
  }

  lemma {:induction false} RenderIsProper(e: Expr, style: Style)
    requires IsSeen(e)
    ensures Proper(Render(e, style)) && Render(e, style) != []
  {
    match e
    case Metric(reference) =>
      SeenReference(reference);
    case PerSeries(fn, arg) =>
      RenderIsProper(arg, First(style));
      NamesArePlain(fn);
      PlainIsProper(fn);
      WrappedIsProper(Render(arg, First(style)));
      ConcatIsProper(fn, Wrapped(Render(arg, First(style))));
    case Paired(left, right) =>
      RenderIsProper(left, First(style));
      RenderIsProper(right, Second(style));
      PairIsProper(Render(left, First(style)), Render(right, Second(style)));
    case Agg(op, grouping, arg) =>
      RenderIsProper(arg, First(style));
      AggIsProper(op, grouping, Render(arg, First(style)), Trails(style));
  }

  lemma PairIsProper(l: string, r: string)
    requires Proper(l) && Proper(r)
    ensures Proper(Wrapped(l + PLUS + r))
  {
    PlainIsProper(PLUS);
    hide Proper;
    ConcatIsProper(l, PLUS);
    ConcatIsProper(l + PLUS, r);
    WrappedIsProper(l + PLUS + r);
  }

  lemma AggIsProper(op: string, grouping: Grouping, inner: string, trailing: bool)
    requires op in ACROSS_SERIES_AGGREGATIONS && (grouping.Bare? || AreLabels(grouping.labels)) && Proper(inner)
    ensures Proper(SpellAgg(op, grouping, inner, trailing)) && SpellAgg(op, grouping, inner, trailing) != []
  {
    OpIsName(op);
    NamesArePlain(op);
    PlainIsProper(op);
    WrappedIsProper(inner);
    ConcatIsProper(op, Wrapped(inner));
    if !grouping.Bare? {
      var spelled := SpellGrouping(grouping.By?, grouping.labels);
      GroupingIsProper(grouping.By?, grouping.labels);
      PlainIsProper([' ']);
      ConcatIsProper(op + Wrapped(inner), [' ']);
      ConcatIsProper(op + Wrapped(inner) + [' '], spelled);
      ConcatIsProper(op, [' ']);
      ConcatIsProper(op + [' '], spelled);
      ConcatIsProper(op + [' '] + spelled, [' ']);
      ConcatIsProper(op + [' '] + spelled + [' '], Wrapped(inner));
    }
  }

  // ------------------------------------------------------------ reading one aggregation back

  /** What may stand behind an expression. */
  predicate Behind(post: string) {
    post == [] || post[0] == ')' || PLUS <= post
  }

  lemma InsideParens(text: string, open: nat, inner: string, post: string)
    requires open <= |text| && text[open..] == Wrapped(inner) + post
    ensures open + |inner| + 2 <= |text| && text[open] == '('
    ensures text[open + 1..open + |inner| + 1] == inner && text[open + |inner| + 2..] == post
    ensures text[open..] == ['('] + (inner + ([')'] + post))
  {
    var tail := text[open..];
    assert tail == ['('] + (inner + ([')'] + post));
    assert text[open] == tail[0];
    assert text[open + 1..open + |inner| + 1] == tail[1..|inner| + 1] == inner;
    assert text[open + |inner| + 2..] == tail[|inner| + 2..] == post;
  }

  lemma CloseBehind(inner: string, post: string)
    requires Proper(inner)
    ensures CloseTail(['('] + (inner + ([')'] + post)), 0, None) == Some(|inner| + 1)
  {
    var rest := [')'] + post;
    var tail := ['('] + (inner + rest);
    BalancedSkips(inner, 0, None, rest, 1);
    assert CloseTail(rest, 1, None) == Some(0);
    hide Balanced;
    assert tail[1..] == inner + rest;
  }

  /** The parenthesis that closes `inner` where it stands. */
  lemma MatchAt(text: string, open: nat, inner: string, post: string)
    requires open <= |text| && text[open..] == Wrapped(inner) + post && Proper(inner)
    ensures MatchingParenAt(text, open) == Some(open + |inner| + 1)
    ensures GroupAt(text, open) == Some(Group(open, open + |inner| + 1))
    ensures open + |inner| + 2 <= |text| && text[open] == '(' && text[open + 1..open + |inner| + 1] == inner
    ensures text[open + |inner| + 2..] == post
  {
    InsideParens(text, open, inner, post);
    CloseBehind(inner, post);
    hide CloseTail, Proper, Wrapped;
  }

  lemma NoSpaceHere(text: string, at: nat)
    requires at <= |text| && (at < |text| ==> !IsSpace(text[at]))
    ensures SkipSpaceFrom(text, at) == at
  {
  }

  lemma OneSpaceHere(text: string, at: nat)
    requires at + 1 <= |text| && text[at] == ' ' && (at + 1 < |text| ==> !IsSpace(text[at + 1]))
    ensures SkipSpaceFrom(text, at) == at + 1
  {
    assert SkipSpaceFrom(text, at + 1) == at + 1;
  }

  lemma NoModifier(text: string, at: nat)
    requires at <= |text| && (at < |text| ==> text[at] != 'b' && text[at] != 'w')
    ensures ModifierOpen(text, at) == None
  {
    if at < |text| {
      assert text[at..][0] == text[at];
    }
  }

  /** A modifier is read where it stands. */
  lemma ModifierHere(text: string, at: nat, isBy: bool, labels: seq<string>, post: string)
    requires at <= |text| && text[at..] == SpellGrouping(isBy, labels) + post && AreLabels(labels)
    ensures var open := at + |Keyword(isBy)| + 1;
            && ModifierOpen(text, at) == Some(Modifier(isBy, open))
            && open <= |text| && text[open..] == Wrapped(Join(labels, ',')) + post
  {
    var keyword := Keyword(isBy);
    var open := at + |keyword| + 1;
    var tail := text[at..];
    var behind := Wrapped(Join(labels, ',')) + post;
    assert tail == keyword + ([' '] + behind);
    assert keyword <= tail;
    assert tail[|keyword|] == ' ' && tail[|keyword| + 1] == '(';
    assert text[at + |keyword|] == tail[|keyword|] && text[open] == tail[|keyword| + 1];
    assert text[open..] == tail[|keyword| + 1..] == behind;
    OneSpaceHere(text, at + |keyword|);
    if !isBy { assert tail[0] == 'w'; }
  }

  /** The length of a written aggregation, and where its argument opens. */
  function OpenOf(op: string, grouping: Grouping, trailing: bool): nat {
    if grouping.Bare? || trailing then |op| else |op| + 1 + |SpellGrouping(grouping.By?, grouping.labels)| + 1
  }

  function BlockOf(op: string, grouping: Grouping, inner: string, trailing: bool, start: nat): Block {
    var open := start + OpenOf(op, grouping, trailing);
    Block(op, grouping, start, open, open + |inner| + 1, start + |SpellAgg(op, grouping, inner, trailing)|)
  }

  lemma GroupingReadBack(isBy: bool, labels: seq<string>)
    requires AreLabels(labels)
    ensures GroupingOf(isBy, Join(labels, ',')) == if isBy then By(labels) else Without(labels)
  {
    forall k | 0 <= k < |labels|
      ensures IsItem(labels[k])
    {
      assert IsLabel(labels[k]);
      LabelIsItem(labels[k]);
    }
    ItemsOfJoined(labels);
  }

  lemma LabelIsItem(word: string)
    requires IsLabel(word)
    ensures IsItem(word)
  {
  }

  // What the two readers find at a place.

  /** Behind an expression stands no modifier. */
  lemma NothingFollows(text: string, after: nat, post: string)
    requires after <= |text| && text[after..] == post && Behind(post)
    ensures ClauseReader(text)(after) == NoClause
  {
    if post != [] {
      assert text[after] == post[0];
      if post[0] == ')' {
        NoSpaceHere(text, after);
        NoModifier(text, after);
      } else {
        assert post[0] == ' ' && post[1] == '+';
        assert text[after + 1] == post[1];
        OneSpaceHere(text, after);
        NoModifier(text, after + 1);
      }
    }
  }

  /** An argument right here: no modifier, and the argument's parentheses. */
  lemma ArgumentHere(text: string, open: nat, inner: string, post: string)
    requires open <= |text| && text[open..] == Wrapped(inner) + post && Proper(inner)
    ensures ClauseReader(text)(open) == NoClause
    ensures GroupReader(text)(open) == Some(Group(open, open + |inner| + 1))
  {
    MatchAt(text, open, inner, post);
    NoSpaceHere(text, open);
    NoModifier(text, open);
  }

  lemma ArgumentAfterSpace(text: string, at: nat, inner: string, post: string)
    requires at <= |text| && text[at..] == [' '] + (Wrapped(inner) + post) && Proper(inner)
    ensures GroupReader(text)(at) == Some(Group(at + 1, at + |inner| + 2))
  {
    var tail := text[at..];
    assert text[at] == tail[0] && text[at + 1] == tail[1] == '(';
    OneSpaceHere(text, at);
    assert text[at + 1..] == tail[1..] == Wrapped(inner) + post;
    MatchAt(text, at + 1, inner, post);
  }

  function GroupingFrom(isBy: bool, labels: seq<string>): Grouping {
    if isBy then By(labels) else Without(labels)
  }

  lemma LabelsMatch(text: string, open: nat, labels: seq<string>, post: string)
    requires open <= |text| && text[open..] == Wrapped(Join(labels, ',')) + post && AreLabels(labels)
    ensures var closed := open + |Join(labels, ',')| + 1;
            closed < |text| && MatchingParenAt(text, open) == Some(closed)
                && text[open + 1..closed] == Join(labels, ',')
  {
    JoinedLabels(labels);
    PlainIsProper(Join(labels, ','));
    MatchAt(text, open, Join(labels, ','), post);
  }

  lemma ClauseRead(text: string, at: nat, here: nat, m: Modifier, closed: nat, labels: string)
    requires at <= here <= |text| && SkipSpaceFrom(text, at) == here && ModifierOpen(text, here) == Some(m)
    requires m.open < closed < |text| && MatchingParenAt(text, m.open) == Some(closed)
               && text[m.open + 1..closed] == labels
    ensures ClauseReader(text)(at) == Clause(GroupingOf(m.isBy, labels), closed + 1)
  {
    hide ModifierOpen, MatchingParenAt, GroupingOf;
  }

  /** A modifier behind one blank. */
  lemma GroupingHere(text: string, at: nat, isBy: bool, labels: seq<string>, post: string)
    requires at <= |text| && text[at..] == [' '] + (SpellGrouping(isBy, labels) + post) && AreLabels(labels)
    ensures ClauseReader(text)(at) == Clause(GroupingFrom(isBy, labels), at + 1 + |SpellGrouping(isBy, labels)|)
  {
    hide ClauseReader, ModifierOpen, MatchingParenAt, GroupingOf;
    var spelled := SpellGrouping(isBy, labels);
    var tail := text[at..];
    assert text[at] == tail[0] && text[at + 1] == tail[1] == spelled[0];
    OneSpaceHere(text, at);
    Tail(text, at, [' '], spelled + post);
    ModifierHere(text, at + 1, isBy, labels, post);
    var open := at + 1 + |Keyword(isBy)| + 1;
    LabelsMatch(text, open, labels, post);
    GroupingReadBack(isBy, labels);
    ClauseRead(text, at, at + 1, Modifier(isBy, open), open + |Join(labels, ',')| + 1, Join(labels, ','));
  }

  // Assembling a block from what the readers find; the texts no longer matter.

  lemma BareBlock(clauses: nat -> Clause, groups: nat -> Option<Group>, start: nat, op: string, length: nat)
    requires clauses(start + |op|) == NoClause
    requires groups(start + |op|) == Some(Group(start + |op|, start + |op| + length + 1))
    requires clauses(start + |op| + length + 2) == NoClause
    ensures BlockWith(clauses, groups, start, op)
         == Some(Block(op, Bare, start, start + |op|, start + |op| + length + 1, start + |op| + length + 2))
  {
  }

  lemma TrailingBlock(clauses: nat -> Clause, groups: nat -> Option<Group>, start: nat, op: string, length: nat,
                      grouping: Grouping, end: nat)
    requires clauses(start + |op|) == NoClause
    requires groups(start + |op|) == Some(Group(start + |op|, start + |op| + length + 1))
    requires clauses(start + |op| + length + 2) == Clause(grouping, end)
    ensures BlockWith(clauses, groups, start, op)
         == Some(Block(op, grouping, start, start + |op|, start + |op| + length + 1, end))
  {
  }

  lemma LeadingBlock(clauses: nat -> Clause, groups: nat -> Option<Group>, start: nat, op: string, length: nat,
                     grouping: Grouping, end: nat)
    requires clauses(start + |op|) == Clause(grouping, end)
    requires groups(end) == Some(Group(end + 1, end + length + 2))
    ensures BlockWith(clauses, groups, start, op)
         == Some(Block(op, grouping, start, end + 1, end + length + 2, end + length + 3))
  {
  }

  lemma Tail(text: string, start: nat, head: string, rest: string)
    requires start <= |text| && text[start..] == head + rest
    ensures start + |head| <= |text| && text[start + |head|..] == rest
  {
    assert text[start..][|head|..] == rest;
  }

  lemma BareIsRead(text: string, start: nat, op: string, inner: string, post: string)
    requires start <= |text| && text[start..] == op + (Wrapped(inner) + post) && op != [] && Proper(inner)
               && Behind(post)
    ensures BlockWith(ClauseReader(text), GroupReader(text), start, op) == Some(BlockOf(op, Bare, inner, false, start))
  {
    hide ClauseBehind, GroupBehind;
    Tail(text, start, op, Wrapped(inner) + post);
    Tail(text, start + |op|, Wrapped(inner), post);
    ArgumentHere(text, start + |op|, inner, post);
    NothingFollows(text, start + |op| + |inner| + 2, post);
    BareBlock(ClauseReader(text), GroupReader(text), start, op, |inner|);
  }

  lemma TrailingIsRead(text: string, start: nat, op: string, isBy: bool, labels: seq<string>, inner: string,
                       post: string)
    requires start <= |text| && op != [] && Proper(inner) && AreLabels(labels)
    requires text[start..] == op + (Wrapped(inner) + ([' '] + (SpellGrouping(isBy, labels) + post)))
    ensures BlockWith(ClauseReader(text), GroupReader(text), start, op)
         == Some(BlockOf(op, GroupingFrom(isBy, labels), inner, true, start))
  {
    hide ClauseBehind, GroupBehind;
    var behind := [' '] + (SpellGrouping(isBy, labels) + post);
    var after := start + |op| + |inner| + 2;
    Tail(text, start, op, Wrapped(inner) + behind);
    Tail(text, start + |op|, Wrapped(inner), behind);
    ArgumentHere(text, start + |op|, inner, behind);
    GroupingHere(text, after, isBy, labels, post);
    TrailingBlock(ClauseReader(text), GroupReader(text), start, op, |inner|, GroupingFrom(isBy, labels),
                  after + 1 + |SpellGrouping(isBy, labels)|);
  }

  lemma LeadingIsRead(text: string, start: nat, op: string, isBy: bool, labels: seq<string>, inner: string,
                      post: string)
    requires start <= |text| && op != [] && Proper(inner) && AreLabels(labels)
    requires text[start..] == op + ([' '] + (SpellGrouping(isBy, labels) + ([' '] + (Wrapped(inner) + post))))
    ensures BlockWith(ClauseReader(text), GroupReader(text), start, op)
         == Some(BlockOf(op, GroupingFrom(isBy, labels), inner, false, start))
  {
    hide ClauseBehind, GroupBehind, ClauseReader, GroupReader;
    var behind := [' '] + (Wrapped(inner) + post);
    var spelled := SpellGrouping(isBy, labels);
    Tail(text, start, op, [' '] + (spelled + behind));
    Tail(text, start + |op|, [' '], spelled + behind);
    Tail(text, start + |op| + 1, spelled, behind);
    GroupingHere(text, start + |op|, isBy, labels, behind);
    var end := start + |op| + 1 + |spelled|;
    ArgumentAfterSpace(text, end, inner, post);
    LeadingBlock(ClauseReader(text), GroupReader(text), start, op, |inner|, GroupingFrom(isBy, labels), end);
  }

  lemma SpelledShape(op: string, spelled: string, inner: string, post: string)
    ensures op + [' '] + spelled + [' '] + Wrapped(inner) + post
              == op + ([' '] + (spelled + ([' '] + (Wrapped(inner) + post))))
    ensures op + Wrapped(inner) + [' '] + spelled + post == op + (Wrapped(inner) + ([' '] + (spelled + post)))
    ensures op + Wrapped(inner) + post == op + (Wrapped(inner) + post)
  {
  }

  /** Reading a written aggregation gives its operator, its modifier and its argument. */
  lemma AggIsRead(text: string, start: nat, op: string, grouping: Grouping, inner: string, trailing: bool, post: string)
    requires start <= |text| && text[start..] == SpellAgg(op, grouping, inner, trailing) + post
    requires op in ACROSS_SERIES_AGGREGATIONS && Proper(inner) && Behind(post)
    requires grouping.Bare? || AreLabels(grouping.labels)
    ensures BlockWith(ClauseReader(text), GroupReader(text), start, op)
              == Some(BlockOf(op, grouping, inner, trailing, start))
  {
    hide BlockWith, ClauseReader, GroupReader, Proper, Behind, Wrapped, AreLabels, SpellGrouping;
    OpIsName(op);
    var spelled := if grouping.Bare? then [] else SpellGrouping(grouping.By?, grouping.labels);
    SpelledShape(op, spelled, inner, post);
    if grouping.Bare? {
      BareIsRead(text, start, op, inner, post);
    } else if trailing {
      TrailingIsRead(text, start, op, grouping.By?, grouping.labels, inner, post);
    } else {
      LeadingIsRead(text, start, op, grouping.By?, grouping.labels, inner, post);
    }
  }

  /** The aggregations across series. */
  predicate IsAcrossSeries(op: string) {
    || op == "sum" || op == "min" || op == "max" || op == "avg" || op == "count" || op == "group"
    || op == "stddev" || op == "stdvar" || op == "topk" || op == "bottomk" || op == "quantile"
    || op == "count_values"
  }

  /** Every aggregation of the language is read as one, and nothing else is. */
  lemma EveryOperatorIsRead(op: string, inner: string, post: string)
    requires Proper(inner) && Behind(post)
    ensures op in ACROSS_SERIES_AGGREGATIONS <==> IsAcrossSeries(op)
    ensures var text := SpellAgg(op, Bare, inner, false) + post;
            IsAcrossSeries(op) ==>
              BlockWith(ClauseReader(text), GroupReader(text), 0, op) == Some(BlockOf(op, Bare, inner, false, 0))
  {
    var text := SpellAgg(op, Bare, inner, false) + post;
    assert op in ACROSS_SERIES_AGGREGATIONS <==> IsAcrossSeries(op);
    if IsAcrossSeries(op) {
      assert text[0..] == text;
      AggIsRead(text, 0, op, Bare, inner, false, post);
    }
  }
}
