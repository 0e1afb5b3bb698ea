/**
 The gauge check over whole expressions: every `sum`, at any depth, has its argument
 walked, so an accepted expression holds no sum that counts replicas.
 */
module PromGate {
  import opened Text
  import opened PromText
  import opened PromShield
  import opened PromMeaning
  import opened PromWalk
  import opened PromRender
  import opened PromMask
  import opened PromRoundTrip
  import opened PromNames
  import opened PromSound

  // ------------------------------------------------------------ the check

  datatype Problem = NoTypes | Unreadable(expr: string) | SummedGauge(expr: string, family: string)

  predicate AllClean(args: seq<string>, gauges: set<string>) {
    forall k | 0 <= k < |args| :: Walk(args[k], gauges, false) == NOTHING
  }

  /** The expression can be read, and no argument of a `sum` reads an unshielded gauge. */
  predicate Accepts(expr: string, gauges: set<string>) {
    var groups := SumsFrom(Masked(expr), 0);
    !Unterminated(expr) && None !in groups && AllClean(TextsIn(expr, groups), gauges)
  }

  /** What one argument of a `sum` gives: that it cannot be read, or every gauge it reads unshielded. */
  predicate ArgumentFinds(p: Problem, expr: string, arg: string, gauges: set<string>) {
    var reading := Walk(arg, gauges, false);
    match p
    case NoTypes => false
    case Unreadable(e) => e == expr && reading.unscannable
    case SummedGauge(e, family) => e == expr && !reading.unscannable && family in reading.families
  }

  predicate SomeFinds(p: Problem, expr: string, args: seq<string>, gauges: set<string>) {
    exists k :: 0 <= k < |args| && ArgumentFinds(p, expr, args[k], gauges)
  }

  /** The problems of an expression: a `sum` without an argument spoils it, else those of the arguments. */
  predicate Finds(p: Problem, expr: string, gauges: set<string>) {
    var groups := SumsFrom(Masked(expr), 0);
    if Unterminated(expr) || None in groups then p == Unreadable(expr)
    else SomeFinds(p, expr, TextsIn(expr, groups), gauges)
  }

  method CheckArgument(expr: string, arg: string, gauges: set<string>) returns (problems: seq<Problem>)
    ensures forall p :: p in problems <==> ArgumentFinds(p, expr, arg, gauges)
    ensures problems == [] <==> Walk(arg, gauges, false) == NOTHING
  {
    hide Walk;
    var families, unscannable := UnshieldedGaugeReferences(arg, gauges);
    if unscannable { return [Unreadable(expr)]; }
    problems := [];
    ghost var all := families;
    while families != {}
      invariant problems == [] <==> families == all
      invariant families <= all
      invariant forall p :: p in problems <==> p.SummedGauge? && p.expr == expr && p.family in all - families
      decreases families
    {
      var family :| family in families;
      problems := problems + [SummedGauge(expr, family)];
      families := families - {family};
    }
  }

  method CheckSums(expr: string, gauges: set<string>) returns (problems: seq<Problem>)
    ensures problems == [] <==> Accepts(expr, gauges)
    ensures forall p :: p in problems <==> Finds(p, expr, gauges)
  {
    hide Walk, ArgumentFinds;
    var args, unbalanced := SumAggregationArguments(expr);
    if unbalanced { return [Unreadable(expr)]; }
    problems := [];
    for k := 0 to |args|
      invariant problems == [] <==> AllClean(args[..k], gauges)
      invariant forall p :: p in problems <==> SomeFinds(p, expr, args[..k], gauges)
    {
      var found := CheckArgument(expr, args[k], gauges);
      FindsSnoc(expr, args, k, gauges);
      problems := problems + found;
      CleanSnoc(args, k, gauges);
    }
    assert args[..|args|] == args;
  }

  lemma FindsSnoc(expr: string, args: seq<string>, k: nat, gauges: set<string>)
    requires k < |args|
    ensures forall p :: SomeFinds(p, expr, args[..k + 1], gauges)
                   <==> SomeFinds(p, expr, args[..k], gauges) || ArgumentFinds(p, expr, args[k], gauges)
  {
    hide ArgumentFinds;
    assert args[..k + 1][k] == args[k];
    assert forall j | 0 <= j < k :: args[..k + 1][j] == args[..k][j];
  }

  lemma CleanSnoc(args: seq<string>, k: nat, gauges: set<string>)
    requires k < |args|
    ensures AllClean(args[..k + 1], gauges) <==> AllClean(args[..k], gauges) && Walk(args[k], gauges, false) == NOTHING
  {
    hide Walk;
    OneMore(args, k);
    assert args[..k + 1][k] == args[k];
    assert forall j | 0 <= j < k :: args[..k + 1][j] == args[..k][j];
  }

  /** The declared gauge families. */
  function GaugesOf(types: map<string, string>): set<string> {
    set family | family in types && types[family] == "gauge"
  }

  /** The report over all panels: that there are no types, or what the expressions give. */
  predicate Reports(p: Problem, exprs: seq<string>, types: map<string, string>) {
    if |types| == 0 then p == NoTypes
    else exists k :: 0 <= k < |exprs| && Finds(p, exprs[k], GaugesOf(types))
  }

  /** The check over the expressions of all panels; without declared types it fails. */
  method EvaluateGaugeAggregation(exprs: seq<string>, types: map<string, string>) returns (problems: seq<Problem>)
    ensures problems == [] <==> |types| > 0 && forall k | 0 <= k < |exprs| :: Accepts(exprs[k], GaugesOf(types))
    ensures forall p :: p in problems <==> Reports(p, exprs, types)
    ensures forall e, f | SummedGauge(e, f) in problems :: e in exprs && f in types && types[f] == "gauge"
  {
    hide Accepts, Finds;
    if |types| == 0 { return [NoTypes]; }
    problems := [];
    for k := 0 to |exprs|
      invariant problems == [] <==> forall j | 0 <= j < k :: Accepts(exprs[j], GaugesOf(types))
      invariant forall p :: p in problems <==> exists j :: 0 <= j < k && Finds(p, exprs[j], GaugesOf(types))
    {
      var found := CheckSums(exprs[k], GaugesOf(types));
      problems := problems + found;
    }
    forall e, f | SummedGauge(e, f) in problems
      ensures e in exprs && f in types && types[f] == "gauge"
    {
      var j :| 0 <= j < |exprs| && Finds(SummedGauge(e, f), exprs[j], GaugesOf(types));
      FoundIsGauge(e, f, exprs[j], GaugesOf(types));
    }
  }

  lemma FoundIsGauge(e: string, f: string, expr: string, gauges: set<string>)
    requires Finds(SummedGauge(e, f), expr, gauges)
    ensures e == expr && f in gauges
  {
    hide SumsFrom, TextsIn, Masked, Unterminated, Walk;
  }

  // ------------------------------------------------------------ every sum of the tree is found in the text

  predicate HasSum(e: Expr, grouping: Grouping, arg: Expr) {
    match e
    case Metric(_) => false
    case PerSeries(_, inner) => HasSum(inner, grouping, arg)
    case Paired(left, right) => HasSum(left, grouping, arg) || HasSum(right, grouping, arg)
    case Agg(op, own, inner) => (op == "sum" && own == grouping && inner == arg) || HasSum(inner, grouping, arg)
  }

  /** A `sum` stands at `p`, and these are the parentheses of its argument. */
  predicate SumAt(scan: string, p: nat, group: Group) {
    p + 3 <= |scan| && TokenAt(scan, p, "sum") && ArgumentAfter(scan, p + 3) == Some(group)
  }

  lemma SumToken(text: string, start: nat, rest: string)
    requires start <= |text| && text[start..] == "sum" + rest && Fresh(text, start) && EndsName(rest)
    ensures start + 3 <= |text| && TokenAt(text, start, "sum") && text[start + 3..] == rest
  {
    Tail(text, start, "sum", rest);
    assert text[start..start + 3] == text[start..][..3];
    if rest != [] { assert text[start + 3] == rest[0]; }
  }

  /** The argument right behind the operator. */
  lemma DirectArgument(text: string, at: nat, inner: string, post: string)
    requires at <= |text| && text[at..] == Wrapped(inner) + post && Proper(inner)
    ensures ArgumentAfter(text, at) == Some(Group(at, at + |inner| + 1))
    ensures at + |inner| + 1 < |text| && text[at + 1..at + |inner| + 1] == inner
  {
    MatchAt(text, at, inner, post);
    NoSpaceHere(text, at);
    NoWord(text, at);
  }

  lemma NoWord(text: string, at: nat)
    requires at < |text| && text[at] == '('
    ensures ModifierAt(text, at) == 0
  {
    assert text[at..][0] == '(';
  }

  lemma WordHere(text: string, at: nat, isBy: bool, rest: string)
    requires at <= |text| && text[at..] == Keyword(isBy) + ([' '] + rest)
    ensures ModifierAt(text, at) == |Keyword(isBy)|
  {
    var tail := text[at..];
    Tail(text, at, Keyword(isBy), [' '] + rest);
    assert Keyword(isBy) <= tail;
    assert text[at + |Keyword(isBy)|] == text[at + |Keyword(isBy)|..][0] == ' ';
    if !isBy { assert tail[0] == 'w'; }
  }

  lemma SkipOne(text: string, at: nat, rest: string)
    requires at <= |text| && text[at..] == [' '] + rest && rest != [] && !IsSpace(rest[0])
    ensures at + 1 <= |text| && SkipSpaceFrom(text, at) == at + 1 && text[at + 1..] == rest
  {
    Tail(text, at, [' '], rest);
    assert text[at] == text[at..][0] && text[at + 1] == text[at + 1..][0];
    OneSpaceHere(text, at);
  }

  lemma GroupAfterSpace(text: string, at: nat, inner: string, post: string)
    requires at <= |text| && text[at..] == [' '] + (Wrapped(inner) + post) && Proper(inner)
    ensures at + |inner| + 3 <= |text| && text[at + |inner| + 3..] == post
    ensures GroupAt(text, SkipSpaceFrom(text, at)) == Some(Group(at + 1, at + |inner| + 2))
    ensures text[at + 2..at + |inner| + 2] == inner
  {
    hide GroupAt, SkipSpaceFrom, MatchingParenAt, Proper;
    SkipOne(text, at, Wrapped(inner) + post);
    MatchAt(text, at + 1, inner, post);
  }

  lemma KeywordStarts(isBy: bool)
    ensures Keyword(isBy) != [] && !IsSpace(Keyword(isBy)[0])
  {
  }

  /** Behind white space at `at` stands the group `g`. */
  predicate GroupFollows(text: string, at: nat, g: Group) {
    at <= |text| && GroupAt(text, SkipSpaceFrom(text, at)) == Some(g)
  }

  lemma TwoGroups(text: string, gap: nat, labels: string, inner: string, post: string)
    requires gap <= |text| && Proper(inner) && Proper(labels)
    requires text[gap..] == [' '] + (Wrapped(labels) + ([' '] + (Wrapped(inner) + post)))
    ensures var second := gap + |labels| + 3;
            && GroupFollows(text, gap, Group(gap + 1, second - 1))
            && GroupFollows(text, second, Group(second + 1, second + |inner| + 2))
            && second + |inner| + 2 < |text| && text[second + 2..second + |inner| + 2] == inner
  {
    hide GroupAt, SkipSpaceFrom, Proper, Wrapped;
    GroupAfterSpace(text, gap, labels, [' '] + (Wrapped(inner) + post));
    GroupAfterSpace(text, gap + |labels| + 3, inner, post);
  }

  /** The argument behind a modifier. */
  lemma ModifiedArgument(text: string, at: nat, isBy: bool, labels: string, inner: string, post: string)
    requires at <= |text| && Proper(inner) && Proper(labels)
    requires text[at..] == [' '] + (Keyword(isBy) + ([' '] + (Wrapped(labels) + ([' '] + (Wrapped(inner) + post)))))
    ensures var open := at + 1 + |Keyword(isBy)| + 1 + |labels| + 3;
            && open + |inner| + 1 < |text| && ArgumentAfter(text, at) == Some(Group(open, open + |inner| + 1))
            && text[open + 1..open + |inner| + 1] == inner
  {
    hide ArgumentAfter, GroupFollows, ModifierAt, SkipSpaceFrom, Proper, Wrapped, Keyword;
    var rest := Wrapped(labels) + ([' '] + (Wrapped(inner) + post));
    var gap := at + 1 + |Keyword(isBy)|;
    var second := gap + |labels| + 3;
    WordBehind(text, at, isBy, rest);
    TwoGroups(text, gap, labels, inner, post);
    ArgumentIs(text, at, gap, Group(gap + 1, second - 1), second, Group(second + 1, second + |inner| + 2));
  }

  /** Behind white space at `at` stands a modifier's keyword, up to `gap`. */
  predicate WordFollows(text: string, at: nat, gap: nat) {
    at <= |text| && SkipSpaceFrom(text, at) < gap && ModifierAt(text, SkipSpaceFrom(text, at))
        == gap - SkipSpaceFrom(text, at)
  }

  lemma WordBehind(text: string, at: nat, isBy: bool, rest: string)
    requires at <= |text| && text[at..] == [' '] + (Keyword(isBy) + ([' '] + rest))
    ensures var gap := at + 1 + |Keyword(isBy)|;
            gap <= |text| && text[gap..] == [' '] + rest && WordFollows(text, at, gap)
  {
    hide ModifierAt, SkipSpaceFrom, Keyword;
    KeywordStarts(isBy);
    SkipOne(text, at, Keyword(isBy) + ([' '] + rest));
    WordHere(text, at + 1, isBy, rest);
    Tail(text, at + 1, Keyword(isBy), [' '] + rest);
  }

  lemma ArgumentIs(text: string, at: nat, gap: nat, labels: Group, behind: nat, group: Group)
    requires WordFollows(text, at, gap) && GroupFollows(text, gap, labels)
    requires behind == labels.closed + 1 && GroupFollows(text, behind, group)
    ensures ArgumentAfter(text, at) == Some(group)
  {
    hide GroupAt, ModifierAt, SkipSpaceFrom;
  }

  lemma DirectSum(text: string, start: nat, inner: string, back: string)
    requires start <= |text| && text[start..] == "sum" + (Wrapped(inner) + back) && Proper(inner) && Fresh(text, start)
    ensures SumAt(text, start, Group(start + 3, start + 3 + |inner| + 1))
  {
    hide ArgumentAfter, TokenAt, Proper;
    SumToken(text, start, Wrapped(inner) + back);
    DirectArgument(text, start + 3, inner, back);
  }

  lemma ModifiedSum(text: string, start: nat, isBy: bool, labels: seq<string>, inner: string, post: string)
    requires start <= |text| && Fresh(text, start) && Proper(inner) && AreLabels(labels)
    requires text[start..]
          == "sum" + [' '] + (Keyword(isBy) + [' '] + Wrapped(Join(labels, ','))) + [' '] + Wrapped(inner) + post
    ensures var open := start + 3 + 1 + |Keyword(isBy)| + 1 + |Join(labels, ',')| + 3;
            SumAt(text, start, Group(open, open + |inner| + 1))
  {
    hide ArgumentAfter, TokenAt;
    LeadingSum(text, start, isBy, Join(labels, ','), inner, post);
    JoinedLabels(labels);
    PlainIsProper(Join(labels, ','));
    hide Proper, Wrapped, Keyword;
    ModifiedArgument(text, start + 3, isBy, Join(labels, ','), inner, post);
  }

  /** A `sum` written out is found with its argument, wherever its modifier stands. */
  lemma SumIsFound(text: string, start: nat, grouping: Grouping, inner: string, trailing: bool, post: string)
    requires start <= |text| && text[start..] == SpellAgg("sum", grouping, inner, trailing) + post
    requires Proper(inner) && Fresh(text, start) && (grouping.Bare? || AreLabels(grouping.labels))
    ensures var b := BlockOf("sum", grouping, inner, trailing, start);
            SumAt(text, start, Group(b.open, b.closed))
  {
    hide *;
    if grouping.Bare? {
      BareSumPlace(inner, start);
      SpelledShape("sum", [], inner, post);
      DirectSum(text, start, inner, post);
    } else {
      var spelled := SpellGrouping(grouping.By?, grouping.labels);
      SumPlace(grouping, inner, trailing, start, post);
      if trailing {
        SpelledShape("sum", spelled, inner, post);
        DirectSum(text, start, inner, [' '] + (spelled + post));
      } else {
        ModifiedSum(text, start, grouping.By?, grouping.labels, inner, post);
      }
    }
  }

  lemma BareSumPlace(inner: string, start: nat)
    ensures BlockOf("sum", Bare, inner, false, start).open == BlockOf("sum", Bare, inner, true, start).open == start + 3
    ensures BlockOf("sum", Bare, inner, false, start).closed == BlockOf("sum", Bare, inner, true, start).closed
         == start + 3 + |inner| + 1
    ensures SpellAgg("sum", Bare, inner, false) == SpellAgg("sum", Bare, inner, true) == "sum" + Wrapped(inner)
  {
  }

  /** Where the argument of a `sum` with a modifier stands, and how it is spelled. */
  lemma SumPlace(grouping: Grouping, inner: string, trailing: bool, start: nat, post: string)
    requires !grouping.Bare?
    ensures var b := BlockOf("sum", grouping, inner, trailing, start);
            var spelled := SpellGrouping(grouping.By?, grouping.labels);
            && spelled == Keyword(grouping.By?) + [' '] + Wrapped(Join(grouping.labels, ','))
            && b.closed == b.open + |inner| + 1
            && b.open == (if trailing then start + 3
                          else start + 3 + 1 + |Keyword(grouping.By?)| + 1 + |Join(grouping.labels, ',')| + 3)
            && SpellAgg("sum", grouping, inner, trailing)
               == if trailing then "sum" + Wrapped(inner) + [' '] + spelled
                  else "sum" + [' '] + spelled + [' '] + Wrapped(inner)
  {
    hide Keyword, Join;
  }

  lemma Nested(word: string, key: string, labels: string, inner: string, post: string)
    ensures word + [' '] + (key + [' '] + labels) + [' '] + inner + post
         == word + ([' '] + (key + ([' '] + (labels + ([' '] + (inner + post))))))
  {
    var rest := [' '] + (inner + post);
    assert key + [' '] + labels + rest == key + ([' '] + (labels + rest));
    assert word + [' '] + (key + [' '] + labels) + [' '] + inner + post
        == word + ([' '] + ((key + [' '] + labels) + rest));
  }

  lemma LeadingSum(text: string, start: nat, isBy: bool, labels: string, inner: string, post: string)
    requires start <= |text| && Fresh(text, start)
    requires text[start..] == "sum" + [' '] + (Keyword(isBy) + [' '] + Wrapped(labels)) + [' '] + Wrapped(inner) + post
    ensures start + 3 <= |text| && TokenAt(text, start, "sum")
    ensures text[start + 3..]
              == [' '] + (Keyword(isBy) + ([' '] + (Wrapped(labels) + ([' '] + (Wrapped(inner) + post)))))
  {
    hide TokenAt, Wrapped, Keyword, Fresh;
    Nested("sum", Keyword(isBy), Wrapped(labels), Wrapped(inner), post);
    SumToken(text, start, [' '] + (Keyword(isBy) + ([' '] + (Wrapped(labels) + ([' '] + (Wrapped(inner) + post))))));
  }

  /** The place of an argument one level in. */
  lemma ArgumentPlace(text: string, start: nat, op: string, grouping: Grouping, inner: string, trailing: bool,
                      post: string)
    requires start <= |text| && text[start..] == SpellAgg(op, grouping, inner, trailing) + post
    ensures var at := start + OpenOf(op, grouping, trailing) + 1;
            at <= |text| && Fresh(text, at)
    ensures exists tail :: Behind(tail) && text[start + OpenOf(op, grouping, trailing) + 1..] == inner + tail
  {
    hide SpellAgg, OpenOf, FrontOf, BackOf, Wrapped, Behind;
    var front, back := FrontOf(op, grouping, trailing), BackOf(grouping, trailing, post);
    AroundArgument(op, grouping, inner, trailing, post);
    Tail(text, start, front, Wrapped(inner) + back);
    InsideWrapped(text, start + |front|, inner, back);
    var tail := [')'] + back;
    assert Behind(tail);
  }

  /** The sum at the root of a written expression. */
  lemma SumAtRoot(grouping: Grouping, arg: Expr, style: Style, text: string, rest: string, scan: string, start: nat,
                  post: string)
    returns (group: Group)
    requires WellNamed(arg) && (grouping.Bare? || AreLabels(grouping.labels))
    requires start <= |text|
               && text[start..] == SpellAgg("sum", grouping, Render(arg, First(style)), Trails(style)) + rest
    requires start <= |scan| && Fresh(scan, start)
               && scan[start..] == SpellAgg("sum", grouping, Render(Seen(arg), First(style)), Trails(style)) + post
    ensures SumAt(scan, start, group) && group.open < group.closed <= |text|
    ensures text[group.open + 1..group.closed] == Render(arg, First(style))
  {
    hide SumAt, Fresh, SpellAgg, Render, Proper, IsSeen;
    var inner, seen := Render(arg, First(style)), Render(Seen(arg), First(style));
    SeenIsSeen(arg);
    RenderIsProper(Seen(arg), First(style));
    SumIsFound(scan, start, grouping, seen, Trails(style), post);
    SeenLength(arg, First(style));
    SameBlock("sum", grouping, seen, inner, Trails(style), start);
    ArgumentSlice(text, start, "sum", grouping, inner, Trails(style), rest);
    var b := BlockOf("sum", grouping, inner, Trails(style), start);
    group := Group(b.open, b.closed);
  }

  /**
   Every sum of the tree stands on the mask of the text, and the text between the
   parentheses found there is its argument.
   */
  lemma {:induction false} EverySumIsFound(e: Expr, grouping: Grouping, arg: Expr, style: Style, text: string,
                                           rest: string, scan: string, start: nat, post: string)
    returns (p: nat, group: Group, own: Style)
    requires WellNamed(e) && HasSum(e, grouping, arg)
    requires start <= |text| && text[start..] == Render(e, style) + rest
    requires start <= |scan| && scan[start..] == Render(Seen(e), style) + post && Behind(post) && Fresh(scan, start)
    ensures SumAt(scan, p, group) && group.open < group.closed <= |text|
    ensures text[group.open + 1..group.closed] == Render(arg, own)
    decreases e, 1
  {
    hide SumAt, Fresh, Behind, BlocksFrom, SpellAgg, Wrapped, OpenOf, First, Second, Trails, IsReference, Masked;
    match e
    case PerSeries(fn, inner) =>
      CallPlaces(text, start, fn, Render(inner, First(style)), rest);
      CallOpens(scan, start, fn, Render(Seen(inner), First(style)), post);
      SeenLength(inner, First(style));
      p, group, own := EverySumIsFound(inner, grouping, arg, First(style), text, [')'] + rest, scan, start + |fn| + 1,
          [')'] + post);
    case Paired(left, right) =>
      p, group, own := SumInPair(left, right, grouping, arg, style, text, rest, scan, start, post);
    case Agg(op, modifier, inner) =>
      if op == "sum" && modifier == grouping && inner == arg {
        group := SumAtRoot(grouping, arg, style, text, rest, scan, start, post);
        p, own := start, First(style);
      } else {
        ArgumentPlace(text, start, op, modifier, Render(inner, First(style)), Trails(style), rest);
        ArgumentPlace(scan, start, op, modifier, Render(Seen(inner), First(style)), Trails(style), post);
        var at := start + OpenOf(op, modifier, Trails(style)) + 1;
        var behind :| text[at..] == Render(inner, First(style)) + behind;
        var tail :| Behind(tail) && scan[at..] == Render(Seen(inner), First(style)) + tail;
        p, group, own := EverySumIsFound(inner, grouping, arg, First(style), text, behind, scan, at, tail);
      }
  }

  lemma {:induction false} SumInPair(left: Expr, right: Expr, grouping: Grouping, arg: Expr, style: Style,
                                     text: string, rest: string, scan: string, start: nat, post: string)
    returns (p: nat, group: Group, own: Style)
    requires WellNamed(left) && WellNamed(right) && (HasSum(left, grouping, arg) || HasSum(right, grouping, arg))
    requires start <= |text| && text[start..] == Render(Paired(left, right), style) + rest
    requires start <= |scan| && scan[start..] == Render(Paired(Seen(left), Seen(right)), style) + post
    ensures SumAt(scan, p, group) && group.open < group.closed <= |text|
    ensures text[group.open + 1..group.closed] == Render(arg, own)
    decreases Paired(left, right), 0
  {
    hide SumAt, Fresh, Behind, BlocksFrom, Wrapped, First, Second, WellNamed, HasSum, Seen;
    var l, r := Render(left, First(style)), Render(right, Second(style));
    var ll, rr := Render(Seen(left), First(style)), Render(Seen(right), Second(style));
    RestPlaces(text, start, l, r, rest);
    PairOpens(scan, start, ll, rr, post);
    SeenLength(left, First(style));
    if HasSum(left, grouping, arg) {
      p, group, own := EverySumIsFound(left, grouping, arg, First(style), text, PLUS + (r + ([')'] + rest)), scan,
          start + 1, PLUS + (rr + ([')'] + post)));
    } else {
      p, group, own := EverySumIsFound(right, grouping, arg, Second(style), text, [')'] + rest, scan, start + |l| + 4,
          [')'] + post);
    }
  }

  // ------------------------------------------------------------ what an accepted expression guarantees

  lemma {:induction false} TokenIsListed(scan: string, from: nat, p: nat)
    requires from <= p && p + 3 <= |scan| && TokenAt(scan, p, "sum")
    ensures ArgumentAfter(scan, p + 3) in SumsFrom(scan, from)
    decreases p - from
  {
    hide ArgumentAfter, TokenAt;
    if from < p { TokenIsListed(scan, from + 1, p); }
  }

  lemma {:induction false} TextIsListed(expr: string, groups: seq<Option<Group>>, group: Option<Group>)
    requires AllFit(groups, |expr|) && group in groups && group.Some? && FitsIn(group, |expr|)
    ensures expr[group.value.open + 1..group.value.closed] in TextsIn(expr, groups)
  {
    if groups[0] == group {
      assert TextOf(expr, group)[0] == expr[group.value.open + 1..group.value.closed];
    } else {
      TextIsListed(expr, groups[1..], group);
    }
  }

  /** An accepted expression walks clean below every one of its sums. */
  lemma AcceptedSumsAreClean(e: Expr, grouping: Grouping, arg: Expr, style: Style, gauges: set<string>)
    returns (own: Style)
    requires WellNamed(e) && HasSum(e, grouping, arg) && Accepts(Render(e, style), gauges)
    ensures Walk(Render(arg, own), gauges, false) == NOTHING
  {
    hide Walk, SumsFrom, TextsIn, Masked, Unterminated, ArgumentAfter, TokenAt, Render, IsReference;
    var text := Render(e, style);
    var scan := Masked(text);
    MaskOfRender(e, style);
    assert text[0..] == text + [] && scan[0..] == scan + [];
    var p, group, found := EverySumIsFound(e, grouping, arg, style, text, [], scan, 0, []);
    own := found;
    TokenIsListed(scan, 0, p);
    TextIsListed(text, SumsFrom(scan, 0), Some(group));
  }

  lemma {:induction false} SumArgumentIsNamed(e: Expr, grouping: Grouping, arg: Expr)
    requires WellNamed(e) && HasSum(e, grouping, arg)
    ensures WellNamed(arg)
  {
    match e
    case PerSeries(_, inner) => SumArgumentIsNamed(inner, grouping, arg);
    case Paired(left, right) =>
      if HasSum(left, grouping, arg) {
        SumArgumentIsNamed(left, grouping, arg);
      } else {
        SumArgumentIsNamed(right, grouping, arg);
      }
    case Agg(op, own, inner) =>
      if !(op == "sum" && own == grouping && inner == arg) { SumArgumentIsNamed(inner, grouping, arg); }
  }

  /**
   The gauge check, end to end: when it accepts the text of an expression, every `sum` of
   the expression over gauges, at any depth, has the same value for all sets of identical
   replicas, on the conditions of the tree-level claim.
   */
  lemma AcceptedExpressionIsSound(e: Expr, style: Style, gauges: set<string>, grouping: Grouping, arg: Expr,
                                  world: World, env: string -> Vector, some: seq<Labels>, others: seq<Labels>)
    requires WellNamed(e) && HasSum(e, grouping, arg) && Accepts(Render(e, style), gauges)
    requires AllGauges(arg, gauges) && Sensible(arg, some) && Sensible(arg, others)
    requires ShieldsLeaveLabels(arg, world)
    requires Resources(env) && Replicas(some) && Replicas(others)
    ensures Denote(Agg("sum", grouping, arg), world, Scraped(env, some))
              == Denote(Agg("sum", grouping, arg), world, Scraped(env, others))
  {
    hide Walk, Denote, Accepts, AllGauges, Sensible, Resources, Replicas, Render, HasSum, WellNamed;
    var own := AcceptedSumsAreClean(e, grouping, arg, style, gauges);
    SumArgumentIsNamed(e, grouping, arg);
    AcceptedTextIsSound(arg, own, gauges, grouping, world, env, some, others);
  }
}
