/**
 Writing an expression and reading it back: where its outermost aggregations stand, and
 what blanking them leaves.
 */
module PromRoundTrip {
  import opened Text
  import opened PromText
  import opened PromShield
  import opened PromWalk
  import opened PromRender

  // ------------------------------------------------------------ where aggregations stand

  /** No name ends right before `start`. */
  predicate Fresh(text: string, start: nat) {
    start == 0 || start > |text| || !IsNameChar(text[start - 1])
  }

  predicate NoOps(text: string, p: nat, q: nat)
    requires q <= |text|
  {
    forall k | p <= k < q :: OpAt(text, k) == []
  }

  lemma {:induction false} SkipTo(text: string, p: nat, q: nat)
    requires p <= q <= |text| && NoOps(text, p, q)
    ensures BlocksFrom(text, p) == BlocksFrom(text, q)
    decreases q - p
  {
    hide OpAt, BlockAt;
    if p < q { SkipTo(text, p + 1, q); }
  }

  lemma {:induction false} NameEndIs(text: string, at: nat, end: nat)
    requires at <= end <= |text| && (forall k | at <= k < end :: IsNameChar(text[k]))
    requires end < |text| ==> !IsNameChar(text[end])
    ensures NameEnd(text, at) == end
    decreases end - at
  {
    if at < end { NameEndIs(text, at + 1, end); }
  }

  predicate EndsName(post: string) {
    post == [] || !IsNameChar(post[0])
  }

  /** A whole name standing at `start`. */
  lemma NameStands(text: string, start: nat, name: string, post: string)
    requires start <= |text| && text[start..] == name + post && EndsName(post)
    requires forall k | 0 <= k < |name| :: IsNameChar(name[k])
    ensures start + |name| <= |text| && NameEnd(text, start) == start + |name|
    ensures text[start..start + |name|] == name && text[start + |name|..] == post
    ensures forall k | start <= k < start + |name| :: text[k] == name[k - start]
  {
    Tail(text, start, name, post);
    assert text[start..start + |name|] == text[start..][..|name|];
    forall k | start <= k < start + |name|
      ensures text[k] == name[k - start]
    {
      assert text[k] == text[start..][k - start];
    }
    if post != [] { assert text[start + |name|] == post[0]; }
    NameEndIs(text, start, start + |name|);
  }

  lemma NoOpInName(text: string, start: nat, name: string, post: string)
    requires start <= |text| && text[start..] == name + post && EndsName(post) && name !in ACROSS_SERIES_AGGREGATIONS
    requires forall k | 0 <= k < |name| :: IsNameChar(name[k])
    ensures start + |name| <= |text| && NoOps(text, start, start + |name|)
  {
    NameStands(text, start, name, post);
    forall k | start <= k < start + |name|
      ensures OpAt(text, k) == []
    {
      if k > start { assert IsNameChar(text[k - 1]); }
    }
  }

  /** Within a text the names end where they end in the text alone. */
  lemma NameEndWithin(text: string, start: nat, inner: string, post: string, k: nat)
    requires start <= |text| && text[start..] == inner + post && EndsName(post) && k < |inner|
    ensures start + |inner| <= |text| && NameEnd(text, start + k) == start + NameEnd(inner, k)
    ensures text[start + k..start + NameEnd(inner, k)] == inner[k..NameEnd(inner, k)]
    ensures k > 0 ==> text[start + k - 1] == inner[k - 1]
  {
    hide NameEnd, IsNameChar;
    Tail(text, start, inner, post);
    var end := NameEnd(inner, k);
    forall j | 0 <= j < |inner|
      ensures text[start + j] == inner[j]
    {
      assert text[start + j] == text[start..][j];
    }
    if end == |inner| && post != [] { assert text[start + |inner|] == post[0]; }
    NameEndIs(text, start + k, start + end);
    assert text[start + k..start + end] == inner[k..end];
  }

  lemma SameOpWithin(text: string, start: nat, inner: string, post: string, k: nat)
    requires start <= |text| && text[start..] == inner + post && EndsName(post) && k < |inner| && Fresh(text, start)
    ensures start + k <= |text| && OpAt(text, start + k) == OpAt(inner, k)
  {
    hide NameEnd, EndsName, IsNameChar;
    NameEndWithin(text, start, inner, post, k);
  }

  lemma NoOpInReference(text: string, start: nat, reference: string, post: string)
    requires start <= |text| && text[start..] == reference + post && EndsName(post) && NoOperator(reference)
    requires Fresh(text, start)
    ensures start + |reference| <= |text| && NoOps(text, start, start + |reference|)
  {
    hide OpAt, EndsName, Fresh;
    Tail(text, start, reference, post);
    forall k | start <= k < start + |reference|
      ensures OpAt(text, k) == []
    {
      SameOpWithin(text, start, reference, post, k - start);
    }
  }

  lemma NoOpAtMark(text: string, k: nat)
    requires k < |text| && !IsNameChar(text[k])
    ensures OpAt(text, k) == []
  {
    NameEndIs(text, k, k);
    assert text[k..k] == [];
  }

  lemma OpStands(text: string, start: nat, op: string, post: string)
    requires start <= |text| && text[start..] == op + post && EndsName(post) && Fresh(text, start)
    requires op in ACROSS_SERIES_AGGREGATIONS
    ensures start + |op| <= |text| && OpAt(text, start) == op
  {
    OpIsName(op);
    NameStands(text, start, op, post);
  }

  lemma BehindEndsName(post: string)
    requires Behind(post)
    ensures EndsName(post)
  {
  }

  // ------------------------------------------------------------ the blocks of a written expression

  function TopBlocks(e: Expr, style: Style, start: nat): seq<Block> {
    match e
    case Metric(_) => []
    case PerSeries(fn, arg) => TopBlocks(arg, First(style), start + |fn| + 1)
    case Paired(left, right) =>
      TopBlocks(left, First(style), start + 1) + TopBlocks(right, Second(style),
          start + 1 + |Render(left, First(style))| + 3)
    case Agg(op, grouping, arg) => [BlockOf(op, grouping, Render(arg, First(style)), Trails(style), start)]
  }

  function Read(blocks: seq<Block>): (r: seq<Option<Block>>)
    ensures |r| == |blocks| && forall k | 0 <= k < |blocks| :: r[k] == Some(blocks[k])
  {
    seq(|blocks|, k requires 0 <= k < |blocks| => Some(blocks[k]))
  }

  lemma ReadConcat(a: seq<Block>, b: seq<Block>)
    ensures Read(a + b) == Read(a) + Read(b)
  {
  }

  lemma ReadTwo(a: seq<Block>, b: seq<Block>, whole: seq<Option<Block>>, middle: seq<Option<Block>>,
                rest: seq<Option<Block>>)
    requires whole == Read(a) + middle && middle == Read(b) + rest
    ensures whole == Read(a + b) + rest
  {
    ReadConcat(a, b);
  }

  lemma ReadNone(rest: seq<Option<Block>>)
    ensures Read([]) + rest == rest
  {
  }

  lemma ReadOne(b: Block, rest: seq<Option<Block>>)
    ensures Read([b]) + rest == [Some(b)] + rest
  {
  }

  /** The text around an expression, one level in. */
  lemma InsideWrapped(text: string, at: nat, inner: string, post: string)
    requires at <= |text| && text[at..] == Wrapped(inner) + post
    ensures at + |inner| + 2 <= |text| && text[at] == '(' && text[at + |inner| + 1] == ')'
    ensures text[at + 1..] == inner + ([')'] + post) && Behind([')'] + post)
    ensures text[at + 1 + |inner|..] == [')'] + post && text[at + |inner| + 2..] == post
  {
    var tail := text[at..];
    assert tail == ['('] + (inner + ([')'] + post));
    Tail(text, at, ['('], inner + ([')'] + post));
    Tail(text, at + 1, inner, [')'] + post);
    Tail(text, at + 1 + |inner|, [')'], post);
    assert text[at] == tail[0];
    assert text[at + 1 + |inner|] == text[at + 1 + |inner|..][0];
  }

  lemma BlocksOfAgg(text: string, start: nat, op: string, grouping: Grouping, inner: string, trailing: bool,
                    post: string)
    requires start <= |text| && text[start..] == SpellAgg(op, grouping, inner, trailing) + post
    requires op in ACROSS_SERIES_AGGREGATIONS && Proper(inner) && Behind(post) && Fresh(text, start)
    requires grouping.Bare? || AreLabels(grouping.labels)
    ensures var b := BlockOf(op, grouping, inner, trailing, start);
            BlocksFrom(text, start) == [Some(b)] + BlocksFrom(text, b.end)
  {
    OpIsName(op);
    AggStarts(op, grouping, inner, trailing, post);
    OpStands(text, start, op, (SpellAgg(op, grouping, inner, trailing) + post)[|op|..]);
    AggIsRead(text, start, op, grouping, inner, trailing, post);
    BlocksOfOp(text, start, op, BlockOf(op, grouping, inner, trailing, start));
  }

  lemma AggStarts(op: string, grouping: Grouping, inner: string, trailing: bool, post: string)
    requires op != []
    ensures var whole := SpellAgg(op, grouping, inner, trailing) + post;
            |op| < |whole| && whole == op + whole[|op|..] && EndsName(whole[|op|..])
  {
    var whole := SpellAgg(op, grouping, inner, trailing) + post;
    assert whole[..|op|] == op;
    assert whole[|op|] == '(' || whole[|op|] == ' ';
  }

  lemma BlocksOfOp(text: string, start: nat, op: string, b: Block)
    requires op != [] && start < |text| && OpAt(text, start) == op
    requires BlockWith(ClauseReader(text), GroupReader(text), start, op) == Some(b)
    ensures BlocksFrom(text, start) == [Some(b)] + BlocksFrom(text, b.end)
  {
    hide OpAt, BlockWith, ClauseReader, GroupReader;
  }

  /** The parentheses around an expression hold no aggregation. */
  lemma BlocksInWrapped(text: string, at: nat, inner: string, post: string)
    requires at <= |text| && text[at..] == Wrapped(inner) + post
    ensures at + |inner| + 2 <= |text| && Fresh(text, at + 1)
    ensures text[at + 1..] == inner + ([')'] + post) && Behind([')'] + post)
    ensures BlocksFrom(text, at) == BlocksFrom(text, at + 1)
    ensures BlocksFrom(text, at + |inner| + 1) == BlocksFrom(text, at + |inner| + 2)
  {
    hide BlockAt;
    InsideWrapped(text, at, inner, post);
    NoOpAtMark(text, at);
    NoOpAtMark(text, at + |inner| + 1);
  }

  lemma BlocksOverPlus(text: string, at: nat, rest: string)
    requires at <= |text| && text[at..] == PLUS + rest
    ensures at + 3 <= |text| && Fresh(text, at + 3) && text[at + 3..] == rest
    ensures BlocksFrom(text, at) == BlocksFrom(text, at + 3)
  {
    var tail := text[at..];
    Tail(text, at, PLUS, rest);
    assert text[at] == tail[0] && text[at + 1] == tail[1] && text[at + 2] == tail[2];
    NoOpAtMark(text, at);
    NoOpAtMark(text, at + 1);
    NoOpAtMark(text, at + 2);
    SkipTo(text, at, at + 3);
  }

  /** A call hands the reading to its argument. */
  lemma CallOpens(text: string, start: nat, fn: string, inner: string, post: string)
    requires start <= |text| && text[start..] == fn + Wrapped(inner) + post && IsIdentifier(fn)
    ensures var at := start + |fn| + 1;
            && at + |inner| + 1 <= |text| && Fresh(text, at) && text[at..] == inner + ([')'] + post)
            && BlocksFrom(text, start) == BlocksFrom(text, at)
            && BlocksFrom(text, at + |inner|) == BlocksFrom(text, at + |inner| + 1)
    ensures Behind([')'] + post)
  {
    hide OpAt, BlocksFrom;
    assert fn + Wrapped(inner) + post == fn + (Wrapped(inner) + post);
    NoOpInName(text, start, fn, Wrapped(inner) + post);
    SkipTo(text, start, start + |fn|);
    Tail(text, start, fn, Wrapped(inner) + post);
    BlocksInWrapped(text, start + |fn|, inner, post);
  }

  /** A pair hands the reading to its left side, and from there to its right side. */
  lemma PairOpens(text: string, start: nat, l: string, r: string, post: string)
    requires start <= |text| && text[start..] == Wrapped(l + PLUS + r) + post
    ensures var at := start + 1; var over := at + |l| + 3;
            && over + |r| + 1 <= |text| && Fresh(text, at) && Fresh(text, over)
            && text[at..] == l + (PLUS + (r + ([')'] + post))) && text[over..] == r + ([')'] + post)
            && BlocksFrom(text, start) == BlocksFrom(text, at)
            && BlocksFrom(text, at + |l|) == BlocksFrom(text, over)
            && BlocksFrom(text, over + |r|) == BlocksFrom(text, over + |r| + 1)
    ensures Behind([')'] + post) && Behind(PLUS + (r + ([')'] + post)))
  {
    hide OpAt, BlocksFrom;
    var rest := PLUS + (r + ([')'] + post));
    BlocksInWrapped(text, start, l + PLUS + r, post);
    assert l + PLUS + r + ([')'] + post) == l + rest;
    Tail(text, start + 1, l, rest);
    BlocksOverPlus(text, start + 1 + |l|, r + ([')'] + post));
  }

  /** From `start` on are read exactly these aggregations, and then what is read from `end` on. */
  predicate ReadsFrom(text: string, start: nat, blocks: seq<Block>, end: nat) {
    end <= |text| && BlocksFrom(text, start) == Read(blocks) + BlocksFrom(text, end)
  }

  lemma ReadsNone(text: string, start: nat, end: nat)
    requires end <= |text| && BlocksFrom(text, start) == BlocksFrom(text, end)
    ensures ReadsFrom(text, start, [], end)
  {
    hide BlocksFrom;
    ReadNone(BlocksFrom(text, end));
  }

  lemma ReadsWithin(text: string, start: nat, at: nat, blocks: seq<Block>, end: nat, after: nat)
    requires ReadsFrom(text, at, blocks, end) && after <= |text|
    requires BlocksFrom(text, start) == BlocksFrom(text, at) && BlocksFrom(text, end) == BlocksFrom(text, after)
    ensures ReadsFrom(text, start, blocks, after)
  {
    hide BlocksFrom, Read;
  }

  lemma ReadsBoth(text: string, start: nat, a: seq<Block>, middle: nat, over: nat, b: seq<Block>, end: nat)
    requires ReadsFrom(text, start, a, middle) && BlocksFrom(text, middle) == BlocksFrom(text, over)
    requires ReadsFrom(text, over, b, end)
    ensures ReadsFrom(text, start, a + b, end)
  {
    hide BlocksFrom, Read;
    ReadTwo(a, b, BlocksFrom(text, start), BlocksFrom(text, middle), BlocksFrom(text, end));
  }

  lemma ReadsOne(text: string, start: nat, b: Block)
    requires b.end <= |text| && BlocksFrom(text, start) == [Some(b)] + BlocksFrom(text, b.end)
    ensures ReadsFrom(text, start, [b], b.end)
  {
    hide BlocksFrom;
    ReadOne(b, BlocksFrom(text, b.end));
  }

  lemma CallReads(fn: string, arg: Expr, style: Style, text: string, start: nat, inner: string, post: string)
    requires start <= |text| && text[start..] == fn + Wrapped(inner) + post && IsIdentifier(fn)
    requires inner == Render(arg, First(style))
    requires ReadsFrom(text, start + |fn| + 1, TopBlocks(arg, First(style), start + |fn| + 1),
               start + |fn| + 1 + |inner|)
    ensures ReadsFrom(text, start, TopBlocks(PerSeries(fn, arg), style, start), start + |fn + Wrapped(inner)|)
  {
    hide BlocksFrom, ReadsFrom, Behind, Fresh, Render;
    var at := start + |fn| + 1;
    CallOpens(text, start, fn, inner, post);
    ReadsWithin(text, start, at, TopBlocks(arg, First(style), at), at + |inner|, at + |inner| + 1);
  }

  lemma PairReads(left: Expr, right: Expr, style: Style, text: string, start: nat, l: string, r: string,
                  post: string)
    requires start <= |text| && text[start..] == Wrapped(l + PLUS + r) + post
    requires l == Render(left, First(style)) && r == Render(right, Second(style))
    requires ReadsFrom(text, start + 1, TopBlocks(left, First(style), start + 1), start + 1 + |l|)
    requires ReadsFrom(text, start + |l| + 4, TopBlocks(right, Second(style), start + |l| + 4), start + |l| + 4 + |r|)
    ensures ReadsFrom(text, start, TopBlocks(Paired(left, right), style, start), start + |Wrapped(l + PLUS + r)|)
  {
    hide BlocksFrom, ReadsFrom, Behind, Fresh, Render;
    var at, over := start + 1, start + |l| + 4;
    PairOpens(text, start, l, r, post);
    var a, b := TopBlocks(left, First(style), at), TopBlocks(right, Second(style), over);
    ReadsBoth(text, at, a, at + |l|, over, b, over + |r|);
    ReadsWithin(text, start, at, a + b, over + |r|, over + |r| + 1);
  }

  /** The aggregations read from a written expression are its outermost ones. */
  lemma {:induction false} BlocksOfRender(e: Expr, style: Style, text: string, start: nat, post: string)
    requires IsSeen(e) && start <= |text| && text[start..] == Render(e, style) + post
    requires Behind(post) && Fresh(text, start)
    ensures ReadsFrom(text, start, TopBlocks(e, style, start), start + |Render(e, style)|)
  {
    hide BlocksFrom, ReadsFrom, OpAt, Behind, Fresh, Wrapped, First, Second, Trails, IsReference, Masked;
    match e
    case Metric(reference) =>
      BehindEndsName(post);
      SeenReference(reference);
      NoOpInReference(text, start, reference, post);
      SkipTo(text, start, start + |reference|);
      ReadsNone(text, start, start + |reference|);
    case PerSeries(fn, arg) =>
      var inner := Render(arg, First(style));
      CallOpens(text, start, fn, inner, post);
      BlocksOfRender(arg, First(style), text, start + |fn| + 1, [')'] + post);
      CallReads(fn, arg, style, text, start, inner, post);
    case Paired(left, right) =>
      var l, r := Render(left, First(style)), Render(right, Second(style));
      PairOpens(text, start, l, r, post);
      BlocksOfRender(left, First(style), text, start + 1, PLUS + (r + ([')'] + post)));
      BlocksOfRender(right, Second(style), text, start + |l| + 4, [')'] + post);
      PairReads(left, right, style, text, start, l, r, post);
    case Agg(op, grouping, arg) =>
      RenderIsProper(arg, First(style));
      BlocksOfAgg(text, start, op, grouping, Render(arg, First(style)), Trails(style), post);
      ReadsOne(text, start, BlockOf(op, grouping, Render(arg, First(style)), Trails(style), start));
  }

  // ------------------------------------------------------------ what the recursion finds

  /** The gauges below the outermost aggregations. */
  function InnerGauges(e: Expr, gauges: set<string>, shielded: bool): set<string> {
    match e
    case Metric(_) => {}
    case PerSeries(_, arg) => InnerGauges(arg, gauges, shielded)
    case Paired(left, right) => InnerGauges(left, gauges, shielded) + InnerGauges(right, gauges, shielded)
    case Agg(op, grouping, arg) => TreeWalk(arg, gauges, shielded || Collapses(op, grouping))
  }

  /** The names left when the outermost aggregations are gone. */
  function TopNames(e: Expr): seq<string> {
    match e
    case Metric(reference) => [MetricName(reference)]
    case PerSeries(_, arg) => TopNames(arg)
    case Paired(left, right) => TopNames(left) + TopNames(right)
    case Agg(_, _, _) => []
  }

  lemma {:induction false} GaugesAmongConcat(a: seq<string>, b: seq<string>, gauges: set<string>)
    ensures GaugesAmong(a + b, gauges) == GaugesAmong(a, gauges) + GaugesAmong(b, gauges)
  {
    if a == [] {
      assert a + b == b;
    } else {
      assert (a + b)[1..] == a[1..] + b;
      GaugesAmongConcat(a[1..], b, gauges);
    }
  }

  /** A walk over the tree is what the recursion finds and, unless shielded, the names at the top. */
  lemma {:induction false} TreeWalkSplits(e: Expr, gauges: set<string>, shielded: bool)
    ensures TreeWalk(e, gauges, shielded)
         == InnerGauges(e, gauges, shielded) + if shielded then {} else GaugesAmong(TopNames(e), gauges)
  {
    match e
    case Metric(reference) =>
      var name := MetricName(reference);
      assert GaugesAmong([name], gauges) == GaugeOf(name, gauges) + GaugesAmong([name][1..], gauges);
    case PerSeries(_, arg) =>
      TreeWalkSplits(arg, gauges, shielded);
    case Paired(left, right) =>
      TreeWalkSplits(left, gauges, shielded);
      TreeWalkSplits(right, gauges, shielded);
      GaugesAmongConcat(TopNames(left), TopNames(right), gauges);
    case Agg(_, _, _) =>
  }

  lemma {:induction false} WalkBlocksConcat(text: string, a: seq<Option<Block>>, b: seq<Option<Block>>,
                                            gauges: set<string>, shielded: bool)
    requires text != [] && BlocksFit(a, |text|) && BlocksFit(b, |text|)
    ensures BlocksFit(a + b, |text|)
    ensures WalkBlocks(text, a + b, gauges, shielded)
         == PromWalk.Both(WalkBlocks(text, a, gauges, shielded), WalkBlocks(text, b, gauges, shielded))
  {
    hide Walk, WalkBlock;
    if b == [] {
      assert a + b == a;
    } else {
      var last := |b| - 1;
      WalkBlocksConcat(text, a, b[..last], gauges, shielded);
      assert a + b == (a + b[..last]) + [b[last]];
      WalkOneMore(text, a + b[..last], b[last], gauges, shielded);
    }
  }

  lemma CutOut(text: string, start: nat, front: string, inner: string, back: string)
    requires start <= |text| && text[start..] == front + (Wrapped(inner) + back)
    ensures var open := start + |front|;
            open + |inner| + 2 <= |text| && text[open + 1..open + |inner| + 1] == inner
  {
    var open := start + |front|;
    Tail(text, start, front, Wrapped(inner) + back);
    InsideWrapped(text, open, inner, back);
    assert text[open + 1..open + |inner| + 1] == text[open + 1..][..|inner|];
  }

  lemma LeadingFront(op: string, spelled: string, inner: string, post: string)
    ensures op + [' '] + spelled + [' '] + Wrapped(inner) + post
              == (op + [' '] + spelled + [' ']) + (Wrapped(inner) + post)
    ensures |op + [' '] + spelled + [' ']| == |op| + 1 + |spelled| + 1
  {
  }

  /** What stands in front of the argument of a written aggregation, and what behind it. */
  function FrontOf(op: string, grouping: Grouping, trailing: bool): string {
    if grouping.Bare? || trailing then op
    else op + [' '] + SpellGrouping(grouping.By?, grouping.labels) + [' ']
  }

  function BackOf(grouping: Grouping, trailing: bool, post: string): string {
    if !grouping.Bare? && trailing then [' '] + (SpellGrouping(grouping.By?, grouping.labels) + post) else post
  }

  /** A written aggregation around its wrapped argument. */
  lemma AroundArgument(op: string, grouping: Grouping, inner: string, trailing: bool, post: string)
    ensures SpellAgg(op, grouping, inner, trailing) + post
         == FrontOf(op, grouping, trailing) + (Wrapped(inner) + BackOf(grouping, trailing, post))
    ensures |FrontOf(op, grouping, trailing)| == OpenOf(op, grouping, trailing)
  {
    hide Wrapped, SpellGrouping;
    var spelled := if grouping.Bare? then [] else SpellGrouping(grouping.By?, grouping.labels);
    SpelledShape(op, spelled, inner, post);
    LeadingFront(op, spelled, inner, post);
  }

  lemma SpelledLength(op: string, grouping: Grouping, inner: string, trailing: bool)
    ensures |SpellAgg(op, grouping, inner, trailing)| >= OpenOf(op, grouping, trailing) + |inner| + 2
  {
    hide SpellGrouping;
  }

  /** The argument of a written aggregation, cut out again. */
  lemma ArgumentSlice(text: string, start: nat, op: string, grouping: Grouping, inner: string, trailing: bool,
                      post: string)
    requires start <= |text| && text[start..] == SpellAgg(op, grouping, inner, trailing) + post
    ensures var b := BlockOf(op, grouping, inner, trailing, start);
            b.open < b.closed < b.end <= |text| && text[b.open + 1..b.closed] == inner
  {
    hide SpellAgg, OpenOf, FrontOf, BackOf, Wrapped, SpellGrouping;
    Tail(text, start, SpellAgg(op, grouping, inner, trailing), post);
    AroundArgument(op, grouping, inner, trailing, post);
    CutOut(text, start, FrontOf(op, grouping, trailing), inner, BackOf(grouping, trailing, post));
    SpelledLength(op, grouping, inner, trailing);
  }

  predicate BlocksStand(text: string, blocks: seq<Block>) {
    BlocksFit(Read(blocks), |text|)
  }

  lemma ReadBlocksStand(text: string, start: nat, blocks: seq<Block>, end: nat)
    requires ReadsFrom(text, start, blocks, end)
    ensures BlocksStand(text, blocks)
  {
    var all := BlocksFrom(text, start);
    forall k | 0 <= k < |Read(blocks)|
      ensures Fits(Read(blocks)[k], |text|)
    {
      assert all[k] == Read(blocks)[k];
    }
  }

  lemma TwoStand(text: string, a: seq<Block>, b: seq<Block>, gauges: set<string>, shielded: bool)
    requires text != [] && BlocksStand(text, a) && BlocksStand(text, b)
    ensures BlocksStand(text, a + b)
    ensures WalkBlocks(text, Read(a + b), gauges, shielded)
         == PromWalk.Both(WalkBlocks(text, Read(a), gauges, shielded), WalkBlocks(text, Read(b), gauges, shielded))
  {
    ReadConcat(a, b);
    WalkBlocksConcat(text, Read(a), Read(b), gauges, shielded);
  }

  lemma OneStands(text: string, b: Block, inner: string, gauges: set<string>, shielded: bool)
    requires text != [] && BlocksStand(text, [b])
    requires b.open < b.closed <= |text| && text[b.open + 1..b.closed] == inner
    ensures WalkBlocks(text, Read([b]), gauges, shielded)
         == PromWalk.Both(NOTHING, Walk(inner, gauges, shielded || Collapses(b.op, b.grouping)))
  {
    hide Walk, Collapses;
    assert Read([b]) == [] + [Some(b)];
    assert Fits(Read([b])[0], |text|);
    WalkOneMore(text, [], Some(b), gauges, shielded);
  }

  // ------------------------------------------------------------ what is left at the top

  /** The expression with its outermost aggregations blanked. */
  function Rest(e: Expr, style: Style): (r: string)
    ensures |r| == |Render(e, style)|
  {
    match e
    case Metric(reference) => reference
    case PerSeries(fn, arg) => fn + Wrapped(Rest(arg, First(style)))
    case Paired(left, right) => Wrapped(Rest(left, First(style)) + PLUS + Rest(right, Second(style)))
    case Agg(_, _, _) => Blank(|Render(e, style)|)
  }

  /** `text` with `middle` put in place from `start` on. */
  function Put(text: string, start: nat, middle: string): (r: string)
    requires start + |middle| <= |text|
    ensures |r| == |text|
  {
    text[..start] + middle + text[start + |middle|..]
  }

  lemma PutTwice(text: string, start: nat, a: string, over: nat, b: string)
    requires start + |a| <= over && over + |b| <= |text|
    ensures Put(Put(text, start, a), over, b) == Put(text, start, a + text[start + |a|..over] + b)
  {
    var whole := Put(Put(text, start, a), over, b);
    var other := Put(text, start, a + text[start + |a|..over] + b);
    assert |whole| == |other| == |text|;
    forall k | 0 <= k < |text|
      ensures whole[k] == other[k]
    {
    }
  }

  lemma {:induction false} ResidualConcat(scan: string, a: seq<Block>, b: seq<Block>)
    requires Consumable(a, |scan|) && Consumable(b, |scan|)
    ensures Consumable(a + b, |scan|) && Residual(scan, a + b) == Residual(Residual(scan, a), b)
  {
    if b == [] {
      assert a + b == a;
    } else {
      var last := |b| - 1;
      ResidualConcat(scan, a, b[..last]);
      assert (a + b)[..|a + b| - 1] == a + b[..last];
      assert (a + b)[|a + b| - 1] == b[last];
    }
  }

  lemma StandIsConsumable(text: string, blocks: seq<Block>)
    requires BlocksStand(text, blocks)
    ensures Consumable(blocks, |text|)
  {
    forall k | 0 <= k < |blocks|
      ensures Fits(Some(blocks[k]), |text|)
    {
      assert Fits(Read(blocks)[k], |text|);
    }
  }

  lemma BlankedIsPut(text: string, start: nat, end: nat)
    requires start <= end <= |text|
    ensures Blanked(text, start, end) == Put(text, start, Blank(end - start))
  {
  }

  lemma ResidualOne(text: string, b: Block, consumed: seq<Block>, none: seq<Block>)
    requires consumed == [b] && none == [] && Consumable(consumed, |text|)
    ensures b.start <= b.end <= |text|
    ensures Residual(text, consumed) == Put(text, b.start, Blank(b.end - b.start))
  {
    hide Put, Blanked;
    assert Fits(Some(consumed[0]), |text|);
    assert consumed[..|consumed| - 1] == none;
    assert Residual(text, none) == text;
    BlankedIsPut(text, b.start, b.end);
  }

  lemma PutWrapped(text: string, at: nat, inner: string, other: string, post: string)
    requires at <= |text| && text[at..] == Wrapped(inner) + post && |other| == |inner|
    ensures at + |inner| + 2 <= |text| && Put(text, at + 1, other) == Put(text, at, Wrapped(other))
  {
    InsideWrapped(text, at, inner, post);
  }

  lemma PutAfter(text: string, start: nat, head: string, other: string)
    requires start + |head| + |other| <= |text| && text[start..start + |head|] == head
    ensures Put(text, start + |head|, other) == Put(text, start, head + other)
  {
  }

  /** Where the aggregations stand, everything else stays. */
  lemma CallLeaves(text: string, start: nat, fn: string, inner: string, other: string, post: string)
    requires start <= |text| && text[start..] == fn + Wrapped(inner) + post && |other| == |inner|
    ensures start + |fn| + 1 + |inner| <= |text| && start + |fn + Wrapped(inner)| <= |text|
    ensures Put(text, start + |fn| + 1, other) == Put(text, start, fn + Wrapped(other))
  {
    hide Put;
    assert fn + Wrapped(inner) + post == fn + (Wrapped(inner) + post);
    Tail(text, start, fn, Wrapped(inner) + post);
    InsideWrapped(text, start + |fn|, inner, post);
    PutWrapped(text, start + |fn|, inner, other, post);
    assert text[start..start + |fn|] == text[start..][..|fn|];
    PutAfter(text, start, fn, Wrapped(other));
  }

  lemma PlusBetween(text: string, at: nat, l: string, r: string, rest: string)
    requires at <= |text| && text[at..] == (l + PLUS + r) + rest
    ensures at + |l| + 3 <= |text| && text[at + |l|..at + |l| + 3] == PLUS
  {
    assert (l + PLUS + r) + rest == l + (PLUS + (r + rest));
    Tail(text, at, l, PLUS + (r + rest));
    assert text[at + |l|..at + |l| + 3] == text[at + |l|..][..3] == PLUS;
  }

  lemma PutKeepsBehind(text: string, at: nat, middle: string, over: nat)
    requires at + |middle| <= over <= |text|
    ensures Put(text, at, middle)[over..] == text[over..]
  {
  }

  lemma PairLeaves(text: string, start: nat, l: string, r: string, ll: string, rr: string, post: string)
    requires start <= |text| && text[start..] == Wrapped(l + PLUS + r) + post && |ll| == |l| && |rr| == |r|
    ensures start + |l| + |r| + 5 <= |text|
    ensures Put(Put(text, start + 1, ll), start + |l| + 4, rr) == Put(text, start, Wrapped(ll + PLUS + rr))
    ensures Put(text, start + 1, ll)[start + |l| + 4..] == text[start + |l| + 4..]
  {
    hide Put, Wrapped;
    InsideWrapped(text, start, l + PLUS + r, post);
    var at, over := start + 1, start + |l| + 4;
    PlusBetween(text, at, l, r, [')'] + post);
    PutKeepsBehind(text, at, ll, over);
    PutTwice(text, at, ll, over, rr);
    PutWrapped(text, start, l + PLUS + r, ll + PLUS + rr, post);
  }

  /** `text` with what is left of the expression from `start` on. */
  predicate Leaves(text: string, blocks: seq<Block>, start: nat, left: string) {
    && Consumable(blocks, |text|) && start + |left| <= |text|
    && Residual(text, blocks) == Put(text, start, left)
  }

  lemma PutSame(text: string, start: nat, middle: string, post: string)
    requires start <= |text| && text[start..] == middle + post
    ensures start + |middle| <= |text| && Put(text, start, middle) == text
  {
    Tail(text, start, middle, post);
    assert text[start..start + |middle|] == text[start..][..|middle|];
  }

  lemma NoneLeaves(text: string, start: nat, name: string, post: string, none: seq<Block>)
    requires start <= |text| && text[start..] == name + post && none == []
    ensures Leaves(text, none, start, name)
  {
    hide Put;
    PutSame(text, start, name, post);
  }

  lemma WithinLeaves(text: string, blocks: seq<Block>, at: nat, other: string, start: nat, whole: string)
    requires Leaves(text, blocks, at, other) && start + |whole| <= |text|
    requires Put(text, at, other) == Put(text, start, whole)
    ensures Leaves(text, blocks, start, whole)
  {
  }

  lemma BothLeave(text: string, a: seq<Block>, b: seq<Block>, at: nat, ll: string, over: nat, rr: string,
                  middle: string)
    requires Leaves(text, a, at, ll) && middle == Put(text, at, ll)
    requires Consumable(b, |text|) && Leaves(middle, b, over, rr)
    ensures Consumable(a + b, |text|) && Residual(text, a + b) == Put(middle, over, rr)
  {
    hide Put;
    ResidualConcat(text, a, b);
  }

  /** Blanking the outermost aggregations leaves the rest of the expression. */
  lemma {:induction false} ResidualOfRender(e: Expr, style: Style, text: string, start: nat, post: string)
    requires start <= |text| && text[start..] == Render(e, style) + post
    requires Consumable(TopBlocks(e, style, start), |text|)
    ensures Leaves(text, TopBlocks(e, style, start), start, Rest(e, style))
  {
    hide Leaves, Put, Residual, Consumable, Fits, Render, Rest, TopBlocks;
    match e
    case Metric(name) =>
      MetricIsLeft(name, style, text, start, post);
    case PerSeries(fn, arg) =>
      CallResidual(fn, arg, style, text, start, post);
      ResidualOfRender(arg, First(style), text, start + |fn| + 1, [')'] + post);
      CallIsLeft(fn, arg, style, text, start, post);
    case Paired(left, right) =>
      PairResidual(left, right, style, text, start, post);
      ResidualOfRender(left, First(style), text, start + 1, PLUS + (Render(right, Second(style)) + ([')'] + post)));
      var middle := Put(text, start + 1, Rest(left, First(style)));
      ResidualOfRender(right, Second(style), middle, start + |Render(left, First(style))| + 4, [')'] + post);
      PairIsLeft(left, right, style, text, start, post, middle);
    case Agg(op, grouping, arg) =>
      AggResidual(op, grouping, arg, style, text, start, post);
  }

  lemma MetricIsLeft(name: string, style: Style, text: string, start: nat, post: string)
    requires start <= |text| && text[start..] == Render(Metric(name), style) + post
    ensures Leaves(text, TopBlocks(Metric(name), style, start), start, Rest(Metric(name), style))
  {
    hide Leaves;
    NoneLeaves(text, start, name, post, TopBlocks(Metric(name), style, start));
  }

  lemma CallUnfolds(fn: string, arg: Expr, style: Style, start: nat)
    ensures Render(PerSeries(fn, arg), style) == fn + Wrapped(Render(arg, First(style)))
    ensures Rest(PerSeries(fn, arg), style) == fn + Wrapped(Rest(arg, First(style)))
    ensures TopBlocks(PerSeries(fn, arg), style, start) == TopBlocks(arg, First(style), start + |fn| + 1)
  {
  }

  lemma PairUnfolds(left: Expr, right: Expr, style: Style, start: nat)
    ensures var l, r := Render(left, First(style)), Render(right, Second(style));
            && Render(Paired(left, right), style) == Wrapped(l + PLUS + r)
            && Rest(Paired(left, right), style) == Wrapped(Rest(left, First(style)) + PLUS + Rest(right, Second(style)))
            && TopBlocks(Paired(left, right), style, start)
               == TopBlocks(left, First(style), start + 1) + TopBlocks(right, Second(style), start + |l| + 4)
  {
    hide First, Second, Wrapped;
    assert start + 1 + |Render(left, First(style))| + 3 == start + |Render(left, First(style))| + 4;
  }

  lemma LeavesAround(text: string, start: nat, fn: string, inner: string, other: string, post: string,
                     blocks: seq<Block>)
    requires start <= |text| && text[start..] == fn + Wrapped(inner) + post && |other| == |inner|
    requires Leaves(text, blocks, start + |fn| + 1, other)
    ensures Leaves(text, blocks, start, fn + Wrapped(other))
  {
    hide Leaves, Put;
    CallLeaves(text, start, fn, inner, other, post);
    WithinLeaves(text, blocks, start + |fn| + 1, other, start, fn + Wrapped(other));
  }

  lemma CallIsLeft(fn: string, arg: Expr, style: Style, text: string, start: nat, post: string)
    requires start <= |text| && text[start..] == Render(PerSeries(fn, arg), style) + post
    requires Leaves(text, TopBlocks(arg, First(style), start + |fn| + 1), start + |fn| + 1, Rest(arg, First(style)))
    ensures Leaves(text, TopBlocks(PerSeries(fn, arg), style, start), start, Rest(PerSeries(fn, arg), style))
  {
    hide *;
    CallUnfolds(fn, arg, style, start);
    LeavesAround(text, start, fn, Render(arg, First(style)), Rest(arg, First(style)), post,
                 TopBlocks(arg, First(style), start + |fn| + 1));
  }

  lemma CallResidual(fn: string, arg: Expr, style: Style, text: string, start: nat, post: string)
    requires start <= |text| && text[start..] == Render(PerSeries(fn, arg), style) + post
    ensures start + |fn| + 1 <= |text| && text[start + |fn| + 1..] == Render(arg, First(style)) + ([')'] + post)
    ensures start + |Render(PerSeries(fn, arg), style)| <= |text|
    ensures TopBlocks(PerSeries(fn, arg), style, start) == TopBlocks(arg, First(style), start + |fn| + 1)
  {
    var inner := Render(arg, First(style));
    assert fn + Wrapped(inner) + post == fn + (Wrapped(inner) + post);
    Tail(text, start, fn, Wrapped(inner) + post);
    InsideWrapped(text, start + |fn|, inner, post);
  }

  lemma ConsumableParts(a: seq<Block>, b: seq<Block>, n: nat)
    requires Consumable(a + b, n)
    ensures Consumable(a, n) && Consumable(b, n)
  {
    hide Fits;
    forall k | 0 <= k < |a|
      ensures Fits(Some(a[k]), n)
    {
      assert (a + b)[k] == a[k];
    }
    forall k | 0 <= k < |b|
      ensures Fits(Some(b[k]), n)
    {
      assert (a + b)[|a| + k] == b[k];
    }
  }

  lemma PairPlaces(text: string, start: nat, l: string, r: string, ll: string, post: string)
    requires start <= |text| && text[start..] == Wrapped(l + PLUS + r) + post && |ll| == |l|
    ensures var over := start + |l| + 4;
            && over <= |text| && start + 1 + |ll| <= |text|
            && text[start + 1..] == l + (PLUS + (r + ([')'] + post)))
            && Put(text, start + 1, ll)[over..] == r + ([')'] + post)
  {
    hide Put;
    InsideWrapped(text, start, l + PLUS + r, post);
    assert l + PLUS + r + ([')'] + post) == l + (PLUS + (r + ([')'] + post)));
    Tail(text, start + 1, l, PLUS + (r + ([')'] + post)));
    Tail(text, start + 1 + |l|, PLUS, r + ([')'] + post));
    PairLeaves(text, start, l, r, ll, r, post);
  }

  lemma PairResidual(left: Expr, right: Expr, style: Style, text: string, start: nat, post: string)
    requires start <= |text| && text[start..] == Render(Paired(left, right), style) + post
    requires Consumable(TopBlocks(Paired(left, right), style, start), |text|)
    ensures var l, r := Render(left, First(style)), Render(right, Second(style)); var over := start + |l| + 4;
            && over <= |text| && text[start + 1..] == l + (PLUS + (r + ([')'] + post)))
            && Consumable(TopBlocks(left, First(style), start + 1), |text|)
                && Consumable(TopBlocks(right, Second(style), over), |text|)
            && start + 1 + |Rest(left, First(style))| <= |text|
            && Put(text, start + 1, Rest(left, First(style)))[over..] == r + ([')'] + post)
  {
    hide Put, Consumable, Rest;
    var l, r := Render(left, First(style)), Render(right, Second(style));
    PairPlaces(text, start, l, r, Rest(left, First(style)), post);
    ConsumableParts(TopBlocks(left, First(style), start + 1), TopBlocks(right, Second(style), start + |l| + 4), |text|);
  }

  lemma PairIsLeft(left: Expr, right: Expr, style: Style, text: string, start: nat, post: string, middle: string)
    requires start <= |text| && text[start..] == Render(Paired(left, right), style) + post
    requires Leaves(text, TopBlocks(left, First(style), start + 1), start + 1, Rest(left, First(style)))
    requires middle == Put(text, start + 1, Rest(left, First(style)))
    requires var over := start + |Render(left, First(style))| + 4;
             && Consumable(TopBlocks(right, Second(style), over), |text|)
             && Leaves(middle, TopBlocks(right, Second(style), over), over, Rest(right, Second(style)))
    ensures Leaves(text, TopBlocks(Paired(left, right), style, start), start, Rest(Paired(left, right), style))
  {
    hide *;
    var l, r := Render(left, First(style)), Render(right, Second(style));
    var ll, rr := Rest(left, First(style)), Rest(right, Second(style));
    var over := start + |l| + 4;
    PairUnfolds(left, right, style, start);
    PairLeaves(text, start, l, r, ll, rr, post);
    BothLeave(text, TopBlocks(left, First(style), start + 1), TopBlocks(right, Second(style), over), start + 1, ll,
              over, rr, middle);
    LeftInPlace(text, TopBlocks(Paired(left, right), style, start), start, Rest(Paired(left, right), style));
  }

  lemma LeftInPlace(text: string, blocks: seq<Block>, start: nat, left: string)
    requires Consumable(blocks, |text|) && start + |left| <= |text|
    requires Residual(text, blocks) == Put(text, start, left)
    ensures Leaves(text, blocks, start, left)
  {
  }

  lemma AggResidual(op: string, grouping: Grouping, arg: Expr, style: Style, text: string, start: nat,
                    post: string)
    requires start <= |text| && text[start..] == Render(Agg(op, grouping, arg), style) + post
    requires Consumable(TopBlocks(Agg(op, grouping, arg), style, start), |text|)
    ensures Leaves(text, TopBlocks(Agg(op, grouping, arg), style, start), start,
              Rest(Agg(op, grouping, arg), style))
  {
    hide Put, Residual, Fits;
    var b := BlockOf(op, grouping, Render(arg, First(style)), Trails(style), start);
    ResidualOne(text, b, TopBlocks(Agg(op, grouping, arg), style, start), []);
    Tail(text, start, Render(Agg(op, grouping, arg), style), post);
  }
}
