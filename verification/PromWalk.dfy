/**
 The walk over the text of a `sum` argument: every aggregation is read to its closing
 parenthesis and handed to the recursion, and the names that are left are looked up.
 */
module PromWalk {
  import opened Text
  import opened PromText
  import opened PromShield

  // ------------------------------------------------------------ the names a text reads

  const PROMQL_NON_METRICS: set<string> :=
    {"by", "without", "on", "ignoring", "group_left", "group_right", "offset", "bool", "and", "or", "unless", "le",
     "inf", "nan", "start", "end"}

  const CLAUSES: seq<string> := ["by", "without", "on", "ignoring", "group_left", "group_right"]

  /** A stretch from `left` to the next `right` becomes one blank. */
  function StripSpans(text: string, left: char, right: char): string
    decreases |text|
  {
    if text == [] then []
    else if text[0] == left && right in text[1..] then
      " " + StripSpans(text[|Before(text[1..], right)| + 2..], left, right)
    else [text[0]] + StripSpans(text[1..], left, right)
  }

  /** Length of `word (...)` at the front of the text, or nothing. */
  function ClauseWith(text: string, word: string): (length: nat)
    ensures length <= |text|
  {
    if !StartsWith(text, word) then 0
    else
      var open := SkipSpaceFrom(text, |word|);
      if open < |text| && text[open] == '(' && ')' in text[open + 1..]
          then open + 2 + |Before(text[open + 1..], ')')| else 0
  }

  function ClauseLength(text: string, words: seq<string>): (length: nat)
    ensures length <= |text|
  {
    if words == [] then 0
    else if ClauseWith(text, words[0]) > 0 then ClauseWith(text, words[0])
    else ClauseLength(text, words[1..])
  }

  /** Grouping and matching clauses become one blank each; `inWord` says that a word goes on. */
  function StripClauses(text: string, inWord: bool): string
    decreases |text|
  {
    if text == [] then []
    else if !inWord && ClauseLength(text, CLAUSES) > 0 then
      " " + StripClauses(text[ClauseLength(text, CLAUSES)..], false)
    else [text[0]] + StripClauses(text[1..], IsWordChar(text[0]))
  }

  function WithoutLabels(text: string): string {
    StripSpans(StripSpans(StripSpans(StripClauses(StripSpans(text, '{', '}'), false), '[', ']'), '"', '"'), '\'', '\'')
  }

  predicate IsNameStart(c: char) {
    IsNameChar(c) && !IsDigit(c)
  }

  function Lower(s: string): (r: string)
    ensures |r| == |s|
  {
    seq(|s|, k requires 0 <= k < |s| => if 'A' <= s[k] <= 'Z' then (s[k] as int + 32) as char else s[k])
  }

  predicate IsCall(text: string, end: nat)
    requires end <= |text|
  {
    var next := SkipSpaceFrom(text, end);
    next < |text| && text[next] == '('
  }

  /** The identifiers from `at` on that are neither calls nor keywords. */
  function NamesFrom(text: string, at: nat): seq<string>
    requires at <= |text|
    decreases |text| - at
  {
    if at == |text| then []
    else if !IsNameStart(text[at]) then NamesFrom(text, at + 1)
    else
      var end := NameEnd(text, at);
      var name := text[at..end];
      (if IsCall(text, end) || Lower(name) in PROMQL_NON_METRICS then [] else [name]) + NamesFrom(text, end)
  }

  function GaugesAmong(names: seq<string>, gauges: set<string>): (families: set<string>)
    ensures families <= gauges
  {
    if names == [] then {} else GaugeOf(names[0], gauges) + GaugesAmong(names[1..], gauges)
  }

  /** The gauge families a text reads. */
  function GaugesIn(text: string, gauges: set<string>): (families: set<string>)
    ensures families <= gauges
  {
    GaugesAmong(NamesFrom(WithoutLabels(text), 0), gauges)
  }

  // ------------------------------------------------------------ the aggregations of a text

  /** The aggregation whose whole name stands at `p`, or nothing. */
  function OpAt(scan: string, p: nat): (op: string)
    requires p <= |scan|
    ensures p + |op| <= |scan|
    ensures op != [] ==> op in ACROSS_SERIES_AGGREGATIONS
  {
    var word := scan[p..NameEnd(scan, p)];
    if (p == 0 || !IsNameChar(scan[p - 1])) && word in ACROSS_SERIES_AGGREGATIONS then word else []
  }

  datatype Modifier = Modifier(isBy: bool, open: nat)

  /** `by (` or `without (` at `at`. */
  function ModifierOpen(scan: string, at: nat): (m: Option<Modifier>)
    requires at <= |scan|
    ensures m.Some? ==> at < m.value.open < |scan| && scan[m.value.open] == '('
  {
    if StartsWith(scan[at..], "by") && SkipSpaceFrom(scan, at + 2) < |scan|
        && scan[SkipSpaceFrom(scan, at + 2)] == '(' then
      Some(Modifier(true, SkipSpaceFrom(scan, at + 2)))
    else if StartsWith(scan[at..], "without") && SkipSpaceFrom(scan, at + 7) < |scan|
        && scan[SkipSpaceFrom(scan, at + 7)] == '(' then
      Some(Modifier(false, SkipSpaceFrom(scan, at + 7)))
    else None
  }

  function GroupingOf(isBy: bool, labels: string): Grouping {
    if isBy then By(ListItems(labels)) else Without(ListItems(labels))
  }

  /** One aggregation as read: where it starts, its argument, and where it ends. */
  datatype Block = Block(op: string, grouping: Grouping, start: nat, open: nat, closed: nat, end: nat)

  predicate Fits(b: Option<Block>, n: nat) {
    b.Some? ==> b.value.start < b.value.open < b.value.closed < b.value.end <= n
  }

  /** A modifier as read from its word to its closing parenthesis. */
  datatype Clause = NoClause | Unclosed | Clause(grouping: Grouping, end: nat)

  /** The modifier behind `at`, past white space. */
  function ClauseBehind(scan: string, at: nat): (c: Clause)
    ensures c.Clause? ==> at < c.end <= |scan|
  {
    if at > |scan| then NoClause
    else
      match ModifierOpen(scan, SkipSpaceFrom(scan, at))
      case None => NoClause
      case Some(m) =>
        match MatchingParenAt(scan, m.open)
        case None => Unclosed
        case Some(closed) =>
          assert scan[closed] == ')' && closed != m.open;
          Clause(GroupingOf(m.isBy, scan[m.open + 1..closed]), closed + 1)
  }

  /** The parenthesised argument behind `at`, past white space. */
  function GroupBehind(scan: string, at: nat): (g: Option<Group>)
    ensures g.Some? ==> at <= g.value.open < g.value.closed < |scan|
  {
    if at > |scan| then None else GroupAt(scan, SkipSpaceFrom(scan, at))
  }

  function ClauseReader(scan: string): nat -> Clause {
    (at: nat) => ClauseBehind(scan, at)
  }

  function GroupReader(scan: string): nat -> Option<Group> {
    (at: nat) => GroupBehind(scan, at)
  }

  /** One aggregation: a modifier may stand in front of its argument or behind it. */
  function BlockWith(clauses: nat -> Clause, groups: nat -> Option<Group>, start: nat, op: string): Option<Block> {
    match clauses(start + |op|)
    case Unclosed => None
    case Clause(grouping, end) =>
      (match groups(end)
       case None => None
       case Some(g) => Some(Block(op, grouping, start, g.open, g.closed, g.closed + 1)))
    case NoClause =>
      match groups(start + |op|)
      case None => None
      case Some(g) =>
        match clauses(g.closed + 1)
        case NoClause => Some(Block(op, Bare, start, g.open, g.closed, g.closed + 1))
        case Unclosed => None
        case Clause(grouping, end) => Some(Block(op, grouping, start, g.open, g.closed, end))
  }

  function BlockAt(scan: string, start: nat, op: string): (b: Option<Block>)
    requires op != [] && start + |op| <= |scan|
    ensures Fits(b, |scan|) && (b.Some? ==> b.value.start == start)
  {
    BlockWith(ClauseReader(scan), GroupReader(scan), start, op)
  }

  predicate BlocksFit(blocks: seq<Option<Block>>, n: nat) {
    forall k | 0 <= k < |blocks| :: Fits(blocks[k], n)
  }

  /** The outermost aggregations from `p` on, `None` for one that cannot be read. */
  function BlocksFrom(scan: string, p: nat): (blocks: seq<Option<Block>>)
    ensures BlocksFit(blocks, |scan|)
    decreases |scan| - p
  {
    if p >= |scan| then []
    else if OpAt(scan, p) == [] then BlocksFrom(scan, p + 1)
    else
      var b := BlockAt(scan, p, OpAt(scan, p));
      [b] + BlocksFrom(scan, if b.Some? then b.value.end else p + 1)
  }

  function Blanked(text: string, start: nat, end: nat): (r: string)
    requires start <= end <= |text|
    ensures |r| == |text|
  {
    text[..start] + Blank(end - start) + text[end..]
  }

  function Somes(blocks: seq<Option<Block>>): seq<Block> {
    if blocks == [] then []
    else Somes(blocks[..|blocks| - 1]) + if blocks[|blocks| - 1].Some? then [blocks[|blocks| - 1].value] else []
  }

  predicate Consumable(blocks: seq<Block>, n: nat) {
    forall k | 0 <= k < |blocks| :: Fits(Some(blocks[k]), n)
  }

  lemma {:induction false} SomesFit(blocks: seq<Option<Block>>, n: nat)
    requires BlocksFit(blocks, n)
    ensures Consumable(Somes(blocks), n)
  {
    if blocks != [] {
      SomesFit(blocks[..|blocks| - 1], n);
      assert Fits(blocks[|blocks| - 1], n);
    }
  }

  /** The text with everything the recursion takes blanked. */
  function Residual(scan: string, consumed: seq<Block>): (r: string)
    requires Consumable(consumed, |scan|)
    ensures |r| == |scan|
  {
    if consumed == [] then scan
    else
      var last := consumed[|consumed| - 1];
      assert Fits(Some(last), |scan|);
      Blanked(Residual(scan, consumed[..|consumed| - 1]), last.start, last.end)
  }

  // ------------------------------------------------------------ the walk

  /** What a walk reports: the unshielded gauges, and whether something could not be read. */
  datatype Reading = Reading(families: set<string>, unscannable: bool)

  function Both(a: Reading, b: Reading): Reading {
    Reading(a.families + b.families, a.unscannable || b.unscannable)
  }

  const NOTHING := Reading({}, false)

  function Walk(text: string, gauges: set<string>, shielded: bool): (r: Reading)
    ensures r.families <= gauges
    decreases |text|, 2, 0
  {
    if text == [] then NOTHING
    else
      var scan := Masked(text);
      var blocks := BlocksFrom(scan, 0);
      var inner := WalkBlocks(text, blocks, gauges, shielded);
      SomesFit(blocks, |scan|);
      var here := if shielded then {} else GaugesIn(Residual(scan, Somes(blocks)), gauges);
      Both(Reading({}, Unterminated(text)), Both(inner, Reading(here, false)))
  }

  function WalkBlock(text: string, block: Option<Block>, gauges: set<string>, shielded: bool): (r: Reading)
    requires Fits(block, |text|) && text != []
    ensures r.families <= gauges
    decreases |text|, 0, 0
  {
    match block
    case None => Reading({}, true)
    case Some(b) => Walk(text[b.open + 1..b.closed], gauges, shielded || Collapses(b.op, b.grouping))
  }

  function WalkBlocks(text: string, blocks: seq<Option<Block>>, gauges: set<string>, shielded: bool): (r: Reading)
    requires BlocksFit(blocks, |text|) && text != []
    ensures r.families <= gauges
    decreases |text|, 1, |blocks|
  {
    if blocks == [] then NOTHING
    else
      Both(WalkBlocks(text, blocks[..|blocks| - 1], gauges, shielded),
           WalkBlock(text, blocks[|blocks| - 1], gauges, shielded))
  }

  /** A text that ends inside a quote is never accepted in silence. */
  lemma OpenQuoteIsUnreadable(text: string, gauges: set<string>, shielded: bool)
    requires Unterminated(text)
    ensures Walk(text, gauges, shielded).unscannable
  {
    hide WalkBlocks, GaugesIn, Residual, BlocksFrom;
    assert text != [];
  }

  // ------------------------------------------------------------ the walk, as it runs

  predicate InConsumed(consumed: seq<Block>, p: nat) {
    exists k :: 0 <= k < |consumed| && consumed[k].start <= p < consumed[k].end
  }

  /** The reading goes on at `next`: everything from `p` up to there is consumed, nothing behind it. */
  predicate Frontier(consumed: seq<Block>, p: nat, next: nat) {
    && p <= next
    && (forall k | 0 <= k < |consumed| :: consumed[k].end <= next)
    && (forall q | p <= q < next :: InConsumed(consumed, q))
  }

  lemma FrontierConsumes(consumed: seq<Block>, p: nat, b: Block)
    requires Frontier(consumed, p, p) && b.start == p < b.end
    ensures Frontier(consumed + [b], p + 1, b.end)
  {
    var more := consumed + [b];
    assert more[|consumed|] == b;
    forall q | p + 1 <= q < b.end
      ensures InConsumed(more, q)
    {
      assert more[|consumed|].start <= q < more[|consumed|].end;
    }
  }

  lemma BlocksNext(scan: string, p: nat, done: seq<Option<Block>>)
    requires p < |scan|
    ensures OpAt(scan, p) == [] ==> done + BlocksFrom(scan, p) == done + BlocksFrom(scan, p + 1)
    ensures OpAt(scan, p) != [] ==>
              var b := BlockAt(scan, p, OpAt(scan, p));
              done + BlocksFrom(scan, p) == (done + [b]) + BlocksFrom(scan, if b.Some? then b.value.end else p + 1)
  {
  }

  lemma WalkOneMore(text: string, done: seq<Option<Block>>, b: Option<Block>, gauges: set<string>, shielded: bool)
    requires text != [] && BlocksFit(done, |text|) && Fits(b, |text|)
    ensures BlocksFit(done + [b], |text|)
    ensures WalkBlocks(text, done + [b], gauges, shielded)
         == Both(WalkBlocks(text, done, gauges, shielded), WalkBlock(text, b, gauges, shielded))
    ensures Somes(done + [b]) == Somes(done) + if b.Some? then [b.value] else []
  {
    assert (done + [b])[..|done|] == done;
  }

  /** How far the reading of one level has come. */
  predicate Progress(scan: string, blocks: seq<Option<Block>>, consumed: seq<Block>, p: nat, next: nat) {
    && BlocksFit(blocks, |scan|)
    && blocks + BlocksFrom(scan, next) == BlocksFrom(scan, 0)
    && consumed == Somes(blocks)
    && Frontier(consumed, p, next)
  }

  lemma SkipProgress(scan: string, blocks: seq<Option<Block>>, consumed: seq<Block>, p: nat, next: nat)
    requires p < |scan| && Progress(scan, blocks, consumed, p, next)
    requires OpAt(scan, p) == [] || InConsumed(consumed, p)
    ensures Progress(scan, blocks, consumed, p + 1, if p == next then p + 1 else next)
  {
    if p == next {
      BlocksNext(scan, p, blocks);
    }
  }

  lemma TakeProgress(scan: string, blocks: seq<Option<Block>>, consumed: seq<Block>, p: nat, next: nat,
                     b: Option<Block>)
    requires p < |scan| && Progress(scan, blocks, consumed, p, next)
    requires OpAt(scan, p) != [] && !InConsumed(consumed, p) && b == BlockAt(scan, p, OpAt(scan, p))
    ensures Progress(scan, blocks + [b], consumed + (if b.Some? then [b.value] else []), p + 1,
                     if b.Some? then b.value.end else p + 1)
  {
    assert p == next;
    BlocksNext(scan, p, blocks);
    assert (blocks + [b])[..|blocks|] == blocks;
    if b.Some? { FrontierConsumes(consumed, p, b.value); } else { assert consumed + [] == consumed; }
  }

  lemma BothAssociates(a: Reading, b: Reading, c: Reading)
    ensures Both(Both(a, b), c) == Both(a, Both(b, c))
  {
  }

  lemma WalkUnfolds(text: string, scan: string, consumed: seq<Block>, inner: Reading, found: Reading,
                    gauges: set<string>, shielded: bool)
    requires text != [] && scan == Masked(text) && Consumable(consumed, |scan|)
    requires consumed == Somes(BlocksFrom(scan, 0)) && inner == WalkBlocks(text, BlocksFrom(scan, 0), gauges, shielded)
    ensures Both(found, Walk(text, gauges, shielded)) ==
              Reading(found.families + inner.families + (if shielded then {}
                  else GaugesIn(Residual(scan, consumed), gauges)),
                      found.unscannable || Unterminated(text) || inner.unscannable)
  {
  }

  /** The accumulators one walk fills, at every depth. */
  class GaugeWalk {
    const gauges: set<string>
    var families: set<string>
    var unscannable: bool

    constructor (gauges: set<string>)
      ensures this.gauges == gauges && Found() == NOTHING
    {
      this.gauges, families, unscannable := gauges, {}, false;
    }

    function Found(): Reading
      reads this
    {
      Reading(families, unscannable)
    }

    /** One level of the walk. */
    method Descend(text: string, shielded: bool)
      modifies this
      ensures Found() == Both(old(Found()), Walk(text, gauges, shielded))
      decreases |text|, 2
    {
      if text == [] { return; }
      var scan, unterminated := ScanQuotedSpans(text);
      if unterminated { unscannable := true; }
      var consumed, blocks := Consume(text, scan, shielded);
      WalkUnfolds(text, scan, consumed, WalkBlocks(text, blocks, gauges, shielded), old(Found()), gauges, shielded);
      if !shielded {
        families := families + GaugesIn(Residual(scan, consumed), gauges);
      }
    }

    /** Walks the argument of one aggregation, or notes that it could not be read. */
    method WalkOne(text: string, block: Option<Block>, shielded: bool)
      requires text != [] && Fits(block, |text|)
      modifies this
      ensures Found() == Both(old(Found()), WalkBlock(text, block, gauges, shielded))
      decreases |text|, 0
    {
      if block.None? {
        unscannable := true;
        return;
      }
      var b := block.value;
      Descend(text[b.open + 1..b.closed], shielded || Collapses(b.op, b.grouping));
    }

    /** Reads every aggregation of this level and walks its argument. */
    method Consume(text: string, scan: string, shielded: bool)
      returns (consumed: seq<Block>, ghost blocks: seq<Option<Block>>)
      requires text != [] && scan == Masked(text)
      modifies this
      ensures blocks == BlocksFrom(scan, 0) && consumed == Somes(blocks) && Consumable(consumed, |scan|)
      ensures Found() == Both(old(Found()), WalkBlocks(text, blocks, gauges, shielded))
      decreases |text|, 1
    {
      consumed, blocks := [], [];
      ghost var next: nat := 0;
      for p := 0 to |scan|
        invariant Progress(scan, blocks, consumed, p, next)
        invariant Found() == Both(old(Found()), WalkBlocks(text, blocks, gauges, shielded))
      {
        var op := OpAt(scan, p);
        if op == [] || InConsumed(consumed, p) {
          SkipProgress(scan, blocks, consumed, p, next);
          next := if p == next then p + 1 else next;
          continue;
        }
        var block := BlockAt(scan, p, op);
        TakeProgress(scan, blocks, consumed, p, next, block);
        WalkOneMore(text, blocks, block, gauges, shielded);
        BothAssociates(old(Found()), WalkBlocks(text, blocks, gauges, shielded),
            WalkBlock(text, block, gauges, shielded));
        WalkOne(text, block, shielded);
        blocks := blocks + [block];
        next := if block.Some? then block.value.end else p + 1;
        consumed := consumed + if block.Some? then [block.value] else [];
      }
      SomesFit(blocks, |scan|);
      assert blocks + [] == blocks;
    }
  }

  /** The whole check of one argument. */
  method UnshieldedGaugeReferences(argument: string, gauges: set<string>)
    returns (families: set<string>, unscannable: bool)
    ensures Reading(families, unscannable) == Walk(argument, gauges, false)
  {
    var walk := new GaugeWalk(gauges);
    walk.Descend(argument, false);
    families, unscannable := walk.families, walk.unscannable;
  }
}
