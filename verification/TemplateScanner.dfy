/**
 Every template literal of a source: which backticks open one, how the literals
 nest, and what is left open at the end of the file.
 */
module TemplateScanner {
  import opened Text
  import opened Lexer

  // ------------------------------------------------------------ what a run reads

  /** A backtick the lexer reads: in code it opens a literal, in template text it closes one. */
  datatype Tick = Opens(at: nat) | Closes(at: nat)

  function TicksFrom(src: string, s: State): seq<Tick>
    requires s.Valid()
    decreases |src| + 1 - s.i
  {
    if s.i >= |src| then []
    else
      (if src[s.i] != '`' then [] else if s.Top().Code? then [Opens(s.i)] else [Closes(s.i)])
      + TicksFrom(src, Step(src, s))
  }

  /** Where the template frames of a stack were opened, from the bottom up. */
  function Starts(stack: seq<Frame>): seq<nat> {
    if stack == [] then []
    else
      var top := stack[|stack| - 1];
      Starts(stack[..|stack| - 1]) + if top.Template? then [top.start] else []
  }

  /** A literal by its two backticks. */
  datatype Span = Span(open: nat, close: nat)

  /** The spans closed by `ticks` when `open` are the literals already open, in closing order. */
  function Spans(ticks: seq<Tick>, open: seq<nat>): seq<Span>
    decreases |ticks|
  {
    if ticks == [] then []
    else if ticks[0].Opens? then Spans(ticks[1..], open + [ticks[0].at])
    else if open == [] then Spans(ticks[1..], open)
    else [Span(open[|open| - 1], ticks[0].at)] + Spans(ticks[1..], open[..|open| - 1])
  }

  /** The literals still open after `ticks`. */
  function Left(ticks: seq<Tick>, open: seq<nat>): seq<nat>
    decreases |ticks|
  {
    if ticks == [] then open
    else if ticks[0].Opens? then Left(ticks[1..], open + [ticks[0].at])
    else if open == [] then Left(ticks[1..], open)
    else Left(ticks[1..], open[..|open| - 1])
  }

  /** A literal's text and the offset of its first content byte. */
  datatype Literal = Literal(raw: string, index: nat)

  datatype Scan = Scan(templates: seq<Literal>, unterminated: seq<Literal>)

  function Slice(src: string, span: Span): Literal {
    if span.open < span.close <= |src|
    then Literal(src[span.open + 1..span.close], span.open + 1)
    else Literal([], span.open + 1)
  }

  /** The literal reported for every closed span. */
  function Slices(src: string, spans: seq<Span>): (literals: seq<Literal>)
    ensures |literals| == |spans|
  {
    seq(|spans|, k requires 0 <= k < |spans| => Slice(src, spans[k]))
  }

  /** The literal reported for every frame left open: its text runs to the end. */
  function Tails(src: string, open: seq<nat>): (literals: seq<Literal>)
    ensures |literals| == |open|
  {
    seq(|open|, k requires 0 <= k < |open| =>
      Literal(if open[k] < |src| then src[open[k] + 1..] else [], open[k] + 1))
  }

  function ScanOf(src: string): Scan {
    var ticks := TicksFrom(src, START);
    Scan(Slices(src, Spans(ticks, [])), Tails(src, Left(ticks, [])))
  }

  // ------------------------------------------------------------ the loop

  lemma StepStarts(src: string, s: State)
    requires s.Valid() && s.i < |src|
    ensures Starts(Step(src, s).stack) ==
              if src[s.i] != '`' then Starts(s.stack)
              else if s.Top().Code? then Starts(s.stack) + [s.i]
              else Starts(s.Below())
    ensures s.Top().Template? ==> Starts(s.stack) == Starts(s.Below()) + [s.Top().start]
  {
    var next := Step(src, s);
    assert s.stack == s.Below() + [s.Top()];
    if |next.stack| > |s.stack| {
      assert next.stack[..|s.stack|] == s.stack;
    } else if |next.stack| == |s.stack| {
      assert next.stack[..|s.stack| - 1] == s.Below();
    } else {
      assert next.stack == s.Below();
    }
  }

  /** What is still to come, with what is found already, makes up the whole scan. */
  ghost predicate OnTrack(whole: seq<Tick>, pending: seq<Tick>, open: seq<nat>, found: seq<Span>) {
    && found + Spans(pending, open) == Spans(whole, [])
    && Left(pending, open) == Left(whole, [])
  }

  lemma ReadTick(whole: seq<Tick>, tick: Tick, rest: seq<Tick>, open: seq<nat>, found: seq<Span>)
    requires OnTrack(whole, [tick] + rest, open, found) && (tick.Closes? ==> open != [])
    ensures tick.Opens? ==> OnTrack(whole, rest, open + [tick.at], found)
    ensures tick.Closes? ==>
              OnTrack(whole, rest, open[..|open| - 1], found + [Span(open[|open| - 1], tick.at)])
  {
    assert ([tick] + rest)[1..] == rest;
    if tick.Closes? {
      var span := Span(open[|open| - 1], tick.at);
      var later := Spans(rest, open[..|open| - 1]);
      assert found + ([span] + later) == (found + [span]) + later;
    }
  }

  /** One step of the lexer reads at most one backtick. */
  lemma StepTicks(src: string, s: State)
    requires s.Valid() && s.i < |src|
    ensures var rest := TicksFrom(src, Step(src, s));
            TicksFrom(src, s) ==
              if src[s.i] != '`' then rest
              else [if s.Top().Code? then Opens(s.i) else Closes(s.i)] + rest
  {
    assert [] + TicksFrom(src, Step(src, s)) == TicksFrom(src, Step(src, s));
  }

  /** The scanner as the source runs it: one index, one token, one stack. */
  method ScanTemplateLiterals(src: string) returns (scan: Scan)
    ensures scan == ScanOf(src)
  {
    var i: nat, token: string, stack: seq<Frame> := 0, "", [Code(false, 0)];
    var templates: seq<Literal> := [];
    ghost var whole, found: seq<Span> := TicksFrom(src, START), [];
    assert Starts(stack[..0]) == [];
    while i < |src|
      invariant State(i, token, stack).Valid()
      invariant OnTrack(whole, TicksFrom(src, State(i, token, stack)), Starts(stack), found)
      invariant forall k | 0 <= k < |Starts(stack)| :: Starts(stack)[k] < i
      invariant templates == Slices(src, found)
      decreases |src| + 1 - i
    {
      templates, i, token, stack, found := Advance(src, i, token, stack, templates, whole, found);
    }
    assert found + [] == found;
    var unterminated := Leftover(src, stack);
    scan := Scan(templates, unterminated);
  }

  lemma SlicesSnoc(src: string, found: seq<Span>, span: Span)
    ensures Slices(src, found + [span]) == Slices(src, found) + [Slice(src, span)]
  {
  }

  /** The loop body. */
  method Advance(src: string, i: nat, token: string, stack: seq<Frame>, templates: seq<Literal>,
                 ghost whole: seq<Tick>, ghost found: seq<Span>)
    returns (templates': seq<Literal>, i': nat, token': string, stack': seq<Frame>, ghost found': seq<Span>)
    requires i < |src| && State(i, token, stack).Valid()
    requires OnTrack(whole, TicksFrom(src, State(i, token, stack)), Starts(stack), found)
    requires forall k | 0 <= k < |Starts(stack)| :: Starts(stack)[k] < i
    requires templates == Slices(src, found)
    ensures i < i' <= |src| + 1 && State(i', token', stack').Valid()
    ensures OnTrack(whole, TicksFrom(src, State(i', token', stack')), Starts(stack'), found')
    ensures forall k | 0 <= k < |Starts(stack')| :: Starts(stack')[k] < i'
    ensures templates' == Slices(src, found')
  {
    hide TicksFrom, Slices, OnTrack, Spans, Left, Starts;
    ghost var s := State(i, token, stack);
    ghost var rest := TicksFrom(src, Step(src, s));
    StepStarts(src, s);
    StepTicks(src, s);
    templates', found' := templates, found;
    var top := stack[|stack| - 1];
    if top.Template? {
      assert Starts(stack)[|Starts(stack)| - 1] == top.start;
      var closed;
      i', token', stack', closed := ReadTemplate(src, i, token, stack);
      if closed {
        ReadTick(whole, Closes(i), rest, Starts(stack), found);
        SlicesSnoc(src, found, Span(top.start, i));
        templates' := templates + [Literal(src[top.start + 1..i], top.start + 1)];
        found' := found + [Span(top.start, i)];
      }
    } else {
      i', token', stack' := ReadCode(src, i, token, stack);
      if src[i] == '`' {
        ReadTick(whole, Opens(i), rest, Starts(stack), found);
      }
    }
  }

  function TailAt(src: string, open: nat): Literal {
    Literal(if open < |src| then src[open + 1..] else [], open + 1)
  }

  lemma TailsSnoc(src: string, open: seq<nat>, x: nat)
    ensures Tails(src, open + [x]) == Tails(src, open) + [TailAt(src, x)]
  {
  }

  lemma StartsSnoc(stack: seq<Frame>, k: nat)
    requires k < |stack|
    ensures Starts(stack[..k + 1]) == Starts(stack[..k]) + if stack[k].Template? then [stack[k].start] else []
  {
    OneMore(stack, k);
  }

  /** The frames still open, each with the text to the end of the source. */
  method Leftover(src: string, stack: seq<Frame>) returns (unterminated: seq<Literal>)
    ensures unterminated == Tails(src, Starts(stack))
  {
    hide Tails, Starts;
    unterminated := [];
    NoTails(src, stack[..0]);
    for k := 0 to |stack|
      invariant unterminated == Tails(src, Starts(stack[..k]))
    {
      StartsSnoc(stack, k);
      if stack[k].Template? {
        var from := stack[k].start;
        TailsSnoc(src, Starts(stack[..k]), from);
        unterminated := unterminated + [Literal(if from < |src| then src[from + 1..] else [], from + 1)];
      } else {
        assert Starts(stack[..k]) + [] == Starts(stack[..k]);
      }
    }
    assert stack[..|stack|] == stack;
  }

  lemma NoTails(src: string, stack: seq<Frame>)
    requires stack == []
    ensures Tails(src, Starts(stack)) == []
  {
  }

  // ------------------------------------------------------------ structure of the result

  ghost predicate Ascending(ticks: seq<Tick>, from: nat) {
    && (forall k | 0 <= k < |ticks| :: from <= ticks[k].at)
    && (forall j, k | 0 <= j < k < |ticks| :: ticks[j].at < ticks[k].at)
  }

  /** Backticks are read left to right, each once, and each is a backtick. */
  lemma {:induction false} TicksAscend(src: string, s: State)
    requires s.Valid()
    ensures Ascending(TicksFrom(src, s), s.i)
    ensures forall t | t in TicksFrom(src, s) :: t.at < |src| && src[t.at] == '`'
    decreases |src| + 1 - s.i
  {
    if s.i < |src| {
      var next := Step(src, s);
      TicksAscend(src, next);
      var rest := TicksFrom(src, next);
      assert TicksFrom(src, s) == rest || TicksFrom(src, s) == [Opens(s.i)] + rest
          || TicksFrom(src, s) == [Closes(s.i)] + rest;
    }
  }

  /** Where backticks open a literal. */
  ghost function OpeningsOf(ticks: seq<Tick>): multiset<nat> {
    if ticks == [] then multiset{}
    else if ticks[0].Opens? then multiset{ticks[0].at} + OpeningsOf(ticks[1..])
    else OpeningsOf(ticks[1..])
  }

  ghost function SpanOpens(spans: seq<Span>): multiset<nat> {
    if spans == [] then multiset{} else multiset{spans[0].open} + SpanOpens(spans[1..])
  }

  ghost function Bag(s: seq<nat>): multiset<nat> {
    if s == [] then multiset{} else Bag(s[..|s| - 1]) + multiset{s[|s| - 1]}
  }

  /** Every opening is closed once or left open once. */
  lemma {:induction false} OpenedOnce(ticks: seq<Tick>, open: seq<nat>)
    ensures SpanOpens(Spans(ticks, open)) + Bag(Left(ticks, open)) == Bag(open) + OpeningsOf(ticks)
    decreases |ticks|
  {
    if ticks != [] {
      var rest := ticks[1..];
      if ticks[0].Opens? {
        OpenedOnce(rest, open + [ticks[0].at]);
        assert (open + [ticks[0].at])[..|open|] == open;
      } else if open == [] {
        OpenedOnce(rest, open);
      } else {
        var below := open[..|open| - 1];
        OpenedOnce(rest, below);
        var span := Span(open[|open| - 1], ticks[0].at);
        assert ([span] + Spans(rest, below))[1..] == Spans(rest, below);
        assert SpanOpens(Spans(ticks, open)) == multiset{span.open} + SpanOpens(Spans(rest, below));
        assert Bag(open) == Bag(below) + multiset{span.open};
        MoveAcross(span.open, SpanOpens(Spans(rest, below)), Bag(Left(rest, below)), Bag(below), OpeningsOf(rest));
      }
    }
  }

  lemma MoveAcross(x: nat, a: multiset<nat>, b: multiset<nat>, c: multiset<nat>, d: multiset<nat>)
    requires a + b == c + d
    ensures (multiset{x} + a) + b == (c + multiset{x}) + d
  {
    assert (multiset{x} + a) + b == multiset{x} + (a + b);
  }

  /** `a` closes first: it lies wholly before `b` or wholly inside it. */
  predicate DisjointOrInside(a: Span, b: Span) {
    a.close < b.open || (b.open < a.open && a.close < b.close)
  }

  ghost predicate Laminar(spans: seq<Span>) {
    forall j, k | 0 <= j < k < |spans| :: DisjointOrInside(spans[j], spans[k])
  }

  /** No position of `left` lies inside a span. */
  ghost predicate Outside(left: seq<nat>, spans: seq<Span>) {
    forall u, k | u in left && 0 <= k < |spans| :: u < spans[k].open || spans[k].close < u
  }

  ghost predicate OpenBefore(open: seq<nat>, from: nat) {
    && (forall k | 0 <= k < |open| :: open[k] < from)
    && (forall j, k | 0 <= j < k < |open| :: open[j] < open[k])
  }

  /** Spans that close from `from` on opened there too, or are among those already open. */
  ghost predicate Fresh(spans: seq<Span>, open: seq<nat>, from: nat) {
    forall k | 0 <= k < |spans| ::
      spans[k].open < spans[k].close && from <= spans[k].close && (from <= spans[k].open || spans[k].open in open)
  }

  lemma {:induction false} SpansPlaced(ticks: seq<Tick>, open: seq<nat>, from: nat)
    requires Ascending(ticks, from) && OpenBefore(open, from)
    ensures Fresh(Spans(ticks, open), open, from) && Laminar(Spans(ticks, open))
    ensures Outside(Left(ticks, open), Spans(ticks, open))
    ensures forall u | u in Left(ticks, open) :: u in open || from <= u
    decreases |ticks|
  {
    if ticks != [] {
      var at := ticks[0].at;
      var rest := ticks[1..];
      AscendingTail(ticks, from);
      if ticks[0].Opens? {
        SpansPlaced(rest, open + [at], at + 1);
      } else if open == [] {
        SpansPlaced(rest, open, at + 1);
      } else {
        var below := open[..|open| - 1];
        SpansPlaced(rest, below, at + 1);
        SpansCons(Span(open[|open| - 1], at), Spans(rest, below), Left(rest, below), below);
      }
    }
  }

  lemma AscendingTail(ticks: seq<Tick>, from: nat)
    requires ticks != [] && Ascending(ticks, from)
    ensures from <= ticks[0].at && Ascending(ticks[1..], ticks[0].at + 1)
  {
    assert forall k | 0 <= k < |ticks| - 1 :: ticks[1..][k] == ticks[k + 1];
  }

  lemma SpansCons(span: Span, spans: seq<Span>, left: seq<nat>, below: seq<nat>)
    requires span.open < span.close && forall u | u in below :: u < span.open
    requires Fresh(spans, below, span.close + 1) && Laminar(spans) && Outside(left, spans)
    requires forall u | u in left :: u in below || span.close < u
    ensures Laminar([span] + spans) && Outside(left, [span] + spans)
  {
    forall k | 0 <= k < |spans|
      ensures DisjointOrInside(span, spans[k])
    {
    }
  }

  /**
   The structure of a scan. Every backtick read in code is reported exactly once,
   as the opening of a terminated or of an unterminated literal; a terminated
   literal's text is the slice between its two backticks; two terminated literals
   are disjoint or nested; an unterminated one is never opened inside a
   terminated one, and its text runs to the end of the source.
   */
  lemma ScanStructure(src: string)
    ensures var ticks := TicksFrom(src, START);
            var spans, left := Spans(ticks, []), Left(ticks, []);
            && ScanOf(src) == Scan(Slices(src, spans), Tails(src, left))
            && SpanOpens(spans) + Bag(left) == OpeningsOf(ticks)
            && Laminar(spans) && Outside(left, spans)
            && (forall k | 0 <= k < |spans| ::
                  && spans[k].open < spans[k].close < |src|
                  && src[spans[k].open] == '`' && src[spans[k].close] == '`')
            && (forall k | 0 <= k < |left| :: left[k] < |src| && src[left[k]] == '`')
  {
    var ticks := TicksFrom(src, START);
    TicksAscend(src, START);
    OpenedOnce(ticks, []);
    SpansPlaced(ticks, [], 0);
    BackticksOnly(src, ticks, []);
  }

  /** The literal's text is what stands between its backticks, or behind its only one. */
  ghost predicate IsSlice(src: string, span: Span, literal: Literal) {
    && span.open < span.close < |src| && src[span.open] == '`' && src[span.close] == '`'
    && literal == Literal(src[span.open + 1..span.close], span.open + 1)
  }

  ghost predicate IsTail(src: string, open: nat, literal: Literal) {
    open < |src| && src[open] == '`' && literal == Literal(src[open + 1..], open + 1)
  }

  ghost predicate AllSlices(src: string, spans: seq<Span>, literals: seq<Literal>) {
    |literals| == |spans| && forall k | 0 <= k < |spans| :: IsSlice(src, spans[k], literals[k])
  }

  ghost predicate AllTails(src: string, left: seq<nat>, literals: seq<Literal>) {
    |literals| == |left| && forall k | 0 <= k < |left| :: IsTail(src, left[k], literals[k])
  }

  /** What is reported of every literal, closed or open: its text and where that begins. */
  lemma ScanLiterals(src: string)
    ensures AllSlices(src, Spans(TicksFrom(src, START), []), ScanOf(src).templates)
    ensures AllTails(src, Left(TicksFrom(src, START), []), ScanOf(src).unterminated)
  {
    var spans, left := Spans(TicksFrom(src, START), []), Left(TicksFrom(src, START), []);
    hide *;
    ScanStructure(src);
    SlicesAre(src, spans);
    TailsAre(src, left);
  }

  lemma SlicesAre(src: string, spans: seq<Span>)
    requires forall k | 0 <= k < |spans| ::
               spans[k].open < spans[k].close < |src| && src[spans[k].open] == '`' && src[spans[k].close] == '`'
    ensures AllSlices(src, spans, Slices(src, spans))
  {
  }

  lemma TailsAre(src: string, left: seq<nat>)
    requires forall k | 0 <= k < |left| :: left[k] < |src| && src[left[k]] == '`'
    ensures AllTails(src, left, Tails(src, left))
  {
  }

  /** Spans run from backtick to backtick, and only backticks stay open. */
  lemma {:induction false} BackticksOnly(src: string, ticks: seq<Tick>, open: seq<nat>)
    requires forall t | t in ticks :: t.at < |src| && src[t.at] == '`'
    requires forall u | u in open :: u < |src| && src[u] == '`'
    ensures forall span | span in Spans(ticks, open) ::
              span.open < |src| && src[span.open] == '`' && span.close < |src| && src[span.close] == '`'
    ensures forall u | u in Left(ticks, open) :: u < |src| && src[u] == '`'
    decreases |ticks|
  {
    if ticks != [] {
      assert ticks[0] in ticks;
      if ticks[0].Opens? {
        BackticksOnly(src, ticks[1..], open + [ticks[0].at]);
      } else if open == [] {
        BackticksOnly(src, ticks[1..], open);
      } else {
        var below := open[..|open| - 1];
        assert open[|open| - 1] in open;
        forall u | u in below ensures u < |src| && src[u] == '`' { assert u in open; }
        BackticksOnly(src, ticks[1..], below);
      }
    }
  }
}
