/**
 The check on text is as sound as the walk over the tree: an expression whose text it
 accepts has a sum that does not depend on the number of replicas.
 */
module PromSound {
  import opened PromText
  import opened PromShield
  import opened PromMeaning
  import opened PromWalk
  import opened PromRender
  import opened PromMask
  import opened PromRoundTrip
  import opened PromNames

  // ------------------------------------------------------------ the walk on a written expression

  lemma {:induction false} InnerWalk(e: Expr, style: Style, text: string, start: nat, post: string,
                                     gauges: set<string>, shielded: bool)
    requires WellNamed(e) && start <= |text| && text[start..] == Render(e, style) + post && text != []
    ensures BlocksStand(text, TopBlocks(e, style, start))
    ensures WalkBlocks(text, Read(TopBlocks(e, style, start)), gauges, shielded)
              == Reading(InnerGauges(e, gauges, shielded), false)
    decreases e, 0
  {
    hide Walk, WalkBlocks, BlocksStand, BlocksFrom, Behind, Collapses, TreeWalk, Read, Wrapped, SpellAgg, BlockOf,
        First, Second, Trails, IsReference;
    match e
    case Metric(_) =>
      NoInnerWalk(text, TopBlocks(e, style, start), gauges, shielded);
    case PerSeries(fn, arg) =>
      CallPlaces(text, start, fn, Render(arg, First(style)), post);
      InnerWalk(arg, First(style), text, start + |fn| + 1, [')'] + post, gauges, shielded);
    case Paired(left, right) =>
      var l, r := Render(left, First(style)), Render(right, Second(style));
      RestPlaces(text, start, l, r, post);
      InnerWalk(left, First(style), text, start + 1, PLUS + (r + ([')'] + post)), gauges, shielded);
      InnerWalk(right, Second(style), text, start + |l| + 4, [')'] + post, gauges, shielded);
      TwoStand(text, TopBlocks(left, First(style), start + 1), TopBlocks(right, Second(style), start + |l| + 4),
          gauges, shielded);
    case Agg(op, grouping, arg) =>
      WalkOfRender(arg, First(style), gauges, shielded || Collapses(op, grouping));
      AggInnerWalk(op, grouping, arg, Render(arg, First(style)), Trails(style), text, start, post, gauges, shielded);
  }

  lemma AggInnerWalk(op: string, grouping: Grouping, arg: Expr, inner: string, trailing: bool, text: string,
                     start: nat, post: string, gauges: set<string>, shielded: bool)
    requires start <= |text| && text[start..] == SpellAgg(op, grouping, inner, trailing) + post && text != []
    requires op in ACROSS_SERIES_AGGREGATIONS
    requires Walk(inner, gauges, shielded || Collapses(op, grouping))
          == Reading(TreeWalk(arg, gauges, shielded || Collapses(op, grouping)), false)
    ensures BlocksStand(text, [BlockOf(op, grouping, inner, trailing, start)])
    ensures WalkBlocks(text, Read([BlockOf(op, grouping, inner, trailing, start)]), gauges, shielded)
         == Reading(InnerGauges(Agg(op, grouping, arg), gauges, shielded), false)
  {
    hide Walk, WalkBlocks, BlocksStand, Collapses, TreeWalk, Read, SpellAgg;
    ArgumentSlice(text, start, op, grouping, inner, trailing, post);
    BlockStands(text, op, grouping, inner, trailing, start);
    OneStands(text, BlockOf(op, grouping, inner, trailing, start), inner, gauges, shielded);
  }

  lemma BlockStands(text: string, op: string, grouping: Grouping, inner: string, trailing: bool, start: nat)
    requires op in ACROSS_SERIES_AGGREGATIONS
    requires var b := BlockOf(op, grouping, inner, trailing, start); b.open < b.closed < b.end <= |text|
    ensures BlocksStand(text, [BlockOf(op, grouping, inner, trailing, start)])
  {
    OpIsName(op);
    hide SpellAgg, SpellGrouping;
  }

  lemma NoInnerWalk(text: string, none: seq<Block>, gauges: set<string>, shielded: bool)
    requires text != [] && none == []
    ensures BlocksStand(text, none) && WalkBlocks(text, Read(none), gauges, shielded) == NOTHING
  {
  }

  /** Walking the text of an expression gives what walking its tree gives, and nothing is unreadable. */
  lemma {:induction false} WalkOfRender(e: Expr, style: Style, gauges: set<string>, shielded: bool)
    requires WellNamed(e)
    ensures Walk(Render(e, style), gauges, shielded) == Reading(TreeWalk(e, gauges, shielded), false)
    decreases e, 1
  {
    hide Walk, WalkBlocks, BlocksFrom, Residual, GaugesIn, Masked, Unterminated, TreeWalk, InnerGauges, TopBlocks,
        TopNames, Rest, Render, IsSeen, BlocksStand;
    var text := Render(e, style);
    MaskOfRender(e, style);
    SeenIsSeen(e);
    SeenBlocks(e, style, 0);
    SeenNames(e);
    RenderIsProper(Seen(e), style);
    assert text[0..] == text + [];
    InnerWalk(e, style, text, 0, [], gauges, shielded);
    ResidualIsRest(Seen(e), style, Masked(text));
    GaugesOfRest(Seen(e), style, gauges);
    TreeWalkSplits(e, gauges, shielded);
    OneLevel(text, Masked(text), TopBlocks(e, style, 0), Rest(Seen(e), style), gauges, shielded);
  }

  lemma FromStart(text: string, spelled: string)
    requires text == spelled
    ensures text[0..] == spelled + []
  {
  }

  lemma BlocksAtEnd(text: string)
    ensures BlocksFrom(text, |text|) == []
  {
  }

  lemma BlocksAreTop(e: Expr, style: Style, text: string)
    requires IsSeen(e) && text == Render(e, style)
    ensures BlocksFrom(text, 0) == Read(TopBlocks(e, style, 0))
    ensures Consumable(TopBlocks(e, style, 0), |text|)
  {
    hide Render, TopBlocks, Consumable, Fits, BlocksFrom, BlocksStand, Read, ReadsFrom, IsSeen;
    FromStart(text, Render(e, style));
    BlocksOfRender(e, style, text, 0, []);
    ReadBlocksStand(text, 0, TopBlocks(e, style, 0), |text|);
    StandIsConsumable(text, TopBlocks(e, style, 0));
    ReadsToEnd(text, TopBlocks(e, style, 0));
  }

  lemma ReadsToEnd(text: string, blocks: seq<Block>)
    requires ReadsFrom(text, 0, blocks, |text|)
    ensures BlocksFrom(text, 0) == Read(blocks)
  {
    BlocksAtEnd(text);
    hide BlocksFrom, Read;
    assert Read(blocks) + [] == Read(blocks);
  }

  lemma PutWhole(text: string, other: string)
    requires |other| == |text|
    ensures Put(text, 0, other) == other
  {
  }

  lemma ResidualIsRest(e: Expr, style: Style, text: string)
    requires IsSeen(e) && text == Render(e, style)
    ensures BlocksFrom(text, 0) == Read(TopBlocks(e, style, 0))
    ensures Consumable(TopBlocks(e, style, 0), |text|) && Residual(text, TopBlocks(e, style, 0))
              == Rest(e, style)
  {
    hide Render, Rest, TopBlocks, Residual, Consumable, Put, BlocksFrom, Read;
    BlocksAreTop(e, style, text);
    FromStart(text, Render(e, style));
    ResidualOfRender(e, style, text, 0, []);
    PutWhole(text, Rest(e, style));
  }

  lemma {:induction false} SomesOfRead(blocks: seq<Block>)
    ensures Somes(Read(blocks)) == blocks
  {
    if blocks != [] {
      var prefix := blocks[..|blocks| - 1];
      SomesOfRead(prefix);
      assert Read(blocks)[..|blocks| - 1] == Read(prefix);
    }
  }

  lemma OneLevel(text: string, scan: string, blocks: seq<Block>, rest: string, gauges: set<string>, shielded: bool)
    requires text != [] && Masked(text) == scan && !Unterminated(text)
    requires BlocksFrom(scan, 0) == Read(blocks) && Consumable(blocks, |scan|) && Residual(scan, blocks) == rest
    ensures Walk(text, gauges, shielded) ==
              Reading(WalkBlocks(text, BlocksFrom(scan, 0), gauges, shielded).families + (if shielded then {}
                  else GaugesIn(rest, gauges)),
                      WalkBlocks(text, BlocksFrom(scan, 0), gauges, shielded).unscannable)
  {
    hide WalkBlocks, GaugesIn, Residual, Masked, Unterminated, BlocksFrom;
    SomesOfRead(blocks);
    WalkUnfolds(text, scan, blocks, WalkBlocks(text, BlocksFrom(scan, 0), gauges, shielded), NOTHING, gauges, shielded);
  }

  // ------------------------------------------------------------ what the check on text guarantees

  /** Where the modifiers stand, each on its own, does not matter. */
  lemma ModifierPlaceIsIrrelevant(e: Expr, style: Style, other: Style, gauges: set<string>,
                                  shielded: bool)
    requires WellNamed(e)
    ensures Walk(Render(e, style), gauges, shielded) == Walk(Render(e, other), gauges, shielded)
  {
    WalkOfRender(e, style, gauges, shielded);
    WalkOfRender(e, other, gauges, shielded);
  }

  /**
   A `sum` whose argument the check on text accepts has the same value for all sets of
   identical replicas, on the conditions the tree-level claim has.
   */
  lemma AcceptedTextIsSound(e: Expr, style: Style, gauges: set<string>, grouping: Grouping, world: World,
                            env: string -> Vector, some: seq<Labels>, others: seq<Labels>)
    requires WellNamed(e) && Walk(Render(e, style), gauges, false) == NOTHING
    requires AllGauges(e, gauges) && Sensible(e, some) && Sensible(e, others)
    requires ShieldsLeaveLabels(e, world)
    requires Resources(env) && Replicas(some) && Replicas(others)
    ensures Denote(Agg("sum", grouping, e), world, Scraped(env, some))
              == Denote(Agg("sum", grouping, e), world, Scraped(env, others))
  {
    hide Walk, Denote, TreeWalk, AllGauges, Sensible, Resources, Replicas;
    WalkOfRender(e, style, gauges, false);
    ShieldIsSound(grouping, e, gauges, world, env, some, others);
  }
}
