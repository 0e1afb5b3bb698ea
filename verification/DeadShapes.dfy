/**
 What a dead shape says about one run of its template: over all inventories without
 trailing optional catch-alls, exactly which runs it condemns.
 */
module DeadShapes {
  import opened Text
  import opened RouteMatcher
  import opened ShapeMatcher
  import opened TemplateExpansion
  import opened ExpansionMeaning
  import opened ExpansionRuns
  import opened LinkEndToEnd

  // ------------------------------------------------------------ shapes and runs, segment by segment

  /** A segment a route can spell: neither a group nor one that captures. */
  predicate IsLiteral(segment: string) {
    IsSegment(segment) && !IsRouteGroup(segment) && !IsAnyCatchAll(segment) && !IsParam(segment)
  }

  /** Segment by segment the shape leaves the run open, agrees with it, or no route can tell them apart. */
  ghost predicate Covers(shape: seq<string>, run: seq<string>) {
    |run| == |shape| && forall i | 0 <= i < |shape| :: CoversAt(shape, run, i)
  }

  ghost predicate CoversAt(shape: seq<string>, run: seq<string>, i: nat)
    requires i < |shape| == |run|
  {
    shape[i] == WILDCARD || shape[i] == run[i] || !IsLiteral(run[i])
  }

  lemma CoversIsInstance(shape: seq<string>, run: seq<string>)
    requires AllSegments(run)
    ensures IsInstance(shape, run) ==> Covers(shape, run)
    ensures (forall i | 0 <= i < |run| :: IsLiteral(run[i])) ==> (Covers(shape, run) <==> IsInstance(shape, run))
  {
    if Covers(shape, run) && forall i | 0 <= i < |run| :: IsLiteral(run[i]) {
      forall i | 0 <= i < |shape| && shape[i] != WILDCARD
        ensures run[i] == shape[i]
      {
        assert CoversAt(shape, run, i);
      }
    }
  }

  ghost predicate NoTrailingOptional(routes: seq<string>) {
    forall r | r in routes :: !EndsInOptionalCatchAll(TemplateSegments(r))
  }

  // ------------------------------------------------------------ a covered run dies with its shape

  /** The instance of the shape that no route can tell from the run. */
  function Stand(shape: seq<string>, run: seq<string>): (inst: seq<string>)
    requires |shape| == |run|
    ensures |inst| == |run| && forall i | 0 <= i < |run| :: inst[i] == if shape[i] == WILDCARD then run[i] else shape[i]
  {
    seq(|run|, i requires 0 <= i < |run| => if shape[i] == WILDCARD then run[i] else shape[i])
  }

  lemma StandTiles(tpl: seq<string>, shape: seq<string>, run: seq<string>, cuts: seq<nat>)
    requires Covers(shape, run) && Tiles(tpl, run, cuts)
    requires forall s | s in tpl :: IsSegment(s) && !IsRouteGroup(s)
    ensures Tiles(tpl, Stand(shape, run), cuts)
  {
    var inst := Stand(shape, run);
    forall i | 0 <= i < |tpl|
      ensures IsPiece(tpl, inst, cuts, i)
    {
      assert IsPiece(tpl, run, cuts, i);
      var slice := run[cuts[i]..cuts[i + 1]];
      if !IsAnyCatchAll(tpl[i]) && !IsParam(tpl[i]) {
        assert tpl[i] in tpl && slice == [tpl[i]];
        assert slice[0] == run[cuts[i]];
        assert CoversAt(shape, run, cuts[i]);
        assert inst[cuts[i]..cuts[i + 1]] == [tpl[i]];
      }
    }
  }

  lemma CoveredIsDead(pattern: string, target: string, routes: seq<string>)
    requires NoTrailingOptional(routes) && !ShapeAlive(pattern, routes)
    requires Covers(SegmentsOf(NormalizeTarget(pattern)), SegmentsOf(NormalizeTarget(target)))
    ensures Classify(target, routes) == Dead
  {
    var shape, run := SegmentsOf(NormalizeTarget(pattern)), SegmentsOf(NormalizeTarget(target));
    var inst := Stand(shape, run);
    assert AllSegments(shape) && AllSegments(run);
    forall r | r in routes
      ensures !Matches(r, run)
    {
      if cuts :| Tiles(TemplateSegments(r), run, cuts) {
        TemplateHasNoGroups(r);
        StandTiles(TemplateSegments(r), shape, run, cuts);
        assert IsInstance(shape, inst) && Matches(r, inst);
        DeadShapeResolvesForNoValue(pattern, routes);
      }
    }
    ClassifyMeaning(target, routes);
  }

  lemma TemplateHasNoGroups(route: string)
    ensures forall s | s in TemplateSegments(route) :: IsSegment(s) && !IsRouteGroup(s)
  {
    var all := SegmentsOf(route);
    forall s | s in TemplateSegments(route)
      ensures !IsRouteGroup(s)
    {
      FilterMembers(all, (t: string) => !IsRouteGroup(t), s);
    }
  }

  // ------------------------------------------------------------ and no other run does

  /** A template without catch-alls is matched place by place. */
  predicate Single(tpl: seq<string>) {
    forall i | 0 <= i < |tpl| :: !IsAnyCatchAll(tpl[i])
  }

  lemma {:induction false} SingleShape(tpl: seq<string>, shape: seq<string>)
    requires Single(tpl) && MatchShape(tpl, shape)
    ensures |tpl| == |shape|
    ensures forall i | 0 <= i < |tpl| :: IsParam(tpl[i]) || shape[i] == WILDCARD || shape[i] == tpl[i]
  {
    if tpl != [] {
      assert forall i | 0 <= i < |tpl| - 1 :: tpl[1..][i] == tpl[i + 1];
      SingleShape(tpl[1..], shape[1..]);
      forall i | 0 < i < |tpl|
        ensures IsParam(tpl[i]) || shape[i] == WILDCARD || shape[i] == tpl[i]
      {
        assert tpl[1..][i - 1] == tpl[i] && shape[1..][i - 1] == shape[i];
      }
    }
  }

  lemma SingleTiles(tpl: seq<string>, run: seq<string>) returns (cuts: seq<nat>)
    requires Single(tpl) && |tpl| == |run|
    requires forall i | 0 <= i < |tpl| :: IsParam(tpl[i]) || tpl[i] == run[i]
    ensures Tiles(tpl, run, cuts)
  {
    cuts := seq(|tpl| + 1, i => i);
    forall i | 0 <= i < |tpl|
      ensures IsPiece(tpl, run, cuts, i)
    {
      assert run[i..i + 1] == [run[i]];
    }
  }

  /** The route whose template this is. */
  lemma RouteOf(tpl: seq<string>) returns (route: string)
    requires forall s | s in tpl :: IsSegment(s) && !IsRouteGroup(s)
    ensures TemplateSegments(route) == tpl
  {
    route := Lead(tpl, '/');
    SplitLead(tpl, '/');
    var present := (s: string) => |s| > 0;
    FilterConcat([[]], tpl, present);
    AllKept(tpl, present);
    assert Filter([[]], present) == [];
    assert SegmentsOf(route) == tpl;
    AllKept(tpl, (s: string) => !IsRouteGroup(s));
  }

  lemma {:induction false} AllKept(list: seq<string>, keep: string -> bool)
    requires forall s | s in list :: keep(s)
    ensures Filter(list, keep) == list
  {
    if list != [] { AllKept(list[1..], keep); }
  }

  const ANY := "[x]"

  lemma AnyIsParam()
    ensures IsParam(ANY) && !IsAnyCatchAll(ANY) && IsSegment(ANY) && !IsRouteGroup(ANY)
  {
  }

  /** Parameters everywhere, but the run's own segment at one place. */
  function Telling(run: seq<string>, at: nat): (tpl: seq<string>)
    ensures |tpl| == |run| && forall i | 0 <= i < |run| :: tpl[i] == if i == at then run[i] else ANY
  {
    seq(|run|, i requires 0 <= i < |run| => if i == at then run[i] else ANY)
  }

  /** One route that matches the run and not the shape. */
  lemma TellingRoute(shape: seq<string>, run: seq<string>, at: nat) returns (route: string)
    requires AllSegments(run) && (at < |run| ==> IsLiteral(run[at]))
    requires |shape| != |run| || (at < |run| && shape[at] != WILDCARD && shape[at] != run[at])
    ensures Matches(route, run) && !MatchShape(TemplateSegments(route), shape)
    ensures !EndsInOptionalCatchAll(TemplateSegments(route))
  {
    var tpl := Telling(run, at);
    AnyIsParam();
    hide IsParam, IsOptionalCatchAll, IsCatchAll, IsRouteGroup;
    assert Single(tpl);
    route := RouteOf(tpl);
    var cuts := SingleTiles(tpl, run);
    if MatchShape(tpl, shape) { SingleShape(tpl, shape); }
  }

  lemma UncoveredAt(shape: seq<string>, run: seq<string>) returns (at: nat)
    requires AllSegments(run) && !Covers(shape, run)
    ensures at < |run| ==> IsLiteral(run[at])
    ensures |shape| != |run| || (at < |run| && shape[at] != WILDCARD && shape[at] != run[at])
  {
    if |shape| != |run| {
      at := |run|;
    } else {
      at :| at < |shape| && !CoversAt(shape, run, at);
    }
  }

  lemma UncoveredLives(pattern: string, target: string) returns (route: string)
    requires !Covers(SegmentsOf(NormalizeTarget(pattern)), SegmentsOf(NormalizeTarget(target)))
    ensures NoTrailingOptional([route]) && !ShapeAlive(pattern, [route]) && Classify(target, [route]) != Dead
  {
    var shape, run := SegmentsOf(NormalizeTarget(pattern)), SegmentsOf(NormalizeTarget(target));
    var at := UncoveredAt(shape, run);
    route := TellingRoute(shape, run, at);
    assert route in [route];
    ClassifyMeaning(target, [route]);
  }

  /** Wherever the shape is dead, the target is. */
  ghost predicate DiesWith(pattern: string, target: string) {
    forall routes | NoTrailingOptional(routes) && !ShapeAlive(pattern, routes) :: Classify(target, routes) == Dead
  }

  /** Exactly which targets a dead shape condemns, over every inventory without trailing optional catch-alls. */
  lemma DiesWithIff(pattern: string, target: string)
    ensures DiesWith(pattern, target) <==>
              Covers(SegmentsOf(NormalizeTarget(pattern)), SegmentsOf(NormalizeTarget(target)))
  {
    if Covers(SegmentsOf(NormalizeTarget(pattern)), SegmentsOf(NormalizeTarget(target))) {
      forall routes | NoTrailingOptional(routes) && !ShapeAlive(pattern, routes)
        ensures Classify(target, routes) == Dead
      {
        CoveredIsDead(pattern, target, routes);
      }
    } else {
      var route := UncoveredLives(pattern, target);
    }
  }

  // ------------------------------------------------------------ the claim printed with a dead shape

  /**
   A shape reported dead resolves for a run of its template over no inventory exactly when
   the pattern covers the run: a value that spells several segments or none, or cuts the
   rest of the path away, escapes it.
   */
  lemma DeadShapeIff(raw: string, unions: Unions, value: nat -> string)
    requires PiecesFrom(raw, 0, 0).Some? && Expand(raw, unions).Shape?
    ensures DiesWith(Expand(raw, unions).pattern, RunTarget(raw, value)) <==>
              Covers(SegmentsOf(NormalizeTarget(Expand(raw, unions).pattern)),
                     SegmentsOf(NormalizeTarget(RunTarget(raw, value))))
  {
    DiesWithIff(Expand(raw, unions).pattern, RunTarget(raw, value));
  }

  /** In particular clean values, one segment each without `?` and `#`, never escape. */
  lemma DeadShapeNeverResolves(raw: string, unions: Unions, value: nat -> string, routes: seq<string>)
    requires PathLike(raw) && Expand(raw, unions).Shape?
    requires CleanOn(CutPieces(PiecesFrom(raw, 0, 0).value), value)
    requires NoTrailingOptional(routes) && !ShapeAlive(Expand(raw, unions).pattern, routes)
    ensures Classify(RunTarget(raw, value), routes) == Dead
  {
    RunsAreInstances(raw, unions, value);
    CoversIsInstance(SegmentsOf(NormalizeTarget(Expand(raw, unions).pattern)),
                     SegmentsOf(NormalizeTarget(RunTarget(raw, value))));
    CoveredIsDead(Expand(raw, unions).pattern, RunTarget(raw, value), routes);
  }

  // ------------------------------------------------------------ a value that escapes

  const OPEN := "/${x}"

  function TwoSegments(): nat -> string {
    k => "a/b"
  }

  lemma OpenPieces()
    ensures PiecesFrom(OPEN, 0, 0) == Some([Char('/'), Hole(0, "x")])
  {
    assert HoleEnd(OPEN, 4, 1) == Some(5);
    assert HoleEnd(OPEN, 3, 1) == Some(5);
    TrimOne('x');
    assert OPEN[3..4] == "x";
    assert PiecesFrom(OPEN, 5, 1) == Some([]);
    hide PiecesFrom, HoleEnd, Trim;
    HoleAt(OPEN, 1, 0, 5, "x", []);
    var hole: seq<Piece> := [Hole(0, "x")];
    assert [Hole(0, "x")] + [] == hole;
    CharAt(OPEN, 0, 0, hole);
    assert [Char('/')] + hole == [Char('/'), Hole(0, "x")];
  }

  lemma OnePath(p: Piece)
    requires p.Hole?
    ensures PathPieces([Char('/'), p]) == [[p]]
  {
    var pieces := [Char('/'), p];
    assert pieces[1..] == [p] && [p][1..] == [];
    assert CutPieces([p]) == [p];
    assert CutPieces(pieces) == pieces;
    assert StripPieces(pieces) == pieces;
    SplitPiecesCons(p, []);
    assert [p] + [] == [p] && SplitPieces([p]) == [[p]];
    SplitPiecesCons(Char('/'), [p]);
    assert [Char('/')] + [p] == pieces;
  }

  lemma OpenIsPathLike()
    ensures PathLike(OPEN) && PathIn(OPEN) == [[Hole(0, "x")]]
    ensures Exprs([Char('/'), Hole(0, "x")]) == ["x"]
  {
    OpenPieces();
    OnePath(Hole(0, "x"));
    hide PiecesFrom, PathPieces;
    assert NUL !in OPEN;
    assert [Char('/'), Hole(0, "x")][1..] == [Hole(0, "x")];
    assert Exprs([Hole(0, "x")]) == ["x"];
  }

  /** A hole without a declared union leaves a shape. */
  lemma UndeclaredIsShape(raw: string, unions: Unions, i: nat)
    requires PathLike(raw) && i < |PathIn(raw)| && IsHoleSegment(PathIn(raw)[i])
    requires !IsResolved(PathIn(raw)[i][0].expr, unions)
    ensures Expand(raw, unions).Shape?
  {
    hide Truncated, PathOf, IsResolved, MaskAt, PatternOf, Normalized, Distinct, PartAt, Products, ExpandPath;
    hide NormalizeTarget, Render, PathPieces, PiecesFrom, Exprs;
    MaskedPath(raw);
    SegmentReadsBack(raw, i);
    PathPiecesFromRaw(raw);
    UnresolvedIsShape(RenderAll(PathIn(raw), Mask), Exprs(PiecesFrom(raw, 0, 0).value), unions, i);
  }

  lemma UnresolvedIsShape(segments: seq<string>, parts: seq<string>, unions: Unions, i: nat)
    requires i < |segments| && MaskAt(segments[i]).Some?
    requires !IsResolved(PartAt(parts, MaskAt(segments[i]).value), unions)
    ensures ExpandPath(segments, parts, unions).Shape?
  {
    hide MaskAt, PatternOf, IsResolved, PartAt;
  }

  lemma OpenShape()
    ensures Expand(OPEN, map[]).Shape? && Expand(OPEN, map[]).pattern == Spell([WILDCARD])
    ensures NormalizeTarget(Spell([WILDCARD])) == Spell([WILDCARD])
  {
    OpenPieces();
    OpenIsPathLike();
    assert RenderAll([[Hole(0, "x")]], STAR) == [WILDCARD] by {
      assert Render([Hole(0, "x")], STAR) == WILDCARD;
    }
    hide Expand, Spell, PiecesFrom, RenderAll, NormalizeTarget, PathLike;
    UndeclaredIsShape(OPEN, map[], 0);
    PatternIsStarRun(OPEN, map[]);
  }

  lemma OpenRun()
    ensures PiecesFrom(OPEN, 0, 0).Some? && RunTarget(OPEN, TwoSegments()) == Spell(["a", "b"])
  {
    OpenPieces();
    assert [Char('/'), Hole(0, "x")][1..] == [Hole(0, "x")];
    assert Render([Hole(0, "x")], TwoSegments()) == "a/b";
    assert ["a", "b"][1..] == ["b"];
    assert Spell(["a", "b"]) == "/" + "a" + ("/" + "b");
  }

  lemma SegmentsOfRun()
    ensures NormalizeTarget(Spell(["a", "b"])) == Spell(["a", "b"])
    ensures SegmentsOf(Spell(["a", "b"])) == ["a", "b"] && TemplateSegments(Spell(["a", "b"])) == ["a", "b"]
  {
    var spelled := Spell(["a", "b"]);
    assert ["a", "b"][1..] == ["b"];
    assert spelled == "/a/b";
    BeforeNothing(spelled, '#');
    BeforeNothing(spelled, '?');
    var texts := ["a", "b"];
    assert forall t | t in texts :: '/' !in t;
    SegmentsOfSpell(texts);
    AllKept(texts, (s: string) => |s| > 0);
    AllKept(texts, (s: string) => !IsRouteGroup(s));
  }

  lemma SegmentsOfOpenPattern()
    ensures SegmentsOf(Spell([WILDCARD])) == [WILDCARD]
  {
    var texts := [WILDCARD];
    assert forall t | t in texts :: '/' !in t;
    SegmentsOfSpell(texts);
    AllKept(texts, (s: string) => |s| > 0);
  }

  lemma ExactRoute(target: string, route: string, segments: seq<string>)
    requires SegmentsOf(NormalizeTarget(target)) == segments && TemplateSegments(route) == segments
    requires forall i | 0 <= i < |segments| :: IsLiteral(segments[i])
    ensures Classify(target, [route]) == Exact
  {
    var cuts := SingleTiles(segments, segments);
    assert route in [route];
    ClassifyMeaning(target, [route]);
  }

  /** The shape is reported dead, and the template runs to an exact route: the value spells two segments. */
  lemma SlashEscapes()
    ensures PiecesFrom(OPEN, 0, 0).Some? && Expand(OPEN, map[]).Shape? && NoTrailingOptional([Spell(["a", "b"])])
    ensures !ShapeAlive(Expand(OPEN, map[]).pattern, [Spell(["a", "b"])])
    ensures Classify(RunTarget(OPEN, TwoSegments()), [Spell(["a", "b"])]) == Exact
  {
    OpenShape();
    OpenRun();
    SegmentsOfRun();
    SegmentsOfOpenPattern();
    hide Expand, Spell, PiecesFrom, RunTarget, SegmentsOf, TemplateSegments, NormalizeTarget, Classify;
    LettersAreLiteral();
    ExactRoute(RunTarget(OPEN, TwoSegments()), Spell(["a", "b"]), ["a", "b"]);
    if MatchShape(["a", "b"], [WILDCARD]) { SingleShape(["a", "b"], [WILDCARD]); }
  }

  lemma LettersAreLiteral()
    ensures IsLiteral("a") && IsLiteral("b")
  {
  }
}
