/**
 Shapes: targets in which some segments are unknown and written `*`. What a shape
 match proves about the concrete targets behind it, and where it falls short.
 */
module ShapeMatcher {
  import opened RouteMatcher

  const WILDCARD := "*"

  function MatchShape(tpl: seq<string>, shape: seq<string>): bool
    decreases |tpl|, 0
  {
    if shape == [] then tpl == []
    else if tpl == [] then false
    else if IsAnyCatchAll(tpl[0]) then TakeShape(tpl, shape, |shape|)
    else if IsParam(tpl[0]) then MatchShape(tpl[1..], shape[1..])
    else if shape[0] == WILDCARD then MatchShape(tpl[1..], shape[1..])
    else shape[0] == tpl[0] && MatchShape(tpl[1..], shape[1..])
  }

  function TakeShape(tpl: seq<string>, shape: seq<string>, take: int): bool
    requires tpl != [] && take <= |shape|
    decreases |tpl| - 1, 1, take
  {
    take >= Minimum(tpl[0]) &&
    (MatchShape(tpl[1..], shape[take..]) || TakeShape(tpl, shape, take - 1))
  }

  predicate AllSegments(segments: seq<string>) {
    forall i | 0 <= i < |segments| :: IsSegment(segments[i])
  }

  /** `inst` is the shape with every `*` replaced by some segment. */
  ghost predicate IsInstance(shape: seq<string>, inst: seq<string>) {
    && |inst| == |shape|
    && AllSegments(inst)
    && forall i | 0 <= i < |shape| :: shape[i] != WILDCARD ==> inst[i] == shape[i]
  }

  /** A tiling in which the last template segment stands for at least one target segment. */
  ghost predicate TilesToTheEnd(tpl: seq<string>, tgt: seq<string>, cuts: seq<nat>) {
    Tiles(tpl, tgt, cuts) && (tpl != [] ==> cuts[|tpl| - 1] < |tgt|)
  }

  lemma InstanceConcat(a: seq<string>, b: seq<string>, ia: seq<string>, ib: seq<string>)
    requires IsInstance(a, ia) && IsInstance(b, ib)
    ensures IsInstance(a + b, ia + ib)
  {
  }

  lemma TilesToTheEndCons(tpl: seq<string>, tgt: seq<string>, take: nat, rest: seq<nat>) returns (cuts: seq<nat>)
    requires tpl != [] && take <= |tgt| && Admits(tpl[0], tgt[..take])
    requires TilesToTheEnd(tpl[1..], tgt[take..], rest)
    requires |tpl| == 1 ==> take > 0
    ensures TilesToTheEnd(tpl, tgt, cuts)
  {
    cuts := TilesCons(tpl, tgt, take, rest);
  }

  /** A shape match yields a concrete target and a tiling of it that reaches the end. */
  lemma {:induction false} ShapeSound(tpl: seq<string>, shape: seq<string>) returns (inst: seq<string>, cuts: seq<nat>)
    requires AllSegments(tpl) && AllSegments(shape) && MatchShape(tpl, shape)
    ensures IsInstance(shape, inst) && TilesToTheEnd(tpl, inst, cuts)
    decreases |tpl|, 0
  {
    if shape == [] {
      inst, cuts := [], [0];
    } else if IsAnyCatchAll(tpl[0]) {
      inst, cuts := TakeShapeSound(tpl, shape, |shape|);
    } else {
      var tail, rest := ShapeSound(tpl[1..], shape[1..]);
      var head := if IsParam(tpl[0]) then shape[0] else tpl[0];
      inst := [head] + tail;
      assert shape == [shape[0]] + shape[1..] && inst[1..] == tail && inst[..1] == [head];
      cuts := TilesToTheEndCons(tpl, inst, 1, rest);
    }
  }

  lemma {:induction false} TakeShapeSound(tpl: seq<string>, shape: seq<string>, take: int)
    returns (inst: seq<string>, cuts: seq<nat>)
    requires tpl != [] && IsAnyCatchAll(tpl[0]) && shape != [] && take <= |shape|
    requires AllSegments(tpl) && AllSegments(shape) && TakeShape(tpl, shape, take)
    ensures IsInstance(shape, inst) && TilesToTheEnd(tpl, inst, cuts)
    decreases |tpl| - 1, 1, take
  {
    if MatchShape(tpl[1..], shape[take..]) {
      var tail, rest := ShapeSound(tpl[1..], shape[take..]);
      inst := shape[..take] + tail;
      InstanceConcat(shape[..take], shape[take..], shape[..take], tail);
      assert shape == shape[..take] + shape[take..] && inst[take..] == tail && inst[..take] == shape[..take];
      cuts := TilesToTheEndCons(tpl, inst, take, rest);
    } else {
      inst, cuts := TakeShapeSound(tpl, shape, take - 1);
    }
  }

  lemma {:induction false} ShapeComplete(tpl: seq<string>, shape: seq<string>, inst: seq<string>, cuts: seq<nat>)
    requires IsInstance(shape, inst) && TilesToTheEnd(tpl, inst, cuts)
    ensures MatchShape(tpl, shape)
    decreases |tpl|
  {
    if tpl != [] {
      var rest := TilesTail(tpl, inst, cuts);
      var take := cuts[1];
      assert |tpl| > 1 ==> rest[|tpl| - 2] + take == cuts[|tpl| - 2 + 1];
      assert IsInstance(shape[take..], inst[take..]);
      ShapeComplete(tpl[1..], shape[take..], inst[take..], rest);
      if IsAnyCatchAll(tpl[0]) {
        TakeShapeReaches(tpl, shape, |shape|, take);
      } else {
        assert take == 1 && inst[..1] == [inst[0]];
      }
    }
  }

  lemma {:induction false} TakeShapeReaches(tpl: seq<string>, shape: seq<string>, take: nat, goal: nat)
    requires tpl != [] && Minimum(tpl[0]) <= goal <= take <= |shape|
    requires MatchShape(tpl[1..], shape[goal..])
    ensures TakeShape(tpl, shape, take)
    decreases take
  {
    if take > goal { TakeShapeReaches(tpl, shape, take - 1, goal); }
  }

  /**
   What a shape match claims, for every template: some replacement of each `*`
   by a segment tiles the template, with a last piece that is not empty.
   */
  lemma MatchShapeMeaning(tpl: seq<string>, shape: seq<string>)
    requires AllSegments(tpl) && AllSegments(shape)
    ensures MatchShape(tpl, shape) <==>
              exists inst, cuts :: IsInstance(shape, inst) && TilesToTheEnd(tpl, inst, cuts)
  {
    if MatchShape(tpl, shape) {
      var inst, cuts := ShapeSound(tpl, shape);
    }
    if inst, cuts :| IsInstance(shape, inst) && TilesToTheEnd(tpl, inst, cuts) {
      ShapeComplete(tpl, shape, inst, cuts);
    }
  }

  /** Some concrete target of this shape is matched by the template. */
  ghost predicate SomeInstanceMatches(tpl: seq<string>, shape: seq<string>) {
    exists inst :: IsInstance(shape, inst) && MatchTemplate(tpl, inst).Some?
  }

  ghost predicate EndsInOptionalCatchAll(tpl: seq<string>) {
    tpl != [] && IsOptionalCatchAll(tpl[|tpl| - 1])
  }

  /** Without a trailing `[[...x]]` a shape matches exactly when one of its instances does. */
  lemma ShapeExact(tpl: seq<string>, shape: seq<string>)
    requires AllSegments(tpl) && AllSegments(shape) && !EndsInOptionalCatchAll(tpl)
    ensures MatchShape(tpl, shape) <==> SomeInstanceMatches(tpl, shape)
  {
    MatchShapeMeaning(tpl, shape);
    if inst, cuts :| IsInstance(shape, inst) && TilesToTheEnd(tpl, inst, cuts) {
      MatchTemplateIffTiles(tpl, inst);
    }
    if inst :| IsInstance(shape, inst) && MatchTemplate(tpl, inst).Some? {
      MatchTemplateIffTiles(tpl, inst);
      var cuts :| Tiles(tpl, inst, cuts);
      if tpl != [] { assert IsPiece(tpl, inst, cuts, |tpl| - 1); }
      assert TilesToTheEnd(tpl, inst, cuts);
    }
  }

  /** The shortest target a template matches: optional catch-alls take nothing. */
  function Shortest(tpl: seq<string>): (tgt: seq<string>) {
    if tpl == [] then []
    else
      (if IsOptionalCatchAll(tpl[0]) then []
       else if IsCatchAll(tpl[0]) || IsParam(tpl[0]) then ["x"]
       else [tpl[0]]) + Shortest(tpl[1..])
  }

  lemma {:induction false} ShortestMatches(tpl: seq<string>) returns (cuts: seq<nat>)
    requires AllSegments(tpl)
    ensures AllSegments(Shortest(tpl)) && Tiles(tpl, Shortest(tpl), cuts)
  {
    if tpl == [] {
      cuts := [0];
    } else {
      var rest := ShortestMatches(tpl[1..]);
      var take := if IsOptionalCatchAll(tpl[0]) then 0 else 1;
      assert Shortest(tpl)[take..] == Shortest(tpl[1..]);
      cuts := TilesCons(tpl, Shortest(tpl), take, rest);
    }
  }

  lemma {:induction false} ShortestIsShortest(tpl: seq<string>, tgt: seq<string>, cuts: seq<nat>)
    requires Tiles(tpl, tgt, cuts)
    ensures |Shortest(tpl)| <= |tgt|
    ensures TilesToTheEnd(tpl, tgt, cuts) && EndsInOptionalCatchAll(tpl) ==> |Shortest(tpl)| < |tgt|
    decreases |tpl|
  {
    if tpl != [] {
      var rest := TilesTail(tpl, tgt, cuts);
      assert |tpl| > 1 ==> rest[|tpl| - 2] + cuts[1] == cuts[|tpl| - 2 + 1];
      ShortestIsShortest(tpl[1..], tgt[cuts[1]..], rest);
    }
  }

  /**
   Exactly which templates make the shape check exact. Shape matching agrees
   with the concrete matcher on every shape if and only if the template does not
   end in an optional catch-all; for one that does, its shortest target is
   matched concretely and reported dead as a shape.
   */
  lemma ShapeExactIff(tpl: seq<string>)
    requires AllSegments(tpl)
    ensures (forall shape | AllSegments(shape) :: MatchShape(tpl, shape) <==> SomeInstanceMatches(tpl, shape))
        <==> !EndsInOptionalCatchAll(tpl)
  {
    if EndsInOptionalCatchAll(tpl) {
      var shape := Shortest(tpl);
      var cuts := ShortestMatches(tpl);
      MatchTemplateIffTiles(tpl, shape);
      assert IsInstance(shape, shape) && SomeInstanceMatches(tpl, shape);
      MatchShapeMeaning(tpl, shape);
      forall inst, cuts | IsInstance(shape, inst) && TilesToTheEnd(tpl, inst, cuts)
        ensures false
      {
        ShortestIsShortest(tpl, inst, cuts);
      }
      assert AllSegments(shape) && !MatchShape(tpl, shape);
    } else {
      forall shape | AllSegments(shape)
        ensures MatchShape(tpl, shape) <==> SomeInstanceMatches(tpl, shape)
      {
        ShapeExact(tpl, shape);
      }
    }
  }

  /** The loop over the inventory: alive as soon as one route has this shape. */
  method ClassifyPattern(pattern: string, routes: seq<string>) returns (alive: bool)
    ensures alive <==> ShapeAlive(pattern, routes)
  {
    var shape := SegmentsOf(NormalizeTarget(pattern));
    for k := 0 to |routes|
      invariant forall r | r in routes[..k] :: !MatchShape(TemplateSegments(r), shape)
    {
      if MatchShape(TemplateSegments(routes[k]), shape) {
        return true;
      }
    }
    return false;
  }

  predicate ShapeAlive(pattern: string, routes: seq<string>) {
    exists r | r in routes :: MatchShape(TemplateSegments(r), SegmentsOf(NormalizeTarget(pattern)))
  }

  /**
   The claim printed with a dead shape: no value of its variables resolves. True
   of every inventory whose routes do not end in an optional catch-all.
   */
  lemma DeadShapeResolvesForNoValue(pattern: string, routes: seq<string>)
    requires forall r | r in routes :: !EndsInOptionalCatchAll(TemplateSegments(r))
    ensures ShapeAlive(pattern, routes) <==>
              exists inst, r | r in routes ::
                IsInstance(SegmentsOf(NormalizeTarget(pattern)), inst) && Matches(r, inst)
  {
    var shape := SegmentsOf(NormalizeTarget(pattern));
    assert AllSegments(shape);
    forall r | r in routes
      ensures MatchShape(TemplateSegments(r), shape) <==>
                exists inst :: IsInstance(shape, inst) && Matches(r, inst)
    {
      var tpl := TemplateSegments(r);
      assert AllSegments(tpl);
      ShapeExact(tpl, shape);
      forall inst { MatchTemplateIffTiles(tpl, inst); }
    }
  }
}
