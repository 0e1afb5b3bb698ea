/**
 The route matcher of the link-integrity gate: one route template against one
 target, the best match over an inventory, and what each verdict means.
 */
module RouteMatcher {
  import opened Text

  // ---------------------------------------------------------------- segments

  predicate IsSegment(s: string) {
    s != [] && '/' !in s
  }

  function SegmentsOf(path: string): (segments: seq<string>)
    ensures forall s | s in segments :: IsSegment(s)
  {
    var split := Split(path, '/');
    var segments := Filter(split, (s: string) => |s| > 0);
    assert forall s | s in segments :: s in split by {
      forall s | s in segments { FilterMembers(split, (s: string) => |s| > 0, s); }
    }
    segments
  }

  predicate IsRouteGroup(segment: string) {
    StartsWith(segment, "(") && EndsWith(segment, ")")
  }

  /** Route-group segments never appear in a URL. */
  function TemplateSegments(route: string): (segments: seq<string>)
    ensures forall s | s in segments :: IsSegment(s)
  {
    var all := SegmentsOf(route);
    var segments := Filter(all, (s: string) => !IsRouteGroup(s));
    assert forall s | s in segments :: s in all by {
      forall s | s in segments { FilterMembers(all, (s: string) => !IsRouteGroup(s), s); }
    }
    segments
  }

  predicate IsOptionalCatchAll(segment: string) {
    StartsWith(segment, "[[...") && EndsWith(segment, "]]")
  }

  predicate IsCatchAll(segment: string) {
    !IsOptionalCatchAll(segment) && StartsWith(segment, "[...") && EndsWith(segment, "]")
  }

  predicate IsParam(segment: string) {
    !IsCatchAll(segment) && !IsOptionalCatchAll(segment) &&
    StartsWith(segment, "[") && EndsWith(segment, "]")
  }

  predicate IsAnyCatchAll(segment: string) {
    IsOptionalCatchAll(segment) || IsCatchAll(segment)
  }

  /** Fragment and query cut off, trailing slashes removed, the root preserved. */
  function NormalizeTarget(raw: string): string {
    var value := StripTrailing(Before(Before(raw, '#'), '?'), '/');
    if value == [] then "/" else value
  }

  // ------------------------------------------------------------ one template

  datatype Match = Match(capture: bool, catchAll: bool)

  /** How few target segments a catch-all may take. */
  function Minimum(segment: string): nat {
    if IsOptionalCatchAll(segment) then 0 else 1
  }

  /** The backtracking walk; the remaining template and target are the arguments. */
  function Walk(tpl: seq<string>, tgt: seq<string>, capture: bool, catchAll: bool): Option<Match>
    decreases |tpl|, 0
  {
    if tpl == [] then
      if tgt == [] then Some(Match(capture, catchAll)) else None
    else if IsAnyCatchAll(tpl[0]) then
      Take(tpl, tgt, |tgt|, capture)
    else if IsParam(tpl[0]) then
      if tgt == [] then None else Walk(tpl[1..], tgt[1..], true, catchAll)
    else
      if tgt == [] || tpl[0] != tgt[0] then None else Walk(tpl[1..], tgt[1..], capture, catchAll)
  }

  /** The catch-all loop: from the longest take down to the minimum, first success wins. */
  function Take(tpl: seq<string>, tgt: seq<string>, take: int, capture: bool): Option<Match>
    requires tpl != [] && take <= |tgt|
    decreases |tpl| - 1, 1, take
  {
    if take < Minimum(tpl[0]) then None
    else
      var matched := Walk(tpl[1..], tgt[take..], capture, true);
      if matched.Some? then matched else Take(tpl, tgt, take - 1, capture)
  }

  function MatchTemplate(tpl: seq<string>, tgt: seq<string>): Option<Match> {
    Walk(tpl, tgt, false, false)
  }

  // --------------------------------------------- what matching means, declaratively

  /** Which consecutive target segments one template segment may stand for. */
  ghost predicate Admits(segment: string, slice: seq<string>) {
    if IsOptionalCatchAll(segment) then true
    else if IsCatchAll(segment) then |slice| >= 1
    else if IsParam(segment) then |slice| == 1
    else slice == [segment]
  }

  /**
   `cuts` are the places where the target is cut: piece `i`, between cut `i` and
   cut `i + 1`, is what template segment `i` stands for.
   */
  ghost predicate Tiles(tpl: seq<string>, tgt: seq<string>, cuts: seq<nat>) {
    && |cuts| == |tpl| + 1
    && cuts[0] == 0 && cuts[|tpl|] == |tgt|
    && forall i | 0 <= i < |tpl| :: IsPiece(tpl, tgt, cuts, i)
  }

  ghost predicate IsPiece(tpl: seq<string>, tgt: seq<string>, cuts: seq<nat>, i: nat)
    requires i < |tpl| && |cuts| == |tpl| + 1
  {
    cuts[i] <= cuts[i + 1] <= |tgt| && Admits(tpl[i], tgt[cuts[i]..cuts[i + 1]])
  }

  ghost predicate HasParam(tpl: seq<string>) {
    exists i | 0 <= i < |tpl| :: IsParam(tpl[i])
  }

  ghost predicate HasCatchAll(tpl: seq<string>) {
    exists i | 0 <= i < |tpl| :: IsAnyCatchAll(tpl[i])
  }

  /** Putting one piece in front of a tiling. */
  lemma TilesCons(tpl: seq<string>, tgt: seq<string>, take: nat, rest: seq<nat>) returns (cuts: seq<nat>)
    requires tpl != [] && take <= |tgt|
    requires Admits(tpl[0], tgt[..take]) && Tiles(tpl[1..], tgt[take..], rest)
    ensures Tiles(tpl, tgt, cuts) && |rest| == |tpl|
    ensures cuts == [0] + seq(|rest|, i requires 0 <= i < |rest| => rest[i] + take)
  {
    cuts := [0] + seq(|rest|, i requires 0 <= i < |rest| => rest[i] + take);
    forall i | 0 <= i < |tpl|
      ensures IsPiece(tpl, tgt, cuts, i)
    {
      if i > 0 {
        assert IsPiece(tpl[1..], tgt[take..], rest, i - 1);
        assert tgt[take..][rest[i - 1]..rest[i]] == tgt[cuts[i]..cuts[i + 1]];
      }
    }
  }

  /** Taking the first piece off a tiling. */
  lemma TilesTail(tpl: seq<string>, tgt: seq<string>, cuts: seq<nat>) returns (rest: seq<nat>)
    requires tpl != [] && Tiles(tpl, tgt, cuts)
    ensures cuts[1] <= |tgt| && Admits(tpl[0], tgt[..cuts[1]])
    ensures Tiles(tpl[1..], tgt[cuts[1]..], rest)
    ensures |rest| == |tpl| && forall i | 0 <= i < |rest| :: rest[i] + cuts[1] == cuts[i + 1]
  {
    var first := cuts[1];
    assert IsPiece(tpl, tgt, cuts, 0);
    assert tgt[0..first] == tgt[..first];
    forall j | 1 <= j <= |tpl| ensures first <= cuts[j] { CutsAscend(tpl, tgt, cuts, 1, j); }
    rest := seq(|tpl|, i requires 0 <= i < |tpl| => cuts[i + 1] - first);
    forall i | 0 <= i < |tpl| - 1
      ensures IsPiece(tpl[1..], tgt[first..], rest, i)
    {
      assert IsPiece(tpl, tgt, cuts, i + 1);
      assert tgt[first..][rest[i]..rest[i + 1]] == tgt[cuts[i + 1]..cuts[i + 2]];
    }
  }

  lemma {:induction false} CutsAscend(tpl: seq<string>, tgt: seq<string>, cuts: seq<nat>, lo: nat, hi: nat)
    requires Tiles(tpl, tgt, cuts) && lo <= hi <= |tpl|
    ensures cuts[lo] <= cuts[hi]
    decreases hi
  {
    if lo < hi {
      CutsAscend(tpl, tgt, cuts, lo, hi - 1);
      assert IsPiece(tpl, tgt, cuts, hi - 1);
    }
  }

  /** Soundness and the flags: a successful walk tiles the target. */
  lemma {:induction false} WalkSound(tpl: seq<string>, tgt: seq<string>, capture: bool, catchAll: bool)
    returns (cuts: seq<nat>)
    requires Walk(tpl, tgt, capture, catchAll).Some?
    ensures Tiles(tpl, tgt, cuts)
    ensures Walk(tpl, tgt, capture, catchAll).value
         == Match(capture || HasParam(tpl), catchAll || HasCatchAll(tpl))
    decreases |tpl|, 0
  {
    if tpl == [] {
      cuts := [0];
    } else {
      FlagsCons(tpl);
      if IsAnyCatchAll(tpl[0]) {
        cuts := TakeSound(tpl, tgt, |tgt|, capture);
      } else if IsParam(tpl[0]) {
        var rest := WalkSound(tpl[1..], tgt[1..], true, catchAll);
        cuts := TilesCons(tpl, tgt, 1, rest);
      } else {
        var rest := WalkSound(tpl[1..], tgt[1..], capture, catchAll);
        cuts := TilesCons(tpl, tgt, 1, rest);
      }
    }
  }

  lemma {:induction false} TakeSound(tpl: seq<string>, tgt: seq<string>, take: int, capture: bool)
    returns (cuts: seq<nat>)
    requires tpl != [] && IsAnyCatchAll(tpl[0]) && take <= |tgt|
    requires Take(tpl, tgt, take, capture).Some?
    ensures Tiles(tpl, tgt, cuts)
    ensures Take(tpl, tgt, take, capture).value == Match(capture || HasParam(tpl), true)
    decreases |tpl| - 1, 1, take
  {
    FlagsCons(tpl);
    if Walk(tpl[1..], tgt[take..], capture, true).Some? {
      var rest := WalkSound(tpl[1..], tgt[take..], capture, true);
      cuts := TilesCons(tpl, tgt, take, rest);
    } else {
      cuts := TakeSound(tpl, tgt, take - 1, capture);
    }
  }

  lemma FlagsCons(tpl: seq<string>)
    requires tpl != []
    ensures HasParam(tpl) <==> IsParam(tpl[0]) || HasParam(tpl[1..])
    ensures HasCatchAll(tpl) <==> IsAnyCatchAll(tpl[0]) || HasCatchAll(tpl[1..])
  {
    assert forall i | 0 <= i < |tpl| - 1 :: tpl[1..][i] == tpl[i + 1];
    assert forall i | 1 <= i < |tpl| :: tpl[i] == tpl[1..][i - 1];
  }

  /** Completeness: whatever order the takes are tried in, a tiling is found. */
  lemma {:induction false} WalkComplete(tpl: seq<string>, tgt: seq<string>, cuts: seq<nat>, capture: bool,
                                        catchAll: bool)
    requires Tiles(tpl, tgt, cuts)
    ensures Walk(tpl, tgt, capture, catchAll).Some?
    decreases |tpl|
  {
    if tpl != [] {
      var rest := TilesTail(tpl, tgt, cuts);
      var take := cuts[1];
      if IsAnyCatchAll(tpl[0]) {
        WalkComplete(tpl[1..], tgt[take..], rest, capture, true);
        TakeReaches(tpl, tgt, |tgt|, take, capture);
      } else {
        assert take == 1;
        WalkComplete(tpl[1..], tgt[1..], rest, capture || IsParam(tpl[0]), catchAll);
      }
    }
  }

  lemma {:induction false} TakeReaches(tpl: seq<string>, tgt: seq<string>, take: nat, goal: nat, capture: bool)
    requires tpl != [] && Minimum(tpl[0]) <= goal <= take <= |tgt|
    requires Walk(tpl[1..], tgt[goal..], capture, true).Some?
    ensures Take(tpl, tgt, take, capture).Some?
    decreases take
  {
    if take > goal { TakeReaches(tpl, tgt, take - 1, goal, capture); }
  }

  /**
   The matcher is correct: it succeeds exactly when the target splits into
   consecutive slices, one per template segment, each of an allowed length, and
   its two flags depend on the template alone.
   */
  lemma MatchTemplateIffTiles(tpl: seq<string>, tgt: seq<string>)
    ensures MatchTemplate(tpl, tgt).Some? <==> exists cuts :: Tiles(tpl, tgt, cuts)
    ensures MatchTemplate(tpl, tgt).Some? ==>
              MatchTemplate(tpl, tgt).value == Match(HasParam(tpl), HasCatchAll(tpl))
  {
    if MatchTemplate(tpl, tgt).Some? {
      var cuts := WalkSound(tpl, tgt, false, false);
    }
    if cuts :| Tiles(tpl, tgt, cuts) {
      WalkComplete(tpl, tgt, cuts, false, false);
    }
  }

  // ------------------------------------------------------------ the inventory

  datatype Verdict = Dead | DynamicCapture | CatchAll | Exact

  function Rank(verdict: Verdict): nat {
    match verdict
    case Dead => 0
    case DynamicCapture => 1
    case CatchAll => 2
    case Exact => 3
  }

  /** What one route says about the target; `Dead` when it does not match. */
  function VerdictOf(route: string, tgt: seq<string>): Verdict {
    match MatchTemplate(TemplateSegments(route), tgt)
    case None => Dead
    case Some(m) => if m.capture then DynamicCapture else if m.catchAll then CatchAll else Exact
  }

  /** What every route of the inventory says. */
  function Verdicts(routes: seq<string>, tgt: seq<string>): (all: seq<Verdict>)
    ensures |all| == |routes| && forall k | 0 <= k < |routes| :: all[k] == VerdictOf(routes[k], tgt)
  {
    seq(|routes|, k requires 0 <= k < |routes| => VerdictOf(routes[k], tgt))
  }

  /** The highest-ranked verdict, `Dead` when there is none. */
  function BestOf(all: seq<Verdict>): (best: Verdict)
    ensures forall v | v in all :: Rank(v) <= Rank(best)
    ensures best != Dead ==> best in all
  {
    if all == [] then Dead
    else
      var rest := BestOf(all[1..]);
      if Rank(all[0]) >= Rank(rest) then all[0] else rest
  }

  function Classify(target: string, routes: seq<string>): Verdict {
    BestOf(Verdicts(routes, SegmentsOf(NormalizeTarget(target))))
  }

  lemma BestIsUnique(best: Verdict, all: seq<Verdict>)
    requires (forall v | v in all :: Rank(v) <= Rank(best)) && (best != Dead ==> best in all)
    ensures best == BestOf(all)
  {
    assert Rank(best) == Rank(BestOf(all));
  }

  /**
   The resolver with its early exit on the first exact match. It returns the
   best verdict, and the first route that has it.
   */
  method ResolveTarget(target: string, routes: seq<string>)
    returns (verdict: Verdict, template: Option<string>)
    ensures verdict == Classify(target, routes)
    ensures template.None? <==> verdict == Dead
    ensures template.Some? ==>
              var all := Verdicts(routes, SegmentsOf(NormalizeTarget(target)));
              exists k | 0 <= k < |routes| ::
                all[k] == verdict && routes[k] == template.value && verdict !in all[..k]
  {
    hide SegmentsOf, NormalizeTarget, TemplateSegments, MatchTemplate, Verdicts, BestOf;
    var tgt := SegmentsOf(NormalizeTarget(target));
    ghost var all := Verdicts(routes, tgt);
    verdict, template := Dead, None;
    ghost var at := 0;
    var k := 0;
    while k < |routes|
      invariant 0 <= k <= |routes|
      invariant verdict != Exact
      invariant forall v | v in all[..k] :: Rank(v) <= Rank(verdict)
      invariant template.None? <==> verdict == Dead
      invariant template.Some? ==>
                  0 <= at < k && all[at] == verdict && routes[at] == template.value && verdict !in all[..at]
    {
      var matched := MatchTemplate(TemplateSegments(routes[k]), tgt);
      assert all[..k + 1] == all[..k] + [all[k]];
      if matched.Some? {
        var here := Exact;
        if matched.value.capture {
          here := DynamicCapture;
        } else if matched.value.catchAll {
          here := CatchAll;
        }
        assert here == all[k];
        if template.None? || Rank(here) > Rank(verdict) {
          verdict, template, at := here, Some(routes[k]), k;
        }
        if here == Exact {
          break;
        }
      }
      k := k + 1;
    }
    assert all[..|routes|] == all;
    BestIsUnique(verdict, all);
  }

  /** The verdict depends on which routes exist, not on their order or repetition. */
  lemma ClassifyOrderIrrelevant(target: string, routes: seq<string>, other: seq<string>)
    requires forall r :: r in routes <==> r in other
    ensures Classify(target, routes) == Classify(target, other)
  {
    ClassifyMonotone(target, routes, other);
    ClassifyMonotone(target, other, routes);
  }

  /** Emitting more routes never lowers a verdict. */
  lemma ClassifyMonotone(target: string, routes: seq<string>, more: seq<string>)
    requires forall r | r in routes :: r in more
    ensures Rank(Classify(target, routes)) <= Rank(Classify(target, more))
  {
    var tgt := SegmentsOf(NormalizeTarget(target));
    var all, wide := Verdicts(routes, tgt), Verdicts(more, tgt);
    var v := BestOf(all);
    if v != Dead {
      var k :| 0 <= k < |all| && all[k] == v;
      assert routes[k] in more;
      var j :| 0 <= j < |more| && more[j] == routes[k];
      assert wide[j] == v;
    }
  }

  ghost predicate Matches(route: string, tgt: seq<string>) {
    exists cuts :: Tiles(TemplateSegments(route), tgt, cuts)
  }

  /** The verdict of one route, said without the matcher. */
  ghost function MeaningOf(route: string, tgt: seq<string>): Verdict {
    if !Matches(route, tgt) then Dead
    else if HasParam(TemplateSegments(route)) then DynamicCapture
    else if HasCatchAll(TemplateSegments(route)) then CatchAll
    else Exact
  }

  lemma VerdictMeaning(route: string, tgt: seq<string>)
    ensures VerdictOf(route, tgt) == MeaningOf(route, tgt)
  {
    MatchTemplateIffTiles(TemplateSegments(route), tgt);
  }

  lemma ClassifyIsBestMeaning(target: string, routes: seq<string>)
    ensures var tgt := SegmentsOf(NormalizeTarget(target));
            var verdict := Classify(target, routes);
            && (forall r | r in routes :: Rank(MeaningOf(r, tgt)) <= Rank(verdict))
            && (verdict != Dead ==> exists r | r in routes :: MeaningOf(r, tgt) == verdict)
  {
    var tgt := SegmentsOf(NormalizeTarget(target));
    var all := Verdicts(routes, tgt);
    forall r | r in routes
      ensures Rank(MeaningOf(r, tgt)) <= Rank(BestOf(all))
    {
      var k :| 0 <= k < |routes| && routes[k] == r;
      VerdictMeaning(r, tgt);
      assert all[k] in all;
    }
    if BestOf(all) != Dead {
      var k :| 0 <= k < |all| && all[k] == BestOf(all);
      VerdictMeaning(routes[k], tgt);
      assert routes[k] in routes;
    }
  }

  /**
   What each verdict says about the inventory. In particular a target is a
   dynamic capture exactly when some route matches and every matching route has
   a `[param]`.
   */
  lemma ClassifyMeaning(target: string, routes: seq<string>)
    ensures var tgt := SegmentsOf(NormalizeTarget(target));
            var verdict := Classify(target, routes);
            && (verdict == Dead <==> forall r | r in routes :: !Matches(r, tgt))
            && (verdict == DynamicCapture <==>
                  && (exists r | r in routes :: Matches(r, tgt))
                  && (forall r | r in routes && Matches(r, tgt) :: HasParam(TemplateSegments(r))))
            && (verdict == Exact <==> exists r | r in routes ::
                  Matches(r, tgt) && !HasParam(TemplateSegments(r)) && !HasCatchAll(TemplateSegments(r)))
  {
    hide SegmentsOf, NormalizeTarget, TemplateSegments, Classify, Matches, HasParam, HasCatchAll;
    var tgt := SegmentsOf(NormalizeTarget(target));
    var verdict := Classify(target, routes);
    ClassifyIsBestMeaning(target, routes);
    forall r | r in routes
      ensures Rank(MeaningOf(r, tgt)) <= Rank(verdict)
      ensures MeaningOf(r, tgt) == Dead <==> !Matches(r, tgt)
    {
    }
    if verdict != Dead {
      var best :| best in routes && MeaningOf(best, tgt) == verdict;
      assert Matches(best, tgt);
    }
  }
}
