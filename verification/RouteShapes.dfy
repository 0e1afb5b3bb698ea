/**
 The kinds of route segments as they are written: words, `[name]`, `[...name]`,
 `[[...name]]` and `(group)`, and what each makes of a target.
 */
module RouteShapes {
  import opened Text
  import opened RouteMatcher

  /** An ordinary name between brackets: it does not itself open with dots or a bracket. */
  predicate IsName(name: string) {
    name != [] && name[0] != '.' && name[0] != '['
  }

  /** No bracket in front: the segment stands for itself. */
  predicate IsWord(segment: string) {
    segment == [] || segment[0] != '['
  }

  predicate AreWords(segments: seq<string>) {
    forall k | 0 <= k < |segments| :: IsWord(segments[k])
  }

  lemma WordKind(segment: string)
    requires IsWord(segment)
    ensures !IsParam(segment) && !IsAnyCatchAll(segment)
  {
    OtherStart(segment, "[", 0);
    OtherStart(segment, "[...", 0);
    OtherStart(segment, "[[...", 0);
  }

  lemma ParamKind(name: string)
    requires IsName(name)
    ensures IsParam("[" + name + "]") && !IsAnyCatchAll("[" + name + "]")
  {
    var segment := "[" + name + "]";
    assert segment[1] == name[0] && segment[0] == '[' && segment[|segment| - 1] == ']';
    OtherStart(segment, "[...", 1);
    OtherStart(segment, "[[...", 1);
    assert segment[..1] == "[" && segment[|segment| - 1..] == "]";
  }

  lemma CatchAllKind(name: string)
    ensures IsCatchAll("[..." + name + "]") && !IsParam("[..." + name + "]")
    ensures !IsOptionalCatchAll("[..." + name + "]")
  {
    var segment := "[..." + name + "]";
    assert segment[..4] == "[..." && segment[|segment| - 1..] == "]";
    OtherStart(segment, "[[...", 1);
  }

  lemma OptionalKind(name: string)
    ensures IsOptionalCatchAll("[[..." + name + "]]") && !IsParam("[[..." + name + "]]")
  {
    var segment := "[[..." + name + "]]";
    assert segment[..5] == "[[..." && segment[|segment| - 2..] == "]]";
  }

  /** `name` between `open` and `close`. */
  ghost predicate Bracketed(segment: string, open: string, close: string) {
    exists name :: segment == open + name + close
  }

  lemma BracketedIff(segment: string, open: string, close: string)
    ensures Bracketed(segment, open, close)
       <==> StartsWith(segment, open) && EndsWith(segment, close) && |segment| >= |open| + |close|
  {
    if StartsWith(segment, open) && EndsWith(segment, close) && |segment| >= |open| + |close| {
      assert segment == open + segment[|open|..|segment| - |close|] + close;
    }
    if name :| segment == open + name + close {
      assert segment[..|open|] == open && segment[|segment| - |close|..] == close;
    }
  }

  lemma NoOverlap(segment: string, open: string, close: string)
    requires StartsWith(segment, open) && EndsWith(segment, close) && ']' !in open && open != [] && close != []
    requires forall k | 0 <= k < |close| :: close[k] == ']'
    ensures |segment| >= |open| + |close|
  {
    var at := |segment| - |close|;
    assert forall k | at <= k < |segment| :: segment[k] == segment[at..][k - at];
    assert segment[|open| - 1] == segment[..|open|][|open| - 1] == open[|open| - 1];
    assert open[|open| - 1] in open;
  }

  /** The three kinds of segments that stand for something else, as they are written. */
  lemma KindsAsWritten(segment: string)
    ensures IsOptionalCatchAll(segment) <==> Bracketed(segment, "[[...", "]]")
    ensures IsCatchAll(segment) <==> Bracketed(segment, "[...", "]") && !Bracketed(segment, "[[...", "]]")
    ensures IsParam(segment) <==>
              Bracketed(segment, "[", "]") && !Bracketed(segment, "[...", "]") && !Bracketed(segment, "[[...", "]]")
  {
    BracketedIff(segment, "[[...", "]]");
    BracketedIff(segment, "[...", "]");
    BracketedIff(segment, "[", "]");
    if StartsWith(segment, "[[...") && EndsWith(segment, "]]") { NoOverlap(segment, "[[...", "]]"); }
    if StartsWith(segment, "[...") && EndsWith(segment, "]") { NoOverlap(segment, "[...", "]"); }
    if StartsWith(segment, "[") && EndsWith(segment, "]") { NoOverlap(segment, "[", "]"); }
  }

  // ------------------------------------------------------------ templates of words

  /** A template of words matches itself and nothing else. */
  lemma {:induction false} WordsMatch(words: seq<string>, tgt: seq<string>, capture: bool, catchAll: bool)
    requires AreWords(words)
    ensures Walk(words, tgt, capture, catchAll) == if tgt == words then Some(Match(capture, catchAll)) else None
  {
    if words != [] {
      WordKind(words[0]);
      if tgt != [] && tgt[0] == words[0] {
        WordsMatch(words[1..], tgt[1..], capture, catchAll);
        assert words == [words[0]] + words[1..] && tgt == [tgt[0]] + tgt[1..];
      }
    }
  }

  /** Words in front of anything: they are matched off the front of the target. */
  lemma {:induction false} WordsFirst(words: seq<string>, rest: seq<string>, tgt: seq<string>, capture: bool,
                                      catchAll: bool)
    requires AreWords(words)
    ensures Walk(words + rest, tgt, capture, catchAll)
         == if words <= tgt then Walk(rest, tgt[|words|..], capture, catchAll) else None
  {
    if words == [] {
      assert words + rest == rest && tgt[0..] == tgt;
    } else {
      WordKind(words[0]);
      assert (words + rest)[1..] == words[1..] + rest && (words + rest)[0] == words[0];
      if tgt != [] && tgt[0] == words[0] {
        WordsFirst(words[1..], rest, tgt[1..], capture, catchAll);
        assert words <= tgt <==> words[1..] <= tgt[1..] by {
          assert words == [words[0]] + words[1..] && tgt == [tgt[0]] + tgt[1..];
        }
        if words <= tgt { assert tgt[1..][|words| - 1..] == tgt[|words|..]; }
      }
    }
  }

  lemma TakesAll(segment: string, tgt: seq<string>, capture: bool)
    requires IsAnyCatchAll(segment) && |tgt| >= Minimum(segment)
    ensures Take([segment], tgt, |tgt|, capture) == Some(Match(capture, true))
  {
    assert [segment][1..] == [] && tgt[|tgt|..] == [];
  }

  /**
   A bracket behind words, as it is written: `[name]` takes exactly one segment and
   captures, `[...name]` takes one or more, `[[...name]]` any number, none included.
   */
  lemma BracketBehindWords(words: seq<string>, name: string, tgt: seq<string>)
    requires AreWords(words)
    ensures IsName(name) ==>
              MatchTemplate(words + ["[" + name + "]"], tgt)
              == if words <= tgt && |tgt| == |words| + 1 then Some(Match(true, false)) else None
    ensures MatchTemplate(words + ["[..." + name + "]"], tgt)
         == if words <= tgt && |tgt| > |words| then Some(Match(false, true)) else None
    ensures MatchTemplate(words + ["[[..." + name + "]]"], tgt)
         == if words <= tgt then Some(Match(false, true)) else None
  {
    WordsFirst(words, ["[" + name + "]"], tgt, false, false);
    WordsFirst(words, ["[..." + name + "]"], tgt, false, false);
    WordsFirst(words, ["[[..." + name + "]]"], tgt, false, false);
    if words <= tgt {
      var rest := tgt[|words|..];
      if IsName(name) { OneParam(name, rest); }
      OneCatchAll(name, rest);
      OptionalKind(name);
      TakesAll("[[..." + name + "]]", rest, false);
    }
  }

  lemma OneParam(name: string, tgt: seq<string>)
    requires IsName(name)
    ensures Walk(["[" + name + "]"], tgt, false, false) == if |tgt| == 1 then Some(Match(true, false)) else None
  {
    ParamKind(name);
    assert ["[" + name + "]"][1..] == [];
    if |tgt| == 1 { assert tgt[1..] == []; }
  }

  lemma OneCatchAll(name: string, tgt: seq<string>)
    ensures Walk(["[..." + name + "]"], tgt, false, false) == if |tgt| > 0 then Some(Match(false, true)) else None
  {
    CatchAllKind(name);
    if |tgt| > 0 { TakesAll("[..." + name + "]", tgt, false); }
  }

  // ------------------------------------------------------------ route groups

  /** Written in parentheses. */
  predicate InParens(segment: string) {
    |segment| >= 2 && segment[0] == '(' && segment[|segment| - 1] == ')'
  }

  lemma GroupKind(segment: string)
    ensures IsRouteGroup(segment) <==> InParens(segment)
  {
    if segment != [] { assert segment[..1] == [segment[0]] && segment[|segment| - 1..] == [segment[|segment| - 1]]; }
  }

  /** A segment in parentheses makes no difference to what a route answers, wherever it stands. */
  lemma GroupIsInvisible(route: string, other: string, before: seq<string>, name: string, behind: seq<string>,
                         tgt: seq<string>)
    requires SegmentsOf(route) == before + ["(" + name + ")"] + behind && SegmentsOf(other) == before + behind
    ensures VerdictOf(route, tgt) == VerdictOf(other, tgt)
  {
    var group := "(" + name + ")";
    var keep := (s: string) => !IsRouteGroup(s);
    GroupKind(group);
    FilterConcat(before + [group], behind, keep);
    FilterConcat(before, [group], keep);
    FilterConcat(before, behind, keep);
    assert Filter([group], keep) == [] by { FilterEmptyIff([group], keep); }
    assert Filter(before, keep) + [] == Filter(before, keep);
  }

  /** Every other segment is part of the template. */
  lemma NoGroupsNoChange(route: string)
    requires forall k | 0 <= k < |SegmentsOf(route)| :: !InParens(SegmentsOf(route)[k])
    ensures TemplateSegments(route) == SegmentsOf(route)
  {
    var all := SegmentsOf(route);
    forall k | 0 <= k < |all|
      ensures !IsRouteGroup(all[k])
    {
      GroupKind(all[k]);
    }
    FilterKeepsAll(all, (s: string) => !IsRouteGroup(s));
  }
}
