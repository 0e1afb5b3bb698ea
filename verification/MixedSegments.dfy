/**
 Templates in which an interpolation joins a segment: the path is cut there, the text in
 front of it is kept, and what is checked is the template up to that place.
 */
module MixedSegments {
  import opened Text
  import opened Lexer
  import opened RouteMatcher
  import opened TemplateExpansion
  import opened ExpansionMeaning
  import opened ExpansionRuns

  // ------------------------------------------------------------ the pieces of a text continued

  lemma {:induction false} QuoteEndKept(text: string, more: string, quote: char, j: nat)
    requires j <= |text| + 1 && QuoteEnd(text, quote, j) < |text|
    ensures QuoteEnd(text + more, quote, j) == QuoteEnd(text, quote, j)
    decreases |text| + 1 - j
  {
    var whole := text + more;
    assert forall m | 0 <= m < |text| :: whole[m] == text[m];
    if j < |text| {
      if text[j] == '\\' {
        QuoteEndKept(text, more, quote, j + 2);
      } else if text[j] != quote && text[j] != '\n' {
        QuoteEndKept(text, more, quote, j + 1);
      }
    }
  }

  /** What closes an interpolation closes it however the text goes on. */
  lemma {:induction false} HoleEndKept(text: string, more: string, j: nat, depth: nat)
    requires j <= |text| + 1 && depth > 0 && HoleEnd(text, j, depth).Some?
    ensures HoleEnd(text + more, j, depth) == HoleEnd(text, j, depth)
    decreases |text| + 1 - j
  {
    var whole := text + more;
    assert whole[j] == text[j];
    if text[j] == '\\' {
      HoleEndKept(text, more, j + 2, depth);
    } else if IsQuote(text[j]) {
      QuoteEndInside(text, more, j, depth);
      HoleEndKept(text, more, SkipQuotedFrom(text, j), depth);
    } else if text[j] == '{' {
      HoleEndKept(text, more, j + 1, depth + 1);
    } else if text[j] != '}' || depth > 1 {
      HoleEndKept(text, more, j + 1, if text[j] == '}' then depth - 1 else depth);
    }
  }

  lemma QuoteEndInside(text: string, more: string, j: nat, depth: nat)
    requires j < |text| && depth > 0 && HoleEnd(text, SkipQuotedFrom(text, j), depth).Some?
    ensures (text + more)[j] == text[j] && SkipQuotedFrom(text + more, j) == SkipQuotedFrom(text, j)
  {
    assert HoleEnd(text, SkipQuotedFrom(text, j), depth).Some? ==> SkipQuotedFrom(text, j) < |text|;
    QuoteEndKept(text, more, text[j], j + 1);
  }

  function Behind(before: seq<Piece>, rest: Option<seq<Piece>>): Option<seq<Piece>> {
    if rest.None? then None else Some(before + rest.value)
  }

  lemma BehindNothing(rest: Option<seq<Piece>>)
    ensures Behind([], rest) == rest
  {
    if rest.Some? { assert [] + rest.value == rest.value; }
  }

  lemma LeadingBehind(piece: Piece, before: seq<Piece>, rest: Option<seq<Piece>>)
    ensures Leading(piece, Behind(before, rest)) == Behind([piece] + before, rest)
  {
    if rest.Some? { assert [piece] + (before + rest.value) == ([piece] + before) + rest.value; }
  }

  /** The pieces of a text stay what they are when the text goes on, and those of the rest follow. */
  lemma {:induction false} PiecesGoOn(text: string, more: string, j: nat, k: nat)
    requires j <= |text| && PiecesFrom(text, j, k).Some? && (more != [] ==> more[0] != '{')
    ensures var before := PiecesFrom(text, j, k).value;
            PiecesFrom(text + more, j, k) == Behind(before, PiecesFrom(text + more, |text|, k + |Exprs(before)|))
    decreases |text| - j
  {
    hide PiecesFrom, HoleEnd, Trim;
    if j == |text| {
      PiecesAtEnd(text, j, k);
      BehindNothing(PiecesFrom(text + more, |text|, k));
    } else {
      NextPiece(text, j, k);
      NextPiece(text + more, j, k);
      var before := PiecesFrom(text, j, k).value;
      OpensAlike(text, more, j);
      if OpensInterpolation(text, j) {
        HoleEndKept(text, more, j + 2, 1);
        var end := HoleEnd(text, j + 2, 1).value;
        SliceKept(text, more, j + 2, end - 1);
        PiecesGoOn(text, more, end, k + 1);
        FirstPiece(before, Hole(k, Trim(text[j + 2..end - 1])), PiecesFrom(text, end, k + 1).value);
        LeadingBehind(before[0], before[1..], PiecesFrom(text + more, |text|, k + |Exprs(before)|));
      } else {
        PiecesGoOn(text, more, j + 1, k);
        FirstPiece(before, Char(text[j]), PiecesFrom(text, j + 1, k).value);
        LeadingBehind(before[0], before[1..], PiecesFrom(text + more, |text|, k + |Exprs(before)|));
      }
    }
  }

  lemma FirstPiece(pieces: seq<Piece>, first: Piece, rest: seq<Piece>)
    requires pieces == [first] + rest
    ensures pieces[0] == first && pieces[1..] == rest && pieces == [pieces[0]] + pieces[1..]
    ensures |Exprs(pieces)| == |Exprs(rest)| + if first.Hole? then 1 else 0
  {
  }

  lemma OpensAlike(text: string, more: string, j: nat)
    requires j < |text| && (more != [] ==> more[0] != '{')
    ensures OpensInterpolation(text + more, j) == OpensInterpolation(text, j) && (text + more)[j] == text[j]
  {
    if j + 1 < |text| {
      assert (text + more)[j + 1] == text[j + 1];
    } else if more != [] {
      assert (text + more)[j + 1] == more[0];
    }
  }

  lemma SliceKept(text: string, more: string, from: nat, to: nat)
    requires from <= to <= |text|
    ensures (text + more)[from..to] == text[from..to]
  {
  }

  // ------------------------------------------------------------ the segments of pieces continued

  lemma {:induction false} SplitConcat(a: seq<Piece>, b: seq<Piece>)
    ensures var p, q := SplitPieces(a), SplitPieces(b);
            SplitPieces(a + b) == p[..|p| - 1] + [p[|p| - 1] + q[0]] + q[1..]
  {
    var p, q := SplitPieces(a), SplitPieces(b);
    if a == [] {
      assert a + b == b && [] + q[0] == q[0];
      assert p[..0] + [q[0]] + q[1..] == q;
    } else {
      assert (a + b)[1..] == a[1..] + b && (a + b)[0] == a[0];
      SplitConcat(a[1..], b);
      var rest := SplitPieces(a[1..]);
      SplitFirst(a[0], rest, q);
    }
  }

  lemma SplitFirst(piece: Piece, rest: seq<seq<Piece>>, q: seq<seq<Piece>>)
    requires rest != [] && q != []
    ensures var joined := rest[..|rest| - 1] + [rest[|rest| - 1] + q[0]] + q[1..];
            var p := if piece == Char('/') then [[]] + rest else [[piece] + rest[0]] + rest[1..];
            (if piece == Char('/') then [[]] + joined else [[piece] + joined[0]] + joined[1..])
            == p[..|p| - 1] + [p[|p| - 1] + q[0]] + q[1..]
  {
    var joined := rest[..|rest| - 1] + [rest[|rest| - 1] + q[0]] + q[1..];
    if piece == Char('/') {
      var p := [[]] + rest;
      assert p[..|p| - 1] == [[]] + rest[..|rest| - 1] && p[|p| - 1] == rest[|rest| - 1];
    } else if |rest| == 1 {
      assert joined == [rest[0] + q[0]] + q[1..];
      assert [piece] + (rest[0] + q[0]) == ([piece] + rest[0]) + q[0];
    } else {
      var p := [[piece] + rest[0]] + rest[1..];
      assert joined[0] == rest[0] && joined[1..] == rest[1..|rest| - 1] + [rest[|rest| - 1] + q[0]] + q[1..];
      assert p[..|p| - 1] == [[piece] + rest[0]] + rest[1..|rest| - 1] && p[|p| - 1] == rest[|rest| - 1];
    }
  }

  lemma {:induction false} CutConcat(a: seq<Piece>, b: seq<Piece>)
    requires CutPieces(a) == a
    ensures CutPieces(a + b) == a + CutPieces(b)
  {
    if a == [] {
      assert a + b == b && [] + CutPieces(b) == CutPieces(b);
    } else {
      assert a[0] != Char('#') && a[0] != Char('?');
      assert CutPieces(a[1..]) == a[1..] by { assert CutPieces(a) == [a[0]] + CutPieces(a[1..]); }
      assert (a + b)[1..] == a[1..] + b;
      CutConcat(a[1..], b);
      assert [a[0]] + (a[1..] + CutPieces(b)) == a + CutPieces(b);
    }
  }

  /** Trailing slashes go up to a piece that is none. */
  lemma {:induction false} StripUpTo(a: seq<Piece>, p: Piece, b: seq<Piece>)
    requires p != Char('/')
    ensures StripPieces(a + [p] + b) == a + [p] + StripPieces(b)
  {
    var all := a + [p] + b;
    if b == [] {
      assert all[|all| - 1] == p;
      assert a + [p] + [] == a + [p];
    } else {
      var n := |b| - 1;
      assert all[|all| - 1] == b[n] && all[..|all| - 1] == a + [p] + b[..n];
      if b[n] == Char('/') { StripUpTo(a, p, b[..n]); }
    }
  }

  lemma {:induction false} SplitStripped(pieces: seq<Piece>) returns (n: nat)
    ensures |SplitPieces(StripPieces(pieces))| + n == |SplitPieces(pieces)|
    ensures SplitPieces(pieces)[..|SplitPieces(pieces)| - n] == SplitPieces(StripPieces(pieces))
    ensures forall i | |SplitPieces(pieces)| - n <= i < |SplitPieces(pieces)| :: SplitPieces(pieces)[i] == []
  {
    n := 0;
    var last := |pieces| - 1;
    if pieces != [] && pieces[last] == Char('/') {
      var front := pieces[..last];
      assert pieces == front + [Char('/')];
      var before := SplitStripped(front);
      n := before + 1;
      SlashAtEnd(front);
    }
  }

  lemma SlashAtEnd(front: seq<Piece>)
    ensures SplitPieces(front + [Char('/')]) == SplitPieces(front) + [[]]
  {
    SplitConcat(front, [Char('/')]);
    assert [Char('/')][1..] == [];
    assert SplitPieces([Char('/')]) == [[], []];
    var p := SplitPieces(front);
    assert p[|p| - 1] + [] == p[|p| - 1];
    assert p[..|p| - 1] + [p[|p| - 1]] == p;
  }

  // ------------------------------------------------------------ templates cut at a mixed segment

  /** No segment is empty. */
  ghost predicate HasText(path: seq<seq<Piece>>) {
    forall i | 0 <= i < |path| :: path[i] != []
  }

  /**
   The text in front of the first interpolation that joins a segment: a path whose own
   interpolations are whole segments, with no query and no fragment.
   */
  ghost predicate IsFront(front: string) {
    && PathLike(front)
    && CutPieces(PiecesFrom(front, 0, 0).value) == PiecesFrom(front, 0, 0).value
  }

  /** The hole joins what stands in front of it, or what stands behind it joins the hole. */
  ghost predicate Joins(before: seq<Piece>, behind: seq<Piece>)
    requires before != []
  {
    var last := before[|before| - 1];
    || (last.Char? && last.c != '/')
    || (last == Char('/') && behind != [] && behind[0] != Char('/') && behind[0] != Char('?') && behind[0] != Char('#'))
  }

  /** `front`, an interpolation that joins a segment, and whatever else. */
  ghost predicate IsMixedAt(front: string, rest: string, hole: Piece, behind: seq<Piece>) {
    && IsFront(front) && OpensInterpolation(rest, 0) && NUL !in rest && hole.Hole?
    && PiecesFrom(front + rest, 0, 0) == Some(PiecesFrom(front, 0, 0).value + [hole] + behind)
    && Joins(PiecesFrom(front, 0, 0).value, behind)
  }

  /** Every closed interpolation behind a front is such a hole, with the front's pieces before it. */
  lemma HoleBehindFront(front: string, rest: string) returns (hole: Piece, behind: seq<Piece>)
    requires IsFront(front) && OpensInterpolation(rest, 0) && PiecesFrom(front + rest, 0, 0).Some?
    ensures hole.Hole? && hole.k == |Exprs(PiecesFrom(front, 0, 0).value)|
    ensures PiecesFrom(front + rest, 0, 0) == Some(PiecesFrom(front, 0, 0).value + [hole] + behind)
  {
    var before := PiecesFrom(front, 0, 0).value;
    var n := |Exprs(before)|;
    FrontParsed(front, before);
    assert rest[0] == '$';
    hide *;
    PiecesGoOn(front, rest, 0, 0);
    BehindSome(before, PiecesFrom(front + rest, |front|, n), PiecesFrom(front + rest, 0, 0));
    hole, behind := HoleFirst(front, rest, n);
    MoreAssoc(before, hole, behind);
  }

  lemma BehindSome(before: seq<Piece>, rest: Option<seq<Piece>>, whole: Option<seq<Piece>>)
    requires whole == Behind(before, rest) && whole.Some?
    ensures rest.Some? && whole == Some(before + rest.value)
  {
  }

  lemma HoleFirst(front: string, rest: string, n: nat) returns (hole: Piece, behind: seq<Piece>)
    requires OpensInterpolation(rest, 0) && PiecesFrom(front + rest, |front|, n).Some?
    ensures hole.Hole? && hole.k == n && PiecesFrom(front + rest, |front|, n).value == [hole] + behind
  {
    var raw := front + rest;
    assert raw[|front|] == rest[0] && raw[|front| + 1] == rest[1];
    hide PiecesFrom, HoleEnd, Trim;
    NextPiece(raw, |front|, n);
    var end := HoleEnd(raw, |front| + 2, 1).value;
    hole := Hole(n, Trim(raw[|front| + 2..end - 1]));
    behind := PiecesFrom(raw, end, n + 1).value;
  }

  lemma FrontParsed(front: string, before: seq<Piece>)
    requires IsFront(front) && before == PiecesFrom(front, 0, 0).value
    ensures PathLike(front) && PiecesFrom(front, 0, 0) == Some(before) && PathIn(front) == PathPieces(before)
  {
  }

  lemma MoreAssoc(before: seq<Piece>, hole: Piece, behind: seq<Piece>)
    ensures before + [hole] + behind == before + ([hole] + behind)
  {
  }

  // ------------------------------------------------------------ where it is cut

  /** The path of the whole template: the front's segments, the last of them with the hole behind it. */
  lemma MixedPath(before: seq<Piece>, hole: Piece, behind: seq<Piece>) returns (at: nat, tail: seq<Piece>)
    requires before != [] && before[0] == Char('/') && CutPieces(before) == before && hole.Hole?
    requires Joins(before, behind)
    ensures var parts, path := SplitPieces(before), PathPieces(before + [hole] + behind);
            && |parts| == at + 2 && at < |path| && path[..at] == parts[1..|parts| - 1]
            && path[at] == parts[|parts| - 1] + ([hole] + tail)
            && |path[at]| > 1 && hole in path[at]
  {
    var parts := SplitPieces(before);
    at := |parts| - 2;
    var cut := CutPieces(behind);
    var stripped := StripPieces(cut);
    tail := SplitPieces(stripped)[0];
    assert PathPieces(before + [hole] + behind) == SplitPieces(StripPieces(CutPieces(before + [hole] + behind)))[1..];
    FirstSegmentIsEmpty(before);
    hide *;
    MoreAssoc(before, hole, behind);
    CutConcat(before, [hole] + behind);
    CutKeepsHole(hole, behind);
    MoreAssoc(before, hole, cut);
    StripUpTo(before, hole, cut);
    MoreAssoc(before, hole, stripped);
    SplitConcat(before, [hole] + stripped);
    SplitHole(hole, stripped);
    MixedHasMore(before, hole, behind, tail);
    MixedParts(parts, hole, tail, SplitPieces(stripped)[1..]);
  }

  lemma FirstSegmentIsEmpty(before: seq<Piece>)
    requires before != [] && before[0] == Char('/')
    ensures SplitPieces(before)[0] == [] && |SplitPieces(before)| >= 2
  {
    assert SplitPieces(before) == [[]] + SplitPieces(before[1..]);
  }

  lemma CutKeepsHole(hole: Piece, behind: seq<Piece>)
    requires hole.Hole?
    ensures CutPieces([hole] + behind) == [hole] + CutPieces(behind)
  {
    assert ([hole] + behind)[1..] == behind;
  }

  lemma SplitHole(hole: Piece, rest: seq<Piece>)
    requires hole.Hole?
    ensures SplitPieces([hole] + rest)[0] == [hole] + SplitPieces(rest)[0]
    ensures SplitPieces([hole] + rest)[1..] == SplitPieces(rest)[1..]
  {
    assert ([hole] + rest)[1..] == rest;
  }

  lemma MixedParts(parts: seq<seq<Piece>>, hole: Piece, tail: seq<Piece>, more: seq<seq<Piece>>)
    requires |parts| >= 2 && (parts[|parts| - 1] != [] || tail != [])
    ensures var n := |parts| - 1;
            var path := (parts[..n] + [parts[n] + ([hole] + tail)] + more)[1..];
            && n - 1 < |path| && path[..n - 1] == parts[1..n] && path[n - 1] == parts[n] + ([hole] + tail)
            && |path[n - 1]| > 1 && hole in path[n - 1]
  {
    var n := |parts| - 1;
    var path := (parts[..n] + [parts[n] + ([hole] + tail)] + more)[1..];
    assert path[n - 1] == parts[n] + ([hole] + tail);
    assert path[n - 1][|parts[n]|] == hole;
  }

  lemma MixedHasMore(before: seq<Piece>, hole: Piece, behind: seq<Piece>, tail: seq<Piece>)
    requires before != [] && Joins(before, behind) && tail == SplitPieces(StripPieces(CutPieces(behind)))[0]
    ensures SplitPieces(before)[|SplitPieces(before)| - 1] != [] || tail != []
  {
    var n := |before| - 1;
    var last := before[n];
    assert before == before[..n] + [last];
    SplitConcat(before[..n], [last]);
    assert [last][1..] == [];
    if last == Char('/') {
      var cut := CutPieces(behind);
      assert cut[0] == behind[0];
      FirstStays(cut);
    }
  }

  lemma {:induction false} FirstStays(pieces: seq<Piece>)
    requires pieces != [] && pieces[0] != Char('/')
    ensures StripPieces(pieces) != [] && StripPieces(pieces)[0] == pieces[0]
    ensures SplitPieces(StripPieces(pieces))[0] != []
  {
    var n := |pieces| - 1;
    if pieces[n] == Char('/') { FirstStays(pieces[..n]); }
  }

  function NonEmpty(): string -> bool {
    (s: string) => |s| > 0
  }

  /** Of the segments read, those before the mixed one and its literal start are kept. */
  lemma CutAtMixed(segments: seq<string>, at: nat, lead: string)
    requires at < |segments| && IsMixed(segments[at]) && Before(segments[at], NUL) == lead
    requires forall i | 0 <= i < at :: !IsMixed(segments[i])
    ensures Truncated(segments) == Filter(segments[..at] + [lead], NonEmpty())
  {
    hide IsMixed, Filter;
    assert FirstMixed(segments) == at by { FirstMixedIs(segments, at); }
  }

  lemma FirstMixedIs(segments: seq<string>, at: nat)
    requires at < |segments| && IsMixed(segments[at]) && forall i | 0 <= i < at :: !IsMixed(segments[i])
    ensures FirstMixed(segments) == at
  {
    hide IsMixed;
    var first := FirstMixed(segments);
    assert !(first < at) && !(at < first);
  }

  lemma {:induction false} LeadOf(plain: seq<Piece>, hole: Piece, tail: seq<Piece>)
    requires hole.Hole? && forall p | p in plain :: p.Char? && p.c != NUL
    ensures Before(Render(plain + ([hole] + tail), Mask), NUL) == Render(plain, Mask)
  {
    if plain == [] {
      assert plain + ([hole] + tail) == [hole] + tail;
      assert Render([hole] + tail, Mask)[0] == Mask(hole.k)[0] == NUL;
    } else {
      var all := plain + ([hole] + tail);
      assert all[1..] == plain[1..] + ([hole] + tail) && all[0] == plain[0] && plain[0] in plain;
      LeadOf(plain[1..], hole, tail);
      assert Render(all, Mask) == [plain[0].c] + Render(all[1..], Mask);
      assert ([plain[0].c] + Render(all[1..], Mask))[1..] == Render(all[1..], Mask);
    }
  }

  lemma RenderMore(parts: seq<seq<Piece>>, last: seq<Piece>, value: nat -> string)
    ensures RenderAll(parts + [last], value) == RenderAll(parts, value) + [Render(last, value)]
  {
  }

  /** The front's own segments, empty ones aside, are those of its path. */
  lemma FrontSegments(before: seq<Piece>)
    requires before != [] && before[0] == Char('/') && CutPieces(before) == before
    ensures Filter(RenderAll(SplitPieces(before)[1..], Mask), NonEmpty())
         == Filter(RenderAll(PathPieces(before), Mask), NonEmpty())
  {
    var parts := SplitPieces(before);
    var n := SplitStripped(before);
    var path := PathPieces(before);
    var empties := parts[|parts| - n..];
    assert parts == parts[..|parts| - n] + empties;
    assert parts[1..] == path + empties;
    RenderTwo(path, empties);
    FilterConcat(RenderAll(path, Mask), RenderAll(empties, Mask), NonEmpty());
    forall i | 0 <= i < |empties|
      ensures RenderAll(empties, Mask)[i] == []
    {
    }
    FilterEmptyIff(RenderAll(empties, Mask), NonEmpty());
    var kept := Filter(RenderAll(path, Mask), NonEmpty());
    assert kept + [] == kept;
  }

  /** A segment of the path is written as something exactly when it has pieces. */
  lemma TextIffPieces(path: seq<seq<Piece>>)
    ensures HasText(path) <==> forall s | s in RenderAll(path, Mask) :: s != []
  {
    forall i | 0 <= i < |path|
      ensures path[i] != [] <==> RenderAll(path, Mask)[i] != []
    {
      if path[i] != [] { SomethingRendered(path[i]); }
    }
    if forall s | s in RenderAll(path, Mask) :: s != [] {
      forall i | 0 <= i < |path|
        ensures path[i] != []
      {
        assert RenderAll(path, Mask)[i] in RenderAll(path, Mask);
      }
    }
  }

  lemma RenderTwo(a: seq<seq<Piece>>, b: seq<seq<Piece>>)
    ensures RenderAll(a + b, Mask) == RenderAll(a, Mask) + RenderAll(b, Mask)
  {
  }

  /** The segment the hole joins is plain text up to there, and every segment before it is whole. */
  lemma FrontParts(front: string)
    requires IsFront(front)
    ensures var before := PiecesFrom(front, 0, 0).value;
            var parts := SplitPieces(before);
            && before != [] && before[0] == Char('/') && |parts| >= 2
            && (forall p | p in before && p.Char? :: p.c != NUL)
            && (forall i | 0 < i < |parts| :: !IsMixed(Render(parts[i], Mask)))
            && (before[|before| - 1].Char? ==> forall p | p in parts[|parts| - 1] :: p.Char? && p.c != NUL)
  {
    var before := PiecesFrom(front, 0, 0).value;
    var parts := SplitPieces(before);
    PathPiecesFromRaw(front);
    PiecesNumbered(front, 0, 0);
    assert parts == [[]] + SplitPieces(before[1..]);
    var n := SplitStripped(before);
    forall i | 0 < i < |parts|
      ensures !IsMixed(Render(parts[i], Mask))
    {
      if i < |parts| - n {
        assert parts[i] == PathIn(front)[i - 1];
        SegmentReadsBack(front, i - 1);
      }
    }
    if before[|before| - 1].Char? { LastPartIsPlain(front, n); }
  }

  lemma LastPartIsPlain(front: string, n: nat)
    requires IsFront(front)
    requires var before := PiecesFrom(front, 0, 0).value;
             && before != [] && before[0] == Char('/') && before[|before| - 1].Char?
             && |SplitPieces(StripPieces(before))| + n == |SplitPieces(before)|
             && (forall p | p in before && p.Char? :: p.c != NUL)
    ensures var parts := SplitPieces(PiecesFrom(front, 0, 0).value);
            forall p | p in parts[|parts| - 1] :: p.Char? && p.c != NUL
  {
    var before := PiecesFrom(front, 0, 0).value;
    var last := before[|before| - 1];
    var lead := before[..|before| - 1];
    assert before == lead + [last];
    if last == Char('/') {
      SlashAtEnd(lead);
    } else {
      SplitConcat(lead, [last]);
      assert [last][1..] == [];
      var part := SplitPieces(before)[|SplitPieces(before)| - 1];
      assert last in part && StripPieces(before) == before;
      var path := PathIn(front);
      assert part == path[|path| - 1];
      TextBesideText(path, |path| - 1, last);
    }
  }

  lemma TextBesideText(path: seq<seq<Piece>>, i: nat, piece: Piece)
    requires WholeSegments(path) && i < |path| && piece in path[i] && piece.Char?
    ensures forall p | p in path[i] :: p.Char?
  {
  }

  /** The masked text of such a template has the segments of its path. */
  lemma MixedText(front: string, rest: string, hole: Piece, behind: seq<Piece>)
    requires IsMixedAt(front, rest, hole, behind)
    ensures var pieces := PiecesFrom(front, 0, 0).value + [hole] + behind;
            && PathOf(Render(pieces, Mask)) == RenderAll(PathPieces(pieces), Mask)
            && forall p | p in pieces && p.Char? :: p.c != NUL
  {
    var before := PiecesFrom(front, 0, 0).value;
    var pieces := before + [hole] + behind;
    FrontParts(front);
    PiecesNumbered(front + rest, 0, 0);
    assert pieces[0] == before[0];
    forall p | p in CutPieces(pieces) && p.Hole? ensures IsClean(Mask(p.k)) { MaskIsClean(p.k); }
    hide PiecesFrom, PathOf, PathPieces, Render, Mask;
    PathRender(pieces, Mask);
  }

  /** The literal start of the mixed segment is what stands in front of the hole. */
  lemma MixedLead(before: seq<Piece>, behind: seq<Piece>, lead: seq<Piece>, hole: Piece, tail: seq<Piece>)
    requires before != [] && Joins(before, behind) && hole.Hole?
               && lead == SplitPieces(before)[|SplitPieces(before)| - 1]
    requires before[|before| - 1].Char? ==> forall p | p in lead :: p.Char? && p.c != NUL
    ensures Before(Render(lead + ([hole] + tail), Mask), NUL) == Render(lead, Mask)
  {
    hide *;
    assert before[|before| - 1].Char? by { JoinsText(before, behind); }
    LeadOf(lead, hole, tail);
  }

  lemma JoinsText(before: seq<Piece>, behind: seq<Piece>)
    requires before != [] && Joins(before, behind)
    ensures before[|before| - 1].Char?
  {
  }

  lemma MixedFacts(front: string, rest: string, hole: Piece, behind: seq<Piece>, before: seq<Piece>)
    requires IsMixedAt(front, rest, hole, behind) && before == PiecesFrom(front, 0, 0).value
    ensures before != [] && before[0] == Char('/') && CutPieces(before) == before && hole.Hole? && Joins(before, behind)
    ensures PiecesFrom(front + rest, 0, 0) == Some(before + [hole] + behind)
    ensures forall p | p in before && p.Char? :: p.c != NUL
  {
    hide PathLike, CutPieces, Joins, PiecesFrom, PathPieces;
    FrontParts(front);
  }

  /** The path that is expanded is the front's, less its empty segments. */
  lemma MixedIsCut(front: string, rest: string, hole: Piece, behind: seq<Piece>)
    requires IsMixedAt(front, rest, hole, behind)
    ensures Truncated(PathOf(Render(PiecesFrom(front + rest, 0, 0).value, Mask)))
         == Filter(RenderAll(PathIn(front), Mask), NonEmpty())
  {
    var before := PiecesFrom(front, 0, 0).value;
    var pieces := before + [hole] + behind;
    var parts, path := SplitPieces(before), PathPieces(pieces);
    var segments := RenderAll(path, Mask);
    var lead := parts[|parts| - 1];
    MixedFacts(front, rest, hole, behind, before);
    FrontParts(front);
    MixedText(front, rest, hole, behind);
    var at, tail := MixedPath(before, hole, behind);
    assert segments[at] == Render(path[at], Mask);
    assert IsFront(front);
    hide *;
    MixedSegment(pieces, at, hole);
    MixedLead(before, behind, lead, hole, tail);
    CutPath(parts, path, at, Render(lead, Mask), segments);
    FrontIsFiltered(front, before, parts);
  }

  lemma CutPath(parts: seq<seq<Piece>>, path: seq<seq<Piece>>, at: nat, lead: string, segments: seq<string>)
    requires |parts| == at + 2 && at < |path| && path[..at] == parts[1..|parts| - 1]
    requires segments == RenderAll(path, Mask) && lead == Render(parts[|parts| - 1], Mask)
    requires IsMixed(segments[at]) && Before(segments[at], NUL) == lead
    requires forall i | 0 < i < |parts| :: !IsMixed(Render(parts[i], Mask))
    ensures Truncated(segments) == Filter(RenderAll(parts[1..], Mask), NonEmpty())
  {
    hide Truncated, IsMixed, Render, Filter;
    forall i | 0 <= i < at
      ensures !IsMixed(segments[i])
    {
      assert path[i] == path[..at][i] == parts[i + 1];
    }
    CutAtMixed(segments, at, lead);
    assert segments[..at] == RenderAll(parts[1..|parts| - 1],
        Mask) by { RenderPrefix(path, at, parts[1..|parts| - 1]); }
    RenderMore(parts[1..|parts| - 1], parts[|parts| - 1], Mask);
    assert parts[1..|parts| - 1] + [parts[|parts| - 1]] == parts[1..];
  }

  lemma FrontIsFiltered(front: string, before: seq<Piece>, parts: seq<seq<Piece>>)
    requires IsFront(front) && before == PiecesFrom(front, 0, 0).value && parts == SplitPieces(before)
    requires before != [] && before[0] == Char('/') && forall p | p in before && p.Char? :: p.c != NUL
    ensures Filter(RenderAll(parts[1..], Mask), NonEmpty()) == Filter(RenderAll(PathIn(front), Mask), NonEmpty())
  {
    hide PiecesFrom, PathLike, CutPieces, SplitPieces, Filter, RenderAll;
    FrontSegments(before);
  }

  lemma RenderPrefix(path: seq<seq<Piece>>, at: nat, parts: seq<seq<Piece>>)
    requires at <= |path| && path[..at] == parts
    ensures RenderAll(path, Mask)[..at] == RenderAll(parts, Mask)
  {
    assert forall i | 0 <= i < at :: path[i] == parts[i];
  }

  lemma MixedSegment(pieces: seq<Piece>, at: nat, hole: Piece)
    requires at < |PathPieces(pieces)| && |PathPieces(pieces)[at]| > 1
    requires hole in PathPieces(pieces)[at] && hole.Hole? && forall p | p in pieces && p.Char? :: p.c != NUL
    ensures IsMixed(Render(PathPieces(pieces)[at], Mask))
  {
    var segment := PathPieces(pieces)[at];
    forall p | p in segment && p.Char?
      ensures p.c != NUL
    {
      PathPiecesAreLocal(pieces, at, p);
    }
    MaskReadBack(segment);
  }

  // ------------------------------------------------------------ what it expands to

  /** Expressions behind the front make no difference to its holes. */
  lemma MorePartsSame(segments: seq<string>, parts: seq<string>, more: seq<string>, unions: Unions)
    requires forall i | 0 <= i < |segments| && MaskAt(segments[i]).Some? :: MaskAt(segments[i]).value < |parts|
    ensures ExpandPath(segments, parts + more, unions) == ExpandPath(segments, parts, unions)
  {
    hide MaskAt, PatternOf, IsResolved, Normalized, Distinct, Products, NormalizeTarget;
    forall i | 0 <= i < |segments| && MaskAt(segments[i]).Some?
      ensures PartAt(parts + more, MaskAt(segments[i]).value) == PartAt(parts, MaskAt(segments[i]).value)
    {
    }
    assert AllAlternatives(segments, parts + more, unions) == AllAlternatives(segments, parts, unions);
  }

  lemma FrontNumbers(front: string, i: nat)
    requires IsFront(front) && i < |PathIn(front)|
    ensures var text := Render(PathIn(front)[i], Mask);
            MaskAt(text).Some? ==> MaskAt(text).value < |Exprs(PiecesFrom(front, 0, 0).value)|
  {
    var before := PiecesFrom(front, 0, 0).value;
    SegmentReadsBack(front, i);
    if IsHoleSegment(PathIn(front)[i]) {
      PathPiecesAreLocal(before, i, PathIn(front)[i][0]);
      PiecesNumbered(front, 0, 0);
      NumberFindsExpr(before, 0, PathIn(front)[i][0]);
    }
  }

  /**
   A template with an interpolation that joins a segment expands to what its text up to
   there expands to: the literal start is kept, and nothing behind it matters.
   */
  lemma MixedExpandsAsItsFront(front: string, rest: string, hole: Piece, behind: seq<Piece>, unions: Unions)
    requires IsMixedAt(front, rest, hole, behind) && HasText(PathIn(front))
    ensures Expand(front + rest, unions) == Expand(front, unions)
  {
    var before := PiecesFrom(front, 0, 0).value;
    var path := PathIn(front);
    MixedFacts(front, rest, hole, behind, before);
    FrontParsed(front, before);
    assert IsFront(front) && |RenderAll(path, Mask)| == |path|;
    FrontTexts(path);
    hide *;
    MixedIsCut(front, rest, hole, behind);
    KeptAll(path);
    MaskedPath(front);
    ExprsConcat(before, [hole] + behind);
    MoreAssoc(before, hole, behind);
    ExpandParsed(front, before, unions);
    ExpandParsed(front + rest, before + [hole] + behind, unions);
    var segments := RenderAll(path, Mask);
    forall i | 0 <= i < |segments| && MaskAt(segments[i]).Some?
      ensures MaskAt(segments[i]).value < |Exprs(before)|
    {
      FrontNumbers(front, i);
    }
    MorePartsSame(segments, Exprs(before), Exprs([hole] + behind), unions);
  }

  lemma FrontTexts(path: seq<seq<Piece>>)
    ensures forall i | 0 <= i < |path| :: RenderAll(path, Mask)[i] == Render(path[i], Mask)
  {
  }

  lemma KeptAll(path: seq<seq<Piece>>)
    requires HasText(path)
    ensures Filter(RenderAll(path, Mask), NonEmpty()) == RenderAll(path, Mask)
  {
    TextIffPieces(path);
    FilterKeepsAll(RenderAll(path, Mask), NonEmpty());
  }

  lemma ExpandParsed(raw: string, pieces: seq<Piece>, unions: Unions)
    requires PiecesFrom(raw, 0, 0) == Some(pieces)
    ensures Expand(raw, unions) == ExpandPath(Truncated(PathOf(Render(pieces, Mask))), Exprs(pieces), unions)
  {
  }

  // ------------------------------------------------------------ plain text up to there

  /** Text of a path that begins with a slash: no interpolation, no query, no fragment. */
  predicate IsPlainPath(text: string) {
    && text != [] && text[0] == '/' && NUL !in text && '?' !in text && '#' !in text
    && forall i | 0 <= i < |text| :: !OpensInterpolation(text, i)
  }

  function Chars(text: string): (pieces: seq<Piece>)
    ensures |pieces| == |text| && forall i | 0 <= i < |text| :: pieces[i] == Char(text[i])
  {
    seq(|text|, i requires 0 <= i < |text| => Char(text[i]))
  }

  lemma {:induction false} PlainPieces(text: string, j: nat, k: nat)
    requires j <= |text| && forall i | j <= i < |text| :: !OpensInterpolation(text, i)
    ensures PiecesFrom(text, j, k) == Some(Chars(text[j..]))
    decreases |text| - j
  {
    if j < |text| {
      PlainPieces(text, j + 1, k);
      assert Chars(text[j..]) == [Char(text[j])] + Chars(text[j + 1..]);
    }
  }

  lemma {:induction false} PlainRender(text: string, value: nat -> string)
    ensures Render(Chars(text), value) == text
  {
    if text != [] {
      assert Chars(text)[1..] == Chars(text[1..]);
      PlainRender(text[1..], value);
    }
  }

  lemma {:induction false} PlainCut(text: string)
    requires '?' !in text && '#' !in text
    ensures CutPieces(Chars(text)) == Chars(text)
  {
    if text != [] {
      assert text[0] in text && Chars(text)[1..] == Chars(text[1..]);
      PlainCut(text[1..]);
    }
  }

  lemma PlainIsFront(text: string)
    requires IsPlainPath(text)
    ensures PiecesFrom(text, 0, 0) == Some(Chars(text)) && IsFront(text)
  {
    var pieces := Chars(text);
    PlainPieces(text, 0, 0);
    assert text[0..] == text;
    PlainCut(text);
    var path := PathPieces(pieces);
    forall i, p: Piece | 0 <= i < |path| && p in path[i]
      ensures p.Char?
    {
      PathPiecesAreLocal(pieces, i, p);
    }
  }

  lemma PlainPath(text: string)
    requires IsPlainPath(text)
    ensures PiecesFrom(text, 0, 0).Some? && RenderAll(PathIn(text), Mask) == PathOf(text)
    ensures NormalizeTarget(text) == Spell(PathOf(text))
    ensures PathIn(text) != [] ==> PathIn(text)[|PathIn(text)| - 1] != []
  {
    var pieces := Chars(text);
    PlainIsFront(text);
    PlainCut(text);
    PlainRender(text, Mask);
    hide PathOf, PathPieces, CutPieces, Render, RenderAll, NormalizeTarget, PiecesFrom;
    PathRender(pieces, Mask);
    LastHasText(pieces);
  }

  lemma PlainSegments(text: string)
    requires IsPlainPath(text)
    ensures forall s | s in PathOf(text) :: MaskAt(s).None?
  {
    PlainPath(text);
    PlainIsFront(text);
    var path := PathIn(text);
    forall i | 0 <= i < |path|
      ensures MaskAt(RenderAll(path, Mask)[i]).None?
    {
      if IsHoleSegment(path[i]) { PathPiecesAreLocal(Chars(text), i, path[i][0]); }
      SegmentReadsBack(text, i);
    }
  }

  /** The last segment of a path is never empty: trailing slashes are gone. */
  lemma LastHasText(pieces: seq<Piece>)
    requires CutPieces(pieces) == pieces
    ensures PathPieces(pieces) != [] ==> PathPieces(pieces)[|PathPieces(pieces)| - 1] != []
  {
    var q := StripPieces(pieces);
    if q != [] {
      var n := |q| - 1;
      StripsAll(pieces);
      assert q == q[..n] + [q[n]];
      SplitConcat(q[..n], [q[n]]);
      assert [q[n]][1..] == [];
    }
  }

  lemma {:induction false} StripsAll(pieces: seq<Piece>)
    ensures StripPieces(pieces) != [] ==> StripPieces(pieces)[|StripPieces(pieces)| - 1] != Char('/')
  {
    if pieces != [] && pieces[|pieces| - 1] == Char('/') { StripsAll(pieces[..|pieces| - 1]); }
  }

  /** Leaving an empty segment out makes the text of a path shorter. */
  lemma {:induction false} LeadShrinks(segments: seq<string>)
    ensures |Lead(Filter(segments, NonEmpty()), '/')| <= |Lead(segments, '/')|
    ensures (exists s | s in segments :: s == []) ==>
              |Lead(Filter(segments, NonEmpty()), '/')| < |Lead(segments, '/')|
  {
    if segments != [] {
      LeadShrinks(segments[1..]);
      var kept := Filter(segments, NonEmpty());
      assert segments == [segments[0]] + segments[1..];
      if segments[0] != [] {
        assert kept[0] == segments[0] && kept[1..] == Filter(segments[1..], NonEmpty());
      }
    }
  }

  lemma NormalizedIsNoLonger(text: string)
    requires text != []
    ensures |NormalizeTarget(text)| <= |text|
  {
    assert |Before(Before(text, '#'), '?')| <= |Before(text, '#')| <= |text|;
  }

  /** The text beside an interpolation at `at`: in front of it, or behind where it closes. */
  predicate StandsBeside(raw: string, at: nat)
    requires 0 < at && at + 2 <= |raw|
  {
    || raw[at - 1] != '/'
    || (match HoleEnd(raw, at + 2, 1)
        case None => false
        case Some(end) => end < |raw| && raw[end] !in "/?#")
  }

  lemma PlainIsMixed(text: string, rest: string) returns (hole: Piece, behind: seq<Piece>)
    requires IsPlainPath(text) && OpensInterpolation(rest, 0) && NUL !in rest
    requires PiecesFrom(text + rest, 0, 0).Some? && StandsBeside(text + rest, |text|)
    ensures IsMixedAt(text, rest, hole, behind)
  {
    PlainIsFront(text);
    var raw := text + rest;
    hole, behind := HoleBehindFront(text, rest);
    assert raw[|text| - 1] == text[|text| - 1];
    if text[|text| - 1] == '/' {
      PiecesGoOn(text, rest, 0, 0);
      PlainExprs(text);
      BehindHole(raw, |text|, Chars(text), hole, behind);
    }
  }

  lemma {:induction false} PlainExprs(text: string)
    ensures Exprs(Chars(text)) == []
  {
    if text != [] {
      assert Chars(text)[1..] == Chars(text[1..]);
      PlainExprs(text[1..]);
    }
  }

  lemma BehindHole(raw: string, at: nat, before: seq<Piece>, hole: Piece, behind: seq<Piece>)
    requires at + 2 <= |raw| && OpensInterpolation(raw, at) && HoleEnd(raw, at + 2, 1).Some?
    requires var end := HoleEnd(raw, at + 2, 1).value; end < |raw| && raw[end] !in "/?#"
    requires PiecesFrom(raw, at, 0).Some? && before + PiecesFrom(raw, at, 0).value == before + [hole] + behind
    ensures behind != [] && behind[0] != Char('/') && behind[0] != Char('?') && behind[0] != Char('#')
  {
    var end := HoleEnd(raw, at + 2, 1).value;
    hide PiecesFrom, HoleEnd, Trim;
    NextPiece(raw, at, 0);
    NextPiece(raw, end, 1);
    SameRest(before, PiecesFrom(raw, at, 0).value, hole, behind);
  }

  lemma SameRest(before: seq<Piece>, pieces: seq<Piece>, hole: Piece, behind: seq<Piece>)
    requires before + pieces == before + [hole] + behind
    ensures pieces != [] && behind == pieces[1..]
  {
    MoreAssoc(before, hole, behind);
    assert pieces == (before + pieces)[|before|..] && [hole] + behind == (before + ([hole] + behind))[|before|..];
    assert behind == ([hole] + behind)[1..];
  }

  /**
   Where the text up to the interpolation is plain, the one target is that text itself,
   exactly when it has no empty segment: empty segments are dropped with the rest.
   */
  lemma PlainFrontIff(text: string, rest: string, unions: Unions)
    requires IsPlainPath(text) && OpensInterpolation(rest, 0) && NUL !in rest
    requires PiecesFrom(text + rest, 0, 0).Some? && StandsBeside(text + rest, |text|)
    ensures Expand(text + rest, unions) == Expanded([NormalizeTarget(text)])
       <==> forall s | s in PathOf(text) :: s != []
  {
    var hole, behind := PlainIsMixed(text, rest);
    PlainIsFront(text);
    PlainPath(text);
    PlainSegments(text);
    var segments, path := PathOf(text), PathIn(text);
    hide *;
    MixedIsCut(text, rest, hole, behind);
    KeptIsExpanded(text, rest, unions, segments, Filter(segments, NonEmpty()));
    NormalizeIdempotent(text);
    TextIffPieces(path);
    KeptIff(path, segments, text);
  }

  lemma KeptIff(path: seq<seq<Piece>>, segments: seq<string>, text: string)
    requires segments == RenderAll(path, Mask) && NormalizeTarget(text) == Spell(segments)
    requires path != [] ==> path[|path| - 1] != []
    requires NormalizeTarget(NormalizeTarget(text)) == NormalizeTarget(text)
    ensures NormalizeTarget(Spell(Filter(segments, NonEmpty()))) == NormalizeTarget(text)
       <==> forall s | s in segments :: s != []
  {
    if forall s | s in segments :: s != [] {
      assert forall k | 0 <= k < |segments| :: segments[k] in segments;
      FilterKeepsAll(segments, NonEmpty());
    } else {
      SomethingRendered(path[|path| - 1]);
      DroppedIsShorter(segments);
    }
  }

  lemma DroppedIsShorter(segments: seq<string>)
    requires segments != [] && segments[|segments| - 1] != [] && exists s | s in segments :: s == []
    ensures |NormalizeTarget(Spell(Filter(segments, NonEmpty())))| < |Spell(segments)|
  {
    hide NormalizeTarget, Filter, Lead;
    var kept := Filter(segments, NonEmpty());
    LeadShrinks(segments);
    LastIsKept(segments);
    LeadIsNot(kept);
    NormalizedIsNoLonger(Spell(kept));
  }

  lemma LastIsKept(segments: seq<string>)
    requires segments != [] && segments[|segments| - 1] != []
    ensures Filter(segments, NonEmpty()) != []
  {
    FilterEmptyIff(segments, NonEmpty());
  }

  lemma KeptIsExpanded(text: string, rest: string, unions: Unions, segments: seq<string>, kept: seq<string>)
    requires PiecesFrom(text + rest, 0, 0).Some? && kept == Filter(segments, NonEmpty())
    requires Truncated(PathOf(Render(PiecesFrom(text + rest, 0, 0).value, Mask))) == kept
    requires forall s | s in segments :: MaskAt(s).None?
    ensures Expand(text + rest, unions) == Expanded([NormalizeTarget(Spell(kept))])
  {
    hide Truncated, PathOf, MaskAt, NormalizeTarget;
    forall i | 0 <= i < |kept|
      ensures MaskAt(kept[i]).None?
    {
      FilterMembers(segments, NonEmpty(), kept[i]);
    }
    LeadIsJoin(kept, '/');
    assert kept == [] ==> "/" + Join(kept, '/') == "/";
  }

  // ------------------------------------------------------------ a path with an empty segment

  const DOUBLED := "/a//b"
  const JOINED := "${q}"

  lemma DoubledPath()
    ensures PathOf(DOUBLED) == ["a", "", "b"] && IsPlainPath(DOUBLED)
  {
    var words := ["a", "", "b"];
    assert words[1..] == ["", "b"] && words[1..][1..] == ["b"] && words[1..][1..][1..] == [];
    assert Lead(words, '/') == DOUBLED;
    SplitLead(words, '/');
    BeforeNothing(DOUBLED, '#');
    BeforeNothing(DOUBLED, '?');
    assert ([[]] + words)[1..] == words;
  }

  lemma DoubledHole()
    ensures HoleEnd(DOUBLED + JOINED, 7, 1) == Some(9) && OpensInterpolation(DOUBLED + JOINED, 5)
    ensures |DOUBLED + JOINED| == 9 && StandsBeside(DOUBLED + JOINED, |DOUBLED|) && OpensInterpolation(JOINED, 0)
  {
    var raw := DOUBLED + JOINED;
    assert raw[4] == 'b' && raw[5] == '$' && raw[6] == '{' && raw[7] == 'q' && raw[8] == '}';
    assert HoleEnd(raw, 8, 1) == Some(9);
  }

  lemma {:induction false} PiecesBefore(raw: string, j: nat, at: nat, k: nat)
    requires j <= at <= |raw| && PiecesFrom(raw, at, k).Some?
    requires forall i | j <= i < at :: !OpensInterpolation(raw, i)
    ensures PiecesFrom(raw, j, k).Some?
    decreases at - j
  {
    if j < at { PiecesBefore(raw, j + 1, at, k); }
  }

  lemma OneHole(raw: string, i: nat)
    requires i < |raw| && OpensInterpolation(raw, i) && HoleEnd(raw, i + 2, 1) == Some(|raw|)
    ensures PiecesFrom(raw, i, 0).Some?
  {
    PiecesAtEnd(raw, |raw|, 1);
    hide PiecesFrom, HoleEnd, Trim;
    NextPiece(raw, i, 0);
  }

  lemma DoubledPieces()
    ensures PiecesFrom(DOUBLED + JOINED, 0, 0).Some?
  {
    var raw := DOUBLED + JOINED;
    DoubledHole();
    assert raw[0] == '/' && raw[1] == 'a' && raw[2] == '/' && raw[3] == '/' && raw[4] == 'b';
    hide PiecesFrom, HoleEnd;
    OneHole(raw, 5);
    PiecesBefore(raw, 0, 5, 0);
  }

  /** The empty segment is lost: the gate looks at another path than the one that is written. */
  lemma EmptySegmentIsLost(unions: Unions)
    ensures Expand(DOUBLED + JOINED, unions) != Expanded([NormalizeTarget(DOUBLED)])
  {
    DoubledPath();
    DoubledHole();
    DoubledPieces();
    assert PathOf(DOUBLED)[1] == "" && PathOf(DOUBLED)[1] in PathOf(DOUBLED) && NUL !in JOINED;
    hide *;
    PlainFrontIff(DOUBLED, JOINED, unions);
  }

  // ------------------------------------------------------------ what the program does with it

  /** At run time nothing of the path follows: a query, a fragment, or nothing at all. */
  ghost predicate EndsPath(text: string) {
    text == [] || text[0] == '?' || text[0] == '#'
  }

  /**
   So whenever the interpolation and what follows it evaluate to a query, a fragment or
   nothing, the run of the program is among the targets that are checked.
   */
  lemma MixedRunIsATarget(front: string, rest: string, hole: Piece, behind: seq<Piece>, unions: Unions,
                          value: nat -> string)
    requires IsMixedAt(front, rest, hole, behind) && HasText(PathIn(front)) && FullyDeclared(front, unions)
    requires IsRun(PathIn(front), unions, value) && EndsPath(value(hole.k) + Render(behind, value))
    ensures Expand(front + rest, unions).Expanded?
    ensures NormalizeTarget(RunTarget(front + rest, value)) in Expand(front + rest, unions).targets
  {
    var before := PiecesFrom(front, 0, 0).value;
    MixedFacts(front, rest, hole, behind, before);
    assert PathIn(front) == PathPieces(before);
    assert RunTarget(front, value) == Render(before, value);
    assert RunTarget(front + rest, value) == Render(before + [hole] + behind, value);
    hide *;
    MixedExpandsAsItsFront(front, rest, hole, behind, unions);
    ExpansionIsExact(front, unions);
    RunIsClean(front, unions, value);
    RunOfMixed(before, hole, behind, value);
    NothingBehind(Render(before, value), value(hole.k) + Render(behind, value));
  }

  lemma RunOfMixed(before: seq<Piece>, hole: Piece, behind: seq<Piece>, value: nat -> string)
    requires CutPieces(before) == before && CleanOn(CutPieces(before), value) && hole.Hole?
    ensures BeforeBoth(Render(before, value)) == Render(before, value)
    ensures Render(before + [hole] + behind, value) == Render(before, value) + (value(hole.k) + Render(behind, value))
  {
    hide CutPieces, CleanOn, BeforeBoth;
    CutRender(before, value);
    RenderConcat(before, [hole] + behind, value);
    assert before + [hole] + behind == before + ([hole] + behind);
    assert ([hole] + behind)[1..] == behind;
  }

  lemma NothingBehind(text: string, tail: string)
    requires BeforeBoth(text) == text && EndsPath(tail)
    ensures NormalizeTarget(text + tail) == NormalizeTarget(text)
  {
    if tail == [] {
      assert text + tail == text;
    } else {
      NoMarkIn(text);
      BeforeBothRun(text, tail);
      assert tail == [tail[0]] + tail[1..];
      BeforeBothCons(tail[0], tail[1..]);
      assert text + [] == text;
    }
  }

  lemma NoMarkIn(text: string)
    requires BeforeBoth(text) == text
    ensures forall c | c in text :: c != '#' && c != '?'
  {
    assert |Before(Before(text, '#'), '?')| <= |Before(text, '#')| <= |text|;
    assert Before(text, '#') == text;
  }
}
