/**
 How an interpolation is read: its expression without the white space around it, and
 which expressions are expanded at all.
 */
module HoleReading {
  import opened Text
  import opened Lexer
  import opened TemplateExpansion
  import opened ExpansionMeaning
  import opened ExpansionRuns

  /** Nothing that nests, quotes or escapes. */
  predicate IsPlainExpr(expr: string) {
    forall k | 0 <= k < |expr| :: expr[k] != '\\' && expr[k] != '{' && expr[k] != '}' && !IsQuote(expr[k])
  }

  lemma {:induction false} PlainToBrace(src: string, j: nat, end: nat)
    requires j <= end < |src| && src[end] == '}' && IsPlainExpr(src[j..end])
    ensures HoleEnd(src, j, 1) == Some(end + 1)
    decreases end - j
  {
    if j < end {
      assert src[j..end][0] == src[j];
      assert src[j + 1..end] == src[j..end][1..];
      PlainToBrace(src, j + 1, end);
    }
  }

  lemma {:induction false} StartOff(lead: string, rest: string)
    requires AllSpace(lead) && (rest == [] || !IsSpace(rest[0]))
    ensures TrimStart(lead + rest) == rest
  {
    if lead == [] {
      assert lead + rest == rest;
    } else {
      assert (lead + rest)[1..] == lead[1..] + rest;
      StartOff(lead[1..], rest);
    }
  }

  lemma {:induction false} EndOff(front: string, tail: string)
    requires AllSpace(tail) && (front == [] || !IsSpace(front[|front| - 1]))
    ensures TrimEnd(front + tail) == front
  {
    if tail == [] {
      assert front + tail == front;
    } else {
      var n := |tail| - 1;
      assert (front + tail)[..|front + tail| - 1] == front + tail[..n];
      EndOff(front, tail[..n]);
    }
  }

  /** White space around a text is all that is trimmed. */
  lemma SpacesOff(lead: string, text: string, tail: string)
    requires AllSpace(lead) && AllSpace(tail) && text != [] && !IsSpace(text[0]) && !IsSpace(text[|text| - 1])
    ensures Trim(lead + text + tail) == text
  {
    assert lead + text + tail == lead + (text + tail);
    StartOff(lead, text + tail);
    EndOff(text, tail);
  }

  lemma Braced(raw: string, i: nat, inner: string, rest: string)
    requires i <= |raw| && raw[i..] == "${" + inner + "}" + rest
    ensures i + |inner| + 3 <= |raw| && raw[i] == '$' && raw[i + 1] == '{' && raw[i + 2 + |inner|] == '}'
    ensures raw[i + 2..i + 2 + |inner|] == inner
  {
    var here := raw[i..];
    var end := 2 + |inner|;
    assert raw[i] == here[0] && raw[i + 1] == here[1] && raw[i + end] == here[end];
    assert raw[i + 2..i + end] == here[2..end];
  }

  /** An interpolation stands for the expression written in it, white space around it or not. */
  lemma HoleIsItsExpression(raw: string, i: nat, k: nat, lead: string, expr: string, tail: string, rest: string)
    requires i <= |raw| && raw[i..] == "${" + (lead + expr + tail) + "}" + rest
    requires AllSpace(lead) && AllSpace(tail) && IsPlainExpr(lead + expr + tail)
    requires expr != [] && !IsSpace(expr[0]) && !IsSpace(expr[|expr| - 1])
    ensures i + |lead + expr + tail| + 3 <= |raw|
    ensures PiecesFrom(raw, i, k) == Leading(Hole(k, expr), PiecesFrom(raw, i + |lead + expr + tail| + 3, k + 1))
  {
    hide HoleEnd, Trim, PiecesFrom;
    var inner := lead + expr + tail;
    Braced(raw, i, inner, rest);
    PlainToBrace(raw, i + 2, i + 2 + |inner|);
    SpacesOff(lead, expr, tail);
    NextPiece(raw, i, k);
  }

  lemma {:induction false} QuoteRunsTo(src: string, q: char, j: nat, close: nat)
    requires j <= close < |src| && src[close] == q && q != '\\'
    requires forall k | j <= k < close :: src[k] != q && src[k] != '\\' && src[k] != '\n'
    ensures QuoteEnd(src, q, j) == close + 1
    decreases close - j
  {
    if j < close { QuoteRunsTo(src, q, j + 1, close); }
  }

  /** Braces in quotes, of any of the three kinds, neither open nor close anything. */
  lemma QuotedIsPassed(src: string, open: nat, close: nat, depth: nat)
    requires open < close < |src| && src[close] == src[open] && depth > 0
    requires src[open] == '"' || src[open] == '\'' || src[open] == '`'
    requires forall k | open < k < close :: src[k] != src[open] && src[k] != '\\' && src[k] != '\n'
    ensures HoleEnd(src, open, depth) == HoleEnd(src, close + 1, depth)
  {
    QuoteRunsTo(src, src[open], open + 1, close);
  }

  // ------------------------------------------------------------ what cannot be read

  lemma {:induction false} NothingCloses(src: string, j: nat, depth: nat)
    requires j <= |src| + 1 && depth > 0 && forall k | j <= k < |src| :: src[k] != '}'
    ensures HoleEnd(src, j, depth) == None
    decreases |src| + 1 - j
  {
    if j < |src| {
      if src[j] == '{' {
        NothingCloses(src, j + 1, depth + 1);
      } else {
        NothingCloses(src, NextAt(src, j), depth);
      }
    }
  }

  lemma {:induction false} NoPiecesBefore(raw: string, at: nat, j: nat, k: nat)
    requires j <= at && OpensInterpolation(raw, at) && HoleEnd(raw, at + 2, 1) == None
    requires forall i | j <= i < at :: !OpensInterpolation(raw, i)
    ensures PiecesFrom(raw, j, k) == None
    decreases at - j
  {
    hide HoleEnd;
    if j < at { NoPiecesBefore(raw, at, j + 1, k); }
  }

  /** A template whose interpolation never closes is not read, whatever is declared. */
  lemma UnclosedIsUnparsed(front: string, rest: string, unions: Unions)
    requires (forall i | 0 <= i < |front| :: !OpensInterpolation(front, i)) && '}' !in rest
    ensures Expand(front + "${" + rest, unions) == Unparsed
  {
    var raw, at := front + "${" + rest, |front|;
    assert raw[at] == '$' && raw[at + 1] == '{' && raw[at + 2..] == rest;
    forall k | at + 2 <= k < |raw|
      ensures raw[k] != '}'
    {
      assert raw[k] == rest[k - at - 2];
    }
    NothingCloses(raw, at + 2, 1);
    forall i | 0 <= i < at
      ensures !OpensInterpolation(raw, i)
    {
      assert raw[i] == front[i] && raw[i + 1] == if i + 1 < at then front[i + 1] else '$';
      assert !OpensInterpolation(front, i);
    }
    NoPiecesBefore(raw, at, 0, 0);
  }

  // ------------------------------------------------------------ what is expanded

  /** A variable's name. */
  predicate IsName(expr: string) {
    && expr != "" && !('0' <= expr[0] <= '9')
    && forall k | 0 <= k < |expr| ::
         'a' <= expr[k] <= 'z' || 'A' <= expr[k] <= 'Z' || '0' <= expr[k] <= '9' || expr[k] == '_' || expr[k] == '$'
  }

  lemma NameIff(expr: string)
    ensures IsIdentifier(expr) <==> IsName(expr)
  {
    if IsIdentifier(expr) {
      assert forall k | 0 <= k < |expr| :: expr[k] in expr;
    }
  }

  /** Every interpolation of the path is a variable with a declared union. */
  ghost predicate AllDeclared(path: seq<seq<Piece>>, unions: Unions) {
    forall i | 0 <= i < |path| && IsHoleSegment(path[i]) :: IsName(path[i][0].expr) && path[i][0].expr in unions
  }

  /**
   Of a template with whole-segment interpolations the targets are listed exactly when all
   of them are variables with a declared union; otherwise its shape is reported.
   */
  lemma ExpandedIffDeclared(raw: string, unions: Unions)
    requires PathLike(raw)
    ensures Expand(raw, unions).Expanded? <==> AllDeclared(PathIn(raw), unions)
    ensures Expand(raw, unions).Shape? <==> !AllDeclared(PathIn(raw), unions)
  {
    var path, parts := PathIn(raw), Exprs(PiecesFrom(raw, 0, 0).value);
    var segments := RenderAll(path, Mask);
    MaskedPath(raw);
    forall i | 0 <= i < |path|
      ensures MaskAt(segments[i]).Some? <==> IsHoleSegment(path[i])
      ensures IsHoleSegment(path[i]) ==>
                (IsResolved(PartAt(parts, MaskAt(segments[i]).value), unions)
                 <==> IsName(path[i][0].expr) && path[i][0].expr in unions)
    {
      SegmentResolves(raw, unions, i);
    }
    assert AllResolved(segments, parts, unions) <==> AllDeclared(path, unions) by {
      hide MaskAt, IsResolved, IsName, PathIn, PartAt;
    }
    KindOf(raw, segments, parts, unions);
  }

  lemma SegmentResolves(raw: string, unions: Unions, i: nat)
    requires PathLike(raw) && i < |PathIn(raw)|
    ensures var segment, text := PathIn(raw)[i], Render(PathIn(raw)[i], Mask);
            && (MaskAt(text).Some? <==> IsHoleSegment(segment))
            && (IsHoleSegment(segment) ==>
                  (IsResolved(PartAt(Exprs(PiecesFrom(raw, 0, 0).value), MaskAt(text).value), unions)
                   <==> IsName(segment[0].expr) && segment[0].expr in unions))
  {
    SegmentReadsBack(raw, i);
    PathPiecesFromRaw(raw);
    hide MaskAt, PathLike, PathPieces, Exprs, Render, IsName, IsIdentifier, PiecesFrom;
    if IsHoleSegment(PathIn(raw)[i]) { NameIff(PathIn(raw)[i][0].expr); }
  }

  lemma KindOf(raw: string, segments: seq<string>, parts: seq<string>, unions: Unions)
    requires PiecesFrom(raw, 0, 0).Some? && parts == Exprs(PiecesFrom(raw, 0, 0).value)
    requires segments == Truncated(PathOf(Render(PiecesFrom(raw, 0, 0).value, Mask)))
    ensures Expand(raw, unions).Expanded? <==> AllResolved(segments, parts, unions)
    ensures Expand(raw, unions).Shape? <==> !AllResolved(segments, parts, unions)
  {
    hide MaskAt, PathOf, Truncated, IsResolved, Render, PatternOf, Products, AllAlternatives;
  }

  /** No target is listed twice. */
  lemma TargetsAreDistinct(raw: string, unions: Unions)
    requires Expand(raw, unions).Expanded?
    ensures NoRepeats(Expand(raw, unions).targets)
  {
    var masked := MaskedOf(raw).value;
    var segments := Truncated(PathOf(masked.text));
    hide Products, Normalized, AllAlternatives, Truncated, PathOf, MaskedOf, MaskAt, IsResolved, Distinct;
    DistinctHasNoRepeats(Normalized(Products(AllAlternatives(segments, masked.parts, unions))));
  }
}
