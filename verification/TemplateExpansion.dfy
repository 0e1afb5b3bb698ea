/**
 Turning one template literal into every target it can produce: interpolations are
 masked, the path is split, and declared unions are multiplied out.
 */
module TemplateExpansion {
  import opened Text
  import opened Lexer
  import opened RouteMatcher

  // ------------------------------------------------------------ interpolations

  /** Template text is a run of characters and numbered interpolations. */
  datatype Piece = Char(c: char) | Hole(k: nat, expr: string)

  /** Just after the brace that closes an interpolation, or `None` when nothing closes it. */
  function HoleEnd(src: string, j: nat, depth: nat): (end: Option<nat>)
    requires j <= |src| + 1 && depth > 0
    ensures end.Some? ==> j < end.value <= |src|
    decreases |src| + 1 - j
  {
    if j >= |src| then None
    else if src[j] == '\\' then HoleEnd(src, j + 2, depth)
    else if IsQuote(src[j]) then HoleEnd(src, SkipQuotedFrom(src, j), depth)
    else if src[j] == '{' then HoleEnd(src, j + 1, depth + 1)
    else if src[j] == '}' && depth == 1 then Some(j + 1)
    else HoleEnd(src, j + 1, if src[j] == '}' then depth - 1 else depth)
  }

  // ------------------------------------------------------------ what closes a hole

  /** Where the reader of an interpolation goes from `j`: over escapes and over quoted text. */
  function NextAt(src: string, j: nat): (next: nat)
    requires j < |src|
    ensures j < next <= |src| + 1
  {
    if src[j] == '\\' then j + 2 else if IsQuote(src[j]) then SkipQuotedFrom(src, j) else j + 1
  }

  /** The reader comes to `k`. */
  predicate Comes(src: string, from: nat, k: nat)
    decreases if from < k then k - from else 0
  {
    from == k || (from < k && from < |src| && Comes(src, NextAt(src, from), k))
  }

  /** Braces opened less braces closed at the places the reader comes to before `k`. */
  function Opened(src: string, from: nat, k: nat): int
    decreases if from < k then k - from else 0
  {
    if from >= k || from >= |src| then 0
    else
      (if src[from] == '{' then 1 else if src[from] == '}' then -1 else 0) + Opened(src, NextAt(src, from), k)
  }

  /** The reader comes to a brace at `k` that closes what is open, and to none before that does. */
  ghost predicate ClosesAt(src: string, from: nat, depth: nat, k: nat) {
    && k < |src| && Comes(src, from, k) && src[k] == '}' && depth + Opened(src, from, k) == 1
    && forall m: nat | from <= m < k && Comes(src, from, m) && src[m] == '}' :: depth + Opened(src, from, m) > 1
  }

  lemma ClosesNext(src: string, j: nat, depth: nat, k: nat)
    requires j < k < |src| && depth > 0
    ensures var deeper := depth + (if src[j] == '{' then 1 else if src[j] == '}' then -1 else 0);
            ClosesAt(src, j, depth, k) <==> deeper > 0 && ClosesAt(src, NextAt(src, j), deeper, k)
  {
    var next := NextAt(src, j);
    var deeper := depth + (if src[j] == '{' then 1 else if src[j] == '}' then -1 else 0);
    if ClosesAt(src, j, depth, k) {
      assert src[j] == '}' ==> depth + Opened(src, j, j) > 1;
      forall m: nat | next <= m < k && Comes(src, next, m) && src[m] == '}'
        ensures deeper + Opened(src, next, m) > 1
      {
        assert Comes(src, j, m) && Opened(src, j, m) == deeper - depth + Opened(src, next, m);
      }
    }
    if deeper > 0 && ClosesAt(src, next, deeper, k) {
      forall m: nat | j <= m < k && Comes(src, j, m) && src[m] == '}'
        ensures depth + Opened(src, j, m) > 1
      {
        if m > j {
          assert Comes(src, next, m) && Opened(src, j, m) == deeper - depth + Opened(src, next, m);
        }
      }
    }
  }

  lemma {:induction false} HoleEndMeaning(src: string, j: nat, depth: nat, k: nat)
    requires j <= |src| + 1 && depth > 0
    ensures HoleEnd(src, j, depth) == Some(k + 1) <==> ClosesAt(src, j, depth, k)
    decreases |src| + 1 - j
  {
    if j < k < |src| {
      var deeper := depth + (if src[j] == '{' then 1 else if src[j] == '}' then -1 else 0);
      ClosesNext(src, j, depth, k);
      if deeper > 0 { HoleEndMeaning(src, NextAt(src, j), deeper, k); }
    }
  }

  /** Where an interpolation ends: behind the brace that closes it, or nowhere when none does. */
  ghost predicate HoleEndsAt(src: string, start: nat, end: Option<nat>) {
    && (end.Some? ==> end.value > 0)
    && forall k: nat :: ClosesAt(src, start, 1, k) <==> end == Some(k + 1)
  }

  lemma HoleMeaning(src: string, start: nat)
    requires start <= |src| + 1
    ensures HoleEndsAt(src, start, HoleEnd(src, start, 1))
  {
    forall k: nat
      ensures ClosesAt(src, start, 1, k) <==> HoleEnd(src, start, 1) == Some(k + 1)
    {
      HoleEndMeaning(src, start, 1, k);
    }
  }

  // ------------------------------------------------------------ pieces

  /** The pieces of `raw` from `i` on, holes numbered from `k`. */
  function PiecesFrom(raw: string, i: nat, k: nat): Option<seq<Piece>>
    decreases |raw| - i
  {
    if i >= |raw| then Some([])
    else if OpensInterpolation(raw, i) then
      var end := HoleEnd(raw, i + 2, 1);
      if end.None? then None
      else
        var rest := PiecesFrom(raw, end.value, k + 1);
        if rest.None? then None else Some([Hole(k, Trim(raw[i + 2..end.value - 1]))] + rest.value)
    else
      var rest := PiecesFrom(raw, i + 1, k);
      if rest.None? then None else Some([Char(raw[i])] + rest.value)
  }

  /** Hole `j` of the pieces carries number `k + j`. */
  function Exprs(pieces: seq<Piece>): seq<string> {
    if pieces == [] then []
    else (if pieces[0].Hole? then [pieces[0].expr] else []) + Exprs(pieces[1..])
  }

  /** The text with a value written for every hole. */
  function Render(pieces: seq<Piece>, value: nat -> string): string {
    if pieces == [] then []
    else (if pieces[0].Char? then [pieces[0].c] else value(pieces[0].k)) + Render(pieces[1..], value)
  }

  const NUL: char := '\U{0000}'

  function Mask(k: nat): string {
    [NUL] + Digits(k) + [NUL]
  }

  datatype Masked = Masked(text: string, parts: seq<string>)

  function MaskedOf(raw: string): Option<Masked> {
    var pieces := PiecesFrom(raw, 0, 0);
    if pieces.None? then None else Some(Masked(Render(pieces.value, Mask), Exprs(pieces.value)))
  }

  lemma {:induction false} RenderConcat(a: seq<Piece>, b: seq<Piece>, value: nat -> string)
    ensures Render(a + b, value) == Render(a, value) + Render(b, value)
  {
    if a == [] {
      assert a + b == b;
    } else {
      var rest := Render(a[1..], value);
      assert (a + b)[1..] == a[1..] + b;
      RenderConcat(a[1..], b, value);
      RenderCons(a, value, a[1..]);
      RenderCons(a + b, value, a[1..] + b);
      assert Render([a[0]], value) + (rest + Render(b, value)) == Render([a[0]], value) + rest + Render(b, value);
    }
  }

  lemma RenderCons(pieces: seq<Piece>, value: nat -> string, rest: seq<Piece>)
    requires pieces != [] && rest == pieces[1..]
    ensures Render(pieces, value) == Render([pieces[0]], value) + Render(rest, value)
  {
    var one := [pieces[0]];
    assert one[1..] == [];
  }

  lemma {:induction false} ExprsConcat(a: seq<Piece>, b: seq<Piece>)
    ensures Exprs(a + b) == Exprs(a) + Exprs(b)
  {
    if a == [] {
      assert a + b == b;
    } else {
      assert (a + b)[1..] == a[1..] + b;
      ExprsConcat(a[1..], b);
    }
  }

  /** The scan for the brace that closes an interpolation. */
  method CloseHole(src: string, start: nat) returns (end: Option<nat>)
    requires start <= |src|
    ensures end == HoleEnd(src, start, 1) && HoleEndsAt(src, start, end)
  {
    HoleMeaning(src, start);
    var j, depth: nat := start, 1;
    while j < |src| && depth > 0
      invariant j <= |src| + 1
      invariant depth > 0 ==> HoleEnd(src, j, depth) == HoleEnd(src, start, 1)
      invariant depth == 0 ==> HoleEnd(src, start, 1) == Some(j)
      decreases |src| + 1 - j
    {
      var c := src[j];
      if c == '\\' {
        j := j + 2;
        continue;
      }
      if IsQuote(c) {
        j := SkipQuoted(src, j);
        continue;
      }
      if c == '{' {
        depth := depth + 1;
      } else if c == '}' {
        depth := depth - 1;
      }
      j := j + 1;
    }
    end := if depth > 0 then None else Some(j);
  }

  /** The pieces read so far and those still to come make up the whole. */
  predicate Ahead(whole: Option<seq<Piece>>, before: seq<Piece>, rest: Option<seq<Piece>>) {
    whole == if rest.None? then None else Some(before + rest.value)
  }

  function Leading(piece: Piece, rest: Option<seq<Piece>>): Option<seq<Piece>> {
    if rest.None? then None else Some([piece] + rest.value)
  }

  lemma PieceAhead(whole: Option<seq<Piece>>, before: seq<Piece>, piece: Piece, rest: Option<seq<Piece>>)
    requires Ahead(whole, before, Leading(piece, rest))
    ensures Ahead(whole, before + [piece], rest)
  {
    if rest.Some? { assert before + ([piece] + rest.value) == (before + [piece]) + rest.value; }
  }

  lemma NextPiece(raw: string, i: nat, k: nat)
    requires i < |raw|
    ensures !OpensInterpolation(raw, i) ==> PiecesFrom(raw, i, k) == Leading(Char(raw[i]), PiecesFrom(raw, i + 1, k))
    ensures OpensInterpolation(raw, i) && HoleEnd(raw, i + 2, 1).None? ==> PiecesFrom(raw, i, k).None?
    ensures OpensInterpolation(raw, i) && HoleEnd(raw, i + 2, 1).Some? ==>
              var end := HoleEnd(raw, i + 2, 1).value;
              PiecesFrom(raw, i, k) == Leading(Hole(k, Trim(raw[i + 2..end - 1])), PiecesFrom(raw, end, k + 1))
  {
    hide HoleEnd, Trim;
  }

  lemma OnePieceMore(before: seq<Piece>, piece: Piece)
    ensures Render(before + [piece], Mask) == Render(before, Mask) + if piece.Char? then [piece.c] else Mask(piece.k)
    ensures Exprs(before + [piece]) == Exprs(before) + if piece.Hole? then [piece.expr] else []
  {
    hide Mask;
    RenderConcat(before, [piece], Mask);
    ExprsConcat(before, [piece]);
    assert [piece][1..] == [];
  }

  lemma NoPieces(raw: string)
    ensures Render([], Mask) == [] && Exprs([]) == []
    ensures Ahead(PiecesFrom(raw, 0, 0), [], PiecesFrom(raw, 0, 0))
  {
    hide PiecesFrom;
    if PiecesFrom(raw, 0, 0).Some? { assert [] + PiecesFrom(raw, 0, 0).value == PiecesFrom(raw, 0, 0).value; }
  }

  lemma PiecesAtEnd(raw: string, i: nat, k: nat)
    requires i >= |raw|
    ensures PiecesFrom(raw, i, k) == Some([])
  {
  }

  /** The masker as the source runs it. */
  method MaskInterpolations(raw: string) returns (masked: Option<Masked>)
    ensures masked == MaskedOf(raw)
  {
    hide PiecesFrom, HoleEnd, Render, Exprs, Mask, Trim;
    var i: nat, text: string, parts: seq<string> := 0, [], [];
    ghost var before: seq<Piece> := [];
    ghost var whole := PiecesFrom(raw, 0, 0);
    NoPieces(raw);
    while i < |raw|
      invariant text == Render(before, Mask) && parts == Exprs(before)
      invariant Ahead(whole, before, PiecesFrom(raw, i, |parts|))
      decreases |raw| - i
    {
      NextPiece(raw, i, |parts|);
      ghost var piece: Piece;
      if OpensInterpolation(raw, i) {
        var end := CloseHole(raw, i + 2);
        if end.None? {
          return None;
        }
        piece := Hole(|parts|, Trim(raw[i + 2..end.value - 1]));
        text := text + Mask(|parts|);
        parts := parts + [Trim(raw[i + 2..end.value - 1])];
        i := end.value;
      } else {
        piece := Char(raw[i]);
        text := text + [raw[i]];
        i := i + 1;
      }
      OnePieceMore(before, piece);
      PieceAhead(whole, before, piece, PiecesFrom(raw, i, |parts|));
      before := before + [piece];
    }
    PiecesAtEnd(raw, i, |parts|);
    assert before + [] == before;
    masked := Some(Masked(text, parts));
  }

  // ------------------------------------------------------------ expansion

  datatype Expansion = Unparsed | Shape(pattern: string) | Expanded(targets: seq<string>)

  /** `^NUL(\d+)NUL$`: the number of the hole that is this whole segment. */
  function MaskAt(segment: string): Option<nat> {
    if |segment| >= 3 && segment[0] == NUL && segment[|segment| - 1] == NUL
       && forall c | c in segment[1..|segment| - 1] :: IsDigit(c)
    then Some(Number(segment[1..|segment| - 1]))
    else None
  }

  predicate IsMixed(segment: string) {
    NUL in segment && MaskAt(segment).None?
  }

  /** The path of a masked text: query and fragment off, trailing slashes off, split. */
  function PathOf(text: string): seq<string> {
    var split := Split(StripTrailing(Before(Before(text, '#'), '?'), '/'), '/');
    if split[0] == [] then split[1..] else split
  }

  /** Cut at the first segment that only partly is an interpolation, keeping its literal start. */
  function Truncated(segments: seq<string>): seq<string> {
    if exists i | 0 <= i < |segments| :: IsMixed(segments[i]) then
      var at := FirstMixed(segments);
      Filter(segments[..at] + [Before(segments[at], NUL)], (s: string) => |s| > 0)
    else segments
  }

  function FirstMixed(segments: seq<string>): (at: nat)
    requires exists i | 0 <= i < |segments| :: IsMixed(segments[i])
    ensures at < |segments| && IsMixed(segments[at])
    ensures forall i | 0 <= i < at :: !IsMixed(segments[i])
  {
    if IsMixed(segments[0]) then 0
    else
      assert exists i | 0 <= i < |segments| - 1 :: IsMixed(segments[1..][i]) by {
        var i :| 0 <= i < |segments| && IsMixed(segments[i]);
        assert segments[1..][i - 1] == segments[i];
      }
      1 + FirstMixed(segments[1..])
  }

  predicate IsIdentifier(s: string) {
    s != [] && IsWordStart(s[0]) && forall c | c in s :: IsWordPart(c)
  }

  /** Out of range reads as the text `undefined`, as in the source. */
  function PartAt(parts: seq<string>, k: nat): string {
    if k < |parts| then parts[k] else "undefined"
  }

  /** The unions one file declares, by variable: what `resolveDeclaredUnion` answers. */
  type Unions = map<string, seq<string>>

  predicate IsSafeMember(member: string) {
    member != [] && forall c | c in member :: IsDigit(c) || 'A' <= c <= 'Z' || 'a' <= c <= 'z' || c in "._~-"
  }

  /** The facts about resolved unions the expander relies on. */
  predicate WellDeclared(unions: Unions) {
    forall name | name in unions ::
      unions[name] != [] && forall member | member in unions[name] :: IsSafeMember(member)
  }

  predicate IsResolved(expr: string, unions: Unions) {
    IsIdentifier(expr) && expr in unions
  }

  predicate AllResolved(segments: seq<string>, parts: seq<string>, unions: Unions) {
    forall i | 0 <= i < |segments| ::
      MaskAt(segments[i]).Some? ==> IsResolved(PartAt(parts, MaskAt(segments[i]).value), unions)
  }

  /** The strings one segment can stand for. */
  function Alternatives(segment: string, parts: seq<string>, unions: Unions): seq<string> {
    match MaskAt(segment)
    case None => [segment]
    case Some(k) => if PartAt(parts, k) in unions then unions[PartAt(parts, k)] else []
  }

  function AllAlternatives(segments: seq<string>, parts: seq<string>, unions: Unions): seq<seq<string>> {
    seq(|segments|, i requires 0 <= i < |segments| => Alternatives(segments[i], parts, unions))
  }

  /** Every prefix followed by every alternative, prefixes outermost. */
  function Extend(prefixes: seq<string>, alternatives: seq<string>): seq<string> {
    if prefixes == [] then []
    else Suffixed(prefixes[0], alternatives) + Extend(prefixes[1..], alternatives)
  }

  function Suffixed(prefix: string, alternatives: seq<string>): seq<string> {
    seq(|alternatives|, i requires 0 <= i < |alternatives| => prefix + "/" + alternatives[i])
  }

  /** The cross product, as paths. */
  function Products(choices: seq<seq<string>>): seq<string> {
    if choices == [] then [[]]
    else Extend(Products(choices[..|choices| - 1]), choices[|choices| - 1])
  }

  /** First occurrences only. */
  function Distinct(s: seq<string>): (d: seq<string>)
    ensures forall x :: x in d <==> x in s
  {
    if s == [] then []
    else
      var d := Distinct(s[..|s| - 1]);
      assert s == s[..|s| - 1] + [s[|s| - 1]];
      if s[|s| - 1] in d then d else d + [s[|s| - 1]]
  }

  lemma {:induction false} DistinctHasNoRepeats(s: seq<string>)
    ensures NoRepeats(Distinct(s))
  {
    if s != [] { DistinctHasNoRepeats(s[..|s| - 1]); }
  }

  function Normalized(targets: seq<string>): seq<string> {
    seq(|targets|, i requires 0 <= i < |targets| => NormalizeTarget(if targets[i] == [] then "/" else targets[i]))
  }

  function PatternOf(segments: seq<string>): string {
    NormalizeTarget("/" + Join(seq(|segments|, i requires 0 <= i < |segments| =>
      if MaskAt(segments[i]).None? then segments[i] else "*"), '/'))
  }

  function ExpandPath(segments: seq<string>, parts: seq<string>, unions: Unions): Expansion {
    if forall i | 0 <= i < |segments| :: MaskAt(segments[i]).None? then
      Expanded([NormalizeTarget("/" + Join(segments, '/'))])
    else if !AllResolved(segments, parts, unions) then
      Shape(PatternOf(segments))
    else
      Expanded(Distinct(Normalized(Products(AllAlternatives(segments, parts, unions)))))
  }

  function Expand(raw: string, unions: Unions): Expansion {
    match MaskedOf(raw)
    case None => Unparsed
    case Some(masked) => ExpandPath(Truncated(PathOf(masked.text)), masked.parts, unions)
  }

  lemma {:induction false} ExtendConcat(a: seq<string>, b: seq<string>, alternatives: seq<string>)
    ensures Extend(a + b, alternatives) == Extend(a, alternatives) + Extend(b, alternatives)
  {
    if a == [] {
      assert a + b == b;
    } else {
      assert (a + b)[1..] == a[1..] + b;
      ExtendConcat(a[1..], b, alternatives);
    }
  }

  /** The inner loops: every prefix with every alternative. */
  method ExtendAll(expansions: seq<string>, alternatives: seq<string>) returns (next: seq<string>)
    ensures next == Extend(expansions, alternatives)
  {
    next := [];
    for p := 0 to |expansions|
      invariant next == Extend(expansions[..p], alternatives)
    {
      for a := 0 to |alternatives|
        invariant next == Extend(expansions[..p], alternatives) + Suffixed(expansions[p], alternatives[..a])
      {
        next := next + [expansions[p] + "/" + alternatives[a]];
      }
      assert alternatives[..|alternatives|] == alternatives;
      assert expansions[..p + 1] == expansions[..p] + [expansions[p]];
      ExtendConcat(expansions[..p], [expansions[p]], alternatives);
      assert Extend([expansions[p]], alternatives) == Suffixed(expansions[p], alternatives);
    }
    assert expansions[..|expansions|] == expansions;
  }

  lemma ProductsStep(segments: seq<string>, parts: seq<string>, unions: Unions, i: nat)
    requires i < |segments|
    ensures Products(AllAlternatives(segments[..i + 1], parts, unions))
         == Extend(Products(AllAlternatives(segments[..i], parts, unions)), Alternatives(segments[i], parts, unions))
  {
    var choices := AllAlternatives(segments[..i + 1], parts, unions);
    assert choices[..i] == AllAlternatives(segments[..i], parts, unions);
  }

  /** The outer loop over the segments, taking the next union at every hole. */
  method CrossProduct(segments: seq<string>, parts: seq<string>, unions: Unions, ordered: seq<seq<string>>)
    returns (expansions: seq<string>)
    requires ordered == UnionsInOrder(segments, parts, unions)
    ensures expansions == Products(AllAlternatives(segments, parts, unions))
  {
    expansions := [[]];
    var cursor := 0;
    for i := 0 to |segments|
      invariant cursor == |UnionsInOrder(segments[..i], parts, unions)| <= |ordered|
      invariant expansions == Products(AllAlternatives(segments[..i], parts, unions))
    {
      UnionsInOrderSplit(segments, parts, unions, i);
      ProductsStep(segments, parts, unions, i);
      var alternatives := [segments[i]];
      if MaskAt(segments[i]).Some? {
        alternatives := ordered[cursor];
        cursor := cursor + 1;
      }
      expansions := ExtendAll(expansions, alternatives);
    }
    assert segments[..|segments|] == segments;
  }

  /** The unions of the holes, in path order: what the cursor walks along. */
  function UnionsInOrder(segments: seq<string>, parts: seq<string>, unions: Unions): seq<seq<string>> {
    if segments == [] then []
    else
      var last := segments[|segments| - 1];
      UnionsInOrder(segments[..|segments| - 1], parts, unions) +
      if MaskAt(last).Some? then [Alternatives(last, parts, unions)] else []
  }

  lemma {:induction false} UnionsInOrderSplit(segments: seq<string>, parts: seq<string>, unions: Unions, i: nat)
    requires i < |segments|
    ensures var done := UnionsInOrder(segments[..i], parts, unions);
            var through := UnionsInOrder(segments[..i + 1], parts, unions);
            && through == done + (if MaskAt(segments[i]).Some? then [Alternatives(segments[i], parts, unions)] else [])
            && through <= UnionsInOrder(segments, parts, unions)
    decreases |segments|
  {
    var front := segments[..|segments| - 1];
    if i < |front| {
      assert front[..i] == segments[..i] && front[..i + 1] == segments[..i + 1];
      UnionsInOrderSplit(front, parts, unions, i);
    } else {
      assert segments[..i + 1] == segments && front == segments[..i];
    }
  }

  /** The loop that looks every hole up: the unions found, and whether one was missing. */
  method CollectUnions(segments: seq<string>, parts: seq<string>, unions: Unions)
    returns (holes: nat, ordered: seq<seq<string>>, unresolved: bool)
    ensures holes == 0 <==> forall i | 0 <= i < |segments| :: MaskAt(segments[i]).None?
    ensures !unresolved <==> AllResolved(segments, parts, unions)
    ensures !unresolved ==> ordered == UnionsInOrder(segments, parts, unions)
  {
    holes, ordered, unresolved := 0, [], false;
    for i := 0 to |segments|
      invariant holes == 0 <==> forall j | 0 <= j < i :: MaskAt(segments[j]).None?
      invariant !unresolved <==> AllResolved(segments[..i], parts, unions)
      invariant !unresolved ==> ordered == UnionsInOrder(segments[..i], parts, unions)
    {
      assert segments[..i + 1] == segments[..i] + [segments[i]];
      assert segments[..i + 1][..i] == segments[..i] && segments[..i + 1][i] == segments[i];
      var at := MaskAt(segments[i]);
      if at.Some? {
        holes := holes + 1;
        var expression := PartAt(parts, at.value);
        if IsIdentifier(expression) && expression in unions {
          ordered := ordered + [unions[expression]];
        } else {
          unresolved := true;
        }
      }
    }
    assert segments[..|segments|] == segments;
  }

  /** The expander as the source runs it. */
  method ExpandTemplateTarget(raw: string, unions: Unions) returns (expansion: Expansion)
    ensures expansion == Expand(raw, unions)
  {
    var masked := MaskInterpolations(raw);
    if masked.None? {
      return Unparsed;
    }
    var segments := Truncated(PathOf(masked.value.text));
    var holes, ordered, unresolved := CollectUnions(segments, masked.value.parts, unions);
    if holes == 0 {
      return Expanded([NormalizeTarget("/" + Join(segments, '/'))]);
    }
    if unresolved {
      return Shape(PatternOf(segments));
    }
    var expansions := CrossProduct(segments, masked.value.parts, unions, ordered);
    return Expanded(Distinct(Normalized(expansions)));
  }
}
