/**
 What an expansion means at run time: a template whose holes are whole path segments
 with declared unions expands to exactly the targets its values can produce.
 */
module ExpansionMeaning {
  import opened Text
  import opened RouteMatcher
  import opened TemplateExpansion

  // ------------------------------------------------------------ values and masks alike

  /** A value that cannot disturb the path it is written into. */
  predicate IsClean(w: string) {
    w != [] && forall c | c in w :: c != '#' && c != '?' && c != '/'
  }

  ghost predicate CleanOn(pieces: seq<Piece>, value: nat -> string) {
    forall p | p in pieces && p.Hole? :: IsClean(value(p.k))
  }

  lemma MaskIsClean(k: nat)
    ensures IsClean(Mask(k))
  {
    forall c | c in Mask(k) ensures c != '#' && c != '?' && c != '/' {
      assert c == NUL || c in Digits(k);
    }
  }

  lemma MemberIsClean(member: string)
    requires IsSafeMember(member)
    ensures IsClean(member)
  {
  }

  // ------------------------------------------------------------ query and fragment

  function BeforeBoth(s: string): string {
    Before(Before(s, '#'), '?')
  }

  function CutPieces(pieces: seq<Piece>): (cut: seq<Piece>)
    ensures forall p | p in cut :: p in pieces
  {
    if pieces == [] || pieces[0] == Char('#') || pieces[0] == Char('?') then []
    else [pieces[0]] + CutPieces(pieces[1..])
  }

  lemma BeforeBothCons(c: char, s: string)
    ensures BeforeBoth([c] + s) == if c == '#' || c == '?' then [] else [c] + BeforeBoth(s)
  {
    assert ([c] + s)[1..] == s;
    if c != '#' {
      assert Before([c] + s, '#') == [c] + Before(s, '#');
      assert ([c] + Before(s, '#'))[1..] == Before(s, '#');
    }
  }

  lemma {:induction false} BeforeBothRun(w: string, s: string)
    requires forall c | c in w :: c != '#' && c != '?'
    ensures BeforeBoth(w + s) == w + BeforeBoth(s)
  {
    if w == [] {
      assert w + s == s;
    } else {
      assert w[0] in w && forall c | c in w[1..] :: c in w;
      assert w + s == [w[0]] + (w[1..] + s);
      BeforeBothCons(w[0], w[1..] + s);
      BeforeBothRun(w[1..], s);
      assert [w[0]] + (w[1..] + BeforeBoth(s)) == w + BeforeBoth(s);
    }
  }

  lemma {:induction false} CutRender(pieces: seq<Piece>, value: nat -> string)
    requires CleanOn(CutPieces(pieces), value)
    ensures BeforeBoth(Render(pieces, value)) == Render(CutPieces(pieces), value)
  {
    if pieces != [] {
      var rest := Render(pieces[1..], value);
      if pieces[0] == Char('#') || pieces[0] == Char('?') {
        BeforeBothCons(pieces[0].c, rest);
      } else {
        var cut := CutPieces(pieces[1..]);
        assert CutPieces(pieces)[1..] == cut && CutPieces(pieces)[0] == pieces[0];
        CutRender(pieces[1..], value);
        if pieces[0].Char? {
          BeforeBothCons(pieces[0].c, rest);
        } else {
          assert pieces[0] in CutPieces(pieces);
          BeforeBothRun(value(pieces[0].k), rest);
        }
      }
    }
  }

  // ------------------------------------------------------------ trailing slashes

  function StripPieces(pieces: seq<Piece>): (stripped: seq<Piece>)
    ensures forall p | p in stripped :: p in pieces
    ensures stripped <= pieces
  {
    if pieces != [] && pieces[|pieces| - 1] == Char('/') then StripPieces(pieces[..|pieces| - 1]) else pieces
  }

  lemma {:induction false} StripRender(pieces: seq<Piece>, value: nat -> string)
    requires CleanOn(pieces, value)
    ensures StripTrailing(Render(pieces, value), '/') == Render(StripPieces(pieces), value)
  {
    if pieces != [] {
      var front, last := pieces[..|pieces| - 1], pieces[|pieces| - 1];
      assert pieces == front + [last] && last in pieces;
      RenderConcat(front, [last], value);
      var text := Render([last], value);
      assert text == if last.Char? then [last.c] else value(last.k);
      assert Render(pieces, value)[..|Render(front, value)|] == Render(front, value);
      if last == Char('/') {
        StripRender(front, value);
      } else if last.Hole? {
        assert text[|text| - 1] in text;
      }
    }
  }

  // ------------------------------------------------------------ splitting

  function SplitPieces(pieces: seq<Piece>): (parts: seq<seq<Piece>>)
    ensures |parts| >= 1
    ensures forall part, p | part in parts && p in part :: p in pieces && p != Char('/')
  {
    if pieces == [] then [[]]
    else
      var rest := SplitPieces(pieces[1..]);
      if pieces[0] == Char('/') then [[]] + rest else [[pieces[0]] + rest[0]] + rest[1..]
  }

  function RenderAll(parts: seq<seq<Piece>>, value: nat -> string): (texts: seq<string>)
    ensures |texts| == |parts|
  {
    seq(|parts|, i requires 0 <= i < |parts| => Render(parts[i], value))
  }

  lemma RenderFirst(piece: Piece, rest: seq<seq<Piece>>, value: nat -> string)
    requires rest != []
    ensures RenderAll([[piece] + rest[0]] + rest[1..], value)
         == [Render([piece], value) + RenderAll(rest, value)[0]] + RenderAll(rest, value)[1..]
  {
    RenderConcat([piece], rest[0], value);
  }

  lemma RenderAllLead(parts: seq<seq<Piece>>, value: nat -> string)
    ensures RenderAll([[]] + parts, value) == [[]] + RenderAll(parts, value)
  {
  }

  lemma {:induction false} SplitRender(pieces: seq<Piece>, value: nat -> string)
    requires CleanOn(pieces, value)
    ensures Split(Render(pieces, value), '/') == RenderAll(SplitPieces(pieces), value)
  {
    if pieces != [] {
      var rest := SplitPieces(pieces[1..]);
      var tail := Render(pieces[1..], value);
      assert pieces[0] in pieces && forall p | p in pieces[1..] :: p in pieces;
      SplitRender(pieces[1..], value);
      RenderConcat([pieces[0]], pieces[1..], value);
      assert pieces == [pieces[0]] + pieces[1..];
      var head := Render([pieces[0]], value);
      assert head == if pieces[0].Char? then [pieces[0].c] else value(pieces[0].k);
      if pieces[0] == Char('/') {
        assert (head + tail)[1..] == tail;
        RenderAllLead(rest, value);
      } else {
        SplitRun(head, tail, '/');
        RenderFirst(pieces[0], rest, value);
      }
    }
  }

  // ------------------------------------------------------------ the path of a template

  /** The segments of the path part of a template that begins with a slash. */
  function PathPieces(pieces: seq<Piece>): seq<seq<Piece>> {
    SplitPieces(StripPieces(CutPieces(pieces)))[1..]
  }

  lemma LeadingSlash(q: seq<Piece>, value: nat -> string)
    requires q != [] && q[0] == Char('/') && CleanOn(q, value)
    ensures SplitPieces(q) == [[]] + SplitPieces(q)[1..]
    ensures Render(q, value) == Lead(RenderAll(SplitPieces(q)[1..], value), '/')
    ensures SplitPieces(q)[1..] != []
  {
    var texts := RenderAll(SplitPieces(q)[1..], value);
    SplitRender(q, value);
    RenderAllLead(SplitPieces(q)[1..], value);
    JoinOfSplit(Render(q, value), '/');
    JoinLead(texts, '/');
  }

  lemma StrippedText(pieces: seq<Piece>, value: nat -> string)
    requires CleanOn(CutPieces(pieces), value)
    ensures StripTrailing(BeforeBoth(Render(pieces, value)), '/') == Render(StripPieces(CutPieces(pieces)), value)
    ensures CleanOn(StripPieces(CutPieces(pieces)), value)
  {
    CutRender(pieces, value);
    StripRender(CutPieces(pieces), value);
  }

  /** The path of a text, and its normal form, by what is left when the tail is cut off. */
  lemma PathOfStripped(text: string, stripped: string)
    requires stripped == StripTrailing(BeforeBoth(text), '/')
    ensures PathOf(text) == if Split(stripped, '/')[0] == [] then Split(stripped, '/')[1..] else Split(stripped, '/')
    ensures NormalizeTarget(text) == if stripped == [] then "/" else stripped
  {
  }

  lemma RenderAllTail(parts: seq<seq<Piece>>, value: nat -> string)
    requires parts != []
    ensures RenderAll(parts, value)[1..] == RenderAll(parts[1..], value)
    ensures RenderAll(parts, value)[0] == Render(parts[0], value)
  {
  }

  /** Nothing is left of the path: the root. */
  lemma RootRender(q: seq<Piece>, value: nat -> string)
    requires q == []
    ensures Render(q, value) == [] && SplitPieces(q) == [[]]
  {
  }

  lemma PathRender(pieces: seq<Piece>, value: nat -> string)
    requires pieces != [] && pieces[0] == Char('/') && CleanOn(CutPieces(pieces), value)
    ensures PathOf(Render(pieces, value)) == RenderAll(PathPieces(pieces), value)
    ensures NormalizeTarget(Render(pieces, value)) == Spell(RenderAll(PathPieces(pieces), value))
  {
    hide PathOf, NormalizeTarget, Split, StripTrailing, BeforeBoth, Render, SplitPieces, RenderAll, CleanOn;
    var q := StripPieces(CutPieces(pieces));
    var stripped := Render(q, value);
    StrippedText(pieces, value);
    PathOfStripped(Render(pieces, value), stripped);
    SplitRender(q, value);
    var parts := SplitPieces(q);
    if q != [] {
      assert q[0] == CutPieces(pieces)[0] == pieces[0];
      LeadingSlash(q, value);
      RenderAllTail(parts, value);
      LeadIsNot(RenderAll(parts[1..], value));
      EmptyFirst(parts, value);
    } else {
      RootRender(q, value);
      RenderAllTail(parts, value);
      EmptyFirst(parts, value);
    }
  }

  lemma LeadIsNot(choice: seq<string>)
    ensures choice != [] ==> Lead(choice, '/') != []
  {
  }

  lemma EmptyFirst(parts: seq<seq<Piece>>, value: nat -> string)
    requires parts != [] && parts[0] == []
    ensures RenderAll(parts, value)[0] == []
  {
  }

  lemma {:induction false} JoinOfSplit(s: string, sep: char)
    ensures Join(Split(s, sep), sep) == s
  {
    if s != [] {
      JoinOfSplit(s[1..], sep);
      var rest := Split(s[1..], sep);
      if s[0] == sep {
        assert ([[]] + rest)[1..] == rest;
      } else if |rest| > 1 {
        assert ([[s[0]] + rest[0]] + rest[1..])[1..] == rest[1..];
        assert [s[0]] + (rest[0] + [sep] + Join(rest[1..], sep)) == ([s[0]] + rest[0]) + [sep] + Join(rest[1..], sep);
      }
    }
  }

  lemma JoinLead(parts: seq<string>, sep: char)
    ensures Join([[]] + parts, sep) == Lead(parts, sep)
  {
    LeadIsJoin(parts, sep);
    assert ([[]] + parts)[1..] == parts;
  }

  // ------------------------------------------------------------ masks read back

  predicate NoNul(pieces: seq<Piece>) {
    forall p | p in pieces && p.Char? :: p.c != NUL
  }

  lemma {:induction false} NulMeansHole(pieces: seq<Piece>)
    requires NoNul(pieces)
    ensures NUL in Render(pieces, Mask) <==> exists p | p in pieces :: p.Hole?
  {
    if pieces != [] {
      NulMeansHole(pieces[1..]);
      assert pieces[0] in pieces;
      if pieces[0].Hole? {
        assert Mask(pieces[0].k)[0] == NUL;
        assert Render(pieces, Mask)[0] == NUL;
      } else {
        assert Render(pieces, Mask) == [pieces[0].c] + Render(pieces[1..], Mask);
      }
    }
  }

  /** A mask with text behind it is no mask: the closing mark stands among the digits. */
  lemma MaskWithTail(k: nat, tail: string)
    requires tail != []
    ensures MaskAt(Mask(k) + tail).None?
  {
    var text := Mask(k) + tail;
    var middle := text[1..|text| - 1];
    var close := |Mask(k)| - 1;
    assert Mask(k)[close] == NUL;
    assert text[close] == NUL;
    assert middle[close - 1] == NUL;
    assert NUL in middle && !IsDigit(NUL);
  }

  /**
   A masked segment is read back as a hole exactly when it is that hole and nothing else;
   one that mixes a hole with other text is recognised as mixed, and plain text as plain.
   */
  lemma MaskReadBack(pieces: seq<Piece>)
    requires NoNul(pieces)
    ensures MaskAt(Render(pieces, Mask)).Some? <==> |pieces| == 1 && pieces[0].Hole?
    ensures |pieces| == 1 && pieces[0].Hole? ==> MaskAt(Render(pieces, Mask)) == Some(pieces[0].k)
    ensures IsMixed(Render(pieces, Mask)) <==> |pieces| > 1 && exists p | p in pieces :: p.Hole?
  {
    NulMeansHole(pieces);
    if pieces != [] && pieces[0].Hole? {
      var k := pieces[0].k;
      assert Render(pieces, Mask) == Mask(k) + Render(pieces[1..], Mask);
      if |pieces| == 1 {
        assert Render(pieces, Mask) == Mask(k);
        assert Mask(k)[1..|Mask(k)| - 1] == Digits(k);
        NumberOfDigits(k);
        assert pieces[0] in pieces;
      } else {
        SomethingRendered(pieces[1..]);
        MaskWithTail(k, Render(pieces[1..], Mask));
      }
    } else if pieces != [] {
      assert pieces[0] in pieces;
      assert Render(pieces, Mask)[0] == pieces[0].c;
    }
  }

  lemma SomethingRendered(pieces: seq<Piece>)
    requires pieces != []
    ensures Render(pieces, Mask) != []
  {
  }

  // ------------------------------------------------------------ pieces of a source

  /** Holes are numbered from `k` on, in order. */
  ghost predicate Numbered(pieces: seq<Piece>, k: nat) {
    pieces != [] ==>
      if pieces[0].Hole? then pieces[0].k == k && Numbered(pieces[1..], k + 1) else Numbered(pieces[1..], k)
  }

  lemma {:induction false} PiecesNumbered(raw: string, i: nat, k: nat)
    requires PiecesFrom(raw, i, k).Some?
    ensures Numbered(PiecesFrom(raw, i, k).value, k)
    ensures forall p | p in PiecesFrom(raw, i, k).value && p.Char? :: p.c in raw
    decreases |raw| - i
  {
    if i < |raw| {
      if OpensInterpolation(raw, i) {
        PiecesNumbered(raw, HoleEnd(raw, i + 2, 1).value, k + 1);
      } else {
        PiecesNumbered(raw, i + 1, k);
      }
    }
  }

  /** A numbered hole's number finds its expression in the list of expressions. */
  lemma {:induction false} NumberFindsExpr(pieces: seq<Piece>, k: nat, p: Piece)
    requires Numbered(pieces, k) && p in pieces && p.Hole?
    ensures k <= p.k < k + |Exprs(pieces)| && Exprs(pieces)[p.k - k] == p.expr
  {
    var first, rest := pieces[0], pieces[1..];
    assert pieces == [first] + rest;
    var head: seq<string> := if first.Hole? then [first.expr] else [];
    assert Exprs(pieces) == head + Exprs(rest);
    if p != first {
      var next := if first.Hole? then k + 1 else k;
      NumberFindsExpr(rest, next, p);
      assert (head + Exprs(rest))[p.k - k] == Exprs(rest)[p.k - next];
    }
  }

  lemma {:induction false} NumberedPrefix(prefix: seq<Piece>, pieces: seq<Piece>, k: nat)
    requires prefix <= pieces && Numbered(pieces, k)
    ensures Numbered(prefix, k)
  {
    if prefix != [] {
      NumberedPrefix(prefix[1..], pieces[1..], if pieces[0].Hole? then k + 1 else k);
    }
  }

  ghost predicate NumberedParts(parts: seq<seq<Piece>>, k: nat) {
    parts != [] ==> Numbered(parts[0], k) && NumberedParts(parts[1..], k + |Exprs(parts[0])|)
  }

  /** Splitting keeps the numbering. */
  lemma {:induction false} SplitKeepsNumbers(pieces: seq<Piece>, k: nat)
    requires Numbered(pieces, k)
    ensures NumberedParts(SplitPieces(pieces), k)
  {
    if pieces != [] {
      var rest := SplitPieces(pieces[1..]);
      SplitKeepsNumbers(pieces[1..], if pieces[0].Hole? then k + 1 else k);
      if pieces[0] == Char('/') {
        assert ([[]] + rest)[1..] == rest;
      } else {
        var first := [pieces[0]] + rest[0];
        assert first[1..] == rest[0];
        assert ([first] + rest[1..])[1..] == rest[1..];
      }
    }
  }

  /** Later segments hold later holes. */
  lemma {:induction false} PartsAscend(parts: seq<seq<Piece>>, k: nat, i: nat)
    requires NumberedParts(parts, k) && i < |parts| && IsHoleSegment(parts[i])
    ensures k <= parts[i][0].k
    ensures forall j | i < j < |parts| && IsHoleSegment(parts[j]) :: parts[i][0].k < parts[j][0].k
  {
    var later := k + |Exprs(parts[0])|;
    var rest := parts[1..];
    assert forall j | 1 <= j < |parts| :: parts[j] == rest[j - 1];
    if i > 0 {
      PartsAscend(rest, later, i - 1);
    } else {
      assert parts[0] == [parts[0][0]] && Exprs(parts[0][1..]) == [];
      assert |Exprs(parts[0])| == 1;
      forall j | 0 < j < |parts| && IsHoleSegment(parts[j])
        ensures k < parts[j][0].k
      {
        PartsAscend(rest, later, j - 1);
      }
    }
  }

  // ------------------------------------------------------------ the cross product

  ghost predicate Chooses(choice: seq<string>, choices: seq<seq<string>>) {
    |choice| == |choices| && forall i | 0 <= i < |choices| :: choice[i] in choices[i]
  }

  lemma {:induction false} ExtendMembers(prefixes: seq<string>, alternatives: seq<string>, s: string)
    ensures s in Extend(prefixes, alternatives) <==>
              exists p, a | p in prefixes && a in alternatives :: s == p + "/" + a
  {
    if prefixes != [] {
      ExtendMembers(prefixes[1..], alternatives, s);
      if s in Suffixed(prefixes[0], alternatives) {
        var i :| 0 <= i < |alternatives| && Suffixed(prefixes[0], alternatives)[i] == s;
        assert alternatives[i] in alternatives && s == prefixes[0] + "/" + alternatives[i];
      }
      if p, a :| p in prefixes && a in alternatives && s == p + "/" + a {
        if p == prefixes[0] {
          var i :| 0 <= i < |alternatives| && alternatives[i] == a;
          assert Suffixed(p, alternatives)[i] == s;
        } else {
          assert p in prefixes[1..];
        }
      }
    }
  }

  lemma {:induction false} LeadSnoc(parts: seq<string>, last: string)
    ensures Lead(parts + [last], '/') == Lead(parts, '/') + "/" + last
  {
    if parts != [] {
      assert (parts + [last])[1..] == parts[1..] + [last];
      LeadSnoc(parts[1..], last);
    }
  }

  lemma {:induction false} ProductIsChoice(choices: seq<seq<string>>, s: string) returns (choice: seq<string>)
    requires s in Products(choices)
    ensures Chooses(choice, choices) && s == Lead(choice, '/')
  {
    if choices == [] {
      choice := [];
    } else {
      var front, last := choices[..|choices| - 1], choices[|choices| - 1];
      ExtendMembers(Products(front), last, s);
      var p, a :| p in Products(front) && a in last && s == p + "/" + a;
      var head := ProductIsChoice(front, p);
      LeadSnoc(head, a);
      choice := head + [a];
    }
  }

  lemma {:induction false} ChoiceIsProduct(choices: seq<seq<string>>, choice: seq<string>)
    requires Chooses(choice, choices)
    ensures Lead(choice, '/') in Products(choices)
  {
    if choices != [] {
      var front, last := choices[..|choices| - 1], choices[|choices| - 1];
      var head, tail := choice[..|choice| - 1], choice[|choice| - 1];
      assert choice == head + [tail] && tail in last;
      assert Chooses(head, front);
      ChoiceIsProduct(front, head);
      LeadSnoc(head, tail);
      ExtendMembers(Products(front), last, Lead(choice, '/'));
    }
  }

  /** The cross product is exactly the paths one choice per segment can spell. */
  lemma ProductsMeaning(choices: seq<seq<string>>, s: string)
    ensures s in Products(choices) <==> exists choice :: Chooses(choice, choices) && s == Lead(choice, '/')
  {
    if s in Products(choices) {
      var choice := ProductIsChoice(choices, s);
    }
    if choice :| Chooses(choice, choices) && s == Lead(choice, '/') {
      ChoiceIsProduct(choices, choice);
    }
  }

  // ------------------------------------------------------------ the theorem

  ghost predicate IsHoleSegment(segment: seq<Piece>) {
    |segment| == 1 && segment[0].Hole?
  }

  /** A segment with a hole in it is that hole and nothing else. */
  ghost predicate WholeSegments(path: seq<seq<Piece>>) {
    forall i | 0 <= i < |path| :: (exists p | p in path[i] :: p.Hole?) ==> |path[i]| == 1
  }

  /** Every hole of the path has a declared union. */
  ghost predicate Resolvable(path: seq<seq<Piece>>, unions: Unions) {
    forall i | 0 <= i < |path| && IsHoleSegment(path[i]) :: IsResolved(path[i][0].expr, unions)
  }

  /** A template that begins with a slash and interpolates whole path segments only. */
  ghost predicate PathLike(raw: string) {
    && NUL !in raw && raw != [] && raw[0] == '/'
    && PiecesFrom(raw, 0, 0).Some?
    && WholeSegments(PathPieces(PiecesFrom(raw, 0, 0).value))
  }

  /** Every hole of the path takes a member of its union, on its own; later holes are unconstrained. */
  ghost predicate IsRun(path: seq<seq<Piece>>, unions: Unions, value: nat -> string) {
    forall i | 0 <= i < |path| && IsHoleSegment(path[i]) ::
      path[i][0].expr in unions && value(path[i][0].k) in unions[path[i][0].expr]
  }

  /** What the template evaluates to in one run. */
  ghost function RunTarget(raw: string, value: nat -> string): string
    requires PiecesFrom(raw, 0, 0).Some?
  {
    Render(PiecesFrom(raw, 0, 0).value, value)
  }

  /** A path-like template the expander can resolve completely. */
  ghost predicate FullyDeclared(raw: string, unions: Unions) {
    PathLike(raw) && WellDeclared(unions) && Resolvable(PathPieces(PiecesFrom(raw, 0, 0).value), unions)
  }

  /** Path pieces are pieces of the template. */
  lemma PathPiecesAreLocal(pieces: seq<Piece>, i: nat, p: Piece)
    requires i < |PathPieces(pieces)| && p in PathPieces(pieces)[i]
    ensures p in pieces
  {
    var q := StripPieces(CutPieces(pieces));
    assert PathPieces(pieces)[i] == SplitPieces(q)[i + 1];
    assert p in q;
    assert p in CutPieces(pieces);
  }

  lemma PathPiecesFromRaw(raw: string)
    requires PathLike(raw)
    ensures var pieces := PiecesFrom(raw, 0, 0).value;
            var path := PathPieces(pieces);
            && pieces != [] && pieces[0] == Char('/')
            && (forall i | 0 <= i < |path| :: NoNul(path[i]))
            && (forall i | 0 <= i < |path| && IsHoleSegment(path[i]) ::
                  PartAt(Exprs(pieces), path[i][0].k) == path[i][0].expr)
  {
    var pieces := PiecesFrom(raw, 0, 0).value;
    var path := PathPieces(pieces);
    PiecesNumbered(raw, 0, 0);
    hide PiecesFrom, PathPieces, Exprs;
    forall i | 0 <= i < |path|
      ensures NoNul(path[i])
    {
      forall p: Piece | p in path[i] && p.Char? ensures p.c != NUL { PathPiecesAreLocal(pieces, i, p); }
    }
    forall i | 0 <= i < |path| && IsHoleSegment(path[i])
      ensures PartAt(Exprs(pieces), path[i][0].k) == path[i][0].expr
    {
      PathPiecesAreLocal(pieces, i, path[i][0]);
      NumberFindsExpr(pieces, 0, path[i][0]);
    }
  }

  lemma {:induction false} NoSlashInSegment(segment: seq<Piece>, value: nat -> string)
    requires forall p | p in segment :: p != Char('/') && (p.Hole? ==> IsClean(value(p.k)))
    ensures '/' !in Render(segment, value)
  {
    if segment != [] {
      assert segment[0] in segment && forall p | p in segment[1..] :: p in segment;
      NoSlashInSegment(segment[1..], value);
    }
  }

  lemma PathSegmentIsLocal(pieces: seq<Piece>, i: nat)
    requires i < |PathPieces(pieces)|
    ensures forall p | p in PathPieces(pieces)[i] :: p != Char('/') && (p.Hole? ==> p in CutPieces(pieces))
  {
    var q := StripPieces(CutPieces(pieces));
    assert PathPieces(pieces)[i] == SplitPieces(q)[i + 1];
    forall p | p in PathPieces(pieces)[i] ensures p in CutPieces(pieces) { assert p in q; }
  }

  ghost predicate DistinctHoles(path: seq<seq<Piece>>) {
    forall i, j | 0 <= i < j < |path| && IsHoleSegment(path[i]) && IsHoleSegment(path[j]) ::
      path[i][0].k < path[j][0].k
  }

  lemma PathHolesDistinct(raw: string)
    requires PathLike(raw)
    ensures DistinctHoles(PathPieces(PiecesFrom(raw, 0, 0).value))
  {
    var pieces := PiecesFrom(raw, 0, 0).value;
    var q := StripPieces(CutPieces(pieces));
    var path := PathPieces(pieces);
    PiecesNumbered(raw, 0, 0);
    CutIsPrefix(pieces);
    NumberedPrefix(q, pieces, 0);
    SplitKeepsNumbers(q, 0);
    forall i, j | 0 <= i < j < |path| && IsHoleSegment(path[i]) && IsHoleSegment(path[j])
      ensures path[i][0].k < path[j][0].k
    {
      assert path[i] == SplitPieces(q)[i + 1] && path[j] == SplitPieces(q)[j + 1];
      PartsAscend(SplitPieces(q), 0, i + 1);
    }
  }

  lemma FirstPartIsEmpty(q: seq<Piece>, p: Piece) returns (i: nat)
    requires q != [] && q[0] == Char('/') && p in q && p.Hole?
    ensures i < |SplitPieces(q)[1..]| && p in SplitPieces(q)[1..][i]
  {
    var at := PieceIsInSomePart(q, p);
    assert SplitPieces(q)[0] == [];
    i := at - 1;
  }

  /** Every hole before the query is a segment of the path. */
  lemma HoleIsSegment(pieces: seq<Piece>, p: Piece) returns (i: nat)
    requires pieces != [] && pieces[0] == Char('/') && WholeSegments(PathPieces(pieces))
    requires p in CutPieces(pieces) && p.Hole?
    ensures i < |PathPieces(pieces)| && PathPieces(pieces)[i] == [p]
  {
    var q := StripPieces(CutPieces(pieces));
    HolesSurviveStrip(CutPieces(pieces), p);
    CutIsPrefix(pieces);
    assert q <= pieces && p in q;
    i := FirstPartIsEmpty(q, p);
    WholeSegment(PathPieces(pieces), i, p);
  }

  lemma WholeSegment(path: seq<seq<Piece>>, i: nat, p: Piece)
    requires WholeSegments(path) && i < |path| && p in path[i] && p.Hole?
    ensures path[i] == [p]
  {
  }

  lemma {:induction false} CutIsPrefix(pieces: seq<Piece>)
    ensures CutPieces(pieces) <= pieces
  {
    if pieces != [] { CutIsPrefix(pieces[1..]); }
  }

  lemma {:induction false} HolesSurviveStrip(pieces: seq<Piece>, p: Piece)
    requires p in pieces && p.Hole?
    ensures p in StripPieces(pieces)
  {
    if pieces[|pieces| - 1] == Char('/') {
      HolesSurviveStrip(pieces[..|pieces| - 1], p);
    }
  }

  lemma {:induction false} PieceIsInSomePart(pieces: seq<Piece>, p: Piece) returns (i: nat)
    requires p in pieces && p != Char('/')
    ensures i < |SplitPieces(pieces)| && p in SplitPieces(pieces)[i]
  {
    var rest := SplitPieces(pieces[1..]);
    if p == pieces[0] {
      i := 0;
    } else {
      i := PieceIsInSomePart(pieces[1..], p);
      if pieces[0] == Char('/') { i := i + 1; }
    }
  }

  lemma RunIsClean(raw: string, unions: Unions, value: nat -> string)
    requires FullyDeclared(raw, unions)
    requires IsRun(PathPieces(PiecesFrom(raw, 0, 0).value), unions, value)
    ensures CleanOn(CutPieces(PiecesFrom(raw, 0, 0).value), value)
  {
    var pieces := PiecesFrom(raw, 0, 0).value;
    var path := PathPieces(pieces);
    PathPiecesFromRaw(raw);
    forall p | p in CutPieces(pieces) && p.Hole?
      ensures IsClean(value(p.k))
    {
      var i := HoleIsSegment(pieces, p);
      assert IsHoleSegment(path[i]);
      MemberIsClean(value(p.k));
    }
  }

  /** A masked segment reads back as its hole; any other segment reads as its own text. */
  lemma SegmentReadsBack(raw: string, i: nat)
    requires PathLike(raw) && i < |PathPieces(PiecesFrom(raw, 0, 0).value)|
    ensures var segment := PathPieces(PiecesFrom(raw, 0, 0).value)[i];
            var text := Render(segment, Mask);
            && !IsMixed(text)
            && (IsHoleSegment(segment) ==> MaskAt(text) == Some(segment[0].k))
            && (!IsHoleSegment(segment) ==>
                  MaskAt(text).None? && forall value: nat -> string :: Render(segment, value) == text)
  {
    PathPiecesFromRaw(raw);
    var segment := PathPieces(PiecesFrom(raw, 0, 0).value)[i];
    MaskReadBack(segment);
    if IsHoleSegment(segment) {
      assert segment[0] in segment;
    } else {
      assert !(exists p | p in segment :: p.Hole?);
      forall value: nat -> string ensures Render(segment, value) == Render(segment, Mask) {
        RenderPlain(segment, value, Mask);
      }
    }
  }

  /** The alternatives of a masked segment are the values its hole can take, or its own text. */
  lemma SegmentAlternatives(raw: string, unions: Unions, i: nat)
    requires FullyDeclared(raw, unions) && i < |PathPieces(PiecesFrom(raw, 0, 0).value)|
    ensures var pieces := PiecesFrom(raw, 0, 0).value;
            var segment := PathPieces(pieces)[i];
            var text := Render(segment, Mask);
            && (IsHoleSegment(segment) ==>
                  && IsResolved(PartAt(Exprs(pieces), segment[0].k), unions)
                  && Alternatives(text, Exprs(pieces), unions) == unions[segment[0].expr])
            && (!IsHoleSegment(segment) ==> Alternatives(text, Exprs(pieces), unions) == [text])
  {
    PathPiecesFromRaw(raw);
    SegmentReadsBack(raw, i);
  }

  lemma {:induction false} RenderPlain(pieces: seq<Piece>, v: nat -> string, w: nat -> string)
    requires !(exists p | p in pieces :: p.Hole?)
    ensures Render(pieces, v) == Render(pieces, w)
  {
    if pieces != [] {
      assert pieces[0] in pieces;
      assert forall p | p in pieces[1..] :: p in pieces;
      RenderPlain(pieces[1..], v, w);
    }
  }

  /** The masked path of a path-like template has no mixed segment to truncate at. */
  lemma MaskedPath(raw: string)
    requires PathLike(raw)
    ensures var pieces := PiecesFrom(raw, 0, 0).value;
            Truncated(PathOf(Render(pieces, Mask))) == RenderAll(PathPieces(pieces), Mask)
  {
    var pieces := PiecesFrom(raw, 0, 0).value;
    PathPiecesFromRaw(raw);
    forall p | p in CutPieces(pieces) && p.Hole? ensures IsClean(Mask(p.k)) { MaskIsClean(p.k); }
    PathRender(pieces, Mask);
    forall i | 0 <= i < |PathPieces(pieces)|
      ensures !IsMixed(RenderAll(PathPieces(pieces), Mask)[i])
    {
      SegmentReadsBack(raw, i);
    }
  }

  lemma DeclaredPathResolves(raw: string, unions: Unions)
    requires FullyDeclared(raw, unions)
    ensures var pieces := PiecesFrom(raw, 0, 0).value;
            AllResolved(RenderAll(PathPieces(pieces), Mask), Exprs(pieces), unions)
  {
    var pieces := PiecesFrom(raw, 0, 0).value;
    var segments := RenderAll(PathPieces(pieces), Mask);
    forall i | 0 <= i < |segments|
      ensures MaskAt(segments[i]).Some? ==> IsResolved(PartAt(Exprs(pieces), MaskAt(segments[i]).value), unions)
    {
      SegmentReadsBack(raw, i);
      SegmentAlternatives(raw, unions, i);
    }
  }

  /** A run is one choice per segment of the masked path. */
  lemma RunChooses(raw: string, unions: Unions, value: nat -> string)
    requires FullyDeclared(raw, unions)
    requires IsRun(PathPieces(PiecesFrom(raw, 0, 0).value), unions, value)
    ensures var pieces := PiecesFrom(raw, 0, 0).value;
            var path := PathPieces(pieces);
            Chooses(RenderAll(path, value), AllAlternatives(RenderAll(path, Mask), Exprs(pieces), unions))
  {
    var pieces := PiecesFrom(raw, 0, 0).value;
    var path := PathPieces(pieces);
    forall i | 0 <= i < |path|
      ensures RenderAll(path, value)[i] in AllAlternatives(RenderAll(path, Mask), Exprs(pieces), unions)[i]
    {
      SegmentReadsBack(raw, i);
      SegmentAlternatives(raw, unions, i);
      if IsHoleSegment(path[i]) { assert Render(path[i], value) == value(path[i][0].k); }
    }
  }

  /** One choice per segment of the masked path is a run. */
  lemma ChoiceRuns(raw: string, unions: Unions, choice: seq<string>) returns (value: nat -> string)
    requires FullyDeclared(raw, unions)
    requires Chooses(choice, AllAlternatives(RenderAll(PathPieces(PiecesFrom(raw, 0, 0).value), Mask),
                                             Exprs(PiecesFrom(raw, 0, 0).value), unions))
    ensures IsRun(PathPieces(PiecesFrom(raw, 0, 0).value), unions, value)
    ensures RenderAll(PathPieces(PiecesFrom(raw, 0, 0).value), value) == choice
  {
    var pieces := PiecesFrom(raw, 0, 0).value;
    var path := PathPieces(pieces);
    PathHolesDistinct(raw);
    value := (k: nat) => ValueOf(path, choice, k);
    forall i | 0 <= i < |path|
      ensures Render(path[i], value) == choice[i]
      ensures IsHoleSegment(path[i]) ==> path[i][0].expr in unions && value(path[i][0].k) in unions[path[i][0].expr]
    {
      SegmentReadsBack(raw, i);
      SegmentAlternatives(raw, unions, i);
      assert choice[i] in AllAlternatives(RenderAll(path, Mask), Exprs(pieces), unions)[i];
      if IsHoleSegment(path[i]) {
        ValueOfHole(path, choice, i);
        assert Render(path[i], value) == value(path[i][0].k);
      }
    }
  }

  /** The chosen text of the segment that is hole `k`. */
  function ValueOf(path: seq<seq<Piece>>, choice: seq<string>, k: nat): string {
    if path == [] || choice == [] then []
    else if |path[0]| == 1 && path[0][0].Hole? && path[0][0].k == k then choice[0]
    else ValueOf(path[1..], choice[1..], k)
  }

  lemma {:induction false} ValueOfHole(path: seq<seq<Piece>>, choice: seq<string>, i: nat)
    requires i < |path| == |choice| && IsHoleSegment(path[i])
    requires DistinctHoles(path)
    ensures ValueOf(path, choice, path[i][0].k) == choice[i]
  {
    if i > 0 {
      assert forall j | 0 <= j < |path| - 1 :: path[1..][j] == path[j + 1];
      ValueOfHole(path[1..], choice[1..], i - 1);
    }
  }

  /**
   What the expansion is. For a template whose path holes are whole segments with
   declared unions, the targets are its values, normalized, when every hole takes a
   member of its union on its own.
   */
  lemma ExpansionIsExact(raw: string, unions: Unions)
    requires FullyDeclared(raw, unions)
    ensures Expand(raw, unions).Expanded?
    ensures forall t :: t in Expand(raw, unions).targets <==>
              exists value: nat -> string ::
                IsRun(PathPieces(PiecesFrom(raw, 0, 0).value), unions, value)
                && t == NormalizeTarget(RunTarget(raw, value))
  {
    var pieces := PiecesFrom(raw, 0, 0).value;
    var path := PathPieces(pieces);
    var segments := RenderAll(path, Mask);
    MaskedPath(raw);
    DeclaredPathResolves(raw, unions);
    PathPiecesFromRaw(raw);
    forall value: nat -> string | IsRun(path, unions, value)
      ensures NormalizeTarget(RunTarget(raw, value)) in Expand(raw, unions).targets
    {
      RunIsClean(raw, unions, value);
      PathRender(pieces, value);
      NormalizeIdempotent(RunTarget(raw, value));
      RunChooses(raw, unions, value);
      ChoiceIsExpanded(segments, Exprs(pieces), unions, RenderAll(path, value));
    }
    forall t | t in Expand(raw, unions).targets
      ensures exists value: nat -> string :: IsRun(path, unions, value) && t == NormalizeTarget(RunTarget(raw, value))
    {
      var choice := ExpandedIsChoice(segments, Exprs(pieces), unions, t);
      var value := ChoiceRuns(raw, unions, choice);
      RunIsClean(raw, unions, value);
      PathRender(pieces, value);
      NormalizeIdempotent(RunTarget(raw, value));
    }
  }

  /** The text of a path with its segments written out. */
  function Spell(choice: seq<string>): string {
    if choice == [] then "/" else Lead(choice, '/')
  }

  lemma ChoiceIsExpanded(segments: seq<string>, parts: seq<string>, unions: Unions, choice: seq<string>)
    requires AllResolved(segments, parts, unions) && Chooses(choice, AllAlternatives(segments, parts, unions))
    requires NormalizeTarget(Spell(choice)) == Spell(choice)
    ensures ExpandPath(segments, parts, unions).Expanded?
    ensures Spell(choice) in ExpandPath(segments, parts, unions).targets
  {
    if forall i | 0 <= i < |segments| :: MaskAt(segments[i]).None? {
      assert choice == segments;
      LeadIsJoin(segments, '/');
      assert segments == [] ==> "/" + Join(segments, '/') == "/";
    } else {
      var products := Products(AllAlternatives(segments, parts, unions));
      ProductsMeaning(AllAlternatives(segments, parts, unions), Lead(choice, '/'));
      var i :| 0 <= i < |products| && products[i] == Lead(choice, '/');
      assert Normalized(products)[i] == Spell(choice);
    }
  }

  lemma ExpandedIsChoice(segments: seq<string>, parts: seq<string>, unions: Unions, t: string)
    returns (choice: seq<string>)
    requires AllResolved(segments, parts, unions)
    requires ExpandPath(segments, parts, unions).Expanded? && t in ExpandPath(segments, parts, unions).targets
    ensures Chooses(choice, AllAlternatives(segments, parts, unions)) && t == NormalizeTarget(Spell(choice))
  {
    if forall i | 0 <= i < |segments| :: MaskAt(segments[i]).None? {
      choice := segments;
      LeadIsJoin(segments, '/');
      assert segments == [] ==> "/" + Join(segments, '/') == "/";
    } else {
      var products := Products(AllAlternatives(segments, parts, unions));
      var i :| 0 <= i < |products| && t == Normalized(products)[i];
      assert products[i] in products;
      ProductsMeaning(AllAlternatives(segments, parts, unions), products[i]);
      choice :| Chooses(choice, AllAlternatives(segments, parts, unions)) && products[i] == Lead(choice, '/');
    }
  }

  /** Normalizing is idempotent. */
  lemma NormalizeIdempotent(s: string)
    ensures NormalizeTarget(NormalizeTarget(s)) == NormalizeTarget(s)
  {
    var cut := BeforeBoth(s);
    BeforeKeeps(Before(s, '#'), '?', '#');
    var t := StripTrailing(cut, '/');
    BeforeNothing(t, '#');
    BeforeNothing(t, '?');
    BeforeNothing("/", '#');
    BeforeNothing("/", '?');
  }

  lemma BeforeKeeps(s: string, c: char, d: char)
    requires d !in s
    ensures d !in Before(s, c)
  {
  }

  lemma {:induction false} BeforeNothing(s: string, c: char)
    requires c !in s
    ensures Before(s, c) == s
  {
    if s != [] { BeforeNothing(s[1..], c); }
  }
}
