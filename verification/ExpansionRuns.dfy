/**
 The expansion against what a program does: two holes of one expression have one value,
 and the cross product forgets that.
 */
module ExpansionRuns {
  import opened Text
  import opened RouteMatcher
  import opened TemplateExpansion
  import opened ExpansionMeaning

  ghost function PathIn(raw: string): seq<seq<Piece>>
    requires PiecesFrom(raw, 0, 0).Some?
  {
    PathPieces(PiecesFrom(raw, 0, 0).value)
  }

  /** In a run every expression has one value, and each hole writes the value of its expression. */
  ghost function ValueUnder(raw: string, env: string -> string): nat -> string
    requires PiecesFrom(raw, 0, 0).Some?
  {
    (k: nat) => env(PartAt(Exprs(PiecesFrom(raw, 0, 0).value), k))
  }

  /** The values a program can give the expressions of the path: members of their unions. */
  ghost predicate IsValuation(path: seq<seq<Piece>>, unions: Unions, env: string -> string) {
    forall i | 0 <= i < |path| && IsHoleSegment(path[i]) ::
      path[i][0].expr in unions && env(path[i][0].expr) in unions[path[i][0].expr]
  }

  lemma ValuationIsRun(raw: string, unions: Unions, env: string -> string)
    requires FullyDeclared(raw, unions)
    ensures IsValuation(PathIn(raw), unions, env) <==> IsRun(PathIn(raw), unions, ValueUnder(raw, env))
  {
    PathPiecesFromRaw(raw);
  }

  /** What the program evaluates the template to. */
  ghost function TargetUnder(raw: string, env: string -> string): string
    requires PiecesFrom(raw, 0, 0).Some?
  {
    NormalizeTarget(RunTarget(raw, ValueUnder(raw, env)))
  }

  /** Every value the program can give the template is among the targets. */
  lemma EveryRunIsATarget(raw: string, unions: Unions, env: string -> string)
    requires FullyDeclared(raw, unions) && IsValuation(PathIn(raw), unions, env)
    ensures Expand(raw, unions).Expanded? && TargetUnder(raw, env) in Expand(raw, unions).targets
  {
    ValuationIsRun(raw, unions, env);
    ExpansionIsExact(raw, unions);
  }

  /** A run of the program produces `t`. */
  ghost predicate IsProduced(raw: string, unions: Unions, t: string)
    requires PiecesFrom(raw, 0, 0).Some?
  {
    exists env: string -> string :: IsValuation(PathIn(raw), unions, env) && t == TargetUnder(raw, env)
  }

  /** One expression with two different members stands in two places. */
  ghost predicate RepeatsAt(path: seq<seq<Piece>>, unions: Unions, i: nat, j: nat, a: string, b: string) {
    && i < j < |path| && IsHoleSegment(path[i]) && IsHoleSegment(path[j]) && path[i][0].expr == path[j][0].expr
    && path[i][0].expr in unions && a in unions[path[i][0].expr] && b in unions[path[i][0].expr] && a != b
  }

  ghost predicate Repeats(path: seq<seq<Piece>>, unions: Unions) {
    exists i: nat, j: nat, a, b :: RepeatsAt(path, unions, i, j, a, b)
  }

  // ------------------------------------------------------------ targets and choices

  ghost function ChoicesOf(raw: string, unions: Unions): seq<seq<string>>
    requires PiecesFrom(raw, 0, 0).Some?
  {
    AllAlternatives(RenderAll(PathIn(raw), Mask), Exprs(PiecesFrom(raw, 0, 0).value), unions)
  }

  lemma RunSpells(raw: string, unions: Unions, env: string -> string)
    requires FullyDeclared(raw, unions) && IsValuation(PathIn(raw), unions, env)
    ensures TargetUnder(raw, env) == Spell(RenderAll(PathIn(raw), ValueUnder(raw, env)))
    ensures Chooses(RenderAll(PathIn(raw), ValueUnder(raw, env)), ChoicesOf(raw, unions))
  {
    ValuationIsRun(raw, unions, env);
    RunIsClean(raw, unions, ValueUnder(raw, env));
    PathPiecesFromRaw(raw);
    PathRender(PiecesFrom(raw, 0, 0).value, ValueUnder(raw, env));
    RunChooses(raw, unions, ValueUnder(raw, env));
  }

  lemma ChoiceSpells(raw: string, unions: Unions, choice: seq<string>)
    requires FullyDeclared(raw, unions) && Chooses(choice, ChoicesOf(raw, unions))
    ensures Expand(raw, unions).Expanded? && Spell(choice) in Expand(raw, unions).targets
    ensures NormalizeTarget(Spell(choice)) == Spell(choice)
    ensures forall c | c in choice :: '/' !in c
  {
    var value := ChoiceRuns(raw, unions, choice);
    RunIsClean(raw, unions, value);
    PathPiecesFromRaw(raw);
    PathRender(PiecesFrom(raw, 0, 0).value, value);
    NormalizeIdempotent(RunTarget(raw, value));
    ExpansionIsExact(raw, unions);
    forall i | 0 <= i < |choice|
      ensures '/' !in choice[i]
    {
      PathSegmentIsLocal(PiecesFrom(raw, 0, 0).value, i);
      NoSlashInSegment(PathIn(raw)[i], value);
      assert RenderAll(PathIn(raw), value)[i] == choice[i];
    }
  }

  lemma TargetSpells(raw: string, unions: Unions, t: string) returns (choice: seq<string>)
    requires FullyDeclared(raw, unions) && Expand(raw, unions).Expanded? && t in Expand(raw, unions).targets
    ensures Chooses(choice, ChoicesOf(raw, unions)) && t == Spell(choice)
  {
    MaskedPath(raw);
    DeclaredPathResolves(raw, unions);
    choice := ExpandedIsChoice(RenderAll(PathIn(raw), Mask), Exprs(PiecesFrom(raw, 0, 0).value), unions, t);
    ChoiceSpells(raw, unions, choice);
  }

  lemma SpellIsInjective(a: seq<string>, b: seq<string>)
    requires |a| == |b| && Spell(a) == Spell(b)
    requires (forall c | c in a :: '/' !in c) && (forall c | c in b :: '/' !in c)
    ensures a == b
  {
    if a != [] {
      SplitLead(a, '/');
      SplitLead(b, '/');
      assert ([[]] + a)[1..] == a && ([[]] + b)[1..] == b;
    }
  }

  // ------------------------------------------------------------ where no expression repeats

  /** The text chosen for the first segment that is a hole of `expr`. */
  function TextOf(path: seq<seq<Piece>>, choice: seq<string>, expr: string): string {
    if path == [] || choice == [] then []
    else if |path[0]| == 1 && path[0][0].Hole? && path[0][0].expr == expr then choice[0]
    else TextOf(path[1..], choice[1..], expr)
  }

  lemma {:induction false} TextOfFirst(path: seq<seq<Piece>>, choice: seq<string>, i: nat) returns (first: nat)
    requires i < |path| == |choice| && IsHoleSegment(path[i])
    ensures first <= i && IsHoleSegment(path[first]) && path[first][0].expr == path[i][0].expr
    ensures TextOf(path, choice, path[i][0].expr) == choice[first]
  {
    if IsHoleSegment(path[0]) && path[0][0].expr == path[i][0].expr {
      first := 0;
    } else {
      var rest := TextOfFirst(path[1..], choice[1..], i - 1);
      first := rest + 1;
    }
  }

  lemma ChosenText(raw: string, unions: Unions, choice: seq<string>, i: nat)
    requires FullyDeclared(raw, unions) && Chooses(choice, ChoicesOf(raw, unions)) && i < |PathIn(raw)|
    ensures |choice| == |PathIn(raw)|
    ensures IsHoleSegment(PathIn(raw)[i]) ==>
              PathIn(raw)[i][0].expr in unions && choice[i] in unions[PathIn(raw)[i][0].expr]
    ensures !IsHoleSegment(PathIn(raw)[i]) ==> choice[i] == Render(PathIn(raw)[i], Mask)
  {
    SegmentReadsBack(raw, i);
    SegmentAlternatives(raw, unions, i);
    assert choice[i] in ChoicesOf(raw, unions)[i];
  }

  lemma HoleText(raw: string, unions: Unions, choice: seq<string>, i: nat)
    requires FullyDeclared(raw, unions) && Chooses(choice, ChoicesOf(raw, unions)) && |choice| == |PathIn(raw)|
    requires !Repeats(PathIn(raw), unions) && i < |PathIn(raw)| && IsHoleSegment(PathIn(raw)[i])
    ensures TextOf(PathIn(raw), choice, PathIn(raw)[i][0].expr) == choice[i]
  {
    assert PiecesFrom(raw, 0, 0).Some?;
    hide FullyDeclared, Chooses, ChoicesOf, PiecesFrom, PathIn, TextOf;
    var path := PathIn(raw);
    var first := TextOfFirst(path, choice, i);
    ChosenText(raw, unions, choice, i);
    ChosenText(raw, unions, choice, first);
    assert !RepeatsAt(path, unions, first, i, choice[first], choice[i]);
  }

  lemma SegmentUnder(raw: string, env: string -> string, i: nat)
    requires PathLike(raw) && i < |PathIn(raw)|
    ensures IsHoleSegment(PathIn(raw)[i]) ==>
              Render(PathIn(raw)[i], ValueUnder(raw, env)) == env(PathIn(raw)[i][0].expr)
    ensures !IsHoleSegment(PathIn(raw)[i]) ==>
              Render(PathIn(raw)[i], ValueUnder(raw, env)) == Render(PathIn(raw)[i], Mask)
  {
    PathPiecesFromRaw(raw);
    SegmentReadsBack(raw, i);
    var segment := PathIn(raw)[i];
    if IsHoleSegment(segment) {
      assert Render(segment, ValueUnder(raw, env)) == ValueUnder(raw, env)(segment[0].k);
    }
  }

  lemma ChoiceIsProduced(raw: string, unions: Unions, choice: seq<string>)
    requires FullyDeclared(raw, unions) && Chooses(choice, ChoicesOf(raw, unions)) && !Repeats(PathIn(raw), unions)
    ensures IsProduced(raw, unions, Spell(choice))
  {
    var path := PathIn(raw);
    var env: string -> string := expr => TextOf(path, choice, expr);
    assert |choice| == |path|;
    forall i | 0 <= i < |path|
      ensures IsHoleSegment(path[i]) ==> path[i][0].expr in unions && env(path[i][0].expr) in unions[path[i][0].expr]
      ensures Render(path[i], ValueUnder(raw, env)) == choice[i]
    {
      ChosenText(raw, unions, choice, i);
      SegmentUnder(raw, env, i);
      if IsHoleSegment(path[i]) { HoleText(raw, unions, choice, i); }
    }
    assert RenderAll(path, ValueUnder(raw, env)) == choice;
    RunSpells(raw, unions, env);
  }

  // ------------------------------------------------------------ where one does

  lemma SomeChoice(raw: string, unions: Unions) returns (choice: seq<string>)
    requires FullyDeclared(raw, unions)
    ensures Chooses(choice, ChoicesOf(raw, unions))
  {
    var choices := ChoicesOf(raw, unions);
    forall i | 0 <= i < |choices|
      ensures choices[i] != []
    {
      SegmentReadsBack(raw, i);
      SegmentAlternatives(raw, unions, i);
    }
    choice := seq(|choices|, i requires 0 <= i < |choices| => choices[i][0]);
  }

  lemma MixedChoice(raw: string, unions: Unions, i: nat, j: nat, a: string, b: string) returns (choice: seq<string>)
    requires FullyDeclared(raw, unions) && RepeatsAt(PathIn(raw), unions, i, j, a, b)
    ensures Chooses(choice, ChoicesOf(raw, unions)) && |choice| == |PathIn(raw)| && choice[i] == a && choice[j] == b
  {
    var some := SomeChoice(raw, unions);
    SegmentReadsBack(raw, i);
    SegmentAlternatives(raw, unions, i);
    SegmentReadsBack(raw, j);
    SegmentAlternatives(raw, unions, j);
    hide Alternatives, Render, MaskAt;
    choice := some[i := a][j := b];
    forall m | 0 <= m < |choice|
      ensures choice[m] in ChoicesOf(raw, unions)[m]
    {
      assert some[m] in ChoicesOf(raw, unions)[m];
    }
  }

  lemma MixedIsNoRun(raw: string, unions: Unions, choice: seq<string>, i: nat, j: nat, env: string -> string)
    requires FullyDeclared(raw, unions) && Chooses(choice, ChoicesOf(raw, unions)) && |choice| == |PathIn(raw)|
    requires i < j < |choice| && IsHoleSegment(PathIn(raw)[i]) && IsHoleSegment(PathIn(raw)[j])
    requires PathIn(raw)[i][0].expr == PathIn(raw)[j][0].expr && choice[i] != choice[j]
    requires IsValuation(PathIn(raw), unions, env)
    ensures Spell(choice) != TargetUnder(raw, env)
  {
    var run := RenderAll(PathIn(raw), ValueUnder(raw, env));
    RunSpells(raw, unions, env);
    ChoiceSpells(raw, unions, run);
    ChoiceSpells(raw, unions, choice);
    SegmentUnder(raw, env, i);
    SegmentUnder(raw, env, j);
    hide Spell, Expand, TargetUnder;
    if Spell(run) == Spell(choice) { SpellIsInjective(run, choice); }
  }

  /** Two members of one union in the two places of one expression: a target no run produces. */
  lemma RepeatIsNotProduced(raw: string, unions: Unions, i: nat, j: nat, a: string, b: string) returns (t: string)
    requires FullyDeclared(raw, unions) && RepeatsAt(PathIn(raw), unions, i, j, a, b)
    ensures Expand(raw, unions).Expanded? && t in Expand(raw, unions).targets && !IsProduced(raw, unions, t)
  {
    var choice := MixedChoice(raw, unions, i, j, a, b);
    ChoiceSpells(raw, unions, choice);
    t := Spell(choice);
    hide Expand, TargetUnder, Spell, FullyDeclared, Chooses, ChoicesOf;
    forall env: string -> string | IsValuation(PathIn(raw), unions, env)
      ensures t != TargetUnder(raw, env)
    {
      MixedIsNoRun(raw, unions, choice, i, j, env);
    }
  }

  /**
   When the expansion is exact for programs: the targets are the values the program can
   give the template exactly when no expression with two different members occurs twice
   in the path. Otherwise some target is one no run produces, and the gate can report a
   correct link as dead.
   */
  lemma ExactForProgramsIff(raw: string, unions: Unions)
    requires FullyDeclared(raw, unions)
    ensures Expand(raw, unions).Expanded?
    ensures (forall t :: t in Expand(raw, unions).targets <==> IsProduced(raw, unions, t))
       <==> !Repeats(PathIn(raw), unions)
  {
    ExpansionIsExact(raw, unions);
    forall t | IsProduced(raw, unions, t)
      ensures t in Expand(raw, unions).targets
    {
      var env: string -> string :| IsValuation(PathIn(raw), unions, env) && t == TargetUnder(raw, env);
      EveryRunIsATarget(raw, unions, env);
    }
    if Repeats(PathIn(raw), unions) {
      var i: nat, j: nat, a, b :| RepeatsAt(PathIn(raw), unions, i, j, a, b);
      var t := RepeatIsNotProduced(raw, unions, i, j, a, b);
    } else {
      forall t | t in Expand(raw, unions).targets
        ensures IsProduced(raw, unions, t)
      {
        var choice := TargetSpells(raw, unions, t);
        ChoiceIsProduced(raw, unions, choice);
      }
    }
  }

  // ------------------------------------------------------------ such a template

  const TWICE := "/${p}/${p}"

  const TWICE_UNIONS: Unions := map["p" := ["a", "b"]]

  lemma HoleAt(raw: string, i: nat, k: nat, end: nat, expr: string, rest: seq<Piece>)
    requires i < end <= |raw| && OpensInterpolation(raw, i) && HoleEnd(raw, i + 2, 1) == Some(end)
    requires Trim(raw[i + 2..end - 1]) == expr && PiecesFrom(raw, end, k + 1) == Some(rest)
    ensures PiecesFrom(raw, i, k) == Some([Hole(k, expr)] + rest)
  {
    NextPiece(raw, i, k);
  }

  lemma CharAt(raw: string, i: nat, k: nat, rest: seq<Piece>)
    requires i < |raw| && !OpensInterpolation(raw, i) && PiecesFrom(raw, i + 1, k) == Some(rest)
    ensures PiecesFrom(raw, i, k) == Some([Char(raw[i])] + rest)
  {
    NextPiece(raw, i, k);
  }

  lemma TwiceHoles()
    ensures HoleEnd(TWICE, 3, 1) == Some(5) && HoleEnd(TWICE, 8, 1) == Some(10)
    ensures Trim(TWICE[3..4]) == "p" && Trim(TWICE[8..9]) == "p"
  {
    assert HoleEnd(TWICE, 4, 1) == Some(5);
    assert HoleEnd(TWICE, 9, 1) == Some(10);
    TrimOne('p');
    assert TWICE[3..4] == "p" && TWICE[8..9] == "p";
  }

  lemma TwicePieces()
    ensures PiecesFrom(TWICE, 0, 0) == Some([Char('/'), Hole(0, "p"), Char('/'), Hole(1, "p")])
  {
    TwiceHoles();
    assert PiecesFrom(TWICE, 10, 2) == Some([]);
    hide PiecesFrom, HoleEnd, Trim;
    HoleAt(TWICE, 6, 1, 10, "p", []);
    var second: seq<Piece> := [Hole(1, "p")];
    assert [Hole(1, "p")] + [] == second;
    CharAt(TWICE, 5, 1, second);
    assert [Char('/')] + second == [Char('/'), Hole(1, "p")];
    HoleAt(TWICE, 1, 0, 5, "p", [Char('/'), Hole(1, "p")]);
    assert [Hole(0, "p")] + [Char('/'), Hole(1, "p")] == [Hole(0, "p"), Char('/'), Hole(1, "p")];
    CharAt(TWICE, 0, 0, [Hole(0, "p"), Char('/'), Hole(1, "p")]);
    assert [Char('/')] + [Hole(0, "p"), Char('/'), Hole(1, "p")]
        == [Char('/'), Hole(0, "p"), Char('/'), Hole(1, "p")];
  }

  lemma TrimOne(c: char)
    requires !IsSpace(c)
    ensures Trim([c]) == [c]
  {
  }

  lemma SplitPiecesCons(piece: Piece, rest: seq<Piece>)
    ensures SplitPieces([piece] + rest) ==
              if piece == Char('/') then [[]] + SplitPieces(rest)
              else [[piece] + SplitPieces(rest)[0]] + SplitPieces(rest)[1..]
  {
    assert ([piece] + rest)[1..] == rest;
  }

  lemma TwiceSplit(p: Piece, q: Piece)
    requires p.Hole? && q.Hole?
    ensures SplitPieces([Char('/'), p, Char('/'), q]) == [[], [p], [q]]
  {
    hide SplitPieces;
    assert SplitPieces([]) == [[]] by { NoPiecesSplit(); }
    SplitPiecesCons(q, []);
    assert [q] + [] == [q] && SplitPieces([q]) == [[q]];
    SplitPiecesCons(Char('/'), [q]);
    assert [Char('/')] + [q] == [Char('/'), q] && SplitPieces([Char('/'), q]) == [[], [q]];
    SplitPiecesCons(p, [Char('/'), q]);
    assert [p] + [] == [p] && [p] + [Char('/'), q] == [p, Char('/'), q];
    assert SplitPieces([p, Char('/'), q]) == [[p], [q]];
    SplitPiecesCons(Char('/'), [p, Char('/'), q]);
    assert [Char('/')] + [p, Char('/'), q] == [Char('/'), p, Char('/'), q];
  }

  lemma NoPiecesSplit()
    ensures SplitPieces([]) == [[]]
  {
  }

  lemma TwiceCut(p: Piece, q: Piece)
    requires p.Hole? && q.Hole?
    ensures StripPieces(CutPieces([Char('/'), p, Char('/'), q])) == [Char('/'), p, Char('/'), q]
  {
    var pieces := [Char('/'), p, Char('/'), q];
    assert pieces[1..] == [p, Char('/'), q] && pieces[1..][1..] == [Char('/'), q];
    assert pieces[1..][1..][1..] == [q] && [q][1..] == [];
    assert CutPieces([q]) == [q];
    assert CutPieces([Char('/'), q]) == [Char('/'), q];
    assert CutPieces([p, Char('/'), q]) == [p, Char('/'), q];
    assert CutPieces(pieces) == pieces;
  }

  lemma TwicePath()
    ensures PiecesFrom(TWICE, 0, 0).Some? && PathIn(TWICE) == [[Hole(0, "p")], [Hole(1, "p")]]
  {
    TwicePieces();
    hide PiecesFrom, SplitPieces, StripPieces, CutPieces;
    TwiceSplit(Hole(0, "p"), Hole(1, "p"));
    TwiceCut(Hole(0, "p"), Hole(1, "p"));
  }

  lemma TwiceIsDeclared()
    ensures FullyDeclared(TWICE, TWICE_UNIONS) && RepeatsAt(PathIn(TWICE), TWICE_UNIONS, 0, 1, "a", "b")
  {
    TwicePath();
    hide PiecesFrom, PathPieces;
    assert NUL !in TWICE;
    assert "a"[0] != "b"[0];
  }

  /** The two places of `p` are multiplied: a target like `/a/b`, which no run produces. */
  lemma OneNameTwice() returns (t: string)
    ensures PiecesFrom(TWICE, 0, 0).Some? && Expand(TWICE, TWICE_UNIONS).Expanded?
    ensures t in Expand(TWICE, TWICE_UNIONS).targets && !IsProduced(TWICE, TWICE_UNIONS, t)
  {
    TwiceIsDeclared();
    assert PiecesFrom(TWICE, 0, 0).Some?;
    hide Expand, FullyDeclared, RepeatsAt, PiecesFrom, PathIn, IsProduced;
    t := RepeatIsNotProduced(TWICE, TWICE_UNIONS, 0, 1, "a", "b");
  }
}
