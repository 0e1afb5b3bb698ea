/**
 Stripping twice: when the second pass changes nothing, exactly, and a source where it
 does not.
 */
module StripAgain {
  import opened Text
  import opened Lexer
  import opened CommentStripper

  // ------------------------------------------------------------ when stripping again changes nothing

  /** The first state at which a slash was read as division and opens a regex literal in `out`. */
  ghost function FirstFall(src: string, out: string, s: State): (fall: Option<State>)
    requires s.Valid()
    ensures fall.Some? ==> fall.value.Valid() && fall.value.i < |src| && FallsBackToDivision(src, fall.value)
    decreases |src| + 1 - s.i
  {
    if s.i >= |src| then None
    else if FallsBackToDivision(src, s) && SkipRegexFrom(out, s.i).Some? then Some(s)
    else FirstFall(src, out, StripStep(src, s))
  }

  lemma {:induction false} NoFallIffDivisionsStand(src: string, out: string, s: State)
    requires s.Valid()
    ensures FirstFall(src, out, s).None? <==> DivisionsStand(src, out, s)
    decreases |src| + 1 - s.i
  {
    if s.i < |src| { NoFallIffDivisionsStand(src, out, StripStep(src, s)); }
  }

  /** Behind the first slash that falls, the scanner is in the text of a regex it never saw before. */
  ghost predicate NothingBehind(src: string, out: string, s: State)
    requires s.Valid() && |out| == |src|
  {
    FirstFall(src, out, s).Some? ==>
      var fall := FirstFall(src, out, s).value;
      CommentsFrom(out, Step(out, fall)) == []
  }

  lemma BlankIsNoComment(out: string, s: State)
    requires s.Valid() && s.Top().Code? && s.i < |out| && (out[s.i] == ' ' || IsLineBreak(out[s.i]))
    ensures CommentsFrom(out, s) == CommentsFrom(out, s.(i := s.i + 1))
  {
    assert Step(out, s) == s.(i := s.i + 1);
  }

  lemma {:induction false} BlanksAreNoComment(out: string, s: State, n: nat)
    requires s.Valid() && s.Top().Code? && s.i + n <= |out|
    requires forall k | s.i <= k < s.i + n :: out[k] == ' ' || IsLineBreak(out[k])
    ensures CommentsFrom(out, s) == CommentsFrom(out, s.(i := s.i + n))
    decreases n
  {
    hide CommentsFrom;
    if n > 0 {
      BlankIsNoComment(out, s);
      var next := s.(i := s.i + 1);
      BlanksAreNoComment(out, next, n - 1);
      assert next.(i := next.i + (n - 1)) == s.(i := s.i + n);
    }
  }

  /** What is no comment in the source is none in the stripped text: blanks complete no mark. */
  lemma NoNewComment(src: string, out: string, s: State)
    requires s.Valid() && s.i < |src| && Follows(src, out, s) && !CommentAt(src, s)
    ensures !CommentAt(out, s) && CommentsFrom(out, s) == CommentsFrom(out, Step(out, s))
  {
    Untouched(src, out, s);
  }

  lemma NoFallAtComment(src: string, out: string, s: State)
    requires s.Valid() && s.i < |src| && CommentAt(src, s)
    ensures FirstFall(src, out, s) == FirstFall(src, out, StripStep(src, s))
  {
    hide StripStep, SkipRegexFrom, RegexMayStartAt;
  }

  lemma CommentMoves(src: string, out: string, s: State)
    requires s.Valid() && s.i < |src| && Follows(src, out, s) && CommentAt(src, s)
    ensures s.i < StripStep(src, s).i <= |src| == |out| && s.Top().Code?
    ensures StripStep(src, s) == s.(i := StripStep(src, s).i)
  {
  }

  /** Over a comment of the first pass, the second moves on and reads nothing. */
  lemma CommentVanishes(src: string, out: string, s: State)
    requires s.Valid() && s.i < |src| && Follows(src, out, s) && CommentAt(src, s)
    ensures var next := StripStep(src, s);
            && Follows(src, out, next) && CommentsFrom(out, s) == CommentsFrom(out, next)
            && FirstFall(src, out, s) == FirstFall(src, out, next)
  {
    hide *;
    AfterComment(src, out, s);
    CommentMoves(src, out, s);
    NoFallAtComment(src, out, s);
    BlanksAreNoComment(out, s, StripStep(src, s).i - s.i);
  }

  /** Outside comments, and where no slash falls, both passes take the same step. */
  lemma StandingStep(src: string, out: string, s: State)
    requires s.Valid() && s.i < |src| && Follows(src, out, s) && !CommentAt(src, s)
    requires FirstFall(src, out, s) != Some(s)
    ensures var next := StripStep(src, s);
            && Follows(src, out, next) && CommentsFrom(out, s) == CommentsFrom(out, next)
            && FirstFall(src, out, s) == FirstFall(src, out, next)
  {
    NoNewComment(src, out, s);
    StepSame(src, out, s);
    Untouched(src, out, s);
    hide CommentsFrom, Follows;
  }

  /** Reading the stripped text again, from any state of the first pass. */
  lemma {:induction false} SecondPass(src: string, out: string, s: State)
    requires s.Valid() && Follows(src, out, s)
    ensures CommentsFrom(out, s) == [] <==> NothingBehind(src, out, s)
    decreases |src| + 1 - s.i
  {
    assert |out| == |src|;
    hide Follows;
    if s.i < |src| {
      if CommentAt(src, s) {
        CommentVanishes(src, out, s);
        hide CommentsFrom, FirstFall;
        SecondPass(src, out, StripStep(src, s));
      } else if FirstFall(src, out, s) == Some(s) {
        NoNewComment(src, out, s);
      } else {
        StandingStep(src, out, s);
        hide CommentsFrom, FirstFall;
        SecondPass(src, out, StripStep(src, s));
      }
    }
  }

  /**
   Stripping again changes nothing exactly when either every slash read as division is
   still division, or behind the first one that is not the scanner reads no comment.
   */
  lemma IdempotentIff(src: string)
    ensures Stripped(Stripped(src)) == Stripped(src) <==>
              DivisionsStand(src, Stripped(src), START) || NothingBehind(src, Stripped(src), START)
  {
    var out := Stripped(src);
    assert Follows(src, out, START);
    SecondPass(src, out, START);
    UnchangedIffNoComment(out);
    NoFallIffDivisionsStand(src, out, START);
  }

  /** In particular where divisions stand, which the first pass can check slash by slash. */
  lemma IdempotentWhereDivisionsStand(src: string)
    requires DivisionsStand(src, Stripped(src), START)
    ensures Stripped(Stripped(src)) == Stripped(src)
  {
    IdempotentIff(src);
  }

  // ------------------------------------------------------------ where it does not

  const ODD_SOURCE := "/\\/*[*/\"///\""
  const ODD_STRIPPED := "/\\     \"///\""

  lemma OddClassStaysOpen()
    ensures SkipRegexFrom(ODD_SOURCE, 0) == None
  {
    var src := ODD_SOURCE;
    assert RegexEnd(src, 8, true) == RegexEnd(src, 12, true) == None;
    assert RegexEnd(src, 4, false) == RegexEnd(src, 5, true) == None;
    assert SkipRegexFrom(src, 0) == RegexEnd(src, 3, false);
  }

  lemma OddFirstSlash()
    ensures FallsBackToDivision(ODD_SOURCE, START)
    ensures StripStep(ODD_SOURCE, START) == State(1, "/", START.stack)
  {
    OddClassStaysOpen();
    hide SkipRegexFrom;
  }

  lemma OddComment()
    ensures CommentAt(ODD_SOURCE, State(2, "\\", START.stack))
    ensures StripStep(ODD_SOURCE, State(2, "\\", START.stack)) == State(7, "\\", START.stack)
  {
    assert BlockEnd(ODD_SOURCE, 4) == BlockEnd(ODD_SOURCE, 5) == 7;
  }

  lemma OddString()
    ensures CommentsFrom(ODD_SOURCE, State(7, "\\", START.stack)) == []
  {
    var s7 := State(7, "\\", START.stack);
    assert QuoteEnd(ODD_SOURCE, '"', 8) == QuoteEnd(ODD_SOURCE, '"', 11) == 12;
    assert StripStep(ODD_SOURCE, s7) == State(12, "\"", START.stack);
  }

  /** First pass: the leading slash meets an open class, falls back to division, and the comment goes. */
  lemma OddFirstPass()
    ensures Stripped(ODD_SOURCE) == ODD_STRIPPED
  {
    OddFirstSlash();
    var s1 := State(1, "/", START.stack);
    assert StripStep(ODD_SOURCE, s1) == State(2, "\\", START.stack);
    OddComment();
    OddString();
    OddRanges();
    assert CommentsFrom(ODD_SOURCE, State(2, "\\", START.stack)) == [Range(2, 7)];
    assert CommentsFrom(ODD_SOURCE, s1) == [Range(2, 7)];
  }

  lemma OddRanges()
    ensures Blanked(ODD_SOURCE, [Range(2, 7)]) == ODD_STRIPPED
  {
    assert Range(2, 7) in [Range(2, 7)];
    assert forall k: nat :: Covers([Range(2, 7)], k) <==> 2 <= k < 7;
  }

  /** Second pass: with the class gone the slash opens a regex, and text of a string reads as a comment. */
  lemma OddSecondPass()
    ensures CommentsFrom(ODD_STRIPPED, START) == [Range(9, 12)]
    ensures SkipRegexFrom(ODD_STRIPPED, 0).Some?
  {
    var src := ODD_STRIPPED;
    var s9 := State(9, "/", START.stack);
    var s12 := State(12, "/", START.stack);
    assert RegexEnd(src, 3, false) == RegexEnd(src, 5, false) == RegexEnd(src, 7, false) == RegexEnd(src, 8, false)
        == Some(9);
    assert SkipRegexFrom(src, 0) == Some(9) && StripStep(src, START) == s9;
    assert LineEnd(src, 9) == LineEnd(src, 11) == 12 && StripStep(src, s9) == s12;
    assert CommentsFrom(src, s12) == [];
    assert CommentsFrom(src, s9) == [Range(9, 12)];
  }

  lemma OddDivisionFalls()
    ensures !DivisionsStand(ODD_SOURCE, ODD_STRIPPED, START)
  {
    OddFirstSlash();
    OddSecondPass();
  }

  /**
   Stripping twice can blank text that stripping once keeps, so the condition of
   `ScanOfStripped` is needed: here a division does not stand.
   */
  lemma StrippingIsNotIdempotent()
    ensures exists src ::
              Stripped(Stripped(src)) != Stripped(src) && !DivisionsStand(src, Stripped(src), START)
  {
    var src, once := ODD_SOURCE, ODD_STRIPPED;
    OddDivisionFalls();
    assert Stripped(src) == once by { OddFirstPass(); }
    assert Stripped(once) != once by { OddSecondPass(); UnchangedIffNoComment(once); }
  }

  // ------------------------------------------------------------ a fall that does no harm

  const MILD_SOURCE := "/\\/*[*/x/"
  const MILD_STRIPPED := "/\\     x/"

  lemma MildFirstSlash()
    ensures FallsBackToDivision(MILD_SOURCE, START)
    ensures StripStep(MILD_SOURCE, START) == State(1, "/", START.stack)
  {
    var src := MILD_SOURCE;
    assert RegexEnd(src, 4, false) == RegexEnd(src, 5, true) == RegexEnd(src, 7, true) == RegexEnd(src, 9, true)
        == None;
    assert SkipRegexFrom(src, 0) == RegexEnd(src, 3, false) == None;
  }

  lemma MildComment()
    ensures CommentAt(MILD_SOURCE, State(2, "\\", START.stack))
    ensures StripStep(MILD_SOURCE, State(2, "\\", START.stack)) == State(7, "\\", START.stack)
  {
    assert BlockEnd(MILD_SOURCE, 4) == BlockEnd(MILD_SOURCE, 5) == 7;
  }

  lemma MildTail()
    ensures CommentsFrom(MILD_SOURCE, State(7, "\\", START.stack)) == []
  {
    var src := MILD_SOURCE;
    var s8 := State(8, "x", START.stack);
    assert WordEnd(src, 7) == WordEnd(src, 8) == 8;
    assert src[7..8] == "x";
    assert StripStep(src, State(7, "\\", START.stack)) == s8;
    assert "x" !in REGEX_MAY_FOLLOW;
    assert StripStep(src, s8).i == 9;
    assert CommentsFrom(src, s8) == [];
  }

  lemma MildFirstPass()
    ensures Stripped(MILD_SOURCE) == MILD_STRIPPED
  {
    MildFirstSlash();
    var s1 := State(1, "/", START.stack);
    assert StripStep(MILD_SOURCE, s1) == State(2, "\\", START.stack);
    MildComment();
    MildTail();
    assert CommentsFrom(MILD_SOURCE, State(2, "\\", START.stack)) == [Range(2, 7)];
    assert CommentsFrom(MILD_SOURCE, s1) == [Range(2, 7)];
    assert Range(2, 7) in [Range(2, 7)];
    assert forall k: nat :: Covers([Range(2, 7)], k) <==> 2 <= k < 7;
  }

  lemma MildSecondPass()
    ensures SkipRegexFrom(MILD_STRIPPED, 0) == Some(9)
    ensures CommentsFrom(MILD_STRIPPED, START) == []
  {
    var src := MILD_STRIPPED;
    assert RegexEnd(src, 3, false) == RegexEnd(src, 5, false) == RegexEnd(src, 7, false) == RegexEnd(src, 8, false)
        == Some(9);
    assert StripStep(src, START) == State(9, "/", START.stack);
  }

  /** A division can fall and stripping again still change nothing, so the second half of the condition is needed. */
  lemma FallMayDoNoHarm()
    ensures exists src ::
              Stripped(Stripped(src)) == Stripped(src) && !DivisionsStand(src, Stripped(src), START)
  {
    var src, once := MILD_SOURCE, MILD_STRIPPED;
    MildFirstSlash();
    MildSecondPass();
    assert !DivisionsStand(src, once, START);
    assert Stripped(src) == once by { MildFirstPass(); }
    assert Stripped(once) == once by { UnchangedIffNoComment(once); }
  }
}
