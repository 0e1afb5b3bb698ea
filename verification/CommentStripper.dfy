/**
 The comment stripper: string-, template- and regex-aware, blanking comments in place.
 What it changes, and when the scanner reads its output as it read the source.
 */
module CommentStripper {
  import opened Lexer
  import opened TemplateScanner

  // ------------------------------------------------------------ comments

  /** A comment opens only in code. */
  predicate CommentAt(src: string, s: State)
    requires s.Valid()
  {
    s.Top().Code? && s.i + 1 < |src| && src[s.i] == '/' && (src[s.i + 1] == '/' || src[s.i + 1] == '*')
  }

  function LineEnd(src: string, j: nat): (end: nat)
    requires j <= |src|
    ensures j <= end <= |src|
    ensures end == |src| || src[end] == '\n'
    ensures forall k | j <= k < end :: src[k] != '\n'
    decreases |src| - j
  {
    if j < |src| && src[j] != '\n' then LineEnd(src, j + 1) else j
  }

  /** Just after the first closing mark at or after `j`, or the end of the source. */
  function BlockEnd(src: string, j: nat): (end: nat)
    requires j <= |src|
    ensures j <= end <= |src|
    ensures end == |src| || (j + 2 <= end && src[end - 2] == '*' && src[end - 1] == '/')
    decreases |src| - j
  {
    if j + 1 >= |src| then |src|
    else if src[j] == '*' && src[j + 1] == '/' then j + 2
    else BlockEnd(src, j + 1)
  }

  function CommentEnd(src: string, i: nat): (end: nat)
    requires i + 1 < |src| && src[i] == '/'
    ensures i < end <= |src|
  {
    if src[i + 1] == '/' then LineEnd(src, i) else BlockEnd(src, i + 2)
  }

  function StripStep(src: string, s: State): (next: State)
    requires s.i < |src| && s.Valid()
    ensures next.Valid() && s.i < next.i <= |src| + 1
  {
    if CommentAt(src, s) then s.(i := CommentEnd(src, s.i)) else Step(src, s)
  }

  /** The comments met from a state on. */
  datatype Range = Range(from: nat, to: nat)

  function CommentsFrom(src: string, s: State): (comments: seq<Range>)
    requires s.Valid()
    ensures forall r | r in comments :: s.i <= r.from < r.to <= |src|
    decreases |src| + 1 - s.i
  {
    if s.i >= |src| then []
    else
      var rest := CommentsFrom(src, StripStep(src, s));
      if CommentAt(src, s) then [Range(s.i, CommentEnd(src, s.i))] + rest else rest
  }

  predicate Covers(comments: seq<Range>, k: nat) {
    exists r | r in comments :: r.from <= k < r.to
  }

  predicate IsLineBreak(c: char) {
    c == '\n' || c == '\r'
  }

  function BlankedAt(src: string, comments: seq<Range>, k: nat): char
    requires k < |src|
  {
    if Covers(comments, k) && !IsLineBreak(src[k]) then ' ' else src[k]
  }

  function Blanked(src: string, comments: seq<Range>): (out: string)
    ensures |out| == |src|
    ensures forall k | 0 <= k < |src| :: out[k] == BlankedAt(src, comments, k)
  {
    seq(|src|, k requires 0 <= k < |src| => BlankedAt(src, comments, k))
  }

  function Stripped(src: string): string {
    Blanked(src, CommentsFrom(src, START))
  }

  // ------------------------------------------------------------ the loop

  /** Blanks a stretch of the output in place, line breaks kept. */
  method Blank(out: array<char>, src: string, from: nat, to: nat, ghost done: seq<Range>)
    requires from < to <= out.Length == |src| && out[..] == Blanked(src, done)
    modifies out
    ensures out[..] == Blanked(src, done + [Range(from, to)])
  {
    ghost var comments := done + [Range(from, to)];
    assert forall k: nat :: Covers(comments, k) <==> Covers(done, k) || from <= k < to by {
      assert Range(from, to) in comments;
    }
    for k := from to to
      invariant forall j | 0 <= j < |src| ::
                  out[j] == if j < k then BlankedAt(src, comments, j) else BlankedAt(src, done, j)
    {
      if !IsLineBreak(out[k]) {
        out[k] := ' ';
      }
    }
    assert out[..] == Blanked(src, comments);
  }

  /** The two inner loops of the source: to the end of the line, or past the closing mark. */
  method SkipComment(src: string, i: nat) returns (end: nat)
    requires i + 1 < |src| && src[i] == '/' && (src[i + 1] == '/' || src[i + 1] == '*')
    ensures end == CommentEnd(src, i)
  {
    if src[i + 1] == '/' {
      end := i;
      while end < |src| && src[end] != '\n'
        invariant i <= end <= |src| && LineEnd(src, end) == LineEnd(src, i)
      {
        end := end + 1;
      }
    } else {
      var j := i + 2;
      while j < |src| && !(src[j] == '*' && j + 1 < |src| && src[j + 1] == '/')
        invariant i + 2 <= j <= |src| && BlockEnd(src, j) == BlockEnd(src, i + 2)
      {
        j := j + 1;
      }
      end := if j + 2 <= |src| then j + 2 else |src|;
    }
  }

  /** One round of the loop, the blanking aside. */
  method Advance(src: string, i: nat, token: string, stack: seq<Frame>)
    returns (i': nat, token': string, stack': seq<Frame>, comment: bool)
    requires i < |src| && State(i, token, stack).Valid()
    ensures State(i', token', stack') == StripStep(src, State(i, token, stack))
    ensures comment <==> CommentAt(src, State(i, token, stack))
  {
    comment := false;
    if stack[|stack| - 1].Template? {
      var closed;
      i', token', stack', closed := ReadTemplate(src, i, token, stack);
    } else if src[i] == '/' && i + 1 < |src| && (src[i + 1] == '/' || src[i + 1] == '*') {
      i' := SkipComment(src, i);
      token', stack', comment := token, stack, true;
    } else {
      i', token', stack' := ReadCode(src, i, token, stack);
    }
  }

  /** The stripper as the source runs it, over a mutable copy of the text. */
  method StripCommentsPreservingLines(source: string) returns (stripped: string)
    ensures stripped == Stripped(source)
  {
    var out := new char[|source|](k requires 0 <= k < |source| => source[k]);
    var i: nat, token: string, stack: seq<Frame> := 0, "", [Code(false, 0)];
    ghost var whole, done: seq<Range> := CommentsFrom(source, START), [];
    assert out[..] == Blanked(source, []);
    while i < |source|
      invariant State(i, token, stack).Valid()
      invariant out[..] == Blanked(source, done)
      invariant done + CommentsFrom(source, State(i, token, stack)) == whole
      decreases |source| + 1 - i
    {
      CommentStep(source, State(i, token, stack), done);
      var comment;
      var at := i;
      i, token, stack, comment := Advance(source, i, token, stack);
      if comment {
        Blank(out, source, at, i, done);
        done := done + [Range(at, i)];
      }
    }
    assert done + [] == done;
    stripped := out[..];
  }

  lemma CommentStep(src: string, s: State, done: seq<Range>)
    requires s.Valid() && s.i < |src|
    ensures var next := StripStep(src, s);
            done + CommentsFrom(src, s) ==
              if CommentAt(src, s) then (done + [Range(s.i, next.i)]) + CommentsFrom(src, next)
              else done + CommentsFrom(src, next)
    ensures CommentAt(src, s) ==> StripStep(src, s).i <= |src|
  {
    var next := StripStep(src, s);
    if CommentAt(src, s) {
      var here, rest := [Range(s.i, next.i)], CommentsFrom(src, next);
      assert CommentsFrom(src, s) == here + rest;
      hide CommentsFrom, StripStep;
      assert done + (here + rest) == (done + here) + rest;
    }
  }

  // ------------------------------------------------------------ what it changes

  /**
   Length and line breaks, carriage returns included, survive; of the other characters
   exactly those in a comment that opened in code are blanked.
   */
  lemma StripPreserves(src: string)
    ensures |Stripped(src)| == |src|
    ensures forall k | 0 <= k < |src| && (src[k] == '\n' || src[k] == '\r') :: Stripped(src)[k] == src[k]
    ensures forall k | 0 <= k < |src| && src[k] != '\n' && src[k] != '\r' ::
              Stripped(src)[k] == if Covers(CommentsFrom(src, START), k) then ' ' else src[k]
  {
  }

  /** The machine comes to state `t` when it reads on from `s`. */
  ghost predicate Reaches(src: string, s: State, t: State)
    requires s.Valid()
    decreases |src| + 1 - s.i
  {
    s == t || (s.i < |src| && Reaches(src, StripStep(src, s), t))
  }

  lemma {:induction false} ReachesValid(src: string, s: State, t: State)
    requires s.Valid() && Reaches(src, s, t)
    ensures t.Valid()
    decreases |src| + 1 - s.i
  {
    if s != t { ReachesValid(src, StripStep(src, s), t); }
  }

  /** Comments are exactly what the machine comes to with a comment mark ahead, in code. */
  lemma {:induction false} CommentsOpenInCode(src: string, s: State, r: Range)
    requires s.Valid()
    ensures r in CommentsFrom(src, s) <==>
              exists t: State :: t.Valid() && Reaches(src, s, t) && CommentAt(src, t)
                  && r == Range(t.i, CommentEnd(src, t.i))
    decreases |src| + 1 - s.i
  {
    if s.i < |src| {
      var next := StripStep(src, s);
      CommentsOpenInCode(src, next, r);
      if r in CommentsFrom(src, s) {
        if r !in CommentsFrom(src, next) {
          assert Reaches(src, s, s) && CommentAt(src, s) && r == Range(s.i, CommentEnd(src, s.i));
        } else {
          var t: State :|
            t.Valid() && Reaches(src, next, t) && CommentAt(src, t) && r == Range(t.i, CommentEnd(src, t.i));
          assert Reaches(src, s, t);
        }
      }
      if t: State :| t.Valid() && Reaches(src, s, t) && CommentAt(src, t) && r == Range(t.i, CommentEnd(src, t.i)) {
        if t != s { assert Reaches(src, next, t); }
      }
    }
  }

  /** Comments are read left to right and do not overlap, and each opens with a comment mark. */
  lemma {:induction false} CommentsInOrder(src: string, s: State)
    requires s.Valid()
    ensures var comments := CommentsFrom(src, s);
            && (forall j, k | 0 <= j < k < |comments| :: comments[j].to <= comments[k].from)
            && (forall r | r in comments ::
                  && s.i <= r.from && r.from + 1 < |src| && src[r.from] == '/'
                  && (src[r.from + 1] == '/' || src[r.from + 1] == '*')
                  && r.to == CommentEnd(src, r.from))
    decreases |src| + 1 - s.i
  {
    if s.i < |src| { CommentsInOrder(src, StripStep(src, s)); }
  }

  /** Nothing is blanked exactly when no comment is read. */
  lemma UnchangedIffNoComment(src: string)
    ensures Stripped(src) == src <==> CommentsFrom(src, START) == []
  {
    var comments := CommentsFrom(src, START);
    CommentsInOrder(src, START);
    if comments != [] {
      var r := comments[0];
      assert r in comments && Covers(comments, r.from);
      assert Stripped(src)[r.from] == ' ' != src[r.from];
    } else {
      assert forall k | 0 <= k < |src| :: !Covers(comments, k);
      assert Stripped(src) == src;
    }
  }

  // ------------------------------------------------------------ stripper and scanner in step

  /** The backticks the stripper itself reads, with the same meaning as the scanner's. */
  function StripTicksFrom(src: string, s: State): seq<Tick>
    requires s.Valid()
    decreases |src| + 1 - s.i
  {
    if s.i >= |src| then []
    else
      (if src[s.i] != '`' then [] else if s.Top().Code? then [Opens(s.i)] else [Closes(s.i)])
      + StripTicksFrom(src, StripStep(src, s))
  }

  /** In a source where nothing is blanked the two machines take the same steps throughout. */
  ghost predicate InStep(src: string, s: State)
    requires s.Valid()
    decreases |src| + 1 - s.i
  {
    s.i < |src| ==> StripStep(src, s) == Step(src, s) && InStep(src, Step(src, s))
  }

  lemma {:induction false} NoCommentInStep(src: string, s: State)
    requires s.Valid()
    ensures CommentsFrom(src, s) == [] ==> InStep(src, s)
    decreases |src| + 1 - s.i
  {
    if s.i < |src| { NoCommentInStep(src, StripStep(src, s)); }
  }

  /** A slash that could open a regex literal but, with nothing to close it, is read as division. */
  predicate FallsBackToDivision(src: string, s: State)
    requires s.Valid() && s.i < |src|
  {
    s.Top().Code? && !CommentAt(src, s) && src[s.i] == '/' &&
    RegexMayStartAt(src, s.i, s.token) && SkipRegexFrom(src, s.i).None?
  }

  /** Every slash that fell back to division finds no closing slash in `out` either. */
  ghost predicate DivisionsStand(src: string, out: string, s: State)
    requires s.Valid()
    decreases |src| + 1 - s.i
  {
    s.i < |src| ==>
      && (FallsBackToDivision(src, s) ==> SkipRegexFrom(out, s.i).None?)
      && DivisionsStand(src, out, StripStep(src, s))
  }

  /** At every state the stripper passes outside comments, the scanner takes the same step on `out`. */
  ghost predicate StepsAgree(src: string, out: string, s: State)
    requires s.Valid() && |out| == |src|
    decreases |src| + 1 - s.i
  {
    s.i < |src| ==>
      && (!CommentAt(src, s) ==> Step(out, s) == Step(src, s))
      && StepsAgree(src, out, StripStep(src, s))
  }

  /** `out` is the source from `s` on, with the comments still to come blanked. */
  ghost predicate Follows(src: string, out: string, s: State)
    requires s.Valid()
  {
    && |out| == |src|
    && (forall k | s.i <= k < |src| :: out[k] == BlankedAt(src, CommentsFrom(src, s), k))
    && (0 < s.i < |src| && src[s.i] == '/' ==> (out[s.i - 1] == '<' <==> src[s.i - 1] == '<'))
  }

  /** Between a state and the next the text is untouched; the character after it can only turn blank. */
  lemma Untouched(src: string, out: string, s: State)
    requires s.Valid() && s.i < |src| && Follows(src, out, s) && !CommentAt(src, s)
    ensures var next := Step(src, s);
            && (forall k | s.i <= k < next.i && k < |src| :: out[k] == src[k])
            && (forall k | s.i <= k < |src| :: out[k] == src[k] || out[k] == ' ')
            && (forall k | s.i <= k < |src| :: out[k] == '\n' <==> src[k] == '\n')
            && Follows(src, out, next)
  {
    var next := Step(src, s);
    assert CommentsFrom(src, s) == CommentsFrom(src, next);
    assert forall k | s.i <= k < next.i && k < |src| :: !Covers(CommentsFrom(src, next), k);
  }

  lemma {:induction false} QuoteEndSame(src: string, out: string, quote: char, j: nat)
    requires |out| == |src| && j <= |src| + 1
    requires forall k | j <= k < QuoteEnd(src, quote, j) && k < |src| :: out[k] == src[k]
    requires forall k | j <= k < |src| :: out[k] == '\n' <==> src[k] == '\n'
    requires quote != '\n' && quote != '\\'
    ensures QuoteEnd(out, quote, j) == QuoteEnd(src, quote, j)
    decreases |src| + 1 - j
  {
    if j < |src| && src[j] != '\n' && src[j] != quote {
      QuoteEndSame(src, out, quote, if src[j] == '\\' then j + 2 else j + 1);
    }
  }

  lemma {:induction false} RegexEndSame(src: string, out: string, j: nat, inClass: bool)
    requires |out| == |src| && RegexEnd(src, j, inClass).Some?
    requires forall k | j <= k < RegexEnd(src, j, inClass).value :: out[k] == src[k]
    ensures RegexEnd(out, j, inClass) == RegexEnd(src, j, inClass)
    decreases |src| - j
  {
    if j < |src| && src[j] != '\n' {
      if src[j] == '\\' {
        RegexEndSame(src, out, j + 2, inClass);
      } else if inClass {
        RegexEndSame(src, out, j + 1, src[j] != ']');
      } else if src[j] == '[' {
        RegexEndSame(src, out, j + 1, true);
      } else if src[j] != '/' {
        RegexEndSame(src, out, j + 1, false);
      }
    }
  }

  lemma {:induction false} WordEndSame(src: string, out: string, j: nat)
    requires |out| == |src| && j <= |src|
    requires forall k | j <= k < WordEnd(src, j) :: out[k] == src[k]
    requires WordEnd(src, j) < |src| ==> out[WordEnd(src, j)] == src[WordEnd(src, j)] || out[WordEnd(src, j)] == ' '
    ensures WordEnd(out, j) == WordEnd(src, j)
    decreases |src| - j
  {
    if j < |src| && IsWordPart(src[j]) { WordEndSame(src, out, j + 1); }
  }

  lemma StepSameInTemplate(src: string, out: string, s: State)
    requires s.Valid() && s.i < |src| && Follows(src, out, s) && s.Top().Template?
    ensures TemplateStep(out, s) == TemplateStep(src, s)
  {
    Untouched(src, out, s);
  }

  lemma StepSameAtQuote(src: string, out: string, s: State)
    requires s.Valid() && s.i < |src| && Follows(src, out, s) && s.Top().Code?
    requires src[s.i] == '\'' || src[s.i] == '"'
    ensures out[s.i] == src[s.i] && SkipQuotedFrom(out, s.i) == SkipQuotedFrom(src, s.i)
  {
    Untouched(src, out, s);
    QuoteEndSame(src, out, src[s.i], s.i + 1);
  }

  lemma StepSameAtWord(src: string, out: string, s: State)
    requires s.Valid() && s.i < |src| && Follows(src, out, s) && s.Top().Code? && IsWordStart(src[s.i])
    ensures WordEnd(out, s.i) == WordEnd(src, s.i)
    ensures out[s.i..WordEnd(src, s.i)] == src[s.i..WordEnd(src, s.i)]
  {
    Untouched(src, out, s);
    assert Step(src, s).i == WordEnd(src, s.i);
    WordEndSame(src, out, s.i);
  }

  lemma SameBefore(src: string, out: string, s: State)
    requires s.Valid() && s.i < |src| && Follows(src, out, s) && src[s.i] == '/'
    ensures |out| == |src| && RegexMayStartAt(src, s.i, s.token) == RegexMayStartAt(out, s.i, s.token)
  {
    hide CommentsFrom;
  }

  lemma StepSameAtSlash(src: string, out: string, s: State)
    requires s.Valid() && s.i < |src| && Follows(src, out, s) && s.Top().Code? && !CommentAt(src, s)
    requires src[s.i] == '/'
    ensures out[s.i] == '/' && RegexMayStartAt(src, s.i, s.token) == RegexMayStartAt(out, s.i, s.token)
    ensures RegexMayStartAt(src, s.i, s.token) && SkipRegexFrom(src, s.i).Some? ==>
              SkipRegexFrom(out, s.i) == SkipRegexFrom(src, s.i)
  {
    Untouched(src, out, s);
    SameBefore(src, out, s);
    hide Follows, RegexEnd;
    if RegexMayStartAt(src, s.i, s.token) && SkipRegexFrom(src, s.i).Some? {
      assert Step(src, s).i == SkipRegexFrom(src, s.i).value;
      hide Step;
      RegexEndSame(src, out, s.i + 1, false);
    }
  }

  /** One step on the stripped text is the step on the source, unless a division no longer stands. */
  lemma StepSame(src: string, out: string, s: State)
    requires s.Valid() && s.i < |src| && Follows(src, out, s) && !CommentAt(src, s)
    ensures Step(out, s) == Step(src, s) <==>
              (FallsBackToDivision(src, s) ==> SkipRegexFrom(out, s.i).None?)
  {
    var ch := src[s.i];
    hide Follows;
    if s.Top().Template? {
      StepSameInTemplate(src, out, s);
    } else if ch == '\'' || ch == '"' {
      StepSameAtQuote(src, out, s);
    } else if ch == '/' {
      StepSameAtSlash(src, out, s);
    } else if IsWordStart(ch) {
      StepSameAtWord(src, out, s);
      Untouched(src, out, s);
    } else {
      Untouched(src, out, s);
    }
  }

  lemma AfterComment(src: string, out: string, s: State)
    requires s.Valid() && s.i < |src| && Follows(src, out, s) && CommentAt(src, s)
    ensures Follows(src, out, StripStep(src, s))
    ensures forall k | s.i <= k < StripStep(src, s).i :: out[k] == ' ' || IsLineBreak(out[k])
  {
    var end := CommentEnd(src, s.i);
    var here := Range(s.i, end);
    var rest := CommentsFrom(src, s.(i := end));
    assert CommentsFrom(src, s) == [here] + rest;
    forall k | s.i <= k < |src|
      ensures Covers([here] + rest, k) <==> k < end || Covers(rest, k)
    {
      assert here in [here] + rest;
    }
  }

  /** Exactly when the scanner reads the stripped text as the stripper read the source. */
  lemma {:induction false} StepsAgreeIffDivisionsStand(src: string, out: string, s: State)
    requires s.Valid() && Follows(src, out, s)
    ensures StepsAgree(src, out, s) <==> DivisionsStand(src, out, s)
    decreases |src| + 1 - s.i
  {
    if s.i < |src| {
      if CommentAt(src, s) {
        AfterComment(src, out, s);
      } else {
        Untouched(src, out, s);
        StepSame(src, out, s);
      }
      StepsAgreeIffDivisionsStand(src, out, StripStep(src, s));
    }
  }

  lemma CrossBlank(out: string, s: State)
    requires s.Valid() && s.Top().Code? && s.i < |out| && (out[s.i] == ' ' || IsLineBreak(out[s.i]))
    ensures TicksFrom(out, s) == TicksFrom(out, s.(i := s.i + 1))
  {
    assert Step(out, s) == s.(i := s.i + 1);
    StepTicks(out, s);
  }

  /** Blanks move the scanner on and change nothing else. */
  lemma {:induction false} CrossBlanks(out: string, s: State, n: nat)
    requires s.Valid() && s.Top().Code? && s.i + n <= |out|
    requires forall k | s.i <= k < s.i + n :: out[k] == ' ' || IsLineBreak(out[k])
    ensures TicksFrom(out, s) == TicksFrom(out, s.(i := s.i + n))
    decreases n
  {
    hide TicksFrom;
    if n > 0 {
      CrossBlank(out, s);
      var next := s.(i := s.i + 1);
      CrossBlanks(out, next, n - 1);
      assert next.(i := next.i + (n - 1)) == s.(i := s.i + n);
    }
  }

  lemma {:induction false} TicksAgree(src: string, out: string, s: State)
    requires s.Valid() && Follows(src, out, s) && StepsAgree(src, out, s)
    ensures TicksFrom(out, s) == StripTicksFrom(src, s)
    decreases |src| + 1 - s.i
  {
    if s.i < |src| {
      var next := StripStep(src, s);
      if CommentAt(src, s) {
        AfterComment(src, out, s);
        TicksAgree(src, out, next);
        CrossBlanks(out, s, CommentEnd(src, s.i) - s.i);
      } else {
        Untouched(src, out, s);
        TicksAgree(src, out, next);
        StepTicks(out, s);
      }
      StripStepTicks(src, s);
    }
  }

  lemma StripStepTicks(src: string, s: State)
    requires s.Valid() && s.i < |src|
    ensures var rest := StripTicksFrom(src, StripStep(src, s));
            StripTicksFrom(src, s) ==
              if src[s.i] != '`' then rest
              else [if s.Top().Code? then Opens(s.i) else Closes(s.i)] + rest
  {
    assert [] + StripTicksFrom(src, StripStep(src, s)) == StripTicksFrom(src, StripStep(src, s));
  }

  /**
   Scanning the stripped text. If every slash the stripper read as division is
   still division in its output, the scanner finds in the output exactly the
   template literals the stripper itself passed through, at the same offsets.
   */
  lemma ScanOfStripped(src: string)
    ensures StepsAgree(src, Stripped(src), START) <==> DivisionsStand(src, Stripped(src), START)
    ensures DivisionsStand(src, Stripped(src), START) ==>
              TicksFrom(Stripped(src), START) == StripTicksFrom(src, START)
  {
    var out := Stripped(src);
    assert Follows(src, out, START);
    StepsAgreeIffDivisionsStand(src, out, START);
    if DivisionsStand(src, out, START) {
      TicksAgree(src, out, START);
    }
  }
}
