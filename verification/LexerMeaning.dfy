/**
 What the lexer's steps mean. Behind an operator, a keyword or nothing a slash opens a regex
 literal that is read as one token; behind an operand it divides. An interpolation closes
 where the expander closes it, template text at its first unescaped backtick, and a
 comment at the first mark that can close it.
 */
module LexerMeaning {
  import opened Text
  import opened Lexer
  import opened TemplateScanner
  import opened CommentStripper
  import opened TemplateExpansion

  // ------------------------------------------------------------ what stands in front of a slash

  /** The punctuation behind which a value begins. */
  predicate IsOperator(c: char) {
    || c == '(' || c == ',' || c == '=' || c == ':' || c == '[' || c == '!' || c == '&' || c == '|' || c == '?'
    || c == '{' || c == '}' || c == ';' || c == '+' || c == '-' || c == '*' || c == '%' || c == '~' || c == '^'
    || c == '<' || c == '>'
  }

  /** The words behind which a value begins. */
  predicate IsValueWord(word: string) {
    || word == "return" || word == "typeof" || word == "instanceof" || word == "in" || word == "of"
    || word == "new" || word == "delete" || word == "void" || word == "throw" || word == "case" || word == "do"
    || word == "else" || word == "yield" || word == "await"
  }

  /** Nothing read yet, an operator, or a word that asks for a value. */
  predicate ValueFollows(token: string) {
    token == "" || (|token| == 1 && IsOperator(token[0])) || IsValueWord(token)
  }

  /** What a word is made of; it does not open with a digit. */
  predicate InWord(c: char) {
    'a' <= c <= 'z' || 'A' <= c <= 'Z' || '0' <= c <= '9' || c == '_' || c == '$'
  }

  lemma WordLetters()
    ensures forall c :: InWord(c) <==> IsWordPart(c)
    ensures forall c :: IsWordStart(c) <==> InWord(c) && !('0' <= c <= '9')
  {
  }

  /** Any other word, and punctuation that ends an operand: a digit, `)`, `]`, `.`, a closing quote or backtick. */
  predicate EndsOperand(token: string) {
    || (token != "" && (forall k | 0 <= k < |token| :: InWord(token[k])) && !IsValueWord(token))
    || (|token| == 1 && token[0] in {')', ']', '.', '/', '\'', '"', '`'})
  }

  lemma OperatorAsks(c: char)
    requires IsOperator(c)
    ensures [c] in REGEX_MAY_FOLLOW
  {
    if c == '(' { assert [c] == "("; }
    else if c == ',' { assert [c] == ","; }
    else if c == '=' { assert [c] == "="; }
    else if c == ':' { assert [c] == ":"; }
    else if c == '[' { assert [c] == "["; }
    else if c == '!' { assert [c] == "!"; }
    else if c == '&' { assert [c] == "&"; }
    else if c == '|' { assert [c] == "|"; }
    else if c == '?' { assert [c] == "?"; }
    else if c == '{' { assert [c] == "{"; }
    else if c == '}' { assert [c] == "}"; }
    else if c == ';' { assert [c] == ";"; }
    else if c == '+' { assert [c] == "+"; }
    else if c == '-' { assert [c] == "-"; }
    else if c == '*' { assert [c] == "*"; }
    else if c == '%' { assert [c] == "%"; }
    else if c == '~' { assert [c] == "~"; }
    else if c == '^' { assert [c] == "^"; }
    else if c == '<' { assert [c] == "<"; }
    else { assert [c] == ">"; }
  }

  lemma ValueTokens(token: string)
    requires ValueFollows(token)
    ensures token in REGEX_MAY_FOLLOW
  {
    if |token| == 1 && IsOperator(token[0]) {
      OperatorAsks(token[0]);
      assert token == [token[0]];
    }
  }

  /** A token of one character that asks for a value is an operator. */
  lemma SingleTokens(c: char)
    requires [c] in REGEX_MAY_FOLLOW && c != '\n'
    ensures IsOperator(c)
  {
    assert [c][0] == c;
  }

  lemma OperandTokens(token: string)
    requires EndsOperand(token)
    ensures token !in REGEX_MAY_FOLLOW
  {
    if token in REGEX_MAY_FOLLOW && !IsValueWord(token) && token != "" {
      assert |token| == 1;
      assert token == [token[0]];
      if token[0] != '\n' { SingleTokens(token[0]); }
    }
  }

  // ------------------------------------------------------------ one step at a slash

  /** A slash in code that opens no comment and closes no tag. */
  predicate LoneSlash(src: string, s: State)
    requires s.Valid()
  {
    && s.Top().Code? && s.i < |src| && src[s.i] == '/' && !(s.i > 0 && src[s.i - 1] == '<')
    && !(s.i + 1 < |src| && (src[s.i + 1] == '/' || src[s.i + 1] == '*'))
  }

  /** Where a value may begin, a slash whose regex closes behind `k` is stepped over whole. */
  lemma RegexIsOneToken(src: string, s: State, k: nat)
    requires s.Valid() && LoneSlash(src, s) && ValueFollows(s.token)
    requires FirstRegexEnd(src, s.i + 1, k) && k < |src| && src[k] == '/'
    ensures Step(src, s) == StripStep(src, s) == State(k + 1, "/", s.stack)
  {
    ValueTokens(s.token);
    RegexMeaning(src, s.i);
  }

  /** Where no regex closes before the line does, the same slash divides. */
  lemma OpenRegexDivides(src: string, s: State, k: nat)
    requires s.Valid() && LoneSlash(src, s) && FirstRegexEnd(src, s.i + 1, k) && (k == |src| || src[k] == '\n')
    ensures Step(src, s) == StripStep(src, s) == State(s.i + 1, "/", s.stack)
  {
    RegexEndFrom(src, s.i + 1, s.i + 1, k);
    hide RegexEnd;
  }

  /** Behind an operand a slash divides, whatever follows. */
  lemma OperandIsDivided(src: string, s: State)
    requires s.Valid() && LoneSlash(src, s) && EndsOperand(s.token)
    ensures Step(src, s) == StripStep(src, s) == State(s.i + 1, "/", s.stack)
  {
    OperandTokens(s.token);
  }

  /** Glued to `<` a slash closes a tag. */
  lemma TagIsClosed(src: string, s: State)
    requires s.Valid() && s.Top().Code? && 0 < s.i < |src| && src[s.i] == '/' && src[s.i - 1] == '<'
    ensures Step(src, s) == State(s.i + 1, "/", s.stack)
  {
  }

  // ------------------------------------------------------------ over a run

  /** Both machines come from `s` to `t` and read no backtick and no comment on the way. */
  ghost predicate Quietly(src: string, s: State, t: State) {
    && s.Valid() && t.Valid() && Reaches(src, s, t)
    && TicksFrom(src, s) == TicksFrom(src, t) && CommentsFrom(src, s) == CommentsFrom(src, t)
  }

  lemma QuietStep(src: string, s: State)
    requires s.Valid() && s.i < |src| && s.Top().Code? && src[s.i] != '`' && !CommentAt(src, s)
    ensures Quietly(src, s, Step(src, s))
  {
    StepTicks(src, s);
    assert Reaches(src, Step(src, s), Step(src, s));
  }

  lemma {:induction false} ReachesOn(src: string, s: State, t: State, u: State)
    requires s.Valid() && t.Valid() && Reaches(src, s, t) && Reaches(src, t, u)
    ensures Reaches(src, s, u)
    decreases |src| + 1 - s.i
  {
    if s != t { ReachesOn(src, StripStep(src, s), t, u); }
  }

  lemma QuietlyOn(src: string, s: State, t: State, u: State)
    requires Quietly(src, s, t) && Quietly(src, t, u)
    ensures Quietly(src, s, u)
  {
    hide TicksFrom, CommentsFrom;
    ReachesOn(src, s, t, u);
  }

  lemma QuietHere(src: string, s: State)
    requires s.Valid()
    ensures Quietly(src, s, s)
  {
  }

  /** White space changes neither the token nor the stack. */
  lemma {:induction false} SpaceIsQuiet(src: string, s: State, j: nat)
    requires s.Valid() && s.Top().Code? && s.i <= j <= |src| && forall k | s.i <= k < j :: IsSpace(src[k])
    ensures Quietly(src, s, s.(i := j))
    decreases j - s.i
  {
    hide Quietly;
    if s.i == j {
      QuietHere(src, s);
      assert s.(i := j) == s;
    } else {
      SpaceStep(src, s);
      QuietStep(src, s);
      var next := s.(i := s.i + 1);
      SpaceIsQuiet(src, next, j);
      assert next.(i := j) == s.(i := j);
      QuietlyOn(src, s, next, s.(i := j));
    }
  }

  lemma SpaceStep(src: string, s: State)
    requires s.Valid() && s.Top().Code? && s.i < |src| && IsSpace(src[s.i])
    ensures Step(src, s) == s.(i := s.i + 1) && !CommentAt(src, s)
  {
  }

  lemma RegexIsQuiet(src: string, s: State, k: nat)
    requires s.Valid() && LoneSlash(src, s) && ValueFollows(s.token)
    requires FirstRegexEnd(src, s.i + 1, k) && k < |src| && src[k] == '/'
    ensures Quietly(src, s, State(k + 1, "/", s.stack))
  {
    RegexIsOneToken(src, s, k);
    QuietStep(src, s);
  }

  /** A slash at `j`, white space from `from` on or none, and no comment mark and no tag. */
  predicate SlashBehind(src: string, from: nat, j: nat) {
    && 0 < from <= j < |src| && (forall m | from <= m < j :: IsSpace(src[m])) && src[j] == '/' && src[j - 1] != '<'
    && !(j + 1 < |src| && (src[j + 1] == '/' || src[j + 1] == '*'))
  }

  predicate ClosedRegex(src: string, j: nat, k: nat) {
    FirstRegexEnd(src, j + 1, k) && k < |src| && src[k] == '/'
  }

  /** The next slash opens a regex literal, which is read over whole. */
  lemma RegexAhead(src: string, s: State, j: nat, k: nat)
    requires s.Valid() && s.Top().Code? && ValueFollows(s.token) && SlashBehind(src, s.i, j) && ClosedRegex(src, j, k)
    ensures Quietly(src, s, State(k + 1, "/", s.stack))
  {
    hide Quietly, FirstRegexEnd, ValueFollows;
    SpaceIsQuiet(src, s, j);
    RegexIsQuiet(src, s.(i := j), k);
    QuietlyOn(src, s, s.(i := j), State(k + 1, "/", s.stack));
  }

  /** The next slash divides, and reading goes on right behind it. */
  lemma DivisionAhead(src: string, s: State, j: nat)
    requires s.Valid() && s.Top().Code? && EndsOperand(s.token) && SlashBehind(src, s.i, j)
    ensures Quietly(src, s, State(j + 1, "/", s.stack))
  {
    OperandIsDivided(src, s.(i := j));
    hide Quietly, EndsOperand;
    SpaceIsQuiet(src, s, j);
    QuietStep(src, s.(i := j));
    QuietlyOn(src, s, s.(i := j), State(j + 1, "/", s.stack));
  }

  /** An operator that is no brace: one character, and the stack stays. */
  lemma OperatorStep(src: string, s: State)
    requires s.Valid() && s.Top().Code? && s.i < |src| && IsOperator(src[s.i]) && src[s.i] != '{' && src[s.i] != '}'
    ensures Step(src, s) == State(s.i + 1, [src[s.i]], s.stack) && !CommentAt(src, s) && src[s.i] != '`'
  {
  }

  /**
   Behind an operator, and white space or none, a regex literal is read over whole: whatever
   quotes, backticks and slashes it holds open nothing.
   */
  lemma RegexBehindOperator(src: string, s: State, j: nat, k: nat)
    requires s.Valid() && s.Top().Code? && s.i < |src| && IsOperator(src[s.i]) && src[s.i] != '{' && src[s.i] != '}'
    requires SlashBehind(src, s.i + 1, j) && ClosedRegex(src, j, k)
    ensures Quietly(src, s, State(k + 1, "/", s.stack))
  {
    OperatorStep(src, s);
    var next := State(s.i + 1, [src[s.i]], s.stack);
    assert ValueFollows(next.token);
    hide Quietly, SlashBehind, ClosedRegex, ValueFollows;
    QuietStep(src, s);
    RegexAhead(src, next, j, k);
    QuietlyOn(src, s, next, State(k + 1, "/", s.stack));
  }

  /** At the start of a source there is nothing in front, and a regex may stand as well. */
  lemma RegexAtStart(src: string, j: nat, k: nat)
    requires 0 < j && SlashBehind(src, 1, j) && IsSpace(src[0]) && ClosedRegex(src, j, k)
    ensures Quietly(src, START, State(k + 1, "/", START.stack))
  {
    hide Quietly, FirstRegexEnd;
    SpaceIsQuiet(src, START, j);
    RegexIsQuiet(src, START.(i := j), k);
    QuietlyOn(src, START, START.(i := j), State(k + 1, "/", START.stack));
  }

  /** A whole word of code from `i` up to `end`. */
  predicate WordAt(src: string, i: nat, end: nat) {
    && i < end < |src| && !('0' <= src[i] <= '9') && (forall m | i <= m < end :: InWord(src[m]))
    && !InWord(src[end])
  }

  lemma WordStep(src: string, s: State, end: nat)
    requires s.Valid() && s.Top().Code? && WordAt(src, s.i, end)
    ensures Step(src, s) == State(end, src[s.i..end], s.stack) && !CommentAt(src, s) && src[s.i] != '`'
  {
    WordLetters();
    WordEndIs(src, s.i, end);
  }

  lemma {:induction false} WordEndIs(src: string, j: nat, end: nat)
    requires j <= end <= |src| && (forall k | j <= k < end :: IsWordPart(src[k]))
    requires end < |src| ==> !IsWordPart(src[end])
    ensures WordEnd(src, j) == end
    decreases end - j
  {
    if j < end { WordEndIs(src, j + 1, end); }
  }

  /** Behind a word that asks for a value it is the same, and behind any other word a slash divides. */
  lemma SlashBehindWord(src: string, s: State, end: nat, j: nat)
    requires s.Valid() && s.Top().Code? && WordAt(src, s.i, end) && SlashBehind(src, end, j)
    ensures IsValueWord(src[s.i..end]) ==>
              forall k: nat | ClosedRegex(src, j, k) :: Quietly(src, s, State(k + 1, "/", s.stack))
    ensures !IsValueWord(src[s.i..end]) ==> Quietly(src, s, State(j + 1, "/", s.stack))
  {
    WordStep(src, s, end);
    var next := State(end, src[s.i..end], s.stack);
    WordsAsk(src[s.i..end]);
    hide Quietly, SlashBehind, ClosedRegex, ValueFollows, EndsOperand, IsValueWord, WordAt;
    QuietStep(src, s);
    if IsValueWord(src[s.i..end]) {
      forall k: nat | ClosedRegex(src, j, k)
        ensures Quietly(src, s, State(k + 1, "/", s.stack))
      {
        RegexAhead(src, next, j, k);
        QuietlyOn(src, s, next, State(k + 1, "/", s.stack));
      }
    } else {
      DivisionAhead(src, next, j);
      QuietlyOn(src, s, next, State(j + 1, "/", s.stack));
    }
  }

  lemma WordsAsk(word: string)
    requires word != [] && forall m | 0 <= m < |word| :: IsWordPart(word[m])
    ensures IsValueWord(word) ==> ValueFollows(word)
    ensures !IsValueWord(word) ==> EndsOperand(word)
  {
  }

  /** A closing parenthesis or bracket, a dot or a digit ends an operand as well. */
  lemma DivisionBehindMark(src: string, s: State, j: nat)
    requires s.Valid() && s.Top().Code? && s.i < |src|
    requires src[s.i] == ')' || src[s.i] == ']' || src[s.i] == '.' || IsDigit(src[s.i])
    requires SlashBehind(src, s.i + 1, j)
    ensures Quietly(src, s, State(j + 1, "/", s.stack))
  {
    MarkStep(src, s);
    var next := State(s.i + 1, [src[s.i]], s.stack);
    hide Quietly, SlashBehind, EndsOperand;
    QuietStep(src, s);
    DivisionAhead(src, next, j);
    QuietlyOn(src, s, next, State(j + 1, "/", s.stack));
  }

  lemma MarkStep(src: string, s: State)
    requires s.Valid() && s.Top().Code? && s.i < |src|
    requires src[s.i] == ')' || src[s.i] == ']' || src[s.i] == '.' || IsDigit(src[s.i])
    ensures Step(src, s) == State(s.i + 1, [src[s.i]], s.stack) && !CommentAt(src, s) && src[s.i] != '`'
    ensures EndsOperand([src[s.i]])
  {
    var token := [src[s.i]];
    if IsDigit(src[s.i]) {
      assert !IsValueWord(token);
      assert forall k | 0 <= k < |token| :: IsWordPart(token[k]);
    }
  }

  /** A quoted string and a template literal end an operand. */
  lemma QuotesEndOperands(src: string, s: State)
    requires s.Valid() && s.i < |src|
    ensures s.Top().Code? && (src[s.i] == '\'' || src[s.i] == '"') ==> EndsOperand(Step(src, s).token)
    ensures s.Top().Template? && src[s.i] == '`' ==> EndsOperand(Step(src, s).token)
  {
  }

  /** Braces ask for a value too: one that opens, one that closes, and the one of an interpolation. */
  lemma RegexBehindBrace(src: string, s: State, j: nat, k: nat)
    requires s.Valid() && s.i < |src| && ClosedRegex(src, j, k)
    ensures s.Top().Code? && src[s.i] == '{' && SlashBehind(src, s.i + 1, j) ==>
              Quietly(src, s, State(k + 1, "/", s.Below() + [s.Top().(depth := s.Top().depth + 1)]))
    ensures s.Top().Code? && src[s.i] == '}' && s.Top().depth > 0 && SlashBehind(src, s.i + 1, j) ==>
              Quietly(src, s, State(k + 1, "/", s.Below() + [s.Top().(depth := s.Top().depth - 1)]))
    ensures s.Top().Template? && OpensInterpolation(src, s.i) && SlashBehind(src, s.i + 2, j) ==>
              Quietly(src, s, State(k + 1, "/", s.stack + [Code(true, 0)]))
  {
    BraceStep(src, s);
    var next := Step(src, s);
    hide Quietly, SlashBehind, ClosedRegex, ValueFollows, Step;
    if s.Top().Code? && (src[s.i] == '{' || src[s.i] == '}') {
      QuietStep(src, s);
      if next.Top().Code? && SlashBehind(src, next.i, j) {
        RegexAhead(src, next, j, k);
        QuietlyOn(src, s, next, State(k + 1, "/", next.stack));
      }
    } else if s.Top().Template? && OpensInterpolation(src, s.i) && SlashBehind(src, s.i + 2, j) {
      InterpolationIsQuiet(src, s);
      RegexAhead(src, next, j, k);
      QuietlyOn(src, s, next, State(k + 1, "/", next.stack));
    }
  }

  lemma BraceStep(src: string, s: State)
    requires s.Valid() && s.i < |src|
    ensures s.Top().Code? && src[s.i] == '{' ==>
              Step(src, s) == State(s.i + 1, "{", s.Below() + [s.Top().(depth := s.Top().depth + 1)])
              && !CommentAt(src, s)
    ensures s.Top().Code? && src[s.i] == '}' && s.Top().depth > 0 ==>
              Step(src, s) == State(s.i + 1, "}", s.Below() + [s.Top().(depth := s.Top().depth - 1)])
              && !CommentAt(src, s)
    ensures s.Top().Code? && src[s.i] == '}' && s.Top().depth == 0 && s.Top().interp ==>
              Step(src, s) == State(s.i + 1, "}", s.Below()) && !CommentAt(src, s)
    ensures s.Top().Code? && src[s.i] == '}' ==> !CommentAt(src, s)
    ensures s.Top().Template? && OpensInterpolation(src, s.i) ==>
              Step(src, s) == State(s.i + 2, "{", s.stack + [Code(true, 0)])
    ensures ValueFollows("{") && ValueFollows("}")
  {
  }

  lemma InterpolationIsQuiet(src: string, s: State)
    requires s.Valid() && s.i < |src| && s.Top().Template? && OpensInterpolation(src, s.i)
    ensures Quietly(src, s, Step(src, s))
  {
    StepTicks(src, s);
    assert Reaches(src, Step(src, s), Step(src, s));
  }

  // ------------------------------------------------------------ where an interpolation closes

  /** The reader of interpolations comes to no backtick, no slash and no escape before `end`. */
  ghost predicate Simple(src: string, from: nat, end: nat) {
    forall m: nat | from <= m < end && m < |src| && Comes(src, from, m) ::
      src[m] != '`' && src[m] != '/' && src[m] != '\\'
  }

  lemma SimpleHere(src: string, from: nat, end: nat)
    requires Simple(src, from, end) && from < end <= |src|
    ensures src[from] != '`' && src[from] != '/' && src[from] != '\\'
  {
    assert Comes(src, from, from);
  }

  lemma SimpleNext(src: string, from: nat, end: nat)
    requires Simple(src, from, end) && from < |src|
    ensures Simple(src, NextAt(src, from), end)
  {
    forall m: nat | NextAt(src, from) <= m < end && m < |src| && Comes(src, NextAt(src, from), m)
      ensures src[m] != '`' && src[m] != '/' && src[m] != '\\'
    {
      assert Comes(src, from, m);
    }
  }

  /** A word is nothing to the reader of interpolations. */
  lemma {:induction false} WordIsPassed(src: string, j: nat, word: nat, depth: nat, end: nat)
    requires j <= word <= |src| && depth > 0 && forall m | j <= m < word :: IsWordPart(src[m])
    requires HoleEnd(src, j, depth) == Some(end) && Simple(src, j, end)
    ensures HoleEnd(src, word, depth) == Some(end) && Simple(src, word, end) && word < end
    decreases word - j
  {
    if j < word {
      assert IsWordPart(src[j]);
      SimpleNext(src, j, end);
      WordIsPassed(src, j + 1, word, depth, end);
    }
  }

  /** Code up to the brace that closes it is read to that brace, braces in it matched. */
  lemma {:induction false} CodeCloses(src: string, s: State, end: nat)
    requires s.Valid() && s.Top().Code? && s.Top().interp && s.i <= |src|
    requires HoleEnd(src, s.i, s.Top().depth + 1) == Some(end) && Simple(src, s.i, end)
    ensures Quietly(src, s, State(end, "}", s.Below()))
    decreases |src| + 1 - s.i
  {
    var j, depth := s.i, s.Top().depth + 1;
    SimpleHere(src, j, end);
    var next := CodeStepsOn(src, s, end);
    hide Quietly, Simple, HoleEnd;
    QuietStep(src, s);
    if next.stack == s.Below() {
      QuietHere(src, next);
    } else {
      CodeCloses(src, next, end);
      QuietlyOn(src, s, next, State(end, "}", s.Below()));
    }
  }

  /** One step of the scanner is one or more of the reader's, at the same depth. */
  lemma CodeStepsOn(src: string, s: State, end: nat) returns (next: State)
    requires s.Valid() && s.Top().Code? && s.Top().interp && s.i < end <= |src|
    requires HoleEnd(src, s.i, s.Top().depth + 1) == Some(end) && Simple(src, s.i, end)
    ensures next == Step(src, s) && !CommentAt(src, s) && src[s.i] != '`' && next.i > s.i
    ensures next == State(end, "}", s.Below()) ||
              (next.i <= |src| && next.Top().Code? && next.Top().interp && next.Below() == s.Below()
               && |next.stack| == |s.stack|
               && HoleEnd(src, next.i, next.Top().depth + 1) == Some(end) && Simple(src, next.i, end))
  {
    next := Step(src, s);
    SimpleHere(src, s.i, end);
    SimpleNext(src, s.i, end);
    if IsWordStart(src[s.i]) {
      WordIsPassed(src, s.i, WordEnd(src, s.i), s.Top().depth + 1, end);
    } else {
      hide Simple;
    }
  }

  /**
   The scanner and the expander close an interpolation at the same brace, where it holds
   neither a template nor a slash: the scanner is back in the template text right there.
   */
  lemma InterpolationCloses(src: string, s: State, end: nat)
    requires s.Valid() && s.i < |src| && s.Top().Template? && OpensInterpolation(src, s.i)
    requires HoleEnd(src, s.i + 2, 1) == Some(end) && Simple(src, s.i + 2, end)
    ensures Quietly(src, s, State(end, "}", s.stack))
  {
    BraceStep(src, s);
    InterpolationIsQuiet(src, s);
    var next := State(s.i + 2, "{", s.stack + [Code(true, 0)]);
    assert next.Below() == s.stack;
    hide Quietly, Simple, HoleEnd;
    CodeCloses(src, next, end);
    QuietlyOn(src, s, next, State(end, "}", s.stack));
  }

  // ------------------------------------------------------------ where template text closes

  /** Text up to `k` that holds neither an unescaped backtick nor an unescaped interpolation. */
  ghost predicate PlainUpTo(src: string, from: nat, k: nat) {
    from <= k < |src| &&
    forall m | from <= m < k && !Escaped(src, from, m) :: src[m] != '`' && !OpensInterpolation(src, m)
  }

  /** Template text is read up to its first unescaped backtick, and there the literal closes. */
  lemma {:induction false} TextCloses(src: string, s: State, from: nat, k: nat)
    requires s.Valid() && s.Top().Template? && from <= s.i <= k && PlainUpTo(src, from, k)
    requires !Escaped(src, from, s.i) && !Escaped(src, from, k) && src[k] == '`'
    ensures TicksFrom(src, s) == [Closes(k)] + TicksFrom(src, State(k + 1, "`", s.Below()))
    decreases k - s.i
  {
    hide TicksFrom;
    StepTicks(src, s);
    if s.i < k {
      assert src[s.i] != '`' && !OpensInterpolation(src, s.i);
      if src[s.i] == '\\' {
        assert Escaped(src, from, s.i + 1);
        TextCloses(src, s.(i := s.i + 2), from, k);
      } else {
        TextCloses(src, s.(i := s.i + 1), from, k);
      }
    }
  }

  /** And where such text goes on to an interpolation, that opens code. */
  lemma {:induction false} TextOpensCode(src: string, s: State, from: nat, k: nat)
    requires s.Valid() && s.Top().Template? && from <= s.i <= k && PlainUpTo(src, from, k)
    requires !Escaped(src, from, s.i) && !Escaped(src, from, k) && OpensInterpolation(src, k)
    ensures TicksFrom(src, s) == TicksFrom(src, State(k + 2, "{", s.stack + [Code(true, 0)]))
    decreases k - s.i
  {
    hide TicksFrom;
    StepTicks(src, s);
    if s.i < k {
      assert src[s.i] != '`' && !OpensInterpolation(src, s.i);
      if src[s.i] == '\\' {
        assert Escaped(src, from, s.i + 1);
        TextOpensCode(src, s.(i := s.i + 2), from, k);
      } else {
        TextOpensCode(src, s.(i := s.i + 1), from, k);
      }
    }
  }

  // ------------------------------------------------------------ where a comment closes

  predicate BlockMark(src: string, k: nat) {
    k + 1 < |src| && src[k] == '*' && src[k + 1] == '/'
  }

  /**
   A comment of two slashes runs up to the first line break, one of a slash and a star to
   behind the first star and slash after its own, and either to the end without one.
   */
  lemma CommentCloses(src: string, i: nat)
    requires i + 1 < |src| && src[i] == '/' && (src[i + 1] == '/' || src[i + 1] == '*')
    ensures src[i + 1] == '/' ==>
              (forall m | i <= m < CommentEnd(src, i) :: src[m] != '\n')
              && (CommentEnd(src, i) == |src| || src[CommentEnd(src, i)] == '\n')
    ensures src[i + 1] == '*' ==>
              (forall k: nat | i + 2 <= k && BlockMark(src, k)
                  && (forall m: nat | i + 2 <= m < k :: !BlockMark(src, m)) ::
                 CommentEnd(src, i) == k + 2)
              && ((forall m: nat | i + 2 <= m :: !BlockMark(src, m)) ==> CommentEnd(src, i) == |src|)
  {
    if src[i + 1] == '*' {
      forall k: nat | i + 2 <= k && BlockMark(src, k) && forall m: nat | i + 2 <= m < k :: !BlockMark(src, m)
        ensures BlockEnd(src, i + 2) == k + 2
      {
        FirstBlockMark(src, i + 2, k);
      }
      if forall m: nat | i + 2 <= m :: !BlockMark(src, m) { NoBlockMark(src, i + 2); }
    }
  }

  lemma {:induction false} FirstBlockMark(src: string, j: nat, k: nat)
    requires j <= k && BlockMark(src, k) && forall m: nat | j <= m < k :: !BlockMark(src, m)
    ensures BlockEnd(src, j) == k + 2
    decreases k - j
  {
    if j < k {
      assert !BlockMark(src, j);
      FirstBlockMark(src, j + 1, k);
    }
  }

  lemma {:induction false} NoBlockMark(src: string, j: nat)
    requires j <= |src| && forall m: nat | j <= m :: !BlockMark(src, m)
    ensures BlockEnd(src, j) == |src|
    decreases |src| - j
  {
    if j + 1 < |src| {
      assert !BlockMark(src, j);
      NoBlockMark(src, j + 1);
    }
  }
}
