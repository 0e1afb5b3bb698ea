/**
 The TypeScript lexer both readers of the link-integrity gate share: quoted strings,
 regex literals, and one step of the machine whose stack tells code from template text.
 */
module Lexer {
  import opened Text

  // ------------------------------------------------------------ character classes

  predicate IsWordPart(c: char) {
    IsWordChar(c) || c == '$'
  }

  predicate IsWordStart(c: char) {
    IsWordPart(c) && !IsDigit(c)
  }

  // ------------------------------------------------------------ quoted strings

  /** Position `k` is escaped: an unescaped backslash stands before it, at `from` or later. */
  predicate Escaped(src: string, from: nat, k: nat)
    requires k <= |src|
  {
    k > from && src[k - 1] == '\\' && !Escaped(src, from, k - 1)
  }

  /** Where a quoted string that is open at `j` ends; one past the source when an escape runs over. */
  function QuoteEnd(src: string, quote: char, j: nat): (end: nat)
    requires j <= |src| + 1
    ensures j <= end <= |src| + 1
    decreases |src| + 1 - j
  {
    if j >= |src| then j
    else if src[j] == '\\' then QuoteEnd(src, quote, j + 2)
    else if src[j] == quote then j + 1
    else if src[j] == '\n' then j
    else QuoteEnd(src, quote, j + 1)
  }

  function SkipQuotedFrom(src: string, i: nat): (end: nat)
    requires i < |src|
    ensures i < end <= |src| + 1
  {
    QuoteEnd(src, src[i], i + 1)
  }

  /** A closing quote or a line break that counts. */
  predicate EndsQuote(src: string, quote: char, from: nat, k: nat)
    requires k < |src|
  {
    !Escaped(src, from, k) && (src[k] == quote || src[k] == '\n')
  }

  /** `k` is the first position that ends the quote, or the end of the source when none does. */
  predicate FirstQuoteEnd(src: string, quote: char, from: nat, k: nat) {
    && from <= k <= |src|
    && (forall m | from <= m < k :: !EndsQuote(src, quote, from, m))
    && (k < |src| ==> EndsQuote(src, quote, from, k))
  }

  lemma {:induction false} QuoteEndFrom(src: string, quote: char, from: nat, j: nat, k: nat)
    requires FirstQuoteEnd(src, quote, from, k) && quote != '\\'
    requires from <= j <= |src| && j <= k && !Escaped(src, from, j)
    ensures QuoteEnd(src, quote, j) ==
              if k == |src| then |src| + (if Escaped(src, from, |src|) then 1 else 0)
              else if src[k] == quote then k + 1 else k
    decreases |src| - j
  {
    if j < k {
      assert !EndsQuote(src, quote, from, j);
      if src[j] == '\\' {
        assert Escaped(src, from, j + 1);
        if j + 1 < |src| {
          assert !EndsQuote(src, quote, from, j + 1);
          QuoteEndFrom(src, quote, from, j + 2, k);
        }
      } else {
        QuoteEndFrom(src, quote, from, j + 1, k);
      }
    }
  }

  /**
   A quoted string ends behind its first unescaped quote, at the first unescaped line
   break before that, or with the source, one past it when a backslash ends it.
   */
  ghost predicate QuoteEndsAt(src: string, i: nat, end: nat)
    requires i < |src|
  {
    forall k: nat | FirstQuoteEnd(src, src[i], i + 1, k) ::
      end == if k == |src| then |src| + (if Escaped(src, i + 1, |src|) then 1 else 0)
             else if src[k] == src[i] then k + 1 else k
  }

  lemma QuoteMeaning(src: string, i: nat)
    requires i < |src| && src[i] != '\\'
    ensures QuoteEndsAt(src, i, SkipQuotedFrom(src, i))
  {
    forall k: nat | FirstQuoteEnd(src, src[i], i + 1, k)
      ensures SkipQuotedFrom(src, i) ==
                if k == |src| then |src| + (if Escaped(src, i + 1, |src|) then 1 else 0)
                else if src[k] == src[i] then k + 1 else k
    {
      QuoteEndFrom(src, src[i], i + 1, i + 1, k);
    }
  }

  /** The loop of the source: skip a quoted string from its quote, never past the line. */
  method SkipQuoted(src: string, i: nat) returns (end: nat)
    requires i < |src|
    ensures end == SkipQuotedFrom(src, i)
    ensures src[i] != '\\' ==> QuoteEndsAt(src, i, end)
  {
    if src[i] != '\\' { QuoteMeaning(src, i); }
    var quote := src[i];
    end := i + 1;
    while end < |src|
      invariant i < end <= |src| + 1
      invariant QuoteEnd(src, quote, end) == SkipQuotedFrom(src, i)
      decreases |src| + 1 - end
    {
      if src[end] == '\\' {
        end := end + 2;
        continue;
      }
      if src[end] == quote {
        return end + 1;
      }
      if src[end] == '\n' {
        return;
      }
      end := end + 1;
    }
  }

  // ------------------------------------------------------------ regex literals

  function RegexEnd(src: string, j: nat, inClass: bool): (end: Option<nat>)
    ensures end.Some? ==> j < end.value <= |src| && src[end.value - 1] == '/'
    decreases |src| - j
  {
    if j >= |src| then None
    else if src[j] == '\\' then RegexEnd(src, j + 2, inClass)
    else if src[j] == '\n' then None
    else if inClass then RegexEnd(src, j + 1, src[j] != ']')
    else if src[j] == '[' then RegexEnd(src, j + 1, true)
    else if src[j] == '/' then Some(j + 1)
    else RegexEnd(src, j + 1, false)
  }

  function SkipRegexFrom(src: string, i: nat): (end: Option<nat>)
    ensures end.Some? ==> i + 1 < end.value <= |src|
  {
    RegexEnd(src, i + 1, false)
  }

  /** Between an unescaped `[` and the next unescaped `]`. */
  predicate InClass(src: string, from: nat, k: nat)
    requires k <= |src|
  {
    k > from &&
    if Escaped(src, from, k - 1) then InClass(src, from, k - 1)
    else if src[k - 1] == '[' then true
    else src[k - 1] != ']' && InClass(src, from, k - 1)
  }

  /** A closing slash or a line break that counts. */
  predicate EndsRegex(src: string, from: nat, k: nat)
    requires k < |src|
  {
    !Escaped(src, from, k) && (src[k] == '\n' || (src[k] == '/' && !InClass(src, from, k)))
  }

  predicate FirstRegexEnd(src: string, from: nat, k: nat) {
    && from <= k <= |src|
    && (forall m | from <= m < k :: !EndsRegex(src, from, m))
    && (k < |src| ==> EndsRegex(src, from, k))
  }

  lemma {:induction false} RegexEndFrom(src: string, from: nat, j: nat, k: nat)
    requires FirstRegexEnd(src, from, k)
    requires from <= j <= |src| && j <= k && !Escaped(src, from, j)
    ensures RegexEnd(src, j, InClass(src, from, j)) == if k < |src| && src[k] == '/' then Some(k + 1) else None
    decreases |src| - j
  {
    if j < k {
      assert !EndsRegex(src, from, j);
      if src[j] == '\\' {
        assert Escaped(src, from, j + 1);
        if j + 1 < |src| {
          assert !EndsRegex(src, from, j + 1);
          assert !Escaped(src, from, j + 2) && InClass(src, from, j + 2) == InClass(src, from, j);
          RegexEndFrom(src, from, j + 2, k);
        }
      } else {
        RegexEndFrom(src, from, j + 1, k);
      }
    }
  }

  /**
   A slash opens a regex literal that ends behind the first unescaped slash outside a
   character class, and is division when an unescaped line break or the end comes first.
   */
  ghost predicate RegexEndsAt(src: string, i: nat, end: Option<nat>) {
    forall k: nat | FirstRegexEnd(src, i + 1, k) :: end == if k < |src| && src[k] == '/' then Some(k + 1) else None
  }

  lemma RegexMeaning(src: string, i: nat)
    requires i < |src|
    ensures RegexEndsAt(src, i, SkipRegexFrom(src, i))
  {
    forall k: nat | FirstRegexEnd(src, i + 1, k)
      ensures SkipRegexFrom(src, i) == if k < |src| && src[k] == '/' then Some(k + 1) else None
    {
      RegexEndFrom(src, i + 1, i + 1, k);
    }
  }

  /** The loop of the source: `None` when the slash turns out to be division. */
  method SkipRegex(src: string, i: nat) returns (end: Option<nat>)
    requires i < |src|
    ensures end == SkipRegexFrom(src, i) && RegexEndsAt(src, i, end)
  {
    RegexMeaning(src, i);
    var j, inClass := i + 1, false;
    while j < |src|
      invariant RegexEnd(src, j, inClass) == SkipRegexFrom(src, i)
      decreases |src| - j
    {
      var c := src[j];
      if c == '\\' {
        j := j + 2;
        continue;
      }
      if c == '\n' {
        return None;
      }
      if inClass {
        if c == ']' {
          inClass := false;
        }
        j := j + 1;
        continue;
      }
      if c == '[' {
        inClass := true;
        j := j + 1;
        continue;
      }
      if c == '/' {
        return Some(j + 1);
      }
      j := j + 1;
    }
    return None;
  }

  const REGEX_MAY_FOLLOW: set<string> :=
    {"", "(", ",", "=", ":", "[", "!", "&", "|", "?", "{", "}", ";", "+", "-", "*", "%", "~", "^", "<", ">", "\n",
     "return", "typeof", "instanceof", "in", "of", "new", "delete", "void", "throw", "case", "do", "else", "yield",
     "await"}

  /** A slash glued to `<` closes a JSX tag; otherwise the previous token decides. */
  predicate RegexMayStartAt(src: string, i: nat, token: string)
    requires i < |src|
  {
    !(i > 0 && src[i - 1] == '<') && token in REGEX_MAY_FOLLOW
  }

  // ------------------------------------------------------------ words

  function WordEnd(src: string, j: nat): (end: nat)
    requires j <= |src|
    ensures j <= end <= |src|
    ensures forall k | j <= k < end :: IsWordPart(src[k])
    ensures end < |src| ==> !IsWordPart(src[end])
    decreases |src| - j
  {
    if j < |src| && IsWordPart(src[j]) then WordEnd(src, j + 1) else j
  }

  // ------------------------------------------------------------ the stack machine

  datatype Frame = Code(interp: bool, depth: nat) | Template(start: nat)

  datatype State = State(i: nat, token: string, stack: seq<Frame>) {
    /** Bottom code frame, then template text and interpolated code in turn. */
    predicate Valid() {
      && stack != []
      && forall k | 0 <= k < |stack| ::
           if k % 2 == 0 then stack[k].Code? && (stack[k].interp <==> k > 0) else stack[k].Template?
    }

    function Top(): Frame
      requires stack != []
    {
      stack[|stack| - 1]
    }

    function Below(): seq<Frame>
      requires stack != []
    {
      stack[..|stack| - 1]
    }
  }

  const START := State(0, "", [Code(false, 0)])

  /** One step inside template text. */
  function TemplateStep(src: string, s: State): State
    requires s.i < |src| && s.stack != []
  {
    var ch := src[s.i];
    if ch == '\\' then s.(i := s.i + 2)
    else if ch == '`' then State(s.i + 1, "`", s.Below())
    else if OpensInterpolation(src, s.i) then State(s.i + 2, "{", s.stack + [Code(true, 0)])
    else s.(i := s.i + 1)
  }

  /** One step inside code, comments aside. */
  function CodeStep(src: string, s: State): State
    requires s.i < |src| && s.Valid() && s.Top().Code?
  {
    var ch := src[s.i];
    var top := s.Top();
    if ch == '\'' || ch == '"' then State(SkipQuotedFrom(src, s.i), [ch], s.stack)
    else if ch == '`' then State(s.i + 1, s.token, s.stack + [Template(s.i)])
    else if ch == '{' then State(s.i + 1, "{", s.Below() + [top.(depth := top.depth + 1)])
    else if ch == '}' then
      State(s.i + 1, "}",
        if top.depth > 0 then s.Below() + [top.(depth := top.depth - 1)]
        else if top.interp then s.Below()
        else s.stack)
    else if ch == '/' && RegexMayStartAt(src, s.i, s.token) && SkipRegexFrom(src, s.i).Some? then
      State(SkipRegexFrom(src, s.i).value, "/", s.stack)
    else if IsWordStart(ch) then
      State(WordEnd(src, s.i), src[s.i..WordEnd(src, s.i)], s.stack)
    else State(s.i + 1, if IsSpace(ch) then s.token else [ch], s.stack)
  }

  /** One step; the bottom frame is never popped and the position always moves on. */
  function Step(src: string, s: State): (next: State)
    requires s.i < |src| && s.Valid()
    ensures next.Valid() && s.i < next.i <= |src| + 1
  {
    if s.Top().Template? then TemplateStep(src, s)
    else
      assert IsWordStart(src[s.i]) ==> WordEnd(src, s.i) > s.i;
      CodeStep(src, s)
  }

  /** The stack seen as a word: frames are pushed and popped at the top, one a step. */
  predicate StackStep(before: seq<Frame>, after: seq<Frame>) {
    || before == after
    || (before != [] && after == before[..|before| - 1])
    || (after != [] && before == after[..|after| - 1])
    || (|before| == |after| && before != [] && before[..|before| - 1] == after[..|after| - 1])
  }

  /** One step touches the top frame only, and the bottom frame stays a code frame of the file. */
  lemma StepTouchesTop(src: string, s: State)
    requires s.Valid() && s.i < |src|
    ensures StackStep(s.stack, Step(src, s).stack)
    ensures Step(src, s).stack[0].Code? && !Step(src, s).stack[0].interp
  {
    var next := Step(src, s);
    assert next.Valid();
  }

  /**
   Which characters move the stack: only braces and backticks in code, and backticks and
   interpolations in template text. Text inside quotes and regex literals is stepped over.
   */
  lemma StackMovesAt(src: string, s: State)
    requires s.Valid() && s.i < |src|
    ensures |Step(src, s).stack| > |s.stack| <==>
              if s.Top().Code? then src[s.i] == '`' else OpensInterpolation(src, s.i)
    ensures |Step(src, s).stack| < |s.stack| <==>
              if s.Top().Code? then src[s.i] == '}' && s.Top().depth == 0 && |s.stack| > 1 else src[s.i] == '`'
  {
    assert s.Top() == s.stack[|s.stack| - 1];
  }

  // ------------------------------------------------------------ one step, as it runs

  /** The part of both loops that reads template text; a closing backtick is reported by `closed`. */
  method ReadTemplate(src: string, i: nat, token: string, stack: seq<Frame>)
    returns (i': nat, token': string, stack': seq<Frame>, closed: bool)
    requires i < |src| && State(i, token, stack).Valid() && State(i, token, stack).Top().Template?
    ensures State(i', token', stack') == Step(src, State(i, token, stack))
    ensures closed <==> src[i] == '`'
  {
    i', token', stack', closed := i + 1, token, stack, false;
    var ch := src[i];
    if ch == '\\' {
      i' := i + 2;
    } else if ch == '`' {
      stack', token', closed := stack[..|stack| - 1], "`", true;
    } else if ch == '$' && i + 1 < |src| && src[i + 1] == '{' {
      stack', token', i' := stack + [Code(true, 0)], "{", i + 2;
    }
  }

  /** The part of both loops that reads code, comments aside. */
  method ReadCode(src: string, i: nat, token: string, stack: seq<Frame>)
    returns (i': nat, token': string, stack': seq<Frame>)
    requires i < |src| && State(i, token, stack).Valid() && State(i, token, stack).Top().Code?
    ensures State(i', token', stack') == Step(src, State(i, token, stack))
  {
    i', token', stack' := i + 1, token, stack;
    var top := stack[|stack| - 1];
    var ch := src[i];
    if ch == '\'' || ch == '"' {
      i' := SkipQuoted(src, i);
      token' := [ch];
      return;
    }
    if ch == '`' {
      stack' := stack + [Template(i)];
      return;
    }
    if ch == '{' {
      stack', token' := stack[..|stack| - 1] + [top.(depth := top.depth + 1)], "{";
      return;
    }
    if ch == '}' {
      if top.depth > 0 {
        stack' := stack[..|stack| - 1] + [top.(depth := top.depth - 1)];
      } else if top.interp {
        stack' := stack[..|stack| - 1];
      }
      token' := "}";
      return;
    }
    if ch == '/' && RegexMayStartAt(src, i, token) {
      var after := SkipRegex(src, i);
      if after.Some? {
        i', token' := after.value, "/";
        return;
      }
    }
    if IsWordStart(ch) {
      var j := i;
      while j < |src| && IsWordPart(src[j])
        invariant i <= j <= |src| && WordEnd(src, j) == WordEnd(src, i)
      {
        j := j + 1;
      }
      i', token' := j, src[i..j];
      return;
    }
    if !IsSpace(ch) {
      token' := [ch];
    }
  }
}
