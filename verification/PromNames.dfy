/**
 The names read from what is left of a written expression: selectors and ranges are
 stripped, clauses are not there, calls are passed over, and the metrics remain.
 */
module PromNames {
  import opened Text
  import opened PromText
  import opened PromShield
  import opened PromWalk
  import opened PromRender
  import opened PromRoundTrip

  // ------------------------------------------------------------ what stripping leaves of a reference

  function SelectorOf(reference: string): string {
    reference[|MetricName(reference)|..]
  }

  predicate IsBraced(reference: string) {
    SelectorOf(reference) != [] && SelectorOf(reference)[0] == '{' && '}' in SelectorOf(reference)
  }

  function RangeOf(reference: string): string {
    if IsBraced(reference) then SelectorOf(reference)[SelectorEnd(SelectorOf(reference))..] else SelectorOf(reference)
  }

  function Gap(there: bool): string {
    if there then [' '] else []
  }

  /** The selector gone, its place held by a blank. */
  function Unbraced(reference: string): string {
    MetricName(reference) + (Gap(IsBraced(reference)) + RangeOf(reference))
  }

  /** The range gone as well. */
  function Bared(reference: string): string {
    MetricName(reference) + (Gap(IsBraced(reference)) + Gap(RangeOf(reference) != []))
  }

  /** What is left of an expression, its references as `shown`. */
  function Left(e: Expr, style: Style, shown: string -> string): string {
    match e
    case Metric(reference) => shown(reference)
    case PerSeries(fn, arg) => fn + Wrapped(Left(arg, First(style), shown))
    case Paired(left, right) => Wrapped(Left(left, First(style), shown) + PLUS + Left(right, Second(style), shown))
    case Agg(_, _, _) => Blank(|Render(e, style)|)
  }

  function Whole(): string -> string {
    (reference: string) => reference
  }

  lemma {:induction false} LeftWhole(e: Expr, style: Style)
    ensures Left(e, style, Whole()) == Rest(e, style)
  {
    hide Render;
    match e
    case Metric(_) =>
    case PerSeries(_, arg) => LeftWhole(arg, First(style));
    case Paired(left, right) =>
      LeftWhole(left, First(style));
      LeftWhole(right, Second(style));
    case Agg(_, _, _) =>
  }

  // ------------------------------------------------------------ spans

  lemma {:induction false} StripNothing(text: string, left: char, right: char)
    requires left !in text
    ensures StripSpans(text, left, right) == text
    decreases |text|
  {
    if text != [] { StripNothing(text[1..], left, right); }
  }

  /** Text without an opening character is passed over. */
  lemma {:induction false} PassedOver(text: string, rest: string, left: char, right: char)
    requires left !in text
    ensures StripSpans(text + rest, left, right) == text + StripSpans(rest, left, right)
    decreases |text|
  {
    if text == [] {
      assert text + rest == rest;
    } else {
      assert (text + rest)[1..] == text[1..] + rest;
      PassedOver(text[1..], rest, left, right);
    }
  }

  /** A span goes, for one blank. */
  lemma SpanGoes(text: string, rest: string, left: char, right: char)
    requires |text| > 1 && text[0] == left && text[|text| - 1] == right && right !in text[1..|text| - 1]
    ensures StripSpans(text + rest, left, right) == [' '] + StripSpans(rest, left, right)
  {
    var whole := text + rest;
    var inner := text[1..|text| - 1];
    assert whole[1..] == inner + ([right] + rest);
    BeforeAt(inner, right, rest);
    assert whole[|inner| + 2..] == rest;
  }

  lemma {:induction false} BeforeAt(inner: string, c: char, rest: string)
    requires c !in inner
    ensures Before(inner + ([c] + rest), c) == inner && c in inner + ([c] + rest)
  {
    if inner == [] {
      assert inner + ([c] + rest) == [c] + rest;
    } else {
      assert (inner + ([c] + rest))[1..] == inner[1..] + ([c] + rest);
      BeforeAt(inner[1..], c, rest);
    }
  }

  predicate IsLeftChar(c: char) {
    IsNameChar(c) || c == '(' || c == ')' || c == ' ' || c == '+'
  }

  predicate AllLeft(text: string) {
    forall k | 0 <= k < |text| :: IsLeftChar(text[k])
  }

  /** What `shown` and the stripping of spans do to a reference, they do to the expression. */
  ghost predicate Goes(left: char, right: char, before: string -> string, after: string -> string) {
    forall reference, post | IsScanned(reference) :: GoesAt(left, right, before, after, reference, post)
  }

  predicate GoesAt(left: char, right: char, before: string -> string, after: string -> string, reference: string,
                   post: string)
  {
    StripSpans(before(reference) + post, left, right) == after(reference) + StripSpans(post, left, right)
  }

  lemma {:induction false} SpansGo(e: Expr, style: Style, left: char, right: char, before: string -> string,
                                   after: string -> string, post: string)
    requires IsSeen(e) && Goes(left, right, before, after) && !IsLeftChar(left)
    ensures StripSpans(Left(e, style, before) + post, left, right)
         == Left(e, style, after) + StripSpans(post, left, right)
    decreases e
  {
    hide StripSpans, Goes, Render;
    match e
    case Metric(reference) =>
      SeenReference(reference);
      GoesHere(left, right, before, after, reference, post);
    case PerSeries(fn, arg) =>
      SpansGo(arg, First(style), left, right, before, after, [')'] + post);
      CallPasses(fn, Left(arg, First(style), before), Left(arg, First(style), after), post, left, right);
    case Paired(l, r) =>
      var tail := [')'] + post;
      SpansGo(r, Second(style), left, right, before, after, tail);
      SpansGo(l, First(style), left, right, before, after, PLUS + (Left(r, Second(style), before) + tail));
      PairPasses(Left(l, First(style), before), Left(l, First(style), after), Left(r, Second(style), before),
                 Left(r, Second(style), after), post, left, right);
    case Agg(_, _, _) =>
      PassedOver(Blank(|Render(e, style)|), post, left, right);
  }

  lemma GoesHere(left: char, right: char, before: string -> string, after: string -> string, reference: string,
                 post: string)
    requires Goes(left, right, before, after) && IsScanned(reference)
    ensures StripSpans(before(reference) + post, left, right) == after(reference) + StripSpans(post, left, right)
  {
    assert GoesAt(left, right, before, after, reference, post);
  }

  lemma CallPasses(fn: string, inner: string, other: string, post: string, left: char, right: char)
    requires IsIdentifier(fn) && !IsLeftChar(left)
    requires StripSpans(inner + ([')'] + post), left, right) == other + StripSpans([')'] + post, left, right)
    ensures StripSpans(fn + Wrapped(inner) + post, left, right) == fn + Wrapped(other) + StripSpans(post, left, right)
  {
    hide StripSpans;
    var tail := [')'] + post;
    var front := fn + ['('];
    assert fn + Wrapped(inner) + post == front + (inner + tail);
    PassedOver(front, inner + tail, left, right);
    PassedOver([')'], post, left, right);
    assert front + (other + ([')'] + StripSpans(post, left, right)))
        == fn + Wrapped(other) + StripSpans(post, left, right);
  }

  lemma PairPasses(l: string, ll: string, r: string, rr: string, post: string, left: char, right: char)
    requires !IsLeftChar(left)
    requires var tail := [')'] + post;
             && StripSpans(r + tail, left, right) == rr + StripSpans(tail, left, right)
             && StripSpans(l + (PLUS + (r + tail)), left, right) == ll + StripSpans(PLUS + (r + tail), left, right)
    ensures StripSpans(Wrapped(l + PLUS + r) + post, left, right)
         == Wrapped(ll + PLUS + rr) + StripSpans(post, left, right)
  {
    hide StripSpans;
    var tail := [')'] + post;
    assert Wrapped(l + PLUS + r) + post == ['('] + (l + (PLUS + (r + tail)));
    PassedOver(['('], l + (PLUS + (r + tail)), left, right);
    PassedOver(PLUS, r + tail, left, right);
    PassedOver([')'], post, left, right);
    assert ['('] + (ll + (PLUS + (rr + ([')'] + StripSpans(post, left, right)))))
        == Wrapped(ll + PLUS + rr) + StripSpans(post, left, right);
  }

  predicate IsSpan(text: string, left: char, right: char) {
    |text| > 1 && text[0] == left && text[|text| - 1] == right && right !in text[1..|text| - 1]
  }

  lemma SpanBetween(front: string, span: string, back: string, post: string, left: char, right: char)
    requires left !in front && left !in back && (span == [] || IsSpan(span, left, right))
    ensures StripSpans(front + (span + (back + post)), left, right)
         == front + (Gap(span != []) + (back + StripSpans(post, left, right)))
  {
    hide StripSpans;
    PassedOver(front, span + (back + post), left, right);
    PassedOver(back, post, left, right);
    if span == [] {
      assert span + (back + post) == back + post;
      assert [] + (back + StripSpans(post, left, right)) == back + StripSpans(post, left, right);
    } else {
      SpanGoes(span, back + post, left, right);
    }
  }

  function BracesOf(reference: string): string {
    if IsBraced(reference) then SelectorOf(reference)[..SelectorEnd(SelectorOf(reference))] else []
  }

  lemma SelectedParts(rest: string)
    requires IsSelected(rest)
    ensures SelectorEnd(rest) <= |rest| && IsSpan(rest[..SelectorEnd(rest)], '{', '}')
    ensures rest == rest[..SelectorEnd(rest)] + rest[SelectorEnd(rest)..]
  {
    hide IsRange, IsSelectorChar;
    var braces := rest[..SelectorEnd(rest)];
    assert braces[1..|braces| - 1] == Before(rest, '}')[1..];
  }

  /** A scanned reference in its three parts. */
  lemma PartsOf(reference: string)
    requires IsScanned(reference)
    ensures var name, braces, range := MetricName(reference), BracesOf(reference), RangeOf(reference);
            && IsIdentifier(name) && IsRange(range) && reference == name + (braces + range)
            && (braces == [] || IsSpan(braces, '{', '}')) && (braces != [] <==> IsBraced(reference))
  {
    hide NoOperator, IsIdentifier, IsSpan;
    var rest := SelectorOf(reference);
    assert reference == MetricName(reference) + rest;
    if IsSelected(rest) {
      SelectedParts(rest);
    } else {
      assert [] + rest == rest;
    }
  }

  lemma ShownParts(reference: string)
    ensures Unbraced(reference) == MetricName(reference) + (Gap(IsBraced(reference)) + RangeOf(reference))
    ensures Bared(reference)
         == MetricName(reference) + (Gap(IsBraced(reference)) + Gap(RangeOf(reference) != []))
  {
    hide MetricName, IsBraced, RangeOf, Gap;
  }

  lemma RangeIsSpan(range: string)
    requires IsRange(range)
    ensures (range == [] || IsSpan(range, '[', ']')) && '{' !in range
  {
  }

  lemma Regroup(a: string, b: string, c: string, d: string)
    ensures a + (b + c) + d == a + (b + (c + d))
    ensures a + (b + c) + d == a + b + (c + ([] + d))
  {
  }

  lemma IdentifierIsPlain(name: string)
    requires IsIdentifier(name)
    ensures AllLeft(name) && '{' !in name && '[' !in name
  {
  }

  /** Braces go from every reference. */
  lemma BracesGo(reference: string, post: string)
    requires IsScanned(reference)
    ensures StripSpans(reference + post, '{', '}') == Unbraced(reference) + StripSpans(post, '{', '}')
  {
    var name, braces, range := MetricName(reference), BracesOf(reference), RangeOf(reference);
    hide *;
    ShownParts(reference);
    PartsOf(reference);
    RangeIsSpan(range);
    IdentifierIsPlain(name);
    SpanBetween(name, braces, range, post, '{', '}');
    Regroup(name, braces, range, post);
    Regroup(name, Gap(braces != []), range, StripSpans(post, '{', '}'));
  }

  lemma GapIsPlain(gap: bool)
    ensures AllLeft(Gap(gap)) && '[' !in Gap(gap)
  {
  }

  /** And then the brackets. */
  lemma BracketsGo(reference: string, post: string)
    requires IsScanned(reference)
    ensures StripSpans(Unbraced(reference) + post, '[', ']') == Bared(reference) + StripSpans(post, '[', ']')
  {
    var name, gap, range := MetricName(reference), Gap(IsBraced(reference)), RangeOf(reference);
    hide *;
    ShownParts(reference);
    PartsOf(reference);
    RangeIsSpan(range);
    IdentifierIsPlain(name);
    GapIsPlain(IsBraced(reference));
    SpanBetween(name + gap, range, [], post, '[', ']');
    Regroup(name, gap, range, post);
    Regroup(name, gap, Gap(range != []), StripSpans(post, '[', ']'));
  }

  // ------------------------------------------------------------ clauses

  lemma {:induction false} NoClause(text: string, words: seq<string>)
    requires forall k | 0 <= k < |words| :: ClauseWith(text, words[k]) == 0
    ensures ClauseLength(text, words) == 0
  {
    hide ClauseWith;
    if words != [] { NoClause(text, words[1..]); }
  }

  lemma ClausesAreWords(k: nat)
    requires k < |CLAUSES|
    ensures CLAUSES[k] != [] && forall j | 0 <= j < |CLAUSES[k]| :: IsWordChar(CLAUSES[k][j])
    ensures CLAUSES[k] in PROMQL_NON_METRICS && Lower(CLAUSES[k]) == CLAUSES[k]
  {
    if k == 0 { assert CLAUSES[k] == "by"; }
    else if k == 1 { assert CLAUSES[k] == "without"; }
    else if k == 2 { assert CLAUSES[k] == "on"; }
    else if k == 3 { assert CLAUSES[k] == "ignoring"; }
    else if k == 4 { assert CLAUSES[k] == "group_left"; }
    else { assert CLAUSES[k] == "group_right"; }
  }

  /** Where no clause starts, the character in front stays. */
  lemma FrontStays(text: string, inWord: bool)
    requires text != [] && forall k | 0 <= k < |CLAUSES| :: ClauseWith(text, CLAUSES[k]) == 0
    ensures StripClauses(text, inWord) == [text[0]] + StripClauses(text[1..], IsWordChar(text[0]))
  {
    hide ClauseWith;
    NoClause(text, CLAUSES);
  }

  /** A character outside words starts no clause and stays. */
  lemma MarkStays(text: string, inWord: bool)
    requires text != [] && !IsWordChar(text[0])
    ensures StripClauses(text, inWord) == [text[0]] + StripClauses(text[1..], false)
  {
    hide ClauseWith;
    forall k | 0 <= k < |CLAUSES|
      ensures ClauseWith(text, CLAUSES[k]) == 0
    {
      ClausesAreWords(k);
      NoClauseAtMark(text, CLAUSES[k]);
    }
    FrontStays(text, inWord);
  }

  lemma NoClauseAtMark(text: string, word: string)
    requires text != [] && !IsWordChar(text[0]) && word != [] && IsWordChar(word[0])
    ensures ClauseWith(text, word) == 0
  {
  }

  /** White space or none, and no parenthesis behind it. */
  predicate NotCalled(post: string) {
    SkipSpaceFrom(post, 0) < |post| ==> post[SkipSpaceFrom(post, 0)] != '('
  }

  lemma BehindIsNotCalled(post: string)
    requires Behind(post)
    ensures NotCalled(post) && (post == [] || !IsWordChar(post[0])) && EndsName(post)
  {
    if post == [] {
    } else if post[0] == ')' {
      NoSpaceHere(post, 0);
    } else {
      assert post[0] == PLUS[0] && post[1] == PLUS[1];
      OneSpaceHere(post, 0);
    }
  }

  /** White space is skipped in a text as in what stands there. */
  lemma {:induction false} SkipSpaceWithin(text: string, at: nat, post: string, k: nat)
    requires at <= |text| && text[at..] == post && k <= |post|
    ensures SkipSpaceFrom(text, at + k) == at + SkipSpaceFrom(post, k)
    decreases |post| - k
  {
    if k < |post| {
      assert text[at + k] == post[k];
      if IsSpace(post[k]) { SkipSpaceWithin(text, at, post, k + 1); }
    }
  }

  lemma BlankIsNotCalled(post: string)
    requires NotCalled(post)
    ensures NotCalled([' '] + post)
  {
    var text := [' '] + post;
    assert text[1..] == post;
    SkipSpaceWithin(text, 1, post, 0);
    assert SkipSpaceFrom(text, 0) == SkipSpaceFrom(text, 1);
  }

  lemma MarkIsNotCalled(post: string)
    requires post != [] && !IsSpace(post[0]) && post[0] != '('
    ensures NotCalled(post)
  {
    NoSpaceHere(post, 0);
  }

  /** A word at the front of a run of characters, and of what does not go on with a word. */
  lemma WordFits(run: string, post: string, word: string)
    requires StartsWith(run + post, word) && (post == [] || !IsWordChar(post[0]))
    requires forall k | 0 <= k < |word| :: IsWordChar(word[k])
    ensures |word| <= |run| && word == run[..|word|]
  {
    var text := run + post;
    assert forall k | 0 <= k < |word| :: text[k] == word[k];
    assert post != [] ==> text[|run|] == post[0];
    assert word == text[..|word|];
  }

  lemma NothingOpens(text: string, word: string, at: nat)
    requires |word| <= |text| && SkipSpaceFrom(text, |word|) == at && (at < |text| ==> text[at] != '(')
    ensures ClauseWith(text, word) == 0
  {
  }

  /** What comes right behind a word is no space and no parenthesis. */
  lemma NextIsNoSpace(text: string, word: string)
    requires |word| < |text| && (IsNameChar(text[|word|]) || text[|word|] == ')')
    ensures ClauseWith(text, word) == 0
  {
    NoSpaceHere(text, |word|);
    NothingOpens(text, word, |word|);
  }

  lemma NoClauseBehind(name: string, post: string)
    requires NotCalled(post)
    ensures ClauseWith(name + post, name) == 0
  {
    hide ClauseWith, SkipSpaceFrom;
    var text := name + post;
    assert text[|name|..] == post;
    SkipSpaceWithin(text, |name|, post, 0);
    var at := SkipSpaceFrom(post, 0);
    if at < |post| { assert text[|name| + at] == post[at]; }
    NothingOpens(text, name, |name| + at);
  }

  /** No clause starts inside a name that is not called. */
  lemma NoClauseInName(name: string, post: string, word: string)
    requires name != [] && (forall k | 0 <= k < |name| :: IsNameChar(name[k]))
    requires NotCalled(post) && (post == [] || !IsWordChar(post[0]))
    requires word != [] && forall k | 0 <= k < |word| :: IsWordChar(word[k])
    ensures ClauseWith(name + post, word) == 0
  {
    var text := name + post;
    if StartsWith(text, word) {
      WordFits(name, post, word);
      hide ClauseWith, NotCalled;
      if |word| < |name| {
        assert text[|word|] == name[|word|];
        NextIsNoSpace(text, word);
      } else {
        assert word == name;
        NoClauseBehind(name, post);
      }
    }
  }

  /** No clause stands where a function name is called: the name is longer, or another. */
  lemma NoClauseInCall(fn: string, rest: string, word: string)
    requires fn != [] && (forall k | 0 <= k < |fn| :: IsWordChar(fn[k])) && rest != [] && rest[0] == '(' && fn != word
    requires word != [] && forall k | 0 <= k < |word| :: IsWordChar(word[k])
    ensures ClauseWith(fn + rest, word) == 0
  {
    var text := fn + rest;
    assert fn[..|fn|] == fn;
    if StartsWith(text, word) {
      WordFits(fn, rest, word);
      assert text[|word|] == fn[|word|];
      NoSpaceHere(text, |word|);
    }
  }

  lemma FlagIsFree(post: string)
    requires post == [] || !IsWordChar(post[0])
    ensures StripClauses(post, true) == StripClauses(post, false)
  {
    if post != [] {
      MarkStays(post, true);
      MarkStays(post, false);
    }
  }

  /** A name that is not called stays, whatever it ends with. */
  lemma {:induction false} NameStays(name: string, post: string, inWord: bool)
    requires (forall k | 0 <= k < |name| :: IsNameChar(name[k])) && NotCalled(post)
               && (post == [] || !IsWordChar(post[0]))
    ensures StripClauses(name + post, inWord) == name + StripClauses(post, false)
    decreases |name|
  {
    hide ClauseWith, StripClauses;
    var text := name + post;
    if name == [] {
      assert text == post;
      FlagIsFree(post);
    } else {
      forall k | 0 <= k < |CLAUSES|
        ensures ClauseWith(text, CLAUSES[k]) == 0
      {
        ClausesAreWords(k);
        NoClauseInName(name, post, CLAUSES[k]);
      }
      FrontStays(text, inWord);
      assert text[1..] == name[1..] + post;
      NameStays(name[1..], post, IsWordChar(name[0]));
      assert [name[0]] + (name[1..] + StripClauses(post, false)) == name + StripClauses(post, false);
    }
  }

  /** Inside a word nothing is a clause. */
  lemma InWord(c: char, rest: string)
    requires IsWordChar(c)
    ensures StripClauses([c] + rest, true) == [c] + StripClauses(rest, true)
  {
    hide ClauseLength;
    assert ([c] + rest)[1..] == rest;
  }

  lemma {:induction false} WordStays(word: string, rest: string)
    requires (forall k | 0 <= k < |word| :: IsWordChar(word[k])) && rest != [] && !IsWordChar(rest[0])
    ensures StripClauses(word + rest, true) == word + StripClauses(rest, false)
    decreases |word|
  {
    hide StripClauses;
    if word == [] {
      assert word + rest == rest;
      FlagIsFree(rest);
    } else {
      InWord(word[0], word[1..] + rest);
      assert [word[0]] + (word[1..] + rest) == word + rest;
      WordStays(word[1..], rest);
      assert [word[0]] + (word[1..] + StripClauses(rest, false)) == word + StripClauses(rest, false);
    }
  }

  lemma CallStays(fn: string, rest: string)
    requires IsIdentifier(fn) && ':' !in fn && rest != [] && rest[0] == '('
    ensures StripClauses(fn + rest, false) == fn + StripClauses(rest, false)
  {
    hide ClauseWith, StripClauses;
    var text := fn + rest;
    forall k | 0 <= k < |fn|
      ensures IsWordChar(fn[k])
    {
      assert IsNameChar(fn[k]) && fn[k] in fn;
    }
    forall k | 0 <= k < |CLAUSES|
      ensures ClauseWith(text, CLAUSES[k]) == 0
    {
      ClausesAreWords(k);
      NoClauseInCall(fn, rest, CLAUSES[k]);
    }
    FrontStays(text, false);
    assert text[1..] == fn[1..] + rest;
    WordStays(fn[1..], rest);
    assert [fn[0]] + (fn[1..] + StripClauses(rest, false)) == fn + StripClauses(rest, false);
  }

  lemma {:induction false} BlanksStay(n: nat, post: string)
    requires post == [] || !IsWordChar(post[0])
    ensures StripClauses(Blank(n) + post, false) == Blank(n) + StripClauses(post, false)
  {
    hide StripClauses;
    if n == 0 {
      assert Blank(0) + post == post && Blank(0) + StripClauses(post, false) == StripClauses(post, false);
    } else {
      BlanksStay(n - 1, post);
      var text := Blank(n) + post;
      assert text[1..] == Blank(n - 1) + post;
      MarkStays(text, false);
      assert [' '] + (Blank(n - 1) + StripClauses(post, false)) == Blank(n) + StripClauses(post, false);
    }
  }

  lemma WrappedStays(inner: string, post: string)
    requires StripClauses(inner + ([')'] + post), false) == inner + StripClauses([')'] + post, false)
    ensures StripClauses(Wrapped(inner) + post, false) == Wrapped(inner) + StripClauses(post, false)
  {
    hide StripClauses;
    var text := Wrapped(inner) + post;
    assert text[1..] == inner + ([')'] + post);
    MarkStays(text, false);
    MarkStays([')'] + post, false);
    assert ([')'] + post)[1..] == post;
    assert ['('] + (inner + ([')'] + StripClauses(post, false))) == Wrapped(inner) + StripClauses(post, false);
  }

  lemma PlusStays(rest: string)
    ensures StripClauses(PLUS + rest, false) == PLUS + StripClauses(rest, false)
  {
    hide StripClauses;
    var text := PLUS + rest;
    assert text[0] == ' ' && text[1..][0] == '+' && text[1..][1..][0] == ' ';
    assert text[1..][1..][1..] == rest;
    MarkStays(text, false);
    MarkStays(text[1..], false);
    MarkStays(text[1..][1..], false);
    assert [' '] + (['+'] + ([' '] + StripClauses(rest, false))) == PLUS + StripClauses(rest, false);
  }

  lemma BlankStays(post: string)
    ensures StripClauses([' '] + post, false) == [' '] + StripClauses(post, false)
  {
    hide StripClauses;
    MarkStays([' '] + post, false);
    assert ([' '] + post)[1..] == post;
  }

  /** A range holds no clause. */
  lemma RangeStays(range: string, post: string)
    requires IsRange(range) && NotCalled(post) && EndsName(post)
    ensures StripClauses(range + post, false) == range + StripClauses(post, false)
    ensures NotCalled(range + post) && EndsName(range + post)
  {
    hide StripClauses, NotCalled;
    var text := range + post;
    if range == [] {
      assert text == post && [] + StripClauses(post, false) == StripClauses(post, false);
    } else {
      var inner := range[1..|range| - 1];
      var closed := [']'] + post;
      assert text[1..] == inner + closed && closed[1..] == post;
      MarkIsNotCalled(text);
      MarkIsNotCalled(closed);
      MarkStays(text, false);
      NameStays(inner, closed, false);
      MarkStays(closed, false);
      assert ['['] + (inner + ([']'] + StripClauses(post, false))) == range + StripClauses(post, false);
    }
  }

  lemma GapStays(gap: bool, post: string)
    requires NotCalled(post) && EndsName(post)
    ensures StripClauses(Gap(gap) + post, false) == Gap(gap) + StripClauses(post, false)
    ensures NotCalled(Gap(gap) + post) && EndsName(Gap(gap) + post)
  {
    hide StripClauses, NotCalled;
    if gap {
      BlankStays(post);
      BlankIsNotCalled(post);
    } else {
      assert [] + post == post && [] + StripClauses(post, false) == StripClauses(post, false);
    }
  }

  lemma PartsStay(name: string, gap: bool, range: string, post: string)
    requires IsIdentifier(name) && IsRange(range) && NotCalled(post) && EndsName(post)
    ensures StripClauses(name + (Gap(gap) + range) + post, false)
         == name + (Gap(gap) + range) + StripClauses(post, false)
  {
    assert forall k | 0 <= k < |name| :: IsNameChar(name[k]);
    hide *;
    RangeStays(range, post);
    GapStays(gap, range + post);
    var behind := Gap(gap) + (range + post);
    EndsWord(behind);
    NameStays(name, behind, false);
    Regroup(name, Gap(gap), range, post);
    Regroup(name, Gap(gap), range, StripClauses(post, false));
  }

  lemma EndsWord(post: string)
    requires EndsName(post)
    ensures post == [] || !IsWordChar(post[0])
  {
  }

  lemma UnbracedStays(reference: string, post: string)
    requires IsScanned(reference) && NotCalled(post) && EndsName(post)
    ensures StripClauses(Unbraced(reference) + post, false) == Unbraced(reference) + StripClauses(post, false)
  {
    PartsOf(reference);
    hide StripClauses, NotCalled, IsScanned, IsBraced, RangeOf;
    PartsStay(MetricName(reference), IsBraced(reference), RangeOf(reference), post);
  }

  /** Stripping clauses leaves what is left of a written expression as it is. */
  lemma {:induction false} LeftStays(e: Expr, style: Style, post: string)
    requires IsSeen(e) && Behind(post)
    ensures StripClauses(Left(e, style, Unbraced) + post, false)
         == Left(e, style, Unbraced) + StripClauses(post, false)
    decreases e, 1
  {
    hide StripClauses, Render, Behind, Unbraced;
    match e
    case Metric(reference) =>
      BehindIsNotCalled(post);
      SeenReference(reference);
      UnbracedStays(reference, post);
    case PerSeries(fn, arg) =>
      var inner := Left(arg, First(style), Unbraced);
      BehindParen(post);
      LeftStays(arg, First(style), [')'] + post);
      WrappedStays(inner, post);
      CallStays(fn, Wrapped(inner) + post);
      assert fn + Wrapped(inner) + post == fn + (Wrapped(inner) + post);
      assert fn + (Wrapped(inner) + StripClauses(post, false)) == fn + Wrapped(inner) + StripClauses(post, false);
    case Paired(left, right) =>
      PairStays(left, right, style, post);
    case Agg(_, _, _) =>
      BehindIsNotCalled(post);
      BlanksStay(|Render(e, style)|, post);
  }

  lemma BehindParen(post: string)
    ensures Behind([')'] + post)
  {
  }

  lemma BehindPlus(rest: string)
    ensures Behind(PLUS + rest)
  {
  }

  lemma {:induction false} PairStays(left: Expr, right: Expr, style: Style, post: string)
    requires IsSeen(left) && IsSeen(right)
    ensures StripClauses(Left(Paired(left, right), style, Unbraced) + post, false)
         == Left(Paired(left, right), style, Unbraced) + StripClauses(post, false)
    decreases Paired(left, right), 0
  {
    hide StripClauses, Render, Behind, Wrapped, First, Second;
    var l, r := Left(left, First(style), Unbraced), Left(right, Second(style), Unbraced);
    var tail := [')'] + post;
    BehindParen(post);
    BehindPlus(r + tail);
    LeftStays(right, Second(style), tail);
    LeftStays(left, First(style), PLUS + (r + tail));
    BothStay(l, r, post);
  }

  lemma BothStay(l: string, r: string, post: string)
    requires var tail := [')'] + post;
             && StripClauses(r + tail, false) == r + StripClauses(tail, false)
             && StripClauses(l + (PLUS + (r + tail)), false) == l + StripClauses(PLUS + (r + tail), false)
    ensures StripClauses(Wrapped(l + PLUS + r) + post, false) == Wrapped(l + PLUS + r) + StripClauses(post, false)
  {
    hide StripClauses, Wrapped;
    var tail := [')'] + post;
    PlusStays(r + tail);
    assert l + PLUS + r + tail == l + (PLUS + (r + tail));
    assert l + (PLUS + (r + StripClauses(tail, false))) == l + PLUS + r + StripClauses(tail, false);
    WrappedStays(l + PLUS + r, post);
  }

  // ------------------------------------------------------------ all of it

  lemma PlainConcat(a: string, b: string)
    requires AllLeft(a) && AllLeft(b)
    ensures AllLeft(a + b)
  {
  }

  lemma BaredIsPlain(reference: string)
    requires IsScanned(reference)
    ensures AllLeft(Bared(reference))
  {
    var name, one, two := MetricName(reference), IsBraced(reference), RangeOf(reference) != [];
    hide *;
    ShownParts(reference);
    PartsOf(reference);
    IdentifierIsPlain(name);
    GapIsPlain(one);
    GapIsPlain(two);
    PlainConcat(Gap(one), Gap(two));
    PlainConcat(name, Gap(one) + Gap(two));
  }

  lemma WrappedIsPlain(inner: string)
    requires AllLeft(inner)
    ensures AllLeft(Wrapped(inner))
  {
  }

  lemma {:induction false} LeftIsPlain(e: Expr, style: Style)
    requires IsSeen(e)
    ensures AllLeft(Left(e, style, Bared))
  {
    hide Render, Bared, AllLeft, Wrapped, IsScanned, Masked;
    match e
    case Metric(reference) =>
      SeenReference(reference);
      BaredIsPlain(reference);
    case PerSeries(fn, arg) =>
      LeftIsPlain(arg, First(style));
      IdentifierIsPlain(fn);
      WrappedIsPlain(Left(arg, First(style), Bared));
      PlainConcat(fn, Wrapped(Left(arg, First(style), Bared)));
    case Paired(left, right) =>
      LeftIsPlain(left, First(style));
      LeftIsPlain(right, Second(style));
      PairIsPlain(Left(left, First(style), Bared), Left(right, Second(style), Bared));
    case Agg(_, _, _) =>
      BlanksArePlain(|Render(e, style)|);
  }

  lemma PairIsPlain(l: string, r: string)
    requires AllLeft(l) && AllLeft(r)
    ensures AllLeft(Wrapped(l + PLUS + r))
  {
    assert AllLeft(PLUS);
    hide AllLeft, Wrapped;
    PlainConcat(l, PLUS);
    PlainConcat(l + PLUS, r);
    WrappedIsPlain(l + PLUS + r);
  }

  lemma BlanksArePlain(n: nat)
    ensures AllLeft(Blank(n))
  {
  }

  /** From what is left of a written expression exactly the selectors and the ranges are stripped. */
  lemma SelectorsAreStripped(e: Expr, style: Style)
    requires IsSeen(e)
    ensures WithoutLabels(Rest(e, style)) == Left(e, style, Bared)
  {
    hide Render, Rest, Left, StripSpans, StripClauses, AllLeft;
    var rest, open, bare := Rest(e, style), Left(e, style, Unbraced), Left(e, style, Bared);
    LeftWhole(e, style);
    AllBracesGo();
    SpansGo(e, style, '{', '}', Whole(), Unbraced, []);
    LeftStays(e, style, []);
    AllBracketsGo();
    SpansGo(e, style, '[', ']', Unbraced, Bared, []);
    NothingStays();
    assert rest + [] == rest && open + [] == open && bare + [] == bare;
    LeftIsPlain(e, style);
    NoQuotesLeft(bare);
    StripNothing(bare, '"', '"');
    StripNothing(bare, '\'', '\'');
  }

  lemma AllBracesGo()
    ensures Goes('{', '}', Whole(), Unbraced)
  {
    hide StripSpans, IsScanned;
    forall reference, post | IsScanned(reference)
      ensures GoesAt('{', '}', Whole(), Unbraced, reference, post)
    {
      BracesGo(reference, post);
    }
  }

  lemma AllBracketsGo()
    ensures Goes('[', ']', Unbraced, Bared)
  {
    hide StripSpans, IsScanned;
    forall reference, post | IsScanned(reference)
      ensures GoesAt('[', ']', Unbraced, Bared, reference, post)
    {
      BracketsGo(reference, post);
    }
  }

  lemma NothingStays()
    ensures StripSpans([], '{', '}') == [] && StripSpans([], '[', ']') == [] && StripClauses([], false) == []
  {
  }

  lemma NoQuotesLeft(text: string)
    requires AllLeft(text)
    ensures '"' !in text && '\'' !in text
  {
  }

  // ------------------------------------------------------------ reading the names

  /** From `start` on are read exactly these names, and then what is read from `end` on. */
  predicate Names(text: string, start: nat, names: seq<string>, end: nat) {
    start <= |text| && end <= |text| && NamesFrom(text, start) == names + NamesFrom(text, end)
  }

  lemma MarkIsPassed(text: string, at: nat)
    requires at < |text| && !IsNameStart(text[at])
    ensures Names(text, at, [], at + 1)
  {
  }

  lemma NamesThen(text: string, start: nat, a: seq<string>, middle: nat, b: seq<string>, end: nat)
    requires Names(text, start, a, middle) && Names(text, middle, b, end)
    ensures Names(text, start, a + b, end)
  {
    hide NamesFrom;
    assert a + (b + NamesFrom(text, end)) == a + b + NamesFrom(text, end);
  }

  lemma NoneThen(text: string, start: nat, middle: nat, b: seq<string>, end: nat)
    requires Names(text, start, [], middle) && Names(text, middle, b, end)
    ensures Names(text, start, b, end)
  {
    hide NamesFrom, Names;
    NamesThen(text, start, [], middle, b, end);
    assert [] + b == b;
  }

  lemma ThenNone(text: string, start: nat, a: seq<string>, middle: nat, end: nat)
    requires Names(text, start, a, middle) && Names(text, middle, [], end)
    ensures Names(text, start, a, end)
  {
    hide NamesFrom, Names;
    NamesThen(text, start, a, middle, [], end);
    assert a + [] == a;
  }

  /** A name that stands alone is read, one that is called is not. */
  lemma NameIsRead(text: string, start: nat, name: string, post: string)
    requires start <= |text| && text[start..] == name + post && IsIdentifier(name) && EndsName(post)
    ensures start + |name| <= |text|
    ensures Names(text, start, if IsCall(text, start + |name|) then [] else [name], start + |name|)
  {
    hide IsCall, SkipSpaceFrom;
    NameStands(text, start, name, post);
    assert text[start] == name[0];
  }

  lemma {:induction false} SpaceUpTo(text: string, at: nat, open: nat)
    requires at <= open < |text| && !IsSpace(text[open]) && forall k | at <= k < open :: IsSpace(text[k])
    ensures SkipSpaceFrom(text, at) == open
    decreases open - at
  {
    if at < open { SpaceUpTo(text, at + 1, open); }
  }

  /** A name is called where a parenthesis opens behind it, white space between or not. */
  lemma CalledNameIsNone(text: string, start: nat, name: string, post: string, open: nat)
    requires start <= |text| && text[start..] == name + post && IsIdentifier(name) && EndsName(post)
    requires start + |name| <= open < |text| && text[open] == '('
    requires forall k | start + |name| <= k < open :: IsSpace(text[k])
    ensures Names(text, start, [], start + |name|)
  {
    NameIsRead(text, start, name, post);
    SpaceUpTo(text, start + |name|, open);
  }

  lemma NotCalledHere(text: string, end: nat, post: string)
    requires end <= |text| && text[end..] == post && NotCalled(post)
    ensures !IsCall(text, end)
  {
    SkipSpaceWithin(text, end, post, 0);
    var at := SkipSpaceFrom(post, 0);
    if at < |post| { assert text[end + at] == post[at]; }
  }

  lemma CalledHere(text: string, end: nat)
    requires end < |text| && text[end] == '('
    ensures IsCall(text, end)
  {
    NoSpaceHere(text, end);
  }

  lemma {:induction false} BlanksArePassed(text: string, at: nat, n: nat)
    requires at + n <= |text| && forall k | at <= k < at + n :: text[k] == ' '
    ensures Names(text, at, [], at + n)
    decreases n
  {
    hide NamesFrom, Names;
    if n == 0 {
      NoNames(text, at);
    } else {
      MarkIsPassed(text, at);
      BlanksArePassed(text, at + 1, n - 1);
      NoneThen(text, at, at + 1, [], at + n);
    }
  }

  lemma NoNames(text: string, at: nat)
    requires at <= |text|
    ensures Names(text, at, [], at)
  {
    hide NamesFrom;
    assert [] + NamesFrom(text, at) == NamesFrom(text, at);
  }

  /** The names around a written argument, one level in. */
  lemma WrappedNames(text: string, at: nat, inner: string, post: string, names: seq<string>)
    requires at <= |text| && text[at..] == Wrapped(inner) + post
    requires Names(text, at + 1, names, at + 1 + |inner|)
    ensures at + |inner| + 2 <= |text| && Names(text, at, names, at + |inner| + 2)
  {
    hide NamesFrom, Names;
    InsideWrapped(text, at, inner, post);
    MarkIsPassed(text, at);
    MarkIsPassed(text, at + |inner| + 1);
    NoneThen(text, at, at + 1, names, at + 1 + |inner|);
    ThenNone(text, at, names, at + 1 + |inner|, at + |inner| + 2);
  }

  lemma CallNames(text: string, start: nat, fn: string, inner: string, post: string, names: seq<string>)
    requires start <= |text| && text[start..] == fn + (Wrapped(inner) + post) && IsIdentifier(fn)
    requires Names(text, start + |fn| + 1, names, start + |fn| + 1 + |inner|)
    ensures Names(text, start, names, start + |fn + Wrapped(inner)|)
  {
    hide NamesFrom, Names, IsCall;
    var at := start + |fn|;
    NameIsRead(text, start, fn, Wrapped(inner) + post);
    Tail(text, start, fn, Wrapped(inner) + post);
    InsideWrapped(text, at, inner, post);
    CalledHere(text, at);
    WrappedNames(text, at, inner, post, names);
    NoneThen(text, start, at, names, at + |inner| + 2);
  }

  lemma PlusIsPassed(text: string, at: nat, rest: string)
    requires at <= |text| && text[at..] == PLUS + rest
    ensures at + 3 <= |text| && text[at + 3..] == rest && Names(text, at, [], at + 3)
  {
    hide NamesFrom, Names;
    var tail := text[at..];
    Tail(text, at, PLUS, rest);
    assert text[at] == tail[0] && text[at + 1] == tail[1] && text[at + 2] == tail[2];
    MarkIsPassed(text, at);
    MarkIsPassed(text, at + 1);
    MarkIsPassed(text, at + 2);
    NoneThen(text, at, at + 1, [], at + 2);
    NoneThen(text, at, at + 2, [], at + 3);
  }

  lemma CallPlaces(text: string, start: nat, fn: string, inner: string, post: string)
    requires start <= |text| && text[start..] == fn + Wrapped(inner) + post
    ensures start + |fn| + 1 <= |text| && text[start + |fn| + 1..] == inner + ([')'] + post) && Behind([')'] + post)
    ensures text[start..] == fn + (Wrapped(inner) + post)
  {
    assert fn + Wrapped(inner) + post == fn + (Wrapped(inner) + post);
    Tail(text, start, fn, Wrapped(inner) + post);
    InsideWrapped(text, start + |fn|, inner, post);
  }

  lemma RestPlaces(text: string, start: nat, l: string, r: string, post: string)
    requires start <= |text| && text[start..] == Wrapped(l + PLUS + r) + post
    ensures var tail := [')'] + post;
            && start + |l| + 4 <= |text| && text[start + 1..] == l + (PLUS + (r + tail))
                && text[start + |l| + 4..] == r + tail
            && Behind(tail) && Behind(PLUS + (r + tail))
    ensures Names(text, start + 1 + |l|, [], start + |l| + 4)
  {
    hide Names;
    var tail := [')'] + post;
    InsideWrapped(text, start, l + PLUS + r, post);
    assert l + PLUS + r + tail == l + (PLUS + (r + tail));
    Tail(text, start + 1, l, PLUS + (r + tail));
    BehindPlus(r + tail);
    PlusIsPassed(text, start + 1 + |l|, r + tail);
  }

  lemma BlanksOfRest(text: string, start: nat, rest: string, post: string)
    requires start <= |text| && text[start..] == rest + post && forall k | 0 <= k < |rest| :: rest[k] == ' '
    ensures Names(text, start, [], start + |rest|)
  {
    hide Names;
    Tail(text, start, rest, post);
    forall k | start <= k < start + |rest|
      ensures text[k] == ' '
    {
      assert text[k] == text[start..][k - start];
    }
    BlanksArePassed(text, start, |rest|);
  }

  /** A bared reference is its name and blanks. */
  lemma BaredName(text: string, start: nat, reference: string, post: string)
    requires start <= |text| && text[start..] == Bared(reference) + post && IsScanned(reference)
    requires NotCalled(post) && EndsName(post)
    ensures Names(text, start, [MetricName(reference)], start + |Bared(reference)|)
  {
    var name, one, two := MetricName(reference), IsBraced(reference), RangeOf(reference) != [];
    hide *;
    ShownParts(reference);
    PartsOf(reference);
    NameAndGaps(text, start, Bared(reference), name, one, two, post);
  }

  lemma NameAndGaps(text: string, start: nat, shown: string, name: string, one: bool, two: bool, post: string)
    requires start <= |text| && text[start..] == shown + post && shown == name + (Gap(one) + Gap(two))
    requires IsIdentifier(name) && NotCalled(post) && EndsName(post)
    ensures Names(text, start, [name], start + |shown|)
  {
    hide Names, IsCall, NotCalled, IsIdentifier;
    var gaps := Gap(one) + Gap(two);
    var behind := gaps + post;
    GapsAreNotCalled(one, two, post);
    assert shown + post == name + behind;
    NameIsRead(text, start, name, behind);
    Tail(text, start, name, behind);
    NotCalledHere(text, start + |name|, behind);
    BlanksOfRest(text, start + |name|, gaps, post);
    ThenNone(text, start, [name], start + |name|, start + |name| + |gaps|);
  }

  lemma GapsAreNotCalled(one: bool, two: bool, post: string)
    requires NotCalled(post) && EndsName(post)
    ensures NotCalled(Gap(one) + Gap(two) + post) && EndsName(Gap(one) + Gap(two) + post)
  {
    hide NotCalled, EndsName, Gap;
    var behind := Gap(two) + post;
    assert Gap(one) + Gap(two) + post == Gap(one) + behind;
    GapStays(two, post);
    GapStays(one, behind);
  }

  /** The names read from what is left of a written expression are those outside its aggregations. */
  lemma {:induction false} NamesOfLeft(e: Expr, style: Style, text: string, start: nat, post: string)
    requires IsSeen(e) && start <= |text| && text[start..] == Left(e, style, Bared) + post && Behind(post)
    ensures Names(text, start, TopNames(e), start + |Left(e, style, Bared)|)
  {
    hide NamesFrom, Names, IsCall, Render, Behind, Wrapped, Bared;
    match e
    case Metric(reference) =>
      BehindIsNotCalled(post);
      SeenReference(reference);
      BaredName(text, start, reference, post);
    case PerSeries(fn, arg) =>
      var inner := Left(arg, First(style), Bared);
      CallPlaces(text, start, fn, inner, post);
      NamesOfLeft(arg, First(style), text, start + |fn| + 1, [')'] + post);
      CallNames(text, start, fn, inner, post, TopNames(arg));
    case Paired(left, right) =>
      var l, r := Left(left, First(style), Bared), Left(right, Second(style), Bared);
      var tail := [')'] + post;
      RestPlaces(text, start, l, r, post);
      NamesOfLeft(left, First(style), text, start + 1, PLUS + (r + tail));
      NamesOfLeft(right, Second(style), text, start + |l| + 4, tail);
      PairNames(text, start, l, r, post, TopNames(left), TopNames(right));
    case Agg(_, _, _) =>
      BlanksOfRest(text, start, Left(e, style, Bared), post);
  }

  lemma PairNames(text: string, start: nat, l: string, r: string, post: string, a: seq<string>, b: seq<string>)
    requires start <= |text| && text[start..] == Wrapped(l + PLUS + r) + post
    requires Names(text, start + 1, a, start + 1 + |l|) && Names(text, start + 1 + |l|, [], start + |l| + 4)
    requires Names(text, start + |l| + 4, b, start + |l| + 4 + |r|)
    ensures Names(text, start, a + b, start + |Wrapped(l + PLUS + r)|)
  {
    hide NamesFrom, Names;
    ThenNone(text, start + 1, a, start + 1 + |l|, start + |l| + 4);
    NamesThen(text, start + 1, a, start + |l| + 4, b, start + |l| + 4 + |r|);
    WrappedNames(text, start, l + PLUS + r, post, a + b);
  }

  /** The gauges in what is left are those among the names at the top. */
  lemma GaugesOfRest(e: Expr, style: Style, gauges: set<string>)
    requires IsSeen(e)
    ensures GaugesIn(Rest(e, style), gauges) == GaugesAmong(TopNames(e), gauges)
  {
    hide Render, Rest, Left, NamesFrom, WithoutLabels, IsSeen;
    var left := Left(e, style, Bared);
    SelectorsAreStripped(e, style);
    assert left[0..] == left + [];
    NamesOfLeft(e, style, left, 0, []);
    NamesAtEnd(left);
    assert TopNames(e) + [] == TopNames(e);
  }

  lemma NamesAtEnd(text: string)
    ensures NamesFrom(text, |text|) == []
  {
  }

  /** The words of the language are never read as metrics, in either case. */
  lemma KeywordsAreNoNames(word: string)
    requires Lower(word) in {"by", "without", "on", "ignoring", "group_left", "group_right", "offset", "bool", "and",
                             "or", "unless", "le", "inf", "nan", "start", "end"}
    ensures NamesFrom(word, 0) == []
  {
    forall k | 0 <= k < |word|
      ensures IsNameStart(word[k])
    {
      assert Lower(word)[k] == '_' || 'a' <= Lower(word)[k] <= 'z';
      assert Lower(word)[k] == word[k] || 'A' <= word[k] <= 'Z';
    }
    NameEndIs(word, 0, |word|);
    assert word[0..|word|] == word && word != "";
  }
}
