/**
 The text level of the PromQL gauge check: quote masking of the same length, matching
 parentheses, and the direct arguments of every `sum`.
 */
module PromText {
  import opened Text

  // ------------------------------------------------------------ quotes

  /** The open quote, if any. */
  type Quote = Option<char>

  predicate ValidQuote(quote: Quote) {
    quote.Some? ==> IsQuote(quote.value)
  }

  /** Quote state after one character read outside an escape. */
  function After(c: char, quote: Quote): (next: Quote)
    requires ValidQuote(quote)
    ensures ValidQuote(next)
  {
    match quote
    case None => if IsQuote(c) then Some(c) else None
    case Some(q) => if c == q then None else quote
  }

  predicate IsEscape(expr: string, quote: Quote) {
    quote.Some? && |expr| > 1 && expr[0] == '\\'
  }

  /** Quoted content goes blank, delimiters stay. */
  function MaskOf(c: char, quote: Quote): char {
    if quote.None? || quote == Some(c) then c else ' '
  }

  /** The rest of the mask: quoted content blanked, delimiters kept. */
  function MaskTail(expr: string, quote: Quote): (masked: string)
    requires ValidQuote(quote)
    ensures |masked| == |expr|
    decreases |expr|
  {
    if expr == [] then []
    else if IsEscape(expr, quote) then "  " + MaskTail(expr[2..], quote)
    else [MaskOf(expr[0], quote)] + MaskTail(expr[1..], After(expr[0], quote))
  }

  /** The quote still open at the end. */
  function OpenAtEnd(expr: string, quote: Quote): Quote
    requires ValidQuote(quote)
    decreases |expr|
  {
    if expr == [] then quote
    else if IsEscape(expr, quote) then OpenAtEnd(expr[2..], quote)
    else OpenAtEnd(expr[1..], After(expr[0], quote))
  }

  /** The mask has the length of the text. */
  function Masked(expr: string): (masked: string)
    ensures |masked| == |expr|
  {
    MaskTail(expr, None)
  }

  predicate Unterminated(expr: string) {
    OpenAtEnd(expr, None).Some?
  }

  /** The mask and the open quote when the scan stands at `i`. */
  predicate Scanned(expr: string, i: nat, masked: string, quote: Quote) {
    && i <= |expr| && ValidQuote(quote)
    && masked + MaskTail(expr[i..], quote) == Masked(expr)
    && OpenAtEnd(expr[i..], quote) == OpenAtEnd(expr, None)
  }

  lemma ScanStart(expr: string)
    ensures Scanned(expr, 0, [], None)
  {
    assert expr[0..] == expr;
    assert [] + MaskTail(expr, None) == Masked(expr);
  }

  lemma ScanEnd(expr: string, masked: string, quote: Quote)
    requires Scanned(expr, |expr|, masked, quote)
    ensures masked == Masked(expr) && quote.Some? == Unterminated(expr)
  {
    assert expr[|expr|..] == [];
    assert masked + [] == masked;
  }

  lemma ScanEscape(expr: string, i: nat, masked: string, quote: Quote)
    requires Scanned(expr, i, masked, quote) && i + 1 < |expr| && quote.Some? && expr[i] == '\\'
    ensures Scanned(expr, i + 2, masked + "  ", quote)
  {
    var rest := expr[i..];
    assert rest[2..] == expr[i + 2..];
    assert masked + ("  " + MaskTail(rest[2..], quote)) == (masked + "  ") + MaskTail(rest[2..], quote);
  }

  lemma ScanCharacter(expr: string, i: nat, masked: string, quote: Quote)
    requires Scanned(expr, i, masked, quote) && i < |expr|
    requires !(quote.Some? && expr[i] == '\\' && i + 1 < |expr|)
    ensures var seen := if quote.None? || quote == Some(expr[i]) then expr[i] else ' ';
            Scanned(expr, i + 1, masked + [seen], After(expr[i], quote))
  {
    var rest, next := expr[i..], After(expr[i], quote);
    var seen := if quote.None? || quote == Some(expr[i]) then expr[i] else ' ';
    assert rest[1..] == expr[i + 1..];
    assert masked + ([seen] + MaskTail(rest[1..], next)) == (masked + [seen]) + MaskTail(rest[1..], next);
  }

  /** The one scanner behind the mask and its failure signal. */
  method ScanQuotedSpans(expr: string) returns (masked: string, unterminated: bool)
    ensures masked == Masked(expr) && unterminated == Unterminated(expr)
  {
    hide Scanned, Masked, Unterminated;
    masked := [];
    var quote: Quote := None;
    var i := 0;
    ScanStart(expr);
    while i < |expr|
      invariant 0 <= i <= |expr| && ValidQuote(quote) && Scanned(expr, i, masked, quote)
    {
      var c := expr[i];
      if quote.Some? && c == '\\' && i + 1 < |expr| {
        ScanEscape(expr, i, masked, quote);
        masked := masked + "  ";
        i := i + 2;
        continue;
      }
      ScanCharacter(expr, i, masked, quote);
      if quote.None? {
        if IsQuote(c) {
          quote := Some(c);
        }
        masked := masked + [c];
      } else if c == quote.value {
        quote := None;
        masked := masked + [c];
      } else {
        masked := masked + [' '];
      }
      i := i + 1;
    }
    ScanEnd(expr, masked, quote);
    unterminated := quote.Some?;
  }

  lemma MaskCons(c: char, rest: string, quote: Quote)
    requires ValidQuote(quote) && (quote.Some? ==> c != '\\')
    ensures MaskTail([c] + rest, quote)
         == [MaskOf(c, quote)] + MaskTail(rest, After(c, quote))
    ensures OpenAtEnd([c] + rest, quote) == OpenAtEnd(rest, After(c, quote))
  {
    assert ([c] + rest)[1..] == rest;
  }

  lemma MaskTwoBlanks(rest: string, quote: Quote)
    requires ValidQuote(quote) && quote.Some?
    ensures MaskTail("  " + rest, quote) == "  " + MaskTail(rest, quote)
    ensures OpenAtEnd("  " + rest, quote) == OpenAtEnd(rest, quote)
  {
    hide MaskTail, OpenAtEnd;
    assert "  " + rest == [' '] + ([' '] + rest);
    MaskCons(' ', [' '] + rest, quote);
    MaskCons(' ', rest, quote);
    assert [' '] + ([' '] + MaskTail(rest, quote)) == "  " + MaskTail(rest, quote);
  }

  /** Masking again changes nothing, and leaves the same quote open. */
  lemma {:induction false} MaskIdempotent(expr: string, quote: Quote)
    requires ValidQuote(quote)
    ensures MaskTail(MaskTail(expr, quote), quote) == MaskTail(expr, quote)
    ensures OpenAtEnd(MaskTail(expr, quote), quote) == OpenAtEnd(expr, quote)
    decreases |expr|
  {
    if expr != [] {
      if IsEscape(expr, quote) {
        MaskIdempotent(expr[2..], quote);
        MaskTwoBlanks(MaskTail(expr[2..], quote), quote);
      } else {
        var next := After(expr[0], quote);
        var seen := MaskOf(expr[0], quote);
        MaskIdempotent(expr[1..], next);
        MaskCons(seen, MaskTail(expr[1..], next), quote);
      }
    }
  }

  /** The scanner arrives at position `i` outside any quote. */
  predicate Outside(expr: string, quote: Quote, i: nat)
    requires ValidQuote(quote)
    decreases i
  {
    if i == 0 then quote.None?
    else if expr == [] then false
    else if IsEscape(expr, quote) then i >= 2 && Outside(expr[2..], quote, i - 2)
    else Outside(expr[1..], After(expr[0], quote), i - 1)
  }

  /** The mask and the open quote, one character or one escape at a time. */
  lemma MaskUnfolds(expr: string, quote: Quote)
    requires ValidQuote(quote) && expr != []
    ensures MaskTail(expr, quote) == if IsEscape(expr, quote) then "  " + MaskTail(expr[2..], quote)
                                     else [MaskOf(expr[0], quote)] + MaskTail(expr[1..], After(expr[0], quote))
    ensures OpenAtEnd(expr, quote) == if IsEscape(expr, quote) then OpenAtEnd(expr[2..], quote)
                                      else OpenAtEnd(expr[1..], After(expr[0], quote))
  {
  }

  lemma NothingMasked(quote: Quote)
    requires ValidQuote(quote)
    ensures MaskTail([], quote) == [] && OpenAtEnd([], quote) == quote
  {
  }

  lemma EscapeStays(a: string, b: string, quote: Quote)
    requires ValidQuote(quote) && a != [] && OpenAtEnd(a, quote) == None
    ensures IsEscape(a + b, quote) == IsEscape(a, quote)
  {
    MaskUnfolds(a, quote);
    assert |a| == 1 ==> a[1..] == [];
  }

  /** Behind a text that leaves no quote open the mask starts afresh. */
  lemma {:induction false} MaskConcat(a: string, b: string, quote: Quote)
    requires ValidQuote(quote) && OpenAtEnd(a, quote) == None
    ensures MaskTail(a + b, quote) == MaskTail(a, quote) + MaskTail(b, None)
    ensures OpenAtEnd(a + b, quote) == OpenAtEnd(b, None)
    decreases |a|
  {
    hide MaskTail, OpenAtEnd;
    if a == [] {
      NothingMasked(quote);
      assert a + b == b && [] + MaskTail(b, None) == MaskTail(b, None);
    } else {
      EscapeStays(a, b, quote);
      MaskUnfolds(a, quote);
      MaskUnfolds(a + b, quote);
      if IsEscape(a, quote) {
        assert (a + b)[2..] == a[2..] + b;
        MaskConcat(a[2..], b, quote);
        assert "  " + (MaskTail(a[2..], quote) + MaskTail(b, None)) == MaskTail(a, quote) + MaskTail(b, None);
      } else {
        assert (a + b)[1..] == a[1..] + b;
        MaskConcat(a[1..], b, After(a[0], quote));
        assert [MaskOf(a[0], quote)] + (MaskTail(a[1..], After(a[0], quote)) + MaskTail(b, None))
            == MaskTail(a, quote) + MaskTail(b, None);
      }
    }
  }

  /** From a position outside quotes the mask of the text is the mask of its rest. */
  lemma {:induction false} MaskFromOutside(expr: string, quote: Quote, i: nat)
    requires ValidQuote(quote) && i <= |expr| && Outside(expr, quote, i)
    ensures MaskTail(expr, quote)[i..] == MaskTail(expr[i..], None)
    decreases i
  {
    hide MaskTail, IsEscape, After, MaskOf;
    if i == 0 {
      assert expr[0..] == expr && MaskTail(expr, quote)[0..] == MaskTail(expr, quote);
    } else {
      MaskUnfolds(expr, quote);
      if IsEscape(expr, quote) {
        EscapeHasTwo(expr, quote);
        MaskFromOutside(expr[2..], quote, i - 2);
        TailOfTail(expr, 2, i);
        TailBehind("  ", MaskTail(expr[2..], quote), i);
      } else {
        MaskFromOutside(expr[1..], After(expr[0], quote), i - 1);
        TailOfTail(expr, 1, i);
        TailBehind([MaskOf(expr[0], quote)], MaskTail(expr[1..], After(expr[0], quote)), i);
      }
    }
  }

  lemma EscapeHasTwo(expr: string, quote: Quote)
    requires IsEscape(expr, quote)
    ensures |expr| >= 2
  {
  }

  lemma TailOfTail(text: string, n: nat, i: nat)
    requires n <= i <= |text|
    ensures text[n..][i - n..] == text[i..]
  {
  }

  lemma TailBehind(head: string, rest: string, i: nat)
    requires |head| <= i <= |head| + |rest|
    ensures (head + rest)[i..] == rest[i - |head|..]
  {
  }

  /** What the mask shows besides blanks and quotes stands outside quotes, and stands in the text. */
  lemma {:induction false} VisibleIsOutside(expr: string, quote: Quote, i: nat)
    requires ValidQuote(quote) && i < |expr|
    requires MaskTail(expr, quote)[i] != ' ' && !IsQuote(MaskTail(expr, quote)[i])
    ensures Outside(expr, quote, i) && expr[i] == MaskTail(expr, quote)[i]
    decreases i
  {
    if i > 0 {
      if IsEscape(expr, quote) {
        assert i >= 2;
        VisibleIsOutside(expr[2..], quote, i - 2);
      } else {
        VisibleIsOutside(expr[1..], After(expr[0], quote), i - 1);
      }
    }
  }

  lemma OneMoreBlank(n: nat, tail: string)
    ensures [' '] + (Blank(n) + tail) == Blank(n + 1) + tail
  {
  }

  lemma {:induction false} QuotedRun(body: string, q: char, rest: string)
    requires IsQuote(q) && forall k | 0 <= k < |body| :: body[k] != q && body[k] != '\\'
    ensures MaskTail(body + rest, Some(q)) == Blank(|body|) + MaskTail(rest, Some(q))
    ensures OpenAtEnd(body + rest, Some(q)) == OpenAtEnd(rest, Some(q))
  {
    hide MaskTail, OpenAtEnd, Blank;
    if body == [] {
      assert body + rest == rest && Blank(0) + MaskTail(rest, Some(q)) == MaskTail(rest, Some(q));
    } else {
      var more := body[1..];
      assert (body + rest)[1..] == more + rest && (body + rest)[0] == body[0];
      QuotedRun(more, q, rest);
      MaskUnfolds(body + rest, Some(q));
      assert MaskOf(body[0], Some(q)) == ' ' && !IsEscape(body + rest, Some(q));
      OneMoreBlank(|more|, MaskTail(rest, Some(q)));
    }
  }

  /** A text in double, single or back quotes is blanked between them, and reading goes on behind. */
  lemma QuotedIsBlanked(q: char, body: string, rest: string)
    requires q == '"' || q == '\'' || q == '`'
    requires forall k | 0 <= k < |body| :: body[k] != q && body[k] != '\\'
    ensures MaskTail([q] + (body + ([q] + rest)), None) == [q] + (Blank(|body|) + ([q] + MaskTail(rest, None)))
    ensures OpenAtEnd([q] + (body + ([q] + rest)), None) == OpenAtEnd(rest, None)
    ensures OpenAtEnd([q] + body, None) == Some(q)
  {
    var whole := [q] + (body + ([q] + rest));
    assert whole[1..] == body + ([q] + rest) && ([q] + rest)[1..] == rest;
    MaskUnfolds(whole, None);
    QuotedRun(body, q, [q] + rest);
    MaskUnfolds([q] + rest, Some(q));
    assert ([q] + body)[1..] == body && body + [] == body;
    MaskUnfolds([q] + body, None);
    QuotedRun(body, q, []);
    NothingMasked(Some(q));
  }

  // ------------------------------------------------------------ parentheses

  function Shift(at: Option<nat>, n: nat): Option<nat> {
    match at case None => None case Some(k) => Some(k + n)
  }

  /** Offset of the parenthesis that brings the depth to zero, quotes respected. */
  function CloseTail(expr: string, depth: int, quote: Quote): (at: Option<nat>)
    requires ValidQuote(quote)
    ensures at.Some? ==> at.value < |expr| && expr[at.value] == ')'
    decreases |expr|
  {
    if expr == [] then None
    else if quote.Some? && expr[0] == '\\' then
      if |expr| == 1 then None else Shift(CloseTail(expr[2..], depth, quote), 2)
    else if quote.Some? || IsQuote(expr[0]) then Shift(CloseTail(expr[1..], depth, After(expr[0], quote)), 1)
    else if expr[0] == '(' then Shift(CloseTail(expr[1..], depth + 1, None), 1)
    else if expr[0] == ')' && depth == 1 then Some(0)
    else Shift(CloseTail(expr[1..], if expr[0] == ')' then depth - 1 else depth, None), 1)
  }

  /** Index of the `)` that matches the `(` at `open`. */
  function MatchingParenAt(expr: string, open: nat): (closed: Option<nat>)
    requires open <= |expr|
    ensures closed.Some? ==> open <= closed.value < |expr| && expr[closed.value] == ')'
  {
    Shift(CloseTail(expr[open..], 0, None), open)
  }

  /** The search resumed at index `i`. */
  function CloseAt(expr: string, i: nat, depth: int, quote: Quote): Option<nat>
    requires ValidQuote(quote)
  {
    if i >= |expr| then None else Shift(CloseTail(expr[i..], depth, quote), i)
  }

  lemma CloseAtStep(expr: string, i: nat, depth: int, quote: Quote)
    requires ValidQuote(quote) && i < |expr|
    ensures CloseAt(expr, i, depth, quote) ==
              if quote.Some? && expr[i] == '\\' then CloseAt(expr, i + 2, depth, quote)
              else if quote.Some? || IsQuote(expr[i]) then CloseAt(expr, i + 1, depth, After(expr[i], quote))
              else if expr[i] == '(' then CloseAt(expr, i + 1, depth + 1, None)
              else if expr[i] == ')' && depth == 1 then Some(i)
              else CloseAt(expr, i + 1, if expr[i] == ')' then depth - 1 else depth, None)
  {
    var rest := expr[i..];
    assert rest[1..] == expr[i + 1..];
    if i + 2 <= |expr| { assert rest[2..] == expr[i + 2..]; }
  }

  method MatchingParen(expr: string, open: nat) returns (closed: Option<nat>)
    requires open <= |expr|
    ensures closed == MatchingParenAt(expr, open)
  {
    var depth: int, quote: Quote := 0, None;
    var i := open;
    while i < |expr|
      invariant open <= i <= |expr| + 1 && ValidQuote(quote)
      invariant CloseAt(expr, i, depth, quote) == MatchingParenAt(expr, open)
    {
      CloseAtStep(expr, i, depth, quote);
      hide CloseAt, MatchingParenAt, CloseTail;
      var c := expr[i];
      if quote.Some? {
        if c == '\\' {
          i := i + 1;
        } else if c == quote.value {
          quote := None;
        }
        i := i + 1;
        continue;
      }
      if IsQuote(c) {
        quote := Some(c);
      } else if c == '(' {
        depth := depth + 1;
      } else if c == ')' {
        depth := depth - 1;
        if depth == 0 {
          return Some(i);
        }
      }
      i := i + 1;
    }
    closed := None;
  }

  /** One step of the search outside an escape. */
  lemma CloseUnfolds(expr: string, depth: int, quote: Quote)
    requires ValidQuote(quote) && expr != [] && !IsEscape(expr, quote)
    ensures CloseTail(expr, depth, quote) ==
              if quote.Some? || IsQuote(expr[0]) then Shift(CloseTail(expr[1..], depth, After(expr[0], quote)), 1)
              else if expr[0] == '(' then Shift(CloseTail(expr[1..], depth + 1, None), 1)
              else if expr[0] == ')' && depth == 1 then Some(0)
              else Shift(CloseTail(expr[1..], if expr[0] == ')' then depth - 1 else depth, None), 1)
  {
  }

  lemma ClosePastEscape(expr: string, depth: int, quote: Quote)
    requires ValidQuote(quote) && IsEscape(expr, quote)
    ensures CloseTail(expr, depth, quote) == Shift(CloseTail(expr[2..], depth, quote), 2)
  {
  }

  /** One character and its mask move the search on alike. */
  lemma CloseSameStep(expr: string, rest: string, depth: int, quote: Quote)
    requires ValidQuote(quote) && expr != [] && |rest| == |expr| - 1 && !IsEscape(expr, quote)
    requires var after := After(expr[0], quote);
             forall d | depth - 1 <= d <= depth + 1 :: CloseTail(rest, d, after) == CloseTail(expr[1..], d, after)
    ensures CloseTail([MaskOf(expr[0], quote)] + rest, depth, quote) == CloseTail(expr, depth, quote)
  {
    hide CloseTail;
    var masked := [MaskOf(expr[0], quote)] + rest;
    var after := After(expr[0], quote);
    assert masked[1..] == rest && After(masked[0], quote) == after;
    assert CloseTail(rest, depth, after) == CloseTail(expr[1..], depth, after);
    assert CloseTail(rest, depth + 1, after) == CloseTail(expr[1..], depth + 1, after);
    assert CloseTail(rest, depth - 1, after) == CloseTail(expr[1..], depth - 1, after);
    CloseUnfolds(expr, depth, quote);
    CloseUnfolds(masked, depth, quote);
  }

  lemma ClosePastBlanks(rest: string, depth: int, quote: Quote)
    requires quote.Some? && ValidQuote(quote)
    ensures CloseTail("  " + rest, depth, quote) == Shift(CloseTail(rest, depth, quote), 2)
  {
    hide CloseTail;
    var once, twice := " " + rest, "  " + rest;
    assert once[1..] == rest && twice[1..] == once;
    CloseUnfolds(once, depth, quote);
    CloseUnfolds(twice, depth, quote);
  }

  /** The matching parenthesis is the same on the text and on its mask. */
  lemma {:induction false} CloseOnMask(expr: string, depth: int, quote: Quote)
    requires ValidQuote(quote)
    ensures CloseTail(MaskTail(expr, quote), depth, quote) == CloseTail(expr, depth, quote)
    decreases |expr|
  {
    hide CloseTail, MaskTail;
    if expr == [] {
      assert MaskTail(expr, quote) == expr;
    } else if IsEscape(expr, quote) {
      MaskUnfolds(expr, quote);
      CloseOnMask(expr[2..], depth, quote);
      ClosePastEscape(expr, depth, quote);
      ClosePastBlanks(MaskTail(expr[2..], quote), depth, quote);
    } else {
      MaskUnfolds(expr, quote);
      var after := After(expr[0], quote);
      CloseOnMask(expr[1..], depth, after);
      CloseOnMask(expr[1..], depth + 1, after);
      CloseOnMask(expr[1..], depth - 1, after);
      CloseSameStep(expr, MaskTail(expr[1..], after), depth, quote);
    }
  }

  /** From any position outside quotes, matching on the mask and on the text agree. */
  lemma MatchingParenOnMask(expr: string, open: nat)
    requires open <= |expr| && Outside(expr, None, open)
    ensures MatchingParenAt(Masked(expr), open) == MatchingParenAt(expr, open)
  {
    MaskFromOutside(expr, None, open);
    CloseOnMask(expr[open..], 0, None);
  }

  /** Unquoted parentheses balance from `depth` on, and no quote is left open. */
  predicate Balanced(expr: string, depth: nat, quote: Quote)
    requires ValidQuote(quote)
    decreases |expr|
  {
    if expr == [] then depth == 0 && quote.None?
    else if IsEscape(expr, quote) then Balanced(expr[2..], depth, quote)
    else if quote.Some? || IsQuote(expr[0]) then Balanced(expr[1..], depth, After(expr[0], quote))
    else if expr[0] == '(' then Balanced(expr[1..], depth + 1, None)
    else if expr[0] == ')' then depth > 0 && Balanced(expr[1..], depth - 1, None)
    else Balanced(expr[1..], depth, None)
  }

  /** What lies before a matching parenthesis is balanced, up to the depth it was entered with. */
  lemma {:induction false} ClosedIsBalanced(expr: string, depth: nat, quote: Quote)
    requires ValidQuote(quote) && CloseTail(expr, depth + 1, quote).Some?
    ensures Balanced(expr[..CloseTail(expr, depth + 1, quote).value], depth, quote)
    decreases |expr|
  {
    hide CloseTail;
    var k := CloseTail(expr, depth + 1, quote).value;
    var inner := expr[..k];
    if IsEscape(expr, quote) {
      ClosePastEscape(expr, depth + 1, quote);
      ClosedIsBalanced(expr[2..], depth, quote);
      assert inner[2..] == expr[2..][..k - 2];
    } else {
      CloseUnfolds(expr, depth + 1, quote);
      if k == 0 { return; }
      assert inner[1..] == expr[1..][..k - 1];
      if quote.Some? || IsQuote(expr[0]) {
        ClosedIsBalanced(expr[1..], depth, After(expr[0], quote));
      } else if expr[0] == '(' {
        ClosedIsBalanced(expr[1..], depth + 1, None);
      } else if expr[0] == ')' {
        ClosedIsBalanced(expr[1..], depth - 1, None);
      } else {
        ClosedIsBalanced(expr[1..], depth, None);
      }
    }
  }

  // ------------------------------------------------------------ the arguments of every `sum`

  predicate IsNameChar(c: char) {
    IsWordChar(c) || c == ':'
  }

  /** End of the run of name characters at `at`. */
  function NameEnd(text: string, at: nat): (end: nat)
    requires at <= |text|
    ensures at <= end <= |text| && (forall k | at <= k < end :: IsNameChar(text[k]))
    ensures end < |text| ==> !IsNameChar(text[end])
    decreases |text| - at
  {
    if at < |text| && IsNameChar(text[at]) then NameEnd(text, at + 1) else at
  }

  /** `word` stands at `p` as a whole token. */
  predicate TokenAt(scan: string, p: nat, word: string) {
    && p + |word| <= |scan| && scan[p..p + |word|] == word
    && (p == 0 || p > |scan| || !IsNameChar(scan[p - 1]))
    && (p + |word| == |scan| || !IsNameChar(scan[p + |word|]))
  }

  function SkipSpaceFrom(scan: string, at: nat): (next: nat)
    requires at <= |scan|
    ensures at <= next <= |scan| && (next < |scan| ==> !IsSpace(scan[next]))
    decreases |scan| - at
  {
    if at < |scan| && IsSpace(scan[at]) then SkipSpaceFrom(scan, at + 1) else at
  }

  /** `by` or `without` as a whole word. */
  function ModifierAt(scan: string, at: nat): (length: nat)
    requires at <= |scan|
    ensures at + length <= |scan|
  {
    if StartsWith(scan[at..], "by") && (at + 2 == |scan| || !IsWordChar(scan[at + 2])) then 2
    else if StartsWith(scan[at..], "without") && (at + 7 == |scan| || !IsWordChar(scan[at + 7])) then 7
    else 0
  }

  /** A parenthesised stretch: the index of its `(` and of the matching `)`. */
  datatype Group = Group(open: nat, closed: nat)

  function GroupAt(scan: string, at: nat): (group: Option<Group>)
    requires at <= |scan|
    ensures group.Some? ==> group.value.open == at < group.value.closed < |scan|
  {
    if at < |scan| && scan[at] == '(' then
      match MatchingParenAt(scan, at)
      case None => None
      case Some(closed) => if closed == at then None else Some(Group(at, closed))
    else None
  }

  /** The argument of the `sum` whose name ends at `at`, past an optional modifier. */
  function ArgumentAfter(scan: string, at: nat): (group: Option<Group>)
    requires at <= |scan|
    ensures group.Some? ==> at <= group.value.open < group.value.closed < |scan|
  {
    var here := SkipSpaceFrom(scan, at);
    var length := ModifierAt(scan, here);
    if length == 0 then GroupAt(scan, here)
    else
      match GroupAt(scan, SkipSpaceFrom(scan, here + length))
      case None => None
      case Some(labels) => GroupAt(scan, SkipSpaceFrom(scan, labels.closed + 1))
  }

  predicate FitsIn(group: Option<Group>, n: nat) {
    group.Some? ==> group.value.open < group.value.closed < n
  }

  /** The text between the two parentheses of a group; nothing where none was found. */
  function TextOf(expr: string, group: Option<Group>): (texts: seq<string>)
    requires FitsIn(group, |expr|)
    ensures |texts| == if group.Some? then 1 else 0
  {
    if group.Some? then [expr[group.value.open + 1..group.value.closed]] else []
  }

  predicate AllFit(groups: seq<Option<Group>>, n: nat) {
    forall k | 0 <= k < |groups| :: FitsIn(groups[k], n)
  }

  /** What follows every `sum` token from `p` on: its argument, or `None` where none closes. */
  function SumsFrom(scan: string, p: nat): (groups: seq<Option<Group>>)
    ensures AllFit(groups, |scan|)
    decreases |scan| - p
  {
    if p >= |scan| then []
    else if TokenAt(scan, p, "sum") then [ArgumentAfter(scan, p + 3)] + SumsFrom(scan, p + 1)
    else SumsFrom(scan, p + 1)
  }

  /** The texts inside the groups that were found. */
  function TextsIn(expr: string, groups: seq<Option<Group>>): seq<string>
    requires AllFit(groups, |expr|)
  {
    if groups == [] then [] else TextOf(expr, groups[0]) + TextsIn(expr, groups[1..])
  }

  method FindGroup(scan: string, at: nat) returns (group: Option<Group>)
    requires at <= |scan|
    ensures group == GroupAt(scan, at)
  {
    if at >= |scan| || scan[at] != '(' {
      return None;
    }
    var closed := MatchingParen(scan, at);
    if closed.None? {
      return None;
    }
    assert closed.value != at;
    return Some(Group(at, closed.value));
  }

  method FindArgument(scan: string, from: nat) returns (group: Option<Group>)
    requires from <= |scan|
    ensures group == ArgumentAfter(scan, from)
  {
    hide GroupAt, ModifierAt;
    var at := from;
    while at < |scan| && IsSpace(scan[at])
      invariant from <= at <= |scan| && SkipSpaceFrom(scan, at) == SkipSpaceFrom(scan, from)
    {
      at := at + 1;
    }
    var length := ModifierAt(scan, at);
    if length != 0 {
      var labels := FindGroup(scan, SkipSpaceFrom(scan, at + length));
      if labels.None? {
        return None;
      }
      at := SkipSpaceFrom(scan, labels.value.closed + 1);
    }
    group := FindGroup(scan, at);
  }

  /** Every direct argument, in order, and whether anything could not be read. */
  method SumAggregationArguments(expr: string) returns (args: seq<string>, unbalanced: bool)
    ensures var groups := SumsFrom(Masked(expr), 0);
            args == TextsIn(expr, groups) && (unbalanced <==> Unterminated(expr) || None in groups)
  {
    hide Masked, Unterminated, ArgumentAfter, TextsIn;
    var scan, unterminated := ScanQuotedSpans(expr);
    args, unbalanced := [], unterminated;
    NoTexts(expr);
    ghost var whole, done: seq<Option<Group>> := SumsFrom(scan, 0), [];
    for p := 0 to |scan|
      invariant AllFit(done, |expr|)
      invariant done + SumsFrom(scan, p) == whole
      invariant args == TextsIn(expr, done)
      invariant unbalanced <==> unterminated || None in done
    {
      if TokenAt(scan, p, "sum") {
        var group := FindArgument(scan, p + 3);
        ReadSum(expr, done, group, SumsFrom(scan, p + 1));
        if group.None? {
          unbalanced := true;
        } else {
          args := args + [expr[group.value.open + 1..group.value.closed]];
        }
        done := done + [group];
      }
    }
    assert done + [] == done;
  }

  lemma TextsCons(expr: string, group: Option<Group>, rest: seq<Option<Group>>)
    requires FitsIn(group, |expr|) && AllFit(rest, |expr|)
    ensures AllFit([group] + rest, |expr|) && TextsIn(expr, [group] + rest) == TextOf(expr, group) + TextsIn(expr, rest)
  {
    assert ([group] + rest)[1..] == rest;
  }

  lemma {:induction false} TextsSnoc(expr: string, done: seq<Option<Group>>, group: Option<Group>)
    requires AllFit(done, |expr|) && FitsIn(group, |expr|)
    ensures AllFit(done + [group], |expr|) && TextsIn(expr, done + [group]) == TextsIn(expr, done) + TextOf(expr, group)
  {
    hide TextOf, TextsIn;
    if done == [] {
      TextsCons(expr, group, []);
      NoTexts(expr);
      assert done + [group] == [group] + [];
      assert TextOf(expr, group) + [] == [] + TextOf(expr, group);
    } else {
      var first, tail := done[0], done[1..];
      TextsSnoc(expr, tail, group);
      TextsCons(expr, first, tail);
      TextsCons(expr, first, tail + [group]);
      assert done == [first] + tail && done + [group] == [first] + (tail + [group]);
      assert TextOf(expr, first) + (TextsIn(expr, tail) + TextOf(expr, group))
          == TextOf(expr, first) + TextsIn(expr, tail) + TextOf(expr, group);
    }
  }

  lemma NoTexts(expr: string)
    ensures TextsIn(expr, []) == []
  {
  }

  lemma ReadSum(expr: string, done: seq<Option<Group>>, group: Option<Group>, rest: seq<Option<Group>>)
    requires AllFit(done, |expr|) && FitsIn(group, |expr|)
    ensures done + ([group] + rest) == (done + [group]) + rest
    ensures AllFit(done + [group], |expr|)
    ensures TextsIn(expr, done + [group]) == TextsIn(expr, done) + TextOf(expr, group)
  {
    TextsSnoc(expr, done, group);
  }

  /** A group found on the mask encloses balanced text. */
  lemma GroupIsBalanced(expr: string, at: nat)
    requires at <= |expr| && GroupAt(Masked(expr), at).Some?
    ensures var g := GroupAt(Masked(expr), at).value;
            && expr[g.open] == '(' && expr[g.closed] == ')'
            && MatchingParenAt(expr, g.open) == Some(g.closed)
            && Balanced(expr[g.open + 1..g.closed], 0, None)
  {
    var g := GroupAt(Masked(expr), at).value;
    VisibleIsOutside(expr, None, at);
    MatchingParenOnMask(expr, at);
    var rest := expr[at..];
    assert rest[1..] == expr[at + 1..];
    assert CloseTail(rest, 0, None) == Shift(CloseTail(rest[1..], 1, None), 1);
    ClosedIsBalanced(rest[1..], 0, None);
    assert rest[1..][..g.closed - at - 1] == expr[g.open + 1..g.closed];
  }

  lemma ArgumentIsBalanced(expr: string, at: nat, group: Option<Group>)
    requires at <= |expr| && group == ArgumentAfter(Masked(expr), at) && FitsIn(group, |expr|)
    ensures AllBalanced(TextOf(expr, group))
  {
    if group.Some? { GroupIsBalanced(expr, group.value.open); }
  }

  /** Unquoted parentheses balance in every one of the texts, and no quote is left open. */
  predicate AllBalanced(texts: seq<string>) {
    forall k | 0 <= k < |texts| :: Balanced(texts[k], 0, None)
  }

  lemma {:induction false} SumsAreBalanced(expr: string, p: nat)
    ensures AllBalanced(TextsIn(expr, SumsFrom(Masked(expr), p)))
    decreases |expr| - p
  {
    if p < |expr| {
      hide TextsIn, SumsFrom, Masked, AllBalanced;
      SumsAreBalanced(expr, p + 1);
      SumIsBalanced(expr, Masked(expr), p, SumsFrom(Masked(expr), p + 1));
    }
  }

  lemma SumIsBalanced(expr: string, scan: string, p: nat, rest: seq<Option<Group>>)
    requires p < |expr| && scan == Masked(expr)
    requires rest == SumsFrom(scan, p + 1) && AllBalanced(TextsIn(expr, rest))
    ensures AllBalanced(TextsIn(expr, SumsFrom(scan, p)))
  {
    if TokenAt(scan, p, "sum") {
      var group := ArgumentAfter(scan, p + 3);
      ArgumentIsBalanced(expr, p + 3, group);
      assert ([group] + rest)[1..] == rest;
      assert TextsIn(expr, [group] + rest) == TextOf(expr, group) + TextsIn(expr, rest);
    }
  }

  /**
   Every argument sliced out of the text has balanced unquoted parentheses and
   closed quotes, although it was found on the mask.
   */
  lemma ArgumentsAreBalanced(expr: string)
    ensures AllBalanced(TextsIn(expr, SumsFrom(Masked(expr), 0)))
  {
    SumsAreBalanced(expr, 0);
  }
}
