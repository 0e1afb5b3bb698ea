/**
 Line numbers from offsets: where lines start, and the binary search that finds the
 line an offset lies on.
 */
module SourceLines {
  import opened Text
  import CommentStripper

  function CountBreaks(text: string): nat {
    if text == [] then 0 else CountBreaks(text[..|text| - 1]) + if text[|text| - 1] == '\n' then 1 else 0
  }

  /** The line an offset lies on, counted from 1. */
  function LineNumber(text: string, offset: nat): nat
    requires offset <= |text|
  {
    1 + CountBreaks(text[..offset])
  }

  lemma {:induction false} SplitSnoc(text: string, c: char, sep: char)
    ensures |Split(text + [c], sep)| == |Split(text, sep)| + if c == sep then 1 else 0
  {
    if text == [] {
      assert [] + [c] == [c] && [c][1..] == [];
    } else {
      assert (text + [c])[1..] == text[1..] + [c];
      SplitSnoc(text[1..], c, sep);
    }
  }

  lemma {:induction false} BreaksAreSplits(text: string)
    ensures |Split(text, '\n')| == 1 + CountBreaks(text)
  {
    if text != [] {
      var front, last := text[..|text| - 1], text[|text| - 1];
      BreaksAreSplits(front);
      SplitSnoc(front, last, '\n');
      assert text == front + [last];
    }
  }

  /** The line of an offset is the number of lines the text up to it has. */
  lemma LineCountsLines(text: string, offset: nat)
    requires offset <= |text|
    ensures LineNumber(text, offset) == |Split(text[..offset], '\n')|
  {
    BreaksAreSplits(text[..offset]);
  }

  /** Offset 0 and every offset just after a line break. */
  function LineStarts(text: string): (starts: seq<nat>)
    ensures |starts| == 1 + CountBreaks(text)
  {
    if text == [] then [0]
    else LineStarts(text[..|text| - 1]) + if text[|text| - 1] == '\n' then [|text|] else []
  }

  method FindLineStarts(text: string) returns (starts: seq<nat>)
    ensures starts == LineStarts(text)
  {
    starts := [0];
    for i := 0 to |text|
      invariant starts == LineStarts(text[..i])
    {
      assert text[..i + 1][..i] == text[..i];
      if text[i] == '\n' {
        starts := starts + [i + 1];
      }
    }
    assert text[..|text|] == text;
  }

  /** Line `k + 1` starts at or before an offset exactly when the offset's line is past `k`. */
  lemma {:induction false} StartsBefore(text: string, k: nat, offset: nat)
    requires k < |LineStarts(text)| && offset <= |text|
    ensures LineStarts(text)[k] <= offset <==> k < LineNumber(text, offset)
    ensures LineStarts(text)[k] <= |text|
  {
    if text != [] {
      var front := text[..|text| - 1];
      if k < |LineStarts(front)| {
        if offset < |text| {
          assert text[..offset] == front[..offset];
          StartsBefore(front, k, offset);
        } else {
          assert text[..offset] == text;
          StartsBefore(front, k, |front|);
        }
      } else if offset < |text| {
        assert text[..offset] == front[..offset];
        BreaksAscend(front, offset);
      } else {
        assert text[..offset] == text;
      }
    }
  }

  lemma {:induction false} BreaksAscend(text: string, n: nat)
    requires n <= |text|
    ensures CountBreaks(text[..n]) <= CountBreaks(text)
  {
    if n < |text| {
      assert text[..|text| - 1][..n] == text[..n];
      BreaksAscend(text[..|text| - 1], n);
    } else {
      assert text[..n] == text;
    }
  }

  /** The binary search over the line starts. */
  method LineOf(text: string, starts: seq<nat>, offset: nat) returns (line: nat)
    requires starts == LineStarts(text) && offset <= |text|
    ensures line == LineNumber(text, offset)
  {
    BreaksAscend(text, offset);
    var low, high := 0, |starts| - 1;
    while low < high
      invariant 0 <= low < LineNumber(text, offset) <= high + 1 <= |starts|
    {
      var mid := (low + high + 1) / 2;
      StartsBefore(text, mid, offset);
      if starts[mid] <= offset {
        low := mid;
      } else {
        high := mid - 1;
      }
    }
    line := low + 1;
  }

  /** A line number in the stripped text is the line number in the source. */
  lemma StrippingKeepsLines(src: string, offset: nat)
    requires offset <= |src|
    ensures |CommentStripper.Stripped(src)| == |src|
    ensures LineNumber(CommentStripper.Stripped(src), offset) == LineNumber(src, offset)
  {
    CommentStripper.StripPreserves(src);
    SameBreaks(src, CommentStripper.Stripped(src), offset);
  }

  lemma {:induction false} SameBreaks(a: string, b: string, n: nat)
    requires |a| == |b| && n <= |a| && forall k | 0 <= k < |a| :: a[k] == '\n' <==> b[k] == '\n'
    ensures CountBreaks(a[..n]) == CountBreaks(b[..n])
  {
    if n > 0 {
      assert a[..n][..n - 1] == a[..n - 1] && b[..n][..n - 1] == b[..n - 1];
      SameBreaks(a, b, n - 1);
    }
  }
}
