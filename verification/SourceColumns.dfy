/**
 Splitting source lines into two columns of text: code with comments blanked, and the
 contents of strings. Only a template literal or a block comment outlives its line.
 */
module SourceColumns {
  import opened Text

  /** What the splitter is inside of. */
  datatype Mode = Code | Block | Quoted(quote: char)

  /** One line in two columns, and the mode at its end. */
  datatype Columns = Columns(code: string, strings: string, mode: Mode)

  predicate ValidMode(mode: Mode) {
    mode.Quoted? ==> IsQuote(mode.quote)
  }

  /** What one step of the splitter takes, and what it puts into the two columns. */
  datatype Piece = Piece(taken: nat, code: string, strings: string, mode: Mode)

  function Step(line: string, mode: Mode): (p: Piece)
    requires line != [] && ValidMode(mode)
    ensures 0 < p.taken <= |line| && ValidMode(p.mode) && |p.code| == |p.strings|
    ensures |p.code| == p.taken || (p.taken == 1 == |line| && |p.code| == 2)
  {
    var c := line[0];
    match mode
    case Block =>
      if StartsWith(line, "*/") then Piece(2, Blank(2), Blank(2), Code) else Piece(1, Blank(1), Blank(1), Block)
    case Quoted(q) =>
      if c == '\\' then
        if |line| == 1 then Piece(1, "\\ ", "  ", mode) else Piece(2, line[..2], "  ", mode)
      else if c == q then Piece(1, [c], " ", Code)
      else Piece(1, [c], [c], mode)
    case Code =>
      if StartsWith(line, "//") then Piece(|line|, Blank(|line|), Blank(|line|), Code)
      else if StartsWith(line, "/*") then Piece(2, Blank(2), Blank(2), Block)
      else Piece(1, [c], " ", if IsQuote(c) then Quoted(c) else Code)
  }

  function Scan(line: string, mode: Mode): (r: Columns)
    requires ValidMode(mode)
    ensures ValidMode(r.mode) && |r.code| == |r.strings|
    decreases |line|
  {
    if line == [] then Columns([], [], mode)
    else
      var p := Step(line, mode);
      var rest := Scan(line[p.taken..], p.mode);
      Columns(p.code + rest.code, p.strings + rest.strings, rest.mode)
  }

  /** The mode the next line starts in: an unterminated `'` or `"` is a misreading and ends here. */
  function Carried(mode: Mode): Mode {
    if mode.Quoted? && mode.quote != '`' then Code else mode
  }

  datatype Line = Line(raw: string, code: string, strings: string)

  function AnalyseFrom(lines: seq<string>, mode: Mode): (analysed: seq<Line>)
    requires ValidMode(mode)
    ensures |analysed| == |lines|
  {
    if lines == [] then []
    else
      var r := Scan(lines[0], mode);
      [Line(lines[0], r.code, r.strings)] + AnalyseFrom(lines[1..], Carried(r.mode))
  }

  /** The mode line `k` starts in. */
  function ModeAt(lines: seq<string>, mode: Mode, k: nat): (start: Mode)
    requires k <= |lines| && ValidMode(mode)
    ensures ValidMode(start)
  {
    if k == 0 then mode else ModeAt(lines[1..], Carried(Scan(lines[0], mode).mode), k - 1)
  }

  /** `source.split(/\r?\n/)`. */
  function SplitLines(source: string): (lines: seq<string>)
    ensures lines != []
  {
    var parts := Split(source, '\n');
    seq(|parts|, k requires 0 <= k < |parts| =>
      if k < |parts| - 1 && EndsWith(parts[k], "\r") then parts[k][..|parts[k]| - 1] else parts[k])
  }

  lemma CutBehindLine(line: string, rest: string)
    requires '\n' !in line
    ensures Split(line + "\n" + rest, '\n') == [line] + Split(rest, '\n')
    ensures Split(line, '\n') == [line]
  {
    SplitCons(line, rest, '\n');
    assert line + ['\n'] + rest == line + "\n" + rest;
    SplitRun(line, [], '\n');
    assert line + [] == line && Split([], '\n') == [[]];
  }

  lemma LineAndRest(line: string, rest: string)
    requires '\n' !in line
    ensures SplitLines(line + "\n" + rest)
         == [if EndsWith(line, "\r") then line[..|line| - 1] else line] + SplitLines(rest)
    ensures SplitLines(line) == [line]
  {
    hide Split, EndsWith;
    CutBehindLine(line, rest);
    var parts := Split(line + "\n" + rest, '\n');
    assert parts[0] == line && parts[1..] == Split(rest, '\n');
  }

  /** Lines end at a line feed, with or without a carriage return in front of it. */
  lemma LinesReadBack(line: string, rest: string)
    requires '\n' !in line
    ensures SplitLines(line + "\r\n" + rest) == [line] + SplitLines(rest)
    ensures (line == "" || line[|line| - 1] != '\r') ==> SplitLines(line + "\n" + rest) == [line] + SplitLines(rest)
    ensures SplitLines(line) == [line]
  {
    var returned := line + "\r";
    assert returned[|returned| - 1..] == "\r" && returned[..|returned| - 1] == line;
    assert line + "\r\n" + rest == returned + "\n" + rest;
    LineAndRest(returned, rest);
    LineAndRest(line, rest);
    assert line != "" ==> line[|line| - 1..] == [line[|line| - 1]];
  }

  // ------------------------------------------------------------ the splitter, as it runs

  /** The scan from `i` on, after the piece found there. */
  lemma ScanStep(line: string, i: nat, mode: Mode, p: Piece)
    requires i < |line| && ValidMode(mode) && p == Step(line[i..], mode)
    ensures i + p.taken <= |line|
    ensures var rest := Scan(line[i + p.taken..], p.mode);
            Scan(line[i..], mode) == Columns(p.code + rest.code, p.strings + rest.strings, rest.mode)
  {
    assert line[i..][p.taken..] == line[i + p.taken..];
  }

  predicate IsAt(line: string, i: nat, c: char) {
    i < |line| && line[i] == c
  }

  method Take(line: string, i: nat, mode: Mode) returns (p: Piece)
    requires i < |line| && ValidMode(mode)
    ensures p == Step(line[i..], mode)
  {
    var c := line[i];
    ghost var left := line[i..];
    assert i + 1 < |line| ==> left[1] == line[i + 1];
    if mode.Block? {
      if c == '*' && IsAt(line, i + 1, '/') { return Piece(2, Blank(2), Blank(2), Code); }
      return Piece(1, Blank(1), Blank(1), Block);
    }
    if mode.Quoted? {
      if c == '\\' {
        if i + 1 < |line| {
          assert left[..2] == line[i..i + 2];
          return Piece(2, line[i..i + 2], "  ", mode);
        }
        return Piece(1, "\\ ", "  ", mode);
      }
      if c == mode.quote { return Piece(1, [c], " ", Code); }
      return Piece(1, [c], [c], mode);
    }
    if c == '/' && IsAt(line, i + 1, '/') { return Piece(|line| - i, Blank(|line| - i), Blank(|line| - i), Code); }
    if c == '/' && IsAt(line, i + 1, '*') { return Piece(2, Blank(2), Blank(2), Block); }
    p := Piece(1, [c], " ", if IsQuote(c) then Quoted(c) else Code);
  }

  /** The whole is what was written so far and the rest. */
  predicate Behind(whole: Columns, code: string, strings: string, rest: Columns) {
    whole.code == code + rest.code && whole.strings == strings + rest.strings && whole.mode == rest.mode
  }

  lemma PieceBehind(whole: Columns, code: string, strings: string, p: Piece, rest: Columns)
    requires Behind(whole, code, strings, Columns(p.code + rest.code, p.strings + rest.strings, rest.mode))
    ensures Behind(whole, code + p.code, strings + p.strings, rest)
  {
  }

  lemma Advance(line: string, i: nat, mode: Mode, p: Piece, whole: Columns, code: string, strings: string)
    requires i < |line| && ValidMode(mode) && p == Step(line[i..], mode)
    requires Behind(whole, code, strings, Scan(line[i..], mode))
    ensures i + p.taken <= |line|
    ensures Behind(whole, code + p.code, strings + p.strings, Scan(line[i + p.taken..], p.mode))
  {
    ScanStep(line, i, mode, p);
    PieceBehind(whole, code, strings, p, Scan(line[i + p.taken..], p.mode));
  }

  /** One line: the scanner's variables are the two columns and the mode. */
  method SplitLine(line: string, mode: Mode) returns (columns: Columns)
    requires ValidMode(mode)
    ensures columns == Scan(line, mode)
  {
    hide Scan, Step, Behind;
    var code: string, strings: string, now := [], [], mode;
    var i := 0;
    ghost var whole := Scan(line, mode);
    assert line[0..] == line;
    AtStart(whole);
    while i < |line|
      invariant 0 <= i <= |line| && ValidMode(now)
      invariant Behind(whole, code, strings, Scan(line[i..], now))
    {
      var p := Take(line, i, now);
      Advance(line, i, now, p, whole, code, strings);
      code, strings, now := code + p.code, strings + p.strings, p.mode;
      i := i + p.taken;
    }
    assert line[i..] == [];
    AtEnd(whole, code, strings, now);
    columns := Columns(code, strings, now);
  }

  lemma AtStart(whole: Columns)
    ensures Behind(whole, [], [], whole)
  {
  }

  lemma AtEnd(whole: Columns, code: string, strings: string, mode: Mode)
    requires ValidMode(mode) && Behind(whole, code, strings, Scan([], mode))
    ensures whole == Columns(code, strings, mode)
  {
  }

  method Analyse(source: string) returns (analysed: seq<Line>)
    ensures analysed == AnalyseFrom(SplitLines(source), Code)
  {
    var lines := SplitLines(source);
    var mode := Code;
    analysed := [];
    for k := 0 to |lines|
      invariant ValidMode(mode)
      invariant analysed + AnalyseFrom(lines[k..], mode) == AnalyseFrom(lines, Code)
    {
      assert lines[k..][1..] == lines[k + 1..];
      var r := SplitLine(lines[k], mode);
      analysed := analysed + [Line(lines[k], r.code, r.strings)];
      mode := Carried(r.mode);
    }
  }

  // ------------------------------------------------------------ what the columns hold

  /** The scanner meets a backslash as the last character of the line, inside a quote. */
  predicate Dangling(line: string, mode: Mode)
    requires ValidMode(mode)
    decreases |line|
  {
    line != [] &&
    (if mode.Quoted? && line == "\\" then true else Dangling(line[Step(line, mode).taken..], Step(line, mode).mode))
  }

  /** The columns are as long as the line, and one longer exactly after a dangling backslash. */
  lemma {:induction false} ColumnLength(line: string, mode: Mode)
    requires ValidMode(mode)
    ensures |Scan(line, mode).code| == |line| + if Dangling(line, mode) then 1 else 0
    decreases |line|
  {
    if line != [] {
      var p := Step(line, mode);
      ColumnLength(line[p.taken..], p.mode);
      if mode.Quoted? && line == "\\" { assert line[p.taken..] == []; }
    }
  }

  /** Every column shows the character of the line or a blank; a string column shows what the code column shows. */
  predicate Shows(line: string, code: string, strings: string) {
    && |line| <= |code| == |strings|
    && (forall k | 0 <= k < |line| :: code[k] == line[k] || code[k] == ' ')
    && (forall k | 0 <= k < |code| :: strings[k] == code[k] || strings[k] == ' ')
    && (forall k | |line| <= k < |code| :: code[k] == ' ')
  }

  lemma StepShows(line: string, mode: Mode)
    requires line != [] && ValidMode(mode)
    ensures var p := Step(line, mode); Shows(line[..p.taken], p.code, p.strings)
  {
  }

  /** One step of the scan and the rest; a piece is longer than what it takes at the end of the line alone. */
  lemma PieceOfScan(line: string, mode: Mode)
    requires line != [] && ValidMode(mode)
    ensures var p := Step(line, mode);
            var rest := Scan(line[p.taken..], p.mode);
            && Scan(line, mode) == Columns(p.code + rest.code, p.strings + rest.strings, rest.mode)
            && (|p.code| == p.taken || (line[p.taken..] == [] && rest.code == []))
  {
  }

  lemma {:induction false} ColumnsShow(line: string, mode: Mode)
    requires ValidMode(mode)
    ensures Shows(line, Scan(line, mode).code, Scan(line, mode).strings)
    decreases |line|
  {
    if line != [] {
      hide *;
      var p := Step(line, mode);
      var tail := line[p.taken..];
      var rest := Scan(tail, p.mode);
      PieceOfScan(line, mode);
      StepShows(line, mode);
      ColumnsShow(tail, p.mode);
      ShowsConcat(line[..p.taken], p, tail, rest);
      assert line == line[..p.taken] + tail;
    }
  }

  lemma ShowsConcat(head: string, p: Piece, tail: string, rest: Columns)
    requires Shows(head, p.code, p.strings) && Shows(tail, rest.code, rest.strings)
    requires |p.code| == |head| || (tail == [] && rest.code == [])
    ensures Shows(head + tail, p.code + rest.code, p.strings + rest.strings)
  {
  }

  // ------------------------------------------------------------ from line to line

  lemma {:induction false} AnalysedLine(lines: seq<string>, mode: Mode, k: nat)
    requires k < |lines| && ValidMode(mode)
    ensures var r := Scan(lines[k], ModeAt(lines, mode, k));
            AnalyseFrom(lines, mode)[k] == Line(lines[k], r.code, r.strings)
  {
    if k > 0 { AnalysedLine(lines[1..], Carried(Scan(lines[0], mode).mode), k - 1); }
  }

  lemma {:induction false} NextMode(lines: seq<string>, mode: Mode, k: nat)
    requires k < |lines| && ValidMode(mode)
    ensures ModeAt(lines, mode, k + 1) == Carried(Scan(lines[k], ModeAt(lines, mode, k)).mode)
  {
    if k > 0 { NextMode(lines[1..], Carried(Scan(lines[0], mode).mode), k - 1); }
  }

  /**
   A quote outlives its line exactly when it is a backtick: a stray `'` or `"` confuses
   one line and no more.
   */
  lemma TemplateIsCarried(lines: seq<string>, k: nat)
    requires k < |lines|
    ensures ModeAt(lines, Code, k + 1) == Quoted('`') <==> Scan(lines[k], ModeAt(lines, Code, k)).mode == Quoted('`')
    ensures ModeAt(lines, Code, k + 1) in {Code, Block, Quoted('`')}
  {
    NextMode(lines, Code, k);
  }

  /** The columns of one line of the file: what they show, and how long they are. */
  lemma FileColumns(source: string, k: nat)
    requires k < |SplitLines(source)|
    ensures var line := AnalyseFrom(SplitLines(source), Code)[k];
            && line.raw == SplitLines(source)[k]
            && Shows(line.raw, line.code, line.strings)
            && |line.code| == |line.raw| + if Dangling(line.raw, ModeAt(SplitLines(source), Code, k)) then 1 else 0
  {
    var lines := SplitLines(source);
    AnalysedLine(lines, Code, k);
    ColumnsShow(lines[k], ModeAt(lines, Code, k));
    ColumnLength(lines[k], ModeAt(lines, Code, k));
  }

  // ------------------------------------------------------------ blanked code reads the same

  function Uncommented(mode: Mode): Mode {
    if mode.Block? then Code else mode
  }

  lemma BlankFirst(rest: string, line: string)
    requires line == [' '] + rest
    ensures Scan(line, Code).code == [' '] + Scan(rest, Code).code
    ensures Scan(line, Code).strings == [' '] + Scan(rest, Code).strings
    ensures Scan(line, Code).mode == Scan(rest, Code).mode
  {
    assert line[1..] == rest;
  }

  /** Blanks in front of code are read as blanks. */
  lemma {:induction false} BlanksFirst(n: nat, rest: string)
    ensures Scan(Blank(n) + rest, Code).code == Blank(n) + Scan(rest, Code).code
    ensures Scan(Blank(n) + rest, Code).strings == Blank(n) + Scan(rest, Code).strings
    ensures Scan(Blank(n) + rest, Code).mode == Scan(rest, Code).mode
  {
    if n == 0 {
      assert Blank(0) + rest == rest;
    } else {
      BlanksFirst(n - 1, rest);
      BlanksApart(n, rest);
      BlanksApart(n, Scan(rest, Code).code);
      BlanksApart(n, Scan(rest, Code).strings);
      BlankFirst(Blank(n - 1) + rest, Blank(n) + rest);
    }
  }

  lemma BlanksApart(n: nat, rest: string)
    requires n > 0
    ensures Blank(n) + rest == [' '] + (Blank(n - 1) + rest)
  {
  }

  lemma OneTaken(c: char, rest: string, mode: Mode, p: Piece)
    requires ValidMode(mode) && p == Step([c] + rest, mode) && p.taken == 1 && p.code == [c]
    ensures var r := Scan(rest, p.mode); Scan([c] + rest, mode) == Columns([c] + r.code, p.strings + r.strings, r.mode)
  {
    assert ([c] + rest)[1..] == rest;
  }

  /** The blanked line, read again, splits into the same columns: blanks never make or hide a comment. */
  lemma {:induction false} BlankedReadsTheSame(line: string, mode: Mode)
    requires ValidMode(mode)
    ensures var r := Scan(line, mode);
            Scan(r.code, Uncommented(mode)) == Columns(r.code, r.strings, Uncommented(r.mode))
    decreases |line|
  {
    if line != [] {
      var p := Step(line, mode);
      var tail := line[p.taken..];
      BlankedReadsTheSame(tail, p.mode);
      StepReadsTheSame(line, mode, p, tail, Scan(tail, p.mode));
    }
  }

  lemma PlainReadsTheSame(line: string, mode: Mode, p: Piece, tail: string, rest: Columns)
    requires line != [] && ValidMode(mode) && p == Step(line, mode) && tail == line[1..] && rest == Scan(tail, p.mode)
    requires p.taken == 1 && p.code == [line[0]] && !mode.Block? && !p.mode.Block?
    requires mode.Quoted? ==> line[0] != '\\'
    requires Scan(rest.code, p.mode) == Columns(rest.code, rest.strings, Uncommented(rest.mode))
    ensures Scan(p.code + rest.code, mode)
         == Columns(p.code + rest.code, p.strings + rest.strings, Uncommented(rest.mode))
  {
    ColumnsShow(tail, p.mode);
    NoNewComment(line, p, tail, rest.code);
    OneTaken(line[0], rest.code, mode, Step([line[0]] + rest.code, mode));
  }

  lemma StepReadsTheSame(line: string, mode: Mode, p: Piece, tail: string, rest: Columns)
    requires line != [] && ValidMode(mode) && p == Step(line, mode) && tail == line[p.taken..]
               && rest == Scan(tail, p.mode)
    requires Scan(rest.code, Uncommented(p.mode)) == Columns(rest.code, rest.strings, Uncommented(rest.mode))
    ensures Scan(p.code + rest.code, Uncommented(mode)) 
         == Columns(p.code + rest.code, p.strings + rest.strings, Uncommented(rest.mode))
  {
    if mode.Block? || (mode.Code? && StartsWith(line, "/*")) {
      BlanksFirst(p.taken, rest.code);
    } else if mode.Code? && StartsWith(line, "//") {
      BlanksFirst(p.taken, rest.code);
    } else if mode.Quoted? && line[0] == '\\' {
      EscapeReadsTheSame(p.code, rest, mode);
    } else {
      PlainReadsTheSame(line, mode, p, tail, rest);
    }
  }

  lemma EscapeReadsTheSame(pair: string, rest: Columns, mode: Mode)
    requires |pair| == 2 && pair[0] == '\\' && mode.Quoted? && ValidMode(mode)
    requires Scan(rest.code, mode) == Columns(rest.code, rest.strings, Uncommented(rest.mode))
    ensures Scan(pair + rest.code, mode) == Columns(pair + rest.code, "  " + rest.strings, Uncommented(rest.mode))
  {
    assert (pair + rest.code)[2..] == rest.code;
    assert (pair + rest.code)[..2] == pair;
  }

  lemma NoNewComment(line: string, p: Piece, tail: string, code: string)
    requires line != [] && tail == line[1..] && p.taken == 1
    requires |tail| <= |code| && (tail == [] ==> code == [] || code[0] == ' ')
               && (tail != [] ==> code[0] == tail[0] || code[0] == ' ')
    ensures StartsWith([line[0]] + code, "//") ==> StartsWith(line, "//")
    ensures StartsWith([line[0]] + code, "/*") ==> StartsWith(line, "/*")
  {
    if StartsWith([line[0]] + code, "//") {
      assert ([line[0]] + code)[0] == '/' && ([line[0]] + code)[1] == '/';
      assert line[1] == tail[0];
    }
    if StartsWith([line[0]] + code, "/*") {
      assert ([line[0]] + code)[0] == '/' && ([line[0]] + code)[1] == '*';
      assert line[1] == tail[0];
    }
  }

  // ------------------------------------------------------------ what each column is for

  /** The three quotes of the language. */
  predicate IsMark(c: char) {
    c == '\'' || c == '"' || c == '`'
  }

  /** A piece, and what follows it. */
  lemma PieceFirst(head: string, rest: string, mode: Mode, p: Piece)
    requires ValidMode(mode) && head != [] && p == Step(head + rest, mode) && p.taken == |head|
    ensures var r := Scan(rest, p.mode);
            Scan(head + rest, mode) == Columns(p.code + r.code, p.strings + r.strings, r.mode)
  {
    assert (head + rest)[|head|..] == rest;
  }

  function Before(code: string, strings: string, r: Columns): Columns {
    Columns(code + r.code, strings + r.strings, r.mode)
  }

  lemma BeforeTwice(a: string, b: string, c: string, d: string, r: Columns)
    ensures Before(a, b, Before(c, d, r)) == Before(a + c, b + d, r)
  {
    assert a + (c + r.code) == (a + c) + r.code && b + (d + r.strings) == (b + d) + r.strings;
  }

  /** Inside a quote both columns show the text, up to a backslash or the closing quote. */
  lemma {:induction false} QuotedRun(body: string, rest: string, q: char)
    requires IsMark(q) && forall k | 0 <= k < |body| :: body[k] != q && body[k] != '\\'
    ensures Scan(body + rest, Quoted(q)) == Before(body, body, Scan(rest, Quoted(q)))
  {
    if body == [] {
      assert body + rest == rest;
    } else {
      var c, more := body[0], body[1..];
      assert body + rest == [c] + (more + rest);
      PieceFirst([c], more + rest, Quoted(q), Piece(1, [c], [c], Quoted(q)));
      QuotedRun(more, rest, q);
      BeforeTwice([c], [c], more, more, Scan(rest, Quoted(q)));
      assert [c] + more == body;
    }
  }

  /**
   A quoted text in code: the code column keeps it whole with its quotes, the string column
   shows what stands between them.
   */
  lemma QuotedTextShows(body: string, rest: string, q: char)
    requires IsMark(q) && forall k | 0 <= k < |body| :: body[k] != q && body[k] != '\\'
    ensures Scan([q] + (body + ([q] + rest)), Code)
         == Before([q] + body + [q], " " + body + " ", Scan(rest, Code))
  {
    var r := Scan(rest, Code);
    OpeningQuote(body + ([q] + rest), q);
    QuotedRun(body, [q] + rest, q);
    PieceFirst([q], rest, Quoted(q), Piece(1, [q], " ", Code));
    BeforeTwice(body, body, [q], " ", r);
    BeforeTwice([q], " ", body + [q], body + " ", r);
    assert [q] + (body + [q]) == [q] + body + [q] && " " + (body + " ") == " " + body + " ";
  }

  lemma OpeningQuote(rest: string, q: char)
    requires IsMark(q)
    ensures Scan([q] + rest, Code) == Before([q], " ", Scan(rest, Quoted(q)))
  {
    PieceFirst([q], rest, Code, Piece(1, [q], " ", Quoted(q)));
  }

  /** An escape inside a quote is code and no string text. */
  lemma EscapeShows(c: char, rest: string, q: char)
    requires IsMark(q)
    ensures Scan(['\\', c] + rest, Quoted(q)) == Before(['\\', c], "  ", Scan(rest, Quoted(q)))
  {
    assert (['\\', c] + rest)[..2] == ['\\', c];
    PieceFirst(['\\', c], rest, Quoted(q), Piece(2, ['\\', c], "  ", Quoted(q)));
  }

  /** Code without quotes and slashes is code, and no string text. */
  lemma {:induction false} CodeShows(text: string, rest: string)
    requires forall k | 0 <= k < |text| :: !IsMark(text[k]) && text[k] != '/'
    ensures Scan(text + rest, Code) == Before(text, Blank(|text|), Scan(rest, Code))
  {
    if text == [] {
      assert text + rest == rest;
    } else {
      var c, more := text[0], text[1..];
      assert text + rest == [c] + (more + rest);
      OtherStart([c] + (more + rest), "//", 0);
      OtherStart([c] + (more + rest), "/*", 0);
      PieceFirst([c], more + rest, Code, Piece(1, [c], " ", Code));
      CodeShows(more, rest);
      BeforeTwice([c], " ", more, Blank(|more|), Scan(rest, Code));
      assert [c] + more == text && " " + Blank(|more|) == Blank(|text|);
    }
  }

  /** A slash that opens no comment is code. */
  lemma SlashShows(rest: string)
    requires rest == [] || (rest[0] != '/' && rest[0] != '*')
    ensures Scan(['/'] + rest, Code) == Before(['/'], " ", Scan(rest, Code))
  {
    assert rest != [] ==> (['/'] + rest)[1] == rest[0];
    PieceFirst(['/'], rest, Code, Piece(1, ['/'], " ", Code));
  }

  /** A line comment is blank in both columns, to the end of the line. */
  lemma LineCommentIsBlank(rest: string)
    ensures Scan("//" + rest, Code) == Columns(Blank(|rest| + 2), Blank(|rest| + 2), Code)
  {
    var line := "//" + rest;
    assert line[..2] == "//" && line[|line|..] == [];
  }

  predicate HoldsMark(body: string) {
    exists k :: 0 <= k < |body| - 1 && body[k] == '*' && body[k + 1] == '/'
  }

  lemma {:induction false} BlockRun(body: string, rest: string)
    requires !HoldsMark(body) && (rest != [] ==> rest[0] != '/')
    ensures Scan(body + rest, Block) == Before(Blank(|body|), Blank(|body|), Scan(rest, Block))
  {
    if body == [] {
      assert body + rest == rest;
    } else {
      var c, more := body[0], body[1..];
      assert body + rest == [c] + (more + rest);
      assert !StartsWith(body + rest, "*/") by { NoMarkFirst(body, rest); }
      PieceFirst([c], more + rest, Block, Piece(1, Blank(1), Blank(1), Block));
      assert !HoldsMark(more) by { assert forall k | 0 <= k < |more| - 1 :: more[k] == body[k + 1]; }
      BlockRun(more, rest);
      BeforeTwice(Blank(1), Blank(1), Blank(|more|), Blank(|more|), Scan(rest, Block));
      assert Blank(1) + Blank(|more|) == Blank(|body|);
    }
  }

  lemma NoMarkFirst(body: string, rest: string)
    requires body != [] && !HoldsMark(body) && (rest != [] ==> rest[0] != '/')
    ensures !StartsWith(body + rest, "*/")
  {
    var text := body + rest;
    if |text| >= 2 {
      assert text[1] == if |body| > 1 then body[1] else rest[0];
      assert text[..2][1] == text[1] && text[..2][0] == body[0];
    }
  }

  /** A block comment is blank up to its first closing mark, and code goes on behind it. */
  lemma BlockCommentIsBlank(body: string, rest: string)
    requires !HoldsMark(body)
    ensures Scan("/*" + (body + ("*/" + rest)), Code)
         == Before(Blank(2 + (|body| + 2)), Blank(2 + (|body| + 2)), Scan(rest, Code))
  {
    var r := Scan(rest, Code);
    hide *;
    CloseMark(rest);
    ClosesBlock(rest);
    BlockShows(body, "*/" + rest, r);
  }

  lemma BlockShows(body: string, close: string, r: Columns)
    requires !HoldsMark(body) && (close != [] ==> close[0] != '/')
    requires Scan(close, Block) == Before(Blank(2), Blank(2), r)
    ensures Scan("/*" + (body + close), Code) == Before(Blank(2 + (|body| + 2)), Blank(2 + (|body| + 2)), r)
  {
    var n := |body|;
    hide *;
    OpensBlock(body + close);
    BlockRun(body, close);
    BlanksTwice(n, 2, r);
    BlanksTwice(2, n + 2, r);
  }

  /** Without a closing mark the comment goes on in the next line. */
  lemma OpenBlockGoesOn(body: string)
    requires !HoldsMark(body)
    ensures Scan("/*" + body, Code) == Columns(Blank(2 + |body|), Blank(2 + |body|), Block)
  {
    var n := |body|;
    assert body + [] == body;
    hide *;
    OpensBlock(body);
    BlockRun(body, []);
    NothingLeft(Block);
    BlanksTwice(2, n, Columns([], [], Block));
    JustBlanks(2 + n, Block);
  }

  lemma CloseMark(rest: string)
    ensures ("*/" + rest)[0] != '/'
  {
  }

  lemma BlanksTwice(m: nat, n: nat, r: Columns)
    ensures Before(Blank(m), Blank(m), Before(Blank(n), Blank(n), r)) == Before(Blank(m + n), Blank(m + n), r)
  {
    BeforeTwice(Blank(m), Blank(m), Blank(n), Blank(n), r);
    assert Blank(m) + Blank(n) == Blank(m + n);
  }

  lemma JustBlanks(n: nat, mode: Mode)
    ensures Before(Blank(n), Blank(n), Columns([], [], mode)) == Columns(Blank(n), Blank(n), mode)
  {
    assert Blank(n) + [] == Blank(n);
  }

  lemma OpensBlock(rest: string)
    ensures Scan("/*" + rest, Code) == Before(Blank(2), Blank(2), Scan(rest, Block))
  {
    assert ("/*" + rest)[..2] == "/*";
    OtherStart("/*" + rest, "//", 1);
    PieceFirst("/*", rest, Code, Piece(2, Blank(2), Blank(2), Block));
  }

  lemma ClosesBlock(rest: string)
    ensures Scan("*/" + rest, Block) == Before(Blank(2), Blank(2), Scan(rest, Code))
  {
    assert ("*/" + rest)[..2] == "*/";
    PieceFirst("*/", rest, Block, Piece(2, Blank(2), Blank(2), Code));
  }

  lemma NothingLeft(mode: Mode)
    requires ValidMode(mode)
    ensures Scan([], mode) == Columns([], [], mode)
  {
  }
}
