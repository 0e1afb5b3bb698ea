/**
 Strings as the checker scripts use them: prefix tests, `split`, `join`, the first
 index of a character, and the decimal digits of a number.
 */
module Text {

  datatype Option<+T> = None | Some(value: T)

  predicate StartsWith(s: string, prefix: string) {
    prefix <= s
  }

  predicate EndsWith(s: string, suffix: string) {
    |suffix| <= |s| && s[|s| - |suffix|..] == suffix
  }

  /** One differing character is enough. */
  lemma OtherStart(s: string, prefix: string, k: nat)
    requires k < |prefix| && (k < |s| ==> s[k] != prefix[k])
    ensures !StartsWith(s, prefix)
  {
    if |s| >= |prefix| { assert s[..|prefix|][k] == s[k]; }
  }

  /** Splits at every occurrence of `sep`; never empty, as in JavaScript. */
  function Split(s: string, sep: char): (parts: seq<string>)
    ensures |parts| >= 1
    ensures forall p | p in parts :: sep !in p
  {
    if s == [] then [[]]
    else
      var rest := Split(s[1..], sep);
      if s[0] == sep then [[]] + rest else [[s[0]] + rest[0]] + rest[1..]
  }

  function Join(parts: seq<string>, sep: char): string {
    if parts == [] then []
    else if |parts| == 1 then parts[0]
    else parts[0] + [sep] + Join(parts[1..], sep)
  }

  /** Every part preceded by `sep`: the spelling `/a/b` of a path. */
  function Lead(parts: seq<string>, sep: char): string {
    if parts == [] then [] else [sep] + parts[0] + Lead(parts[1..], sep)
  }

  lemma {:induction false} LeadIsJoin(parts: seq<string>, sep: char)
    ensures parts != [] ==> Lead(parts, sep) == [sep] + Join(parts, sep)
  {
    if |parts| > 1 { LeadIsJoin(parts[1..], sep); }
  }

  /** A run without `sep` in front of `rest` joins the first part of `rest`. */
  lemma {:induction false} SplitRun(run: string, rest: string, sep: char)
    requires sep !in run
    ensures Split(run + rest, sep) == [run + Split(rest, sep)[0]] + Split(rest, sep)[1..]
  {
    if run == [] {
      assert run + rest == rest;
      assert run + Split(rest, sep)[0] == Split(rest, sep)[0];
    } else {
      assert (run + rest)[1..] == run[1..] + rest;
      SplitRun(run[1..], rest, sep);
      assert [run[0]] + (run[1..] + Split(rest, sep)[0]) == run + Split(rest, sep)[0];
    }
  }

  /** Splitting undoes leading: only the empty part before the first `sep` is added. */
  lemma {:induction false} SplitLead(parts: seq<string>, sep: char)
    requires forall p | p in parts :: sep !in p
    ensures Split(Lead(parts, sep), sep) == [[]] + parts
  {
    if parts != [] {
      var rest := Lead(parts[1..], sep);
      SplitLead(parts[1..], sep);
      SplitRun(parts[0], rest, sep);
      assert Lead(parts, sep) == [sep] + (parts[0] + rest);
      assert Lead(parts, sep)[1..] == parts[0] + rest;
      assert parts[0] + [] == parts[0];
      assert parts == [parts[0]] + parts[1..];
    }
  }

  lemma SplitCons(run: string, tail: string, sep: char)
    requires sep !in run
    ensures Split(run + [sep] + tail, sep) == [run] + Split(tail, sep)
  {
    SplitRun(run, [sep] + tail, sep);
    assert run + ([sep] + tail) == run + [sep] + tail;
    assert ([sep] + tail)[1..] == tail;
    assert run + [] == run;
  }

  /** Joining undoes splitting. */
  lemma {:induction false} SplitJoin(parts: seq<string>, sep: char)
    requires parts != [] && forall k | 0 <= k < |parts| :: sep !in parts[k]
    ensures Split(Join(parts, sep), sep) == parts
  {
    if |parts| == 1 {
      SplitRun(parts[0], [], sep);
      assert parts[0] + [] == parts[0];
    } else {
      SplitJoin(parts[1..], sep);
      SplitCons(parts[0], Join(parts[1..], sep), sep);
    }
  }

  /** The longest prefix of `s` that does not hold `c`: the text before the first `c`. */
  function Before(s: string, c: char): (r: string)
    ensures r <= s && c !in r
    ensures |r| < |s| ==> s[|r|] == c
  {
    if s == [] || s[0] == c then [] else [s[0]] + Before(s[1..], c)
  }

  /** `value.replace(/c+$/, '')`. */
  function StripTrailing(s: string, c: char): (r: string)
    ensures r <= s
    ensures r == [] || r[|r| - 1] != c
    ensures forall k | |r| <= k < |s| :: s[k] == c
  {
    if s != [] && s[|s| - 1] == c then StripTrailing(s[..|s| - 1], c) else s
  }

  lemma OneMore<T>(s: seq<T>, i: nat)
    requires i < |s|
    ensures s[..i + 1] == s[..i] + [s[i]] && s[..i + 1][..i] == s[..i]
  {
  }

  function Filter<T>(s: seq<T>, keep: T -> bool): (r: seq<T>)
    ensures forall x | x in r :: keep(x)
  {
    if s == [] then []
    else if keep(s[0]) then [s[0]] + Filter(s[1..], keep)
    else Filter(s[1..], keep)
  }

  lemma {:induction false} FilterMembers<T>(s: seq<T>, keep: T -> bool, x: T)
    ensures x in Filter(s, keep) <==> x in s && keep(x)
  {
    if s != [] { FilterMembers(s[1..], keep, x); }
  }

  lemma {:induction false} FilterConcat<T>(a: seq<T>, b: seq<T>, keep: T -> bool)
    ensures Filter(a + b, keep) == Filter(a, keep) + Filter(b, keep)
  {
    if a == [] {
      assert a + b == b;
    } else {
      assert (a + b)[1..] == a[1..] + b;
      FilterConcat(a[1..], b, keep);
    }
  }

  lemma FilterSnoc<T>(s: seq<T>, i: nat, keep: T -> bool)
    requires i < |s|
    ensures Filter(s[..i + 1], keep) == Filter(s[..i], keep) + if keep(s[i]) then [s[i]] else []
  {
    assert s[..i + 1] == s[..i] + [s[i]];
    FilterConcat(s[..i], [s[i]], keep);
  }

  lemma {:induction false} FilterEmptyIff<T>(s: seq<T>, keep: T -> bool)
    ensures Filter(s, keep) == [] <==> forall k | 0 <= k < |s| :: !keep(s[k])
  {
    if s != [] {
      FilterEmptyIff(s[1..], keep);
      assert forall k | 0 < k < |s| :: s[k] == s[1..][k - 1];
      assert forall k | 0 <= k < |s| - 1 :: s[1..][k] == s[k + 1];
    }
  }

  predicate IsDigit(c: char) {
    '0' <= c <= '9'
  }

  /** `\w`. */
  predicate IsWordChar(c: char) {
    'a' <= c <= 'z' || 'A' <= c <= 'Z' || IsDigit(c) || c == '_'
  }

  predicate IsQuote(c: char) {
    c == '\'' || c == '"' || c == '`'
  }

  predicate OpensInterpolation(text: string, i: nat) {
    i + 1 < |text| && text[i] == '$' && text[i + 1] == '{'
  }

  predicate NoRepeats<T(==)>(s: seq<T>) {
    forall i, j | 0 <= i < j < |s| :: s[i] != s[j]
  }

  function Digit(d: nat): char
    requires d < 10
  {
    '0' + d as char
  }

  /** The decimal spelling of `n`. */
  function Digits(n: nat): (s: string)
    ensures s != [] && forall c | c in s :: IsDigit(c)
  {
    if n < 10 then [Digit(n)] else Digits(n / 10) + [Digit(n % 10)]
  }

  /** The number a run of digits spells. */
  function Number(s: string): nat
    requires forall c | c in s :: IsDigit(c)
  {
    if s == [] then 0
    else
      var last := s[|s| - 1];
      assert last in s && IsDigit(last);
      10 * Number(s[..|s| - 1]) + (last as int - '0' as int)
  }

  lemma {:induction false} NumberOfDigits(n: nat)
    ensures Number(Digits(n)) == n
  {
    if n >= 10 {
      NumberOfDigits(n / 10);
      assert Digits(n)[..|Digits(n)| - 1] == Digits(n / 10);
    } else {
      assert Digits(n)[..0] == [];
    }
  }

  function Blank(n: nat): (s: string)
    ensures |s| == n && forall k | 0 <= k < n :: s[k] == ' '
  {
    seq(n, k => ' ')
  }

  /** White space as JavaScript's `\s` and `trim` have it. */
  predicate IsSpace(c: char) {
    || '\U{0009}' <= c <= '\U{000D}'
    || c in {' ', '\U{00A0}', '\U{1680}', '\U{2028}', '\U{2029}', '\U{202F}', '\U{205F}', '\U{3000}', '\U{FEFF}'}
    || '\U{2000}' <= c <= '\U{200A}'
  }

  function TrimStart(s: string): string {
    if s != [] && IsSpace(s[0]) then TrimStart(s[1..]) else s
  }

  function TrimEnd(s: string): string {
    if s != [] && IsSpace(s[|s| - 1]) then TrimEnd(s[..|s| - 1]) else s
  }

  function Trim(s: string): string {
    TrimEnd(TrimStart(s))
  }

  predicate AllSpace(s: string) {
    forall k | 0 <= k < |s| :: IsSpace(s[k])
  }

  predicate IsTrimmed(s: string) {
    s == [] || (!IsSpace(s[0]) && !IsSpace(s[|s| - 1]))
  }

  lemma {:induction false} TrimStartDrops(s: string) returns (lead: string)
    ensures s == lead + TrimStart(s) && AllSpace(lead)
    ensures TrimStart(s) == [] || !IsSpace(TrimStart(s)[0])
  {
    lead := [];
    if s != [] && IsSpace(s[0]) {
      var more := TrimStartDrops(s[1..]);
      lead := [s[0]] + more;
    }
  }

  lemma {:induction false} TrimEndDrops(s: string) returns (tail: string)
    ensures s == TrimEnd(s) + tail && AllSpace(tail)
    ensures TrimEnd(s) == [] || !IsSpace(TrimEnd(s)[|TrimEnd(s)| - 1])
  {
    tail := [];
    if s != [] && IsSpace(s[|s| - 1]) {
      var more := TrimEndDrops(s[..|s| - 1]);
      tail := more + [s[|s| - 1]];
    }
  }

  /** Trimming takes white space off both ends and nothing else. */
  lemma TrimDrops(s: string) returns (lead: string, tail: string)
    ensures s == lead + Trim(s) + tail && AllSpace(lead) && AllSpace(tail) && IsTrimmed(Trim(s))
  {
    lead := TrimStartDrops(s);
    tail := TrimEndDrops(TrimStart(s));
    assert Trim(s) == [] || Trim(s)[0] == TrimStart(s)[0];
  }

  /** A text is trimmed to nothing exactly when it is white space throughout. */
  lemma TrimEmptyIff(s: string)
    ensures Trim(s) == [] <==> AllSpace(s)
  {
    var lead, tail := TrimDrops(s);
    if Trim(s) != [] { assert s[|lead|] == Trim(s)[0]; }
  }

  // ------------------------------------------------------------ lists written with commas

  function Trimmed(parts: seq<string>): (r: seq<string>)
    ensures |r| == |parts| && forall k | 0 <= k < |parts| :: r[k] == Trim(parts[k])
  {
    seq(|parts|, k requires 0 <= k < |parts| => Trim(parts[k]))
  }

  predicate IsPresent(item: string) {
    item != []
  }

  /** `text.split(',')`, every item trimmed and the empty ones dropped. */
  function ListItems(text: string): seq<string> {
    Filter(Trimmed(Split(text, ',')), IsPresent)
  }

  /** An item that can be read back from a list. */
  predicate IsItem(item: string) {
    item != [] && ',' !in item && !IsSpace(item[0]) && !IsSpace(item[|item| - 1])
  }

  lemma {:induction false} FilterKeepsAll(list: seq<string>, keep: string -> bool)
    requires forall k | 0 <= k < |list| :: keep(list[k])
    ensures Filter(list, keep) == list
  {
    if list != [] { FilterKeepsAll(list[1..], keep); }
  }

  lemma TrimItem(item: string)
    requires IsItem(item)
    ensures Trim(item) == item
  {
  }

  /** Reading back a joined list gives its items; the empty text gives none. */
  lemma ItemsOfJoined(list: seq<string>)
    requires forall k | 0 <= k < |list| :: IsItem(list[k])
    ensures ListItems(Join(list, ',')) == list
  {
    if list == [] {
      var parts: seq<string> := [[]];
      assert Split([], ',') == parts;
      assert Trimmed(parts) == parts;
      assert Filter(parts, IsPresent) == Filter(parts[1..], IsPresent);
    } else {
      SplitJoin(list, ',');
      forall k | 0 <= k < |list|
        ensures Trimmed(list)[k] == list[k]
      {
        TrimItem(list[k]);
      }
      assert Trimmed(list) == list;
      FilterKeepsAll(list, IsPresent);
    }
  }
}
