/**
 Which targets the link gate looks at: written paths by their words, and what is left to
 others.
 */
module LinkScope {
  import opened Text
  import opened RouteMatcher
  import opened ShapeMatcher
  import opened ExpansionMeaning
  import opened LinkEndToEnd

  predicate IsLetter(c: char) {
    'A' <= c <= 'Z' || 'a' <= c <= 'z' || c == '_'
  }

  predicate IsPathLetter(c: char) {
    IsLetter(c) || '0' <= c <= '9' || c == '-' || c == '.' || c == '~'
  }

  predicate IsPathWord(word: string) {
    word != [] && forall k | 0 <= k < |word| :: IsPathLetter(word[k])
  }

  predicate ArePathWords(words: seq<string>) {
    words != [] && forall k | 0 <= k < |words| :: IsPathWord(words[k])
  }

  /** The first word is a name, not one of the framework's, the API is elsewhere, and the last is no file. */
  predicate IsRoutePath(words: seq<string>)
    requires ArePathWords(words)
  {
    && IsLetter(words[0][0]) && !StartsWith(words[0], "_next")
    && !(|words| > 1 && words[0] == "api" && words[1] == "v1")
    && '.' !in words[|words| - 1]
  }

  lemma PathChars(c: char)
    ensures IsPathChar(c) <==> IsPathLetter(c) || c == '/'
  {
  }

  lemma {:induction false} LeadChars(words: seq<string>)
    requires forall k | 0 <= k < |words| :: IsPathWord(words[k])
    ensures forall k | 0 <= k < |Lead(words, '/')| :: IsPathChar(Lead(words, '/')[k])
  {
    if words != [] {
      LeadChars(words[1..]);
      assert IsPathWord(words[0]);
      forall c { PathChars(c); }
    }
  }

  lemma DropsEmpty(words: seq<string>, keep: string -> bool)
    requires (forall s :: keep(s) <==> |s| > 0) && forall k | 0 <= k < |words| :: words[k] != []
    ensures Filter([[]] + words, keep) == words
  {
    FilterKeepsAll(words, keep);
    assert ([[]] + words)[1..] == words;
  }

  lemma LeadSegments(words: seq<string>)
    requires forall k | 0 <= k < |words| :: IsPathWord(words[k])
    ensures SegmentsOf(Lead(words, '/')) == words
  {
    forall k | 0 <= k < |words|
      ensures '/' !in words[k] && words[k] != []
    {
      assert IsPathWord(words[k]);
    }
    hide Filter, Split, Lead, IsPathWord;
    SplitLead(words, '/');
    DropsEmpty(words, (s: string) => |s| > 0);
  }

  lemma NoSuchMark(value: string, part: string)
    requires (forall k | 0 <= k < |value| :: IsPathChar(value[k])) && part != [] && !IsPathChar(part[0])
    ensures !Contains(value, part)
  {
    forall k | 0 <= k <= |value|
      ensures !(part <= value[k..])
    {
      if k < |value| { OtherStart(value[k..], part, 0); }
    }
  }

  lemma NoDollar(value: string)
    requires forall k | 0 <= k < |value| :: IsPathChar(value[k])
    ensures !Contains(value, "://") && !Contains(value, "${")
  {
    NoSuchMark(value, "://");
    NoSuchMark(value, "${");
  }

  lemma FirstWord(words: seq<string>) returns (rest: string)
    requires ArePathWords(words)
    ensures Lead(words, '/') == "/" + words[0] + rest && (rest == [] || rest[0] == '/')
    ensures |words| > 1 ==> exists more :: rest == "/" + words[1] + more && (more == [] || more[0] == '/')
  {
    rest := Lead(words[1..], '/');
    if |words| > 1 {
      var more := Lead(words[2..], '/');
      assert words[1..][0] == words[1] && words[1..][1..] == words[2..];
      assert rest == "/" + words[1] + more;
    }
  }

  /** A prefix of the first word is a prefix of the path. */
  lemma PrefixOfPath(word: string, rest: string, prefix: string)
    requires (rest == [] || rest[0] == '/') && '/' !in prefix
    ensures StartsWith("/" + word + rest, "/" + prefix) <==> StartsWith(word, prefix)
  {
    var value := "/" + word + rest;
    if |prefix| <= |word| {
      assert value[..1 + |prefix|] == "/" + word[..|prefix|];
      assert prefix == ("/" + prefix)[1..];
    } else if rest != [] {
      assert value[1 + |word|] == '/' && prefix[|word|] in prefix;
      OtherStart(value, "/" + prefix, 1 + |word|);
    }
  }

  lemma {:induction false} LeadConcat(a: seq<string>, b: seq<string>)
    ensures Lead(a + b, '/') == Lead(a, '/') + Lead(b, '/')
  {
    if a == [] {
      assert a + b == b;
    } else {
      assert (a + b)[1..] == a[1..] + b;
      LeadConcat(a[1..], b);
      assert ['/'] + a[0] + (Lead(a[1..], '/') + Lead(b, '/')) == ['/'] + a[0] + Lead(a[1..], '/') + Lead(b, '/');
    }
  }

  lemma ApiText()
    ensures Lead(["api", "v1"], '/') == "/api/v1"
  {
    assert ["api", "v1"][1..] == ["v1"] && ["v1"][1..] == [];
  }

  lemma ApiSegments(rest: string)
    ensures |SegmentsOf("/api/v1/" + rest)| > 1
    ensures SegmentsOf("/api/v1/" + rest)[0] == "api" && SegmentsOf("/api/v1/" + rest)[1] == "v1"
  {
    var keep := (s: string) => |s| > 0;
    var tail := Split(rest, '/');
    assert "/api/v1/" + rest == [] + ['/'] + ("api" + ['/'] + ("v1" + ['/'] + rest));
    SplitCons("v1", rest, '/');
    SplitCons("api", "v1" + ['/'] + rest, '/');
    SplitCons([], "api" + ['/'] + ("v1" + ['/'] + rest), '/');
    var parts: seq<string> := [[], "api", "v1"];
    assert Split("/api/v1/" + rest, '/') == parts + tail;
    FilterConcat(parts, tail, keep);
    assert parts[1..] == ["api", "v1"] && parts[1..][1..] == ["v1"] && parts[1..][1..][1..] == [];
    assert Filter(parts, keep) == ["api", "v1"];
  }

  /** The API's namespace, by its first two words. */
  lemma ApiIff(words: seq<string>)
    requires ArePathWords(words)
    ensures StartsWith(Lead(words, '/'), "/api/v1/") || Lead(words, '/') == "/api/v1"
       <==> |words| > 1 && words[0] == "api" && words[1] == "v1"
  {
    var value := Lead(words, '/');
    LeadSegments(words);
    hide *;
    if |words| > 1 && words[0] == "api" && words[1] == "v1" {
      ApiFirst(words);
    } else if StartsWith(value, "/api/v1/") {
      var rest := BehindApi(value);
      ApiSegments(rest);
    } else if value == "/api/v1" {
      ApiWords();
    }
  }

  lemma BehindApi(value: string) returns (rest: string)
    requires StartsWith(value, "/api/v1/")
    ensures value == "/api/v1/" + rest
  {
    rest := value[8..];
  }

  lemma ApiFirst(words: seq<string>)
    requires |words| > 1 && words[0] == "api" && words[1] == "v1"
    ensures StartsWith(Lead(words, '/'), "/api/v1/") || Lead(words, '/') == "/api/v1"
  {
    var more := Lead(words[2..], '/');
    ApiText();
    assert words == ["api", "v1"] + words[2..];
    LeadConcat(["api", "v1"], words[2..]);
    if |words| == 2 {
      assert "/api/v1" + more == "/api/v1";
    } else {
      assert more[0] == '/' && ("/api/v1" + more)[..8] == "/api/v1/";
    }
  }

  lemma ApiWords()
    ensures SegmentsOf("/api/v1") == ["api", "v1"]
  {
    var words := ["api", "v1"];
    assert IsPathWord("api") && IsPathWord("v1");
    ApiText();
    LeadSegments(words);
  }

  /** A written path is in scope exactly by its words. */
  lemma PathInScopeIff(words: seq<string>)
    requires ArePathWords(words)
    ensures IsInternalRouteTarget(Lead(words, '/')) <==> IsRoutePath(words)
  {
    var value := Lead(words, '/');
    var rest := FirstWord(words);
    LeadChars(words);
    LeadSegments(words);
    NoDollar(value);
    ApiIff(words);
    assert IsPathWord(words[0]);
    assert value[0] == '/' && value[1] == words[0][0] && StartsWith(value, "/");
    OtherStart(value, "//", 1);
    PrefixOfPath(words[0], rest, "_next");
    assert "/_next" == "/" + "_next";
    assert forall c | c in value :: exists k :: 0 <= k < |value| && value[k] == c;
    hide Contains, SegmentsOf, Lead, IsPathChar;
  }

  /** Whatever holds another character, does not begin with a slash or begins with two is out of scope. */
  lemma OutOfScope(value: string, k: nat)
    requires k < |value|
    ensures !IsPathLetter(value[k]) && value[k] != '/' ==> !IsInternalRouteTarget(value)
    ensures value[0] != '/' ==> !IsInternalRouteTarget(value)
    ensures |value| > 1 && value[0] == value[1] == '/' ==> !IsInternalRouteTarget(value)
    ensures value == "/" ==> !IsInternalRouteTarget(value)
  {
    PathChars(value[k]);
    assert value[k] in value;
    if value[0] != '/' { OtherStart(value, "/", 0); }
    if |value| > 1 && value[0] == value[1] == '/' { assert value[..2] == "//"; }
  }

  // ------------------------------------------------------------ shapes

  /** A placeholder word in every unknown place. */
  function Probed(parts: seq<string>): (words: seq<string>)
    ensures |words| == |parts| && forall k | 0 <= k < |parts| :: words[k] == if parts[k] == "*" then "x" else parts[k]
  {
    seq(|parts|, k requires 0 <= k < |parts| => if parts[k] == "*" then "x" else parts[k])
  }

  predicate AreShapeWords(parts: seq<string>) {
    parts != [] && forall k | 0 <= k < |parts| :: parts[k] == "*" || IsPathWord(parts[k])
  }

  /** A shape is in scope exactly when its words are, a placeholder standing for each star. */
  lemma ShapeInScopeIff(parts: seq<string>)
    requires AreShapeWords(parts)
    ensures ArePathWords(Probed(parts))
    ensures IsShapeInScope(Lead(parts, '/')) <==> IsRoutePath(Probed(parts))
  {
    var words := Probed(parts);
    assert IsPathWord("x");
    forall k | 0 <= k < |words|
      ensures IsPathWord(words[k]) && '/' !in parts[k]
    {
      assert parts[k] == "*" || IsPathWord(parts[k]);
    }
    hide Split, Lead, Join, IsPathWord, IsInternalRouteTarget, IsRoutePath;
    SplitLead(parts, '/');
    JoinLead(words, '/');
    var split := Split(Lead(parts, '/'), '/');
    ProbedJoin(split, parts);
    PathInScopeIff(words);
  }

  lemma ProbedJoin(split: seq<string>, parts: seq<string>)
    requires split == [[]] + parts
    ensures seq(|split|, i requires 0 <= i < |split| => if split[i] == WILDCARD then "x" else split[i])
         == [[]] + Probed(parts)
  {
  }
}
