/**
 Two rules of the compose check: a port entry is split only at colons outside an
 interpolation, and no selection of profiles may enable a service without what it
 depends on.
 */
module ComposeProfiles {
  import opened Text

  // ------------------------------------------------------------ port entries

  /** Nesting depth after the character at `i`, which must not open an interpolation. */
  function DepthAfter(c: char, depth: nat): nat {
    if c == '}' && depth > 0 then depth - 1 else depth
  }

  /** The parts of the text from `i` on, `current` standing before it. */
  function PartsFrom(text: string, i: nat, depth: nat, current: string): (parts: seq<string>)
    requires i <= |text|
    ensures parts != []
    decreases |text| - i
  {
    if i == |text| then [current]
    else if OpensInterpolation(text, i) then PartsFrom(text, i + 2, depth + 1, current + "${")
    else if text[i] == ':' && depth == 0 then [current] + PartsFrom(text, i + 1, 0, [])
    else PartsFrom(text, i + 1, DepthAfter(text[i], depth), current + [text[i]])
  }

  /** A host spec of `None` publishes an ephemeral port. */
  datatype Port = Port(bind: Option<string>, host: Option<string>, container: string)

  function PortOf(parts: seq<string>): Port
    requires parts != []
  {
    if |parts| >= 3 then Port(Some(parts[0]), Some(parts[1]), Join(parts[2..], ':'))
    else if |parts| == 2 then Port(None, Some(parts[0]), parts[1])
    else Port(None, None, parts[0])
  }

  method SplitPortEntry(text: string) returns (port: Port)
    ensures port == PortOf(PartsFrom(text, 0, 0, []))
  {
    var parts: seq<string>, depth: nat, current: string := [], 0, [];
    var i := 0;
    while i < |text|
      invariant i <= |text| && parts + PartsFrom(text, i, depth, current) == PartsFrom(text, 0, 0, [])
    {
      var ch := text[i];
      if OpensInterpolation(text, i) {
        depth := depth + 1;
        current := current + "${";
        i := i + 2;
        continue;
      }
      if ch == '}' && depth > 0 {
        depth := depth - 1;
        current := current + [ch];
        i := i + 1;
        continue;
      }
      if ch == ':' && depth == 0 {
        parts := parts + [current];
        current := [];
        i := i + 1;
        continue;
      }
      current := current + [ch];
      i := i + 1;
    }
    parts := parts + [current];
    port := PortOf(parts);
  }

  /** A port written back. */
  function Spelled(port: Port): string {
    (if port.bind.Some? then port.bind.value + ":" else "") +
    (if port.host.Some? then port.host.value + ":" else "") + port.container
  }

  lemma {:induction false} PartsJoin(text: string, i: nat, depth: nat, current: string)
    requires i <= |text|
    ensures Join(PartsFrom(text, i, depth, current), ':') == current + text[i..]
    decreases |text| - i
  {
    if i < |text| {
      if OpensInterpolation(text, i) {
        PartsJoin(text, i + 2, depth + 1, current + "${");
        assert text[i..] == "${" + text[i + 2..];
      } else if text[i] == ':' && depth == 0 {
        PartsJoin(text, i + 1, 0, []);
        assert text[i..] == ":" + text[i + 1..];
        var rest := PartsFrom(text, i + 1, 0, []);
        assert ([current] + rest)[1..] == rest;
      } else {
        PartsJoin(text, i + 1, DepthAfter(text[i], depth), current + [text[i]]);
        assert text[i..] == [text[i]] + text[i + 1..];
      }
    }
  }

  /** Splitting loses nothing: the three parts spell the entry. */
  lemma PortSpellsEntry(text: string)
    ensures Spelled(PortOf(PartsFrom(text, 0, 0, []))) == text
  {
    var parts := PartsFrom(text, 0, 0, []);
    PartsJoin(text, 0, 0, []);
    assert text[0..] == text;
    if |parts| >= 3 {
      var rest := parts[1..];
      assert rest[0] == parts[1] && rest[1..] == parts[2..] && |rest| > 1;
      assert Join(rest, ':') == parts[1] + [':'] + Join(parts[2..], ':');
      assert Join(parts, ':') == parts[0] + [':'] + Join(rest, ':');
      var host, tail := parts[1] + [':'], Join(parts[2..], ':');
      var bind := parts[0] + [':'];
      assert bind + (host + tail) == bind + host + tail;
      assert Spelled(PortOf(parts)) == bind + host + tail;
    } else if |parts| == 2 {
      assert Join(parts[1..], ':') == parts[1];
      assert Join(parts, ':') == parts[0] + [':'] + parts[1];
      assert Spelled(PortOf(parts)) == [] + (parts[0] + [':']) + parts[1];
      assert [] + (parts[0] + [':']) == parts[0] + [':'];
    }
  }

  /** No colon of the text stands outside an interpolation. */
  predicate Whole(text: string, i: nat, depth: nat)
    requires i <= |text|
    decreases |text| - i
  {
    if i == |text| then true
    else if OpensInterpolation(text, i) then Whole(text, i + 2, depth + 1)
    else !(text[i] == ':' && depth == 0) && Whole(text, i + 1, DepthAfter(text[i], depth))
  }

  /** An entry is one part, itself, exactly when all its colons stand inside interpolations. */
  lemma {:induction false} PartsOfWhole(text: string, i: nat, depth: nat, current: string)
    requires i <= |text|
    ensures |PartsFrom(text, i, depth, current)| == 1 <==> Whole(text, i, depth)
    ensures Whole(text, i, depth) ==> PartsFrom(text, i, depth, current) == [current + text[i..]]
    decreases |text| - i
  {
    if i == |text| {
      assert current + text[i..] == current;
    } else if OpensInterpolation(text, i) {
      PartsOfWhole(text, i + 2, depth + 1, current + "${");
      assert current + text[i..] == (current + "${") + text[i + 2..];
    } else if text[i] == ':' && depth == 0 {
      assert |PartsFrom(text, i, depth, current)| > 1;
    } else {
      PartsOfWhole(text, i + 1, DepthAfter(text[i], depth), current + [text[i]]);
      assert current + text[i..] == (current + [text[i]]) + text[i + 1..];
    }
  }

  /** The depth the text leaves behind, from `i` on. */
  function DepthBehind(text: string, i: nat, depth: nat): nat
    requires i <= |text|
    decreases |text| - i
  {
    if i == |text| then depth
    else if OpensInterpolation(text, i) then DepthBehind(text, i + 2, depth + 1)
    else DepthBehind(text, i + 1, DepthAfter(text[i], depth))
  }

  /** One part: its colons stand inside interpolations, and its interpolations are closed. */
  predicate IsPart(text: string) {
    Whole(text, 0, 0) && DepthBehind(text, 0, 0) == 0
  }

  lemma {:induction false} CutBehind(part: string, rest: string, i: nat, depth: nat, current: string)
    requires i <= |part| && Whole(part, i, depth) && DepthBehind(part, i, depth) == 0
    ensures PartsFrom(part + ([':'] + rest), i, depth, current)
         == [current + part[i..]] + PartsFrom(part + ([':'] + rest), |part| + 1, 0, [])
    decreases |part| - i
  {
    var text := part + ([':'] + rest);
    if i == |part| {
      assert text[i] == ':' && current + part[i..] == current;
    } else {
      assert text[i] == part[i];
      assert i + 1 == |part| ==> text[i + 1] == ':';
      assert i + 1 < |part| ==> text[i + 1] == part[i + 1];
      assert OpensInterpolation(text, i) <==> OpensInterpolation(part, i);
      if OpensInterpolation(part, i) {
        CutBehind(part, rest, i + 2, depth + 1, current + "${");
        assert current + part[i..] == (current + "${") + part[i + 2..];
      } else {
        CutBehind(part, rest, i + 1, DepthAfter(part[i], depth), current + [part[i]]);
        assert current + part[i..] == (current + [part[i]]) + part[i + 1..];
      }
    }
  }

  lemma {:induction false} PartsShift(front: string, rest: string, i: nat, depth: nat, current: string)
    requires i <= |rest|
    ensures PartsFrom(front + rest, |front| + i, depth, current) == PartsFrom(rest, i, depth, current)
    decreases |rest| - i
  {
    if i < |rest| {
      var text := front + rest;
      assert text[|front| + i] == rest[i];
      assert i + 1 < |rest| ==> text[|front| + i + 1] == rest[i + 1];
      if OpensInterpolation(rest, i) {
        PartsShift(front, rest, i + 2, depth + 1, current + "${");
      } else if rest[i] == ':' && depth == 0 {
        PartsShift(front, rest, i + 1, 0, []);
      } else {
        PartsShift(front, rest, i + 1, DepthAfter(rest[i], depth), current + [rest[i]]);
      }
    }
  }

  /** Parts written with colons between them are read back as those parts. */
  lemma {:induction false} PartsOfJoined(parts: seq<string>)
    requires parts != [] && Whole(parts[|parts| - 1], 0, 0)
    requires forall k | 0 <= k < |parts| - 1 :: IsPart(parts[k])
    ensures PartsFrom(Join(parts, ':'), 0, 0, []) == parts
  {
    var part, more := parts[0], parts[1..];
    if |parts| == 1 {
      PartsOfWhole(part, 0, 0, []);
      assert [] + part[0..] == part;
    } else {
      var rest := Join(more, ':');
      PartsOfJoined(more);
      assert IsPart(part) && Join(parts, ':') == part + [':'] + rest;
      CutBehind(part, rest, 0, 0, []);
      assert part + [':'] + rest == part + ([':'] + rest) && [] + part[0..] == part;
      PartsShift(part + [':'], rest, 0, 0, []);
      assert parts == [part] + more;
    }
  }

  /** Text without colons, braces and dollars is a part. */
  lemma {:induction false} PlainIsPart(text: string, i: nat)
    requires i <= |text| && forall k | 0 <= k < |text| :: text[k] != ':' && text[k] != '$'
    ensures Whole(text, i, 0) && DepthBehind(text, i, 0) == 0
    decreases |text| - i
  {
    if i < |text| { PlainIsPart(text, i + 1); }
  }

  lemma {:induction false} InsideInterpolation(text: string, i: nat)
    requires 2 <= i < |text| && text[|text| - 1] == '}'
    requires forall k | 2 <= k < |text| - 1 :: text[k] != '}' && text[k] != '$'
    ensures Whole(text, i, 1) && DepthBehind(text, i, 1) == 0
    decreases |text| - i
  {
    if i < |text| - 1 { InsideInterpolation(text, i + 1); }
  }

  /** An interpolation is a part, whatever colons stand in it: `${PORT:-3000}`. */
  lemma InterpolationIsPart(body: string)
    requires forall k | 0 <= k < |body| :: body[k] != '}' && body[k] != '$'
    ensures IsPart("${" + body + "}")
  {
    var text := "${" + body + "}";
    assert forall k | 2 <= k < |text| - 1 :: text[k] == body[k - 2];
    InsideInterpolation(text, 2);
  }

  /** What the parts are: a container port, a host port before it, an address before that. */
  lemma PortReadBack(bind: string, host: string, container: string)
    requires IsPart(bind) && IsPart(host) && Whole(container, 0, 0)
    ensures PortOf(PartsFrom(container, 0, 0, [])) == Port(None, None, container)
    ensures PortOf(PartsFrom(host + ":" + container, 0, 0, [])) == Port(None, Some(host), container)
    ensures PortOf(PartsFrom(bind + ":" + host + ":" + container, 0, 0, []))
         == Port(Some(bind), Some(host), container)
  {
    var one, two, three := [container], [host, container], [bind, host, container];
    assert two[1..] == one && three[1..] == two;
    assert Join(two, ':') == host + ":" + container;
    assert Join(three, ':') == bind + ":" + (host + ":" + container) == bind + ":" + host + ":" + container;
    PartsOfJoined(one);
    PartsOfJoined(two);
    PartsOfJoined(three);
    assert three[2..] == one;
  }

  // ------------------------------------------------------------ profile reachability

  datatype Service = Service(profiles: seq<string>, dependsOn: seq<string>)

  /** The services in file order; a service written as `null` has neither profiles nor dependencies. */
  datatype Compose = Compose(names: seq<string>, services: map<string, Option<Service>>) {
    predicate Valid() {
      (forall n | n in names :: n in services) && (forall n | n in services :: n in names)
    }

    function ProfilesOf(name: string): seq<string> {
      if name in services && services[name].Some? then services[name].value.profiles else []
    }

    function TargetsOf(name: string): seq<string> {
      if name in services && services[name].Some? then services[name].value.dependsOn else []
    }

    predicate IsDefined(name: string) {
      name in services && services[name].Some?
    }
  }

  datatype Problem = Undefined(name: string, target: string)
                   | NeverAlways(name: string, target: string)
                   | NotAlone(name: string, target: string, profile: string)

  /** The profiles of `own` that do not enable the target. */
  function Unreachable(own: seq<string>, target: seq<string>): seq<string> {
    Filter(own, (p: string) => p !in target)
  }

  function ProblemsOf(c: Compose, name: string, target: string): seq<Problem> {
    var own, theirs := c.ProfilesOf(name), c.ProfilesOf(target);
    if !c.IsDefined(target) then [Undefined(name, target)]
    else if theirs == [] then []
    else if own == [] then [NeverAlways(name, target)]
    else if Unreachable(own, theirs) != [] then [NotAlone(name, target, Unreachable(own, theirs)[0])]
    else []
  }

  function ProblemsAmong(c: Compose, name: string, targets: seq<string>): seq<Problem> {
    if targets == [] then []
    else ProblemsAmong(c, name, targets[..|targets| - 1]) + ProblemsOf(c, name, targets[|targets| - 1])
  }

  function Problems(c: Compose, names: seq<string>): seq<Problem> {
    if names == [] then []
    else
      var last := names[|names| - 1];
      Problems(c, names[..|names| - 1]) + ProblemsAmong(c, last, c.TargetsOf(last))
  }

  lemma ProblemsSnoc(c: Compose, names: seq<string>, i: nat)
    requires i < |names|
    ensures Problems(c, names[..i + 1]) == Problems(c, names[..i]) + ProblemsAmong(c, names[i], c.TargetsOf(names[i]))
  {
    hide ProblemsAmong;
    assert names[..i + 1][..i] == names[..i];
  }

  lemma ProblemsAmongSnoc(c: Compose, name: string, targets: seq<string>, i: nat)
    requires i < |targets|
    ensures ProblemsAmong(c, name, targets[..i + 1])
         == ProblemsAmong(c, name, targets[..i]) + ProblemsOf(c, name, targets[i])
  {
    hide ProblemsOf;
    assert targets[..i + 1][..i] == targets[..i];
  }

  method CheckProfiles(c: Compose) returns (problems: seq<Problem>)
    ensures problems == Problems(c, c.names)
  {
    hide ProblemsAmong;
    problems := [];
    for i := 0 to |c.names|
      invariant problems == Problems(c, c.names[..i])
    {
      ProblemsSnoc(c, c.names, i);
      var found := CheckTargets(c, c.names[i]);
      problems := problems + found;
    }
    assert c.names[..|c.names|] == c.names;
  }

  method CheckTargets(c: Compose, name: string) returns (problems: seq<Problem>)
    ensures problems == ProblemsAmong(c, name, c.TargetsOf(name))
  {
    problems := [];
    var targets, own := c.TargetsOf(name), c.ProfilesOf(name);
    for i := 0 to |targets|
      invariant problems == ProblemsAmong(c, name, targets[..i])
    {
      ProblemsAmongSnoc(c, name, targets, i);
      var target := targets[i];
      if !c.IsDefined(target) {
        problems := problems + [Undefined(name, target)];
        continue;
      }
      var theirs := c.ProfilesOf(target);
      if theirs == [] {
        continue;
      }
      if own == [] {
        problems := problems + [NeverAlways(name, target)];
        continue;
      }
      var unreachable := Unreachable(own, theirs);
      if unreachable != [] {
        problems := problems + [NotAlone(name, target, unreachable[0])];
      }
    }
    assert targets[..|targets|] == targets;
  }

  /** Which problem a dependency has: it is no service, it never runs always, or not with one of the profiles. */
  lemma ProblemKinds(c: Compose, name: string, target: string, profile: string)
    ensures Undefined(name, target) in ProblemsOf(c, name, target)
       <==> target !in c.services || c.services[target].None?
    ensures NeverAlways(name, target) in ProblemsOf(c, name, target)
       <==> c.IsDefined(target) && c.services[target].value.profiles != [] && c.ProfilesOf(name) == []
    ensures NotAlone(name, target, profile) in ProblemsOf(c, name, target) ==>
              c.IsDefined(target) && profile in c.ProfilesOf(name) && profile !in c.services[target].value.profiles
    ensures c.IsDefined(target) && profile in c.ProfilesOf(name) && c.services[target].value.profiles != []
            && profile !in c.services[target].value.profiles ==>
              exists p :: ProblemsOf(c, name, target) == [NotAlone(name, target, p)]
    ensures |ProblemsOf(c, name, target)| <= 1
  {
    var own, theirs := c.ProfilesOf(name), c.ProfilesOf(target);
    var away := (p: string) => p !in theirs;
    FilterMembers(own, away, profile);
    if Unreachable(own, theirs) != [] { FilterMembers(own, away, Unreachable(own, theirs)[0]); }
  }

  // ------------------------------------------------------------ what a clean check means

  /** The service runs when these profiles are selected. */
  predicate Enabled(c: Compose, name: string, selected: set<string>) {
    name in c.services && (c.ProfilesOf(name) == [] || exists p | p in c.ProfilesOf(name) :: p in selected)
  }

  /** A chain of dependencies, each on a service of the file. */
  predicate Chain(c: Compose, path: seq<string>) {
    path != [] && path[0] in c.services && forall k | 0 <= k < |path| - 1 :: path[k + 1] in c.TargetsOf(path[k])
  }

  /** Whatever is selected, all that an enabled service needs, at any distance, is defined and enabled. */
  ghost predicate ProjectIsValid(c: Compose) {
    forall selected: set<string>, path: seq<string> |
      Chain(c, path) && |path| > 1 && Enabled(c, path[0], selected) ::
      c.IsDefined(path[|path| - 1]) && Enabled(c, path[|path| - 1], selected)
  }

  lemma {:induction false} AmongEmptyIff(c: Compose, name: string, targets: seq<string>)
    ensures ProblemsAmong(c, name, targets) == [] <==>
              forall k | 0 <= k < |targets| :: ProblemsOf(c, name, targets[k]) == []
  {
    hide ProblemsOf;
    if targets != [] {
      var n := |targets| - 1;
      AmongEmptyIff(c, name, targets[..n]);
      assert forall k | 0 <= k < n :: targets[..n][k] == targets[k];
    }
  }

  lemma {:induction false} ProblemsEmptyIff(c: Compose, names: seq<string>)
    ensures Problems(c, names) == [] <==>
              forall k, t | 0 <= k < |names| && t in c.TargetsOf(names[k]) :: ProblemsOf(c, names[k], t) == []
  {
    hide ProblemsOf, ProblemsAmong;
    if names != [] {
      var n := |names| - 1;
      var last, before := names[n], names[..n];
      ProblemsEmptyIff(c, before);
      AmongEmptyIff(c, last, c.TargetsOf(last));
      assert forall k | 0 <= k < n :: before[k] == names[k];
      if Problems(c, names) == [] {
        forall k, t | 0 <= k < |names| && t in c.TargetsOf(names[k])
          ensures ProblemsOf(c, names[k], t) == []
        {
          if k < n {
            assert before[k] == names[k];
          } else {
            var j :| 0 <= j < |c.TargetsOf(last)| && c.TargetsOf(last)[j] == t;
          }
        }
      } else if Problems(c, before) != [] {
        var k, t :| 0 <= k < n && t in c.TargetsOf(before[k]) && ProblemsOf(c, before[k], t) != [];
        assert before[k] == names[k];
      } else {
        var j :| 0 <= j < |c.TargetsOf(last)| && ProblemsOf(c, last, c.TargetsOf(last)[j]) != [];
        assert c.TargetsOf(last)[j] in c.TargetsOf(names[n]);
      }
    }
  }

  /**
   The rule for one dependency is exact: nothing is reported when every selection that starts the
   service starts its target.
   */
  lemma RuleIsExact(c: Compose, name: string, target: string)
    requires name in c.services
    ensures ProblemsOf(c, name, target) == []
       <==> c.IsDefined(target) && forall selected | Enabled(c, name, selected) :: Enabled(c, target, selected)
  {
    var own, theirs := c.ProfilesOf(name), c.ProfilesOf(target);
    if c.IsDefined(target) && theirs != [] {
      if own == [] {
        assert Enabled(c, name, {}) && !Enabled(c, target, {});
      } else {
        FilterEmptyIff(own, (p: string) => p !in theirs);
        if Unreachable(own, theirs) != [] {
          var p := Unreachable(own, theirs)[0];
          FilterMembers(own, (p: string) => p !in theirs, p);
          assert Enabled(c, name, {p}) && !Enabled(c, target, {p});
        } else {
          OwnWithinTheirs(c, name, target);
        }
      }
    }
  }

  lemma OwnWithinTheirs(c: Compose, name: string, target: string)
    requires name in c.services && c.IsDefined(target) && c.ProfilesOf(name) != []
    requires Unreachable(c.ProfilesOf(name), c.ProfilesOf(target)) == []
    ensures forall selected | Enabled(c, name, selected) :: Enabled(c, target, selected)
  {
    var own, theirs := c.ProfilesOf(name), c.ProfilesOf(target);
    FilterEmptyIff(own, (p: string) => p !in theirs);
    forall selected | Enabled(c, name, selected)
      ensures Enabled(c, target, selected)
    {
      var p :| p in own && p in selected;
      assert p in theirs;
    }
  }

  /** A service without problems carries every selection along the whole chain. */
  lemma {:induction false} ChainIsCarried(c: Compose, path: seq<string>, selected: set<string>)
    requires c.Valid() && Problems(c, c.names) == [] && Chain(c, path) && |path| > 1 && Enabled(c, path[0], selected)
    ensures c.IsDefined(path[|path| - 1]) && Enabled(c, path[|path| - 1], selected)
  {
    ProblemsEmptyIff(c, c.names);
    var k :| 0 <= k < |c.names| && c.names[k] == path[0];
    assert ProblemsOf(c, c.names[k], path[1]) == [];
    RuleIsExact(c, path[0], path[1]);
    if |path| > 2 {
      assert Chain(c, path[1..]);
      ChainIsCarried(c, path[1..], selected);
    }
  }

  /** Profile reachability: the check is clean exactly when every selection of profiles is a valid project. */
  lemma CleanIffValid(c: Compose)
    requires c.Valid()
    ensures Problems(c, c.names) == [] <==> ProjectIsValid(c)
  {
    if Problems(c, c.names) == [] {
      forall selected: set<string>, path: seq<string> | Chain(c, path) && |path| > 1 && Enabled(c, path[0], selected)
        ensures c.IsDefined(path[|path| - 1]) && Enabled(c, path[|path| - 1], selected)
      {
        ChainIsCarried(c, path, selected);
      }
    } else if ProjectIsValid(c) {
      ProblemsEmptyIff(c, c.names);
      var k, t :| 0 <= k < |c.names| && t in c.TargetsOf(c.names[k]) && ProblemsOf(c, c.names[k], t) != [];
      StepIsValid(c, c.names[k], t);
    }
  }

  /** Every service is started by some selection, so every dependency is put to the test. */
  lemma StepIsValid(c: Compose, name: string, target: string)
    requires ProjectIsValid(c) && name in c.services && target in c.TargetsOf(name)
    ensures ProblemsOf(c, name, target) == []
  {
    var path := [name, target];
    assert Chain(c, path);
    var own := c.ProfilesOf(name);
    var some := if own == [] then {} else {own[0]};
    assert Enabled(c, path[0], some);
    assert c.IsDefined(path[1]);
    forall selected | Enabled(c, name, selected)
      ensures Enabled(c, target, selected)
    {
      assert Enabled(c, path[0], selected);
      assert Enabled(c, path[|path| - 1], selected);
    }
    RuleIsExact(c, name, target);
  }
}
