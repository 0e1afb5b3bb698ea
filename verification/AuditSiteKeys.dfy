/**
 Keys of the audit-write sites: `file#symbol`, with an ordinal in source order where one
 symbol holds several writes.
 */
module AuditSiteKeys {
  import opened Text

  datatype Site = Site(file: string, symbol: string, line: int)

  datatype Keyed = Keyed(site: Site, key: string)

  function Prefix(site: Site): string {
    site.file + ['#'] + site.symbol
  }

  // ------------------------------------------------------------ the key of one site

  /** A stable sort by line: earlier line first, earlier site first on the same line. */
  predicate Precedes(sites: seq<Site>, i: nat, j: nat)
    requires i < |sites| && j < |sites|
  {
    sites[i].line < sites[j].line || (sites[i].line == sites[j].line && i < j)
  }

  function GroupOf(sites: seq<Site>, i: nat): (group: set<nat>)
    requires i < |sites|
    ensures i in group
  {
    set j: nat | j < |sites| && Prefix(sites[j]) == Prefix(sites[i])
  }

  function Earlier(sites: seq<Site>, i: nat): set<nat>
    requires i < |sites|
  {
    set j: nat | j < |sites| && Prefix(sites[j]) == Prefix(sites[i]) && Precedes(sites, j, i)
  }

  function Numbered(prefix: string, n: nat): string {
    prefix + ['#'] + Digits(n)
  }

  function KeyOf(sites: seq<Site>, i: nat): string
    requires i < |sites|
  {
    if |GroupOf(sites, i)| == 1 then Prefix(sites[i]) else Numbered(Prefix(sites[i]), |Earlier(sites, i)| + 1)
  }

  // ------------------------------------------------------------ grouping and sorting

  function Prefixes(sites: seq<Site>): (names: seq<string>)
    ensures |names| == |sites| && forall k | 0 <= k < |sites| :: names[k] == Prefix(sites[k])
  {
    seq(|sites|, k requires 0 <= k < |sites| => Prefix(sites[k]))
  }

  predicate InRange(group: seq<nat>, n: nat) {
    forall k | 0 <= k < |group| :: group[k] < n
  }

  predicate Ascending(group: seq<nat>) {
    forall a, b | 0 <= a < b < |group| :: group[a] < group[b]
  }

  /** The places before `n` that hold `p`, in order. */
  function Members<P(==)>(names: seq<P>, p: P, n: nat): seq<nat>
    requires n <= |names|
  {
    if n == 0 then [] else Members(names, p, n - 1) + if names[n - 1] == p then [n - 1] else []
  }

  lemma {:induction false} MembersAre<P>(names: seq<P>, p: P, n: nat)
    requires n <= |names|
    ensures InRange(Members(names, p, n), n) && Ascending(Members(names, p, n))
    ensures forall j: nat :: j in Members(names, p, n) <==> j < n && names[j] == p
  {
    if n > 0 { MembersAre(names, p, n - 1); }
  }

  predicate InOrder(sites: seq<Site>, group: seq<nat>)
    requires InRange(group, |sites|)
  {
    forall a, b | 0 <= a < b < |group| :: Precedes(sites, group[a], group[b])
  }

  function Inserted(sorted: seq<nat>, at: nat, next: nat): (r: seq<nat>)
    requires at <= |sorted|
    ensures |r| == |sorted| + 1 && r[at] == next
    ensures forall a | 0 <= a < at :: r[a] == sorted[a]
    ensures forall a | at < a < |r| :: r[a] == sorted[a - 1]
    ensures forall j :: j in r <==> j in sorted || j == next
  {
    assert sorted == sorted[..at] + sorted[at..];
    sorted[..at] + [next] + sorted[at..]
  }

  lemma InsertedInOrder(sites: seq<Site>, sorted: seq<nat>, at: nat, next: nat)
    requires next < |sites| && InRange(sorted, next) && InOrder(sites, sorted) && at <= |sorted|
    requires at > 0 ==> Precedes(sites, sorted[at - 1], next)
    requires at < |sorted| ==> Precedes(sites, next, sorted[at])
    ensures InRange(Inserted(sorted, at, next), next + 1) && InOrder(sites, Inserted(sorted, at, next))
  {
    var r := Inserted(sorted, at, next);
    forall a, b | 0 <= a < b < |r|
      ensures Precedes(sites, r[a], r[b])
    {
      if a < at - 1 && b == at { assert Precedes(sites, sorted[a], sorted[at - 1]); }
      if a == at && b > at + 1 { assert Precedes(sites, sorted[at], sorted[b - 1]); }
    }
  }

  /** Puts a later site behind every site of its line or an earlier one. */
  method InsertByLine(sites: seq<Site>, sorted: seq<nat>, next: nat) returns (r: seq<nat>)
    requires next < |sites| && InRange(sorted, next) && InOrder(sites, sorted)
    ensures InRange(r, next + 1) && InOrder(sites, r) && |r| == |sorted| + 1
    ensures forall j :: j in r <==> j in sorted || j == next
  {
    var at := |sorted|;
    while at > 0 && sites[sorted[at - 1]].line > sites[next].line
      invariant 0 <= at <= |sorted|
      invariant at < |sorted| ==> Precedes(sites, next, sorted[at])
    {
      at := at - 1;
    }
    InsertedInOrder(sites, sorted, at, next);
    r := Inserted(sorted, at, next);
  }

  /** Sorts one group by line, keeping source order on one line. */
  method SortByLine(sites: seq<Site>, group: seq<nat>) returns (sorted: seq<nat>)
    requires InRange(group, |sites|) && Ascending(group)
    ensures InRange(sorted, |sites|) && InOrder(sites, sorted)
    ensures |sorted| == |group| && forall j :: j in sorted <==> j in group
  {
    sorted := [];
    for k := 0 to |group|
      invariant InRange(sorted, |sites|) && InOrder(sites, sorted) && |sorted| == k
      invariant k < |group| ==> InRange(sorted, group[k])
      invariant forall j :: j in sorted <==> j in group[..k]
    {
      assert group[..k + 1] == group[..k] + [group[k]];
      sorted := InsertByLine(sites, sorted, group[k]);
    }
    assert group[..|group|] == group;
  }

  predicate IsArrangement(order: seq<nat>, n: nat) {
    && InRange(order, n)
    && NoRepeats(order)
    && (forall j: nat | j < n :: j in order)
  }

  predicate KeyedAlong(sites: seq<Site>, order: seq<nat>, keyed: seq<Keyed>)
    requires InRange(order, |sites|)
  {
    |keyed| == |order| && forall k | 0 <= k < |order| :: keyed[k] == Keyed(sites[order[k]], KeyOf(sites, order[k]))
  }

  lemma {:induction false} SizeOfDistinct(s: seq<nat>, elements: set<nat>)
    requires NoRepeats(s)
    requires forall j :: j in s <==> j in elements
    ensures |elements| == |s|
  {
    if s == [] {
      assert elements == {};
    } else {
      var last := s[|s| - 1];
      var prefix := s[..|s| - 1];
      assert s == prefix + [last];
      SizeOfDistinct(prefix, elements - {last});
    }
  }

  /** In a sorted group, the place of a site is the number of sites before it. */
  lemma PlaceIsRank(sites: seq<Site>, sorted: seq<nat>, k: nat)
    requires InRange(sorted, |sites|) && InOrder(sites, sorted) && k < |sorted|
    requires forall j: nat :: j in sorted <==> j in GroupOf(sites, sorted[k])
    ensures |GroupOf(sites, sorted[k])| == |sorted| && |Earlier(sites, sorted[k])| == k
  {
    SizeOfDistinct(sorted, GroupOf(sites, sorted[k]));
    forall j: nat
      ensures j in sorted[..k] <==> j in Earlier(sites, sorted[k])
    {
      if j in Earlier(sites, sorted[k]) {
        assert j in GroupOf(sites, sorted[k]);
        var b :| 0 <= b < |sorted| && sorted[b] == j;
        assert Precedes(sites, sorted[b], sorted[k]);
        assert b < k;
        assert sorted[..k][b] == j;
      }
      if j in sorted[..k] {
        var a :| 0 <= a < k && sorted[a] == j;
        assert Precedes(sites, sorted[a], sorted[k]);
        assert j in GroupOf(sites, sorted[k]);
      }
    }
    SizeOfDistinct(sorted[..k], Earlier(sites, sorted[k]));
  }

  /** The keys of one group, after it was sorted. */
  method KeyGroup(sites: seq<Site>, prefix: string, sorted: seq<nat>) returns (keyed: seq<Keyed>)
    requires InRange(sorted, |sites|) && InOrder(sites, sorted) && sorted != []
    requires forall j: nat :: j in sorted <==> j < |sites| && Prefix(sites[j]) == prefix
    ensures KeyedAlong(sites, sorted, keyed)
  {
    forall k | 0 <= k < |sorted|
      ensures |GroupOf(sites, sorted[k])| == |sorted| && |Earlier(sites, sorted[k])| == k
                && Prefix(sites[sorted[k]]) == prefix
    {
      assert sorted[k] in sorted;
      PlaceIsRank(sites, sorted, k);
    }
    if |sorted| == 1 {
      return [Keyed(sites[sorted[0]], prefix)];
    }
    keyed := [];
    for k := 0 to |sorted|
      invariant |keyed| == k && forall a | 0 <= a < k :: keyed[a] == Keyed(sites[sorted[a]], KeyOf(sites, sorted[a]))
    {
      keyed := keyed + [Keyed(sites[sorted[k]], Numbered(prefix, k + 1))];
    }
  }

  predicate GroupIs<P(==)>(names: seq<P>, groups: map<P, seq<nat>>, p: P, n: nat)
    requires n <= |names|
  {
    p in groups && groups[p] == Members(names, p, n) && groups[p] != []
  }

  /** Under every name of the first `n` stand its places. */
  predicate GroupsAre<P(==)>(names: seq<P>, groups: map<P, seq<nat>>, n: nat)
    requires n <= |names|
  {
    && (forall j: nat | j < n :: names[j] in groups)
    && (forall p | p in groups :: GroupIs(names, groups, p, n))
  }

  predicate AreKeys<P(==)>(found: seq<P>, groups: map<P, seq<nat>>) {
    && (forall a, b | 0 <= a < b < |found| :: found[a] != found[b])
    && (forall p | p in groups :: p in found) && (forall p | p in found :: p in groups)
  }

  function Put<P(==)>(groups: map<P, seq<nat>>, p: P, i: nat): map<P, seq<nat>> {
    groups[p := (if p in groups then groups[p] else []) + [i]]
  }

  lemma {:induction false} NoMembers<P>(names: seq<P>, p: P, n: nat)
    requires n <= |names| && forall j: nat | j < n :: names[j] != p
    ensures Members(names, p, n) == []
  {
    if n > 0 { NoMembers(names, p, n - 1); }
  }

  lemma PutKeepsGroups<P>(names: seq<P>, groups: map<P, seq<nat>>, i: nat)
    requires i < |names| && GroupsAre(names, groups, i)
    ensures GroupsAre(names, Put(groups, names[i], i), i + 1)
  {
    if names[i] !in groups { NoMembers(names, names[i], i); }
    forall p | p in Put(groups, names[i], i)
      ensures GroupIs(names, Put(groups, names[i], i), p, i + 1)
    {
      if p != names[i] { assert GroupIs(names, groups, p, i); }
    }
  }

  /** The names in order of first occurrence, and under each its places. */
  method GroupBy<P(==)>(names: seq<P>) returns (found: seq<P>, groups: map<P, seq<nat>>)
    ensures GroupsAre(names, groups, |names|) && AreKeys(found, groups)
  {
    found, groups := [], map[];
    for i := 0 to |names|
      invariant GroupsAre(names, groups, i) && AreKeys(found, groups)
    {
      PutKeepsGroups(names, groups, i);
      if names[i] !in groups { found := found + [names[i]]; }
      groups := Put(groups, names[i], i);
    }
  }

  predicate Apart(a: seq<nat>, b: seq<nat>) {
    forall i, j | 0 <= i < |a| && 0 <= j < |b| :: a[i] != b[j]
  }

  /** The order so far holds exactly the sites of these prefixes. */
  predicate Covers(sites: seq<Site>, order: seq<nat>, prefixes: seq<string>)
    requires InRange(order, |sites|)
  {
    && (forall k | 0 <= k < |order| :: Prefix(sites[order[k]]) in prefixes)
    && (forall j: nat | j < |sites| && Prefix(sites[j]) in prefixes :: j in order)
  }

  lemma AppendGroup(sites: seq<Site>, order: seq<nat>, prefixes: seq<string>, prefix: string, sorted: seq<nat>)
    requires InRange(order, |sites|) && InRange(sorted, |sites|) && NoRepeats(order) && InOrder(sites, sorted)
    requires Covers(sites, order, prefixes) && prefix !in prefixes
    requires forall j: nat :: j in sorted <==> j < |sites| && Prefix(sites[j]) == prefix
    ensures InRange(order + sorted, |sites|) && NoRepeats(order + sorted)
    ensures Covers(sites, order + sorted, prefixes + [prefix])
  {
    forall i, j | 0 <= i < |order| && 0 <= j < |sorted|
      ensures order[i] != sorted[j]
    {
      assert sorted[j] in sorted;
    }
    forall k | 0 <= k < |sorted|
      ensures Prefix(sites[sorted[k]]) == prefix
    {
      assert sorted[k] in sorted;
    }
  }

  lemma AppendKeyed(sites: seq<Site>, order: seq<nat>, keyed: seq<Keyed>, more: seq<nat>, group: seq<Keyed>)
    requires InRange(order, |sites|) && InRange(more, |sites|)
    requires KeyedAlong(sites, order, keyed) && KeyedAlong(sites, more, group)
    ensures InRange(order + more, |sites|) && KeyedAlong(sites, order + more, keyed + group)
  {
  }

  /** Sorts and keys one group. */
  method KeyNext(sites: seq<Site>, prefix: string, group: seq<nat>) returns (keyed: seq<Keyed>, ghost sorted: seq<nat>)
    requires group == Members(Prefixes(sites), prefix, |sites|) && group != []
    ensures InRange(sorted, |sites|) && InOrder(sites, sorted) && KeyedAlong(sites, sorted, keyed)
    ensures forall j: nat :: j in sorted <==> j < |sites| && Prefix(sites[j]) == prefix
  {
    MembersAre(Prefixes(sites), prefix, |sites|);
    var inOrder := SortByLine(sites, group);
    keyed := KeyGroup(sites, prefix, inOrder);
    sorted := inOrder;
  }

  /** Keys the next group behind what is keyed already. */
  method KeyBehind(sites: seq<Site>, before: seq<string>, prefix: string, group: seq<nat>, done: seq<Keyed>,
                   ghost covered: seq<nat>)
    returns (keyed: seq<Keyed>, ghost order: seq<nat>)
    requires InRange(covered, |sites|) && KeyedAlong(sites, covered, done)
    requires NoRepeats(covered) && Covers(sites, covered, before) && prefix !in before
    requires group == Members(Prefixes(sites), prefix, |sites|) && group != []
    ensures InRange(order, |sites|) && KeyedAlong(sites, order, keyed)
    ensures NoRepeats(order) && Covers(sites, order, before + [prefix])
  {
    var more, sorted := KeyNext(sites, prefix, group);
    AppendGroup(sites, covered, before, prefix, sorted);
    AppendKeyed(sites, covered, done, sorted, more);
    keyed, order := done + more, covered + sorted;
  }

  lemma AllCovered(sites: seq<Site>, names: seq<string>, groups: map<string, seq<nat>>, order: seq<nat>,
                   prefixes: seq<string>)
    requires names == Prefixes(sites) && GroupsAre(names, groups, |sites|) && AreKeys(prefixes, groups)
    requires InRange(order, |sites|) && Covers(sites, order, prefixes)
    ensures forall j: nat | j < |sites| :: j in order
  {
    forall j: nat | j < |sites|
      ensures j in order
    {
      assert names[j] == Prefix(sites[j]);
    }
  }

  /** A site with the key that its place among the sites of its symbol gives it. */
  function Own(sites: seq<Site>, i: nat): Keyed
    requires i < |sites|
  {
    Keyed(sites[i], KeyOf(sites, i))
  }

  /** Every site is keyed with its own key, and nothing else is. */
  predicate KeysAll(sites: seq<Site>, keyed: seq<Keyed>) {
    && |keyed| == |sites|
    && (forall j: nat | j < |sites| :: Own(sites, j) in keyed)
    && (forall k | 0 <= k < |keyed| :: exists j: nat :: j < |sites| && keyed[k] == Own(sites, j))
  }

  function FirstPlaces(n: nat): (places: set<nat>)
    ensures |places| == n && forall j: nat :: j in places <==> j < n
  {
    if n == 0 then {} else FirstPlaces(n - 1) + {n - 1}
  }

  lemma ArrangementLength(order: seq<nat>, n: nat)
    requires IsArrangement(order, n)
    ensures |order| == n
  {
    SizeOfDistinct(order, FirstPlaces(n));
  }

  /** An arrangement keys all sites, as often as they stand in the input. */
  lemma ArrangedKeysAll(sites: seq<Site>, order: seq<nat>, keyed: seq<Keyed>)
    requires IsArrangement(order, |sites|) && KeyedAlong(sites, order, keyed)
    ensures KeysAll(sites, keyed)
  {
    ArrangementLength(order, |sites|);
    forall j: nat | j < |sites|
      ensures Own(sites, j) in keyed
    {
      assert j in order;
      var k :| 0 <= k < |order| && order[k] == j;
      assert keyed[k] == Own(sites, j);
    }
    forall k | 0 <= k < |keyed|
      ensures exists j: nat :: j < |sites| && keyed[k] == Own(sites, j)
    {
      var j: nat := order[k];
      assert j < |sites| && keyed[k] == Own(sites, j);
    }
  }

  /**
   Every site with its key. `order` says where each one went: every site is keyed once,
   group by group.
   */
  method KeySites(sites: seq<Site>) returns (keyed: seq<Keyed>, ghost order: seq<nat>)
    ensures IsArrangement(order, |sites|) && KeyedAlong(sites, order, keyed)
    ensures KeysAll(sites, keyed)
  {
    var names := Prefixes(sites);
    var prefixes, groups := GroupBy(names);
    keyed, order := [], [];
    for p := 0 to |prefixes|
      invariant InRange(order, |sites|) && KeyedAlong(sites, order, keyed)
      invariant NoRepeats(order) && Covers(sites, order, prefixes[..p])
    {
      assert prefixes[p] in prefixes && prefixes[p] !in prefixes[..p];
      assert GroupIs(names, groups, prefixes[p], |sites|);
      keyed, order := KeyBehind(sites, prefixes[..p], prefixes[p], groups[prefixes[p]], keyed, order);
      OneMore(prefixes, p);
    }
    assert prefixes[..|prefixes|] == prefixes;
    AllCovered(sites, names, groups, order, prefixes);
    ArrangedKeysAll(sites, order, keyed);
  }

  // ------------------------------------------------------------ keys tell sites apart

  /** What an identifier cannot be, and a scope name never is. */
  predicate IsSymbol(symbol: string) {
    '#' !in symbol && exists k :: 0 <= k < |symbol| && !IsDigit(symbol[k])
  }

  /** Of two spellings with a `#`, the later one stands inside the tail of the earlier. */
  lemma LaterHash(a: string, m: string, b: string, n: string)
    requires a + ['#'] + m == b + ['#'] + n && |a| > |b|
    ensures '#' in n
  {
    var whole := a + ['#'] + m;
    assert whole[|a|] == '#';
    assert whole[|b| + 1..] == n;
    assert n[|a| - |b| - 1] == '#';
  }

  lemma LastPart(a: string, m: string, b: string, n: string)
    requires '#' !in m && '#' !in n && a + ['#'] + m == b + ['#'] + n
    ensures a == b && m == n
  {
    if |a| > |b| { LaterHash(a, m, b, n); }
    if |b| > |a| { LaterHash(b, n, a, m); }
    var whole := a + ['#'] + m;
    assert a == whole[..|a|] && b == whole[..|b|];
    assert m == whole[|a| + 1..] && n == whole[|b| + 1..];
  }

  lemma DigitsHaveNoHash(n: nat)
    ensures '#' !in Digits(n) && forall k | 0 <= k < |Digits(n)| :: IsDigit(Digits(n)[k])
  {
  }

  lemma EarlierGrows(sites: seq<Site>, i: nat, j: nat)
    requires i < |sites| && j < |sites| && Prefix(sites[i]) == Prefix(sites[j]) && Precedes(sites, i, j)
    ensures |Earlier(sites, i)| < |Earlier(sites, j)|
  {
    assert Earlier(sites, i) + {i} <= Earlier(sites, j);
    assert i !in Earlier(sites, i);
    Smaller(Earlier(sites, i) + {i}, Earlier(sites, j));
  }

  lemma Smaller(a: set<nat>, b: set<nat>)
    requires a <= b
    ensures |a| <= |b|
  {
    assert b == a + (b - a);
  }

  lemma NumberedApart(prefix: string, m: nat, n: nat)
    requires m != n
    ensures Numbered(prefix, m) != Numbered(prefix, n)
  {
    if Numbered(prefix, m) == Numbered(prefix, n) {
      DigitsHaveNoHash(m);
      DigitsHaveNoHash(n);
      LastPart(prefix, Digits(m), prefix, Digits(n));
      NumberOfDigits(m);
      NumberOfDigits(n);
    }
  }

  lemma SamePrefixApart(sites: seq<Site>, i: nat, j: nat)
    requires i < |sites| && j < |sites| && i != j && Prefix(sites[i]) == Prefix(sites[j])
    ensures KeyOf(sites, i) != KeyOf(sites, j)
  {
    assert {i, j} <= GroupOf(sites, i);
    Smaller({i, j}, GroupOf(sites, i));
    assert GroupOf(sites, i) == GroupOf(sites, j);
    if Precedes(sites, i, j) { EarlierGrows(sites, i, j); } else { EarlierGrows(sites, j, i); }
    NumberedApart(Prefix(sites[i]), |Earlier(sites, i)| + 1, |Earlier(sites, j)| + 1);
  }

  /** A plain key is never a numbered one: its last part is a symbol, not a number. */
  lemma PlainIsNotNumbered(site: Site, prefix: string, n: nat)
    requires IsSymbol(site.symbol)
    ensures Prefix(site) != Numbered(prefix, n)
  {
    DigitsHaveNoHash(n);
    if Prefix(site) == Numbered(prefix, n) {
      LastPart(site.file, site.symbol, prefix, Digits(n));
    }
  }

  /** Site `i` stands alone, and its plain key spells the numbered key of site `j`. */
  predicate Spells(sites: seq<Site>, i: nat, j: nat)
    requires i < |sites| && j < |sites|
  {
    && |GroupOf(sites, i)| == 1 && |GroupOf(sites, j)| > 1
    && Prefix(sites[i]) == Numbered(Prefix(sites[j]), |Earlier(sites, j)| + 1)
  }

  /** Two sites share a key exactly when the plain key of one spells the numbered key of the other. */
  lemma CollideIff(sites: seq<Site>, i: nat, j: nat)
    requires i < |sites| && j < |sites| && i != j
    ensures KeyOf(sites, i) == KeyOf(sites, j) <==> Spells(sites, i, j) || Spells(sites, j, i)
  {
    GroupIsInhabited(sites, i);
    GroupIsInhabited(sites, j);
    if Prefix(sites[i]) == Prefix(sites[j]) {
      SamePrefixApart(sites, i, j);
      assert GroupOf(sites, i) == GroupOf(sites, j);
    } else if KeyOf(sites, i) == KeyOf(sites, j) && |GroupOf(sites, i)| > 1 && |GroupOf(sites, j)| > 1 {
      DigitsHaveNoHash(|Earlier(sites, i)| + 1);
      DigitsHaveNoHash(|Earlier(sites, j)| + 1);
      LastPart(Prefix(sites[i]), Digits(|Earlier(sites, i)| + 1), Prefix(sites[j]), Digits(|Earlier(sites, j)| + 1));
    }
  }

  lemma GroupIsInhabited(sites: seq<Site>, i: nat)
    requires i < |sites|
    ensures |GroupOf(sites, i)| >= 1
  {
    Smaller({i}, GroupOf(sites, i));
  }

  /** Where the symbols are identifiers, no two sites share a key. */
  lemma KeysAreDistinct(sites: seq<Site>, i: nat, j: nat)
    requires i < |sites| && j < |sites| && i != j
    requires forall k | 0 <= k < |sites| :: IsSymbol(sites[k].symbol)
    ensures KeyOf(sites, i) != KeyOf(sites, j)
  {
    CollideIff(sites, i, j);
    PlainIsNotNumbered(sites[i], Prefix(sites[j]), |Earlier(sites, j)| + 1);
    PlainIsNotNumbered(sites[j], Prefix(sites[i]), |Earlier(sites, i)| + 1);
  }

  /**
   The condition on symbols is a limit of the keying itself: given a symbol that is a
   number, which no enclosing function has, a site takes the key of a numbered one.
   */
  lemma NumberSymbolsCollide()
    ensures var sites := [Site("a#b", "1", 1), Site("a", "b", 1), Site("a", "b", 2)];
            Spells(sites, 0, 1) && KeyOf(sites, 0) == KeyOf(sites, 1)
  {
    var sites := [Site("a#b", "1", 1), Site("a", "b", 1), Site("a", "b", 2)];
    assert Prefix(sites[0]) == "a#b#1" && Prefix(sites[1]) == "a#b" && Prefix(sites[2]) == "a#b";
    assert GroupOf(sites, 0) == {0};
    assert GroupOf(sites, 1) == {1, 2};
    assert Earlier(sites, 1) == {};
    assert Digits(1) == "1";
  }

  /** The two sites write in the same function of the same file. */
  predicate SameWriter(a: Site, b: Site) {
    a.file == b.file && a.symbol == b.symbol
  }

  lemma MarkIsLast(a: string, b: string, x: string, y: string)
    requires '#' !in x && |a| < |b|
    ensures a + ['#'] + x != b + ['#'] + y
  {
    if |b| < |a| + 1 + |x| {
      assert (a + ['#'] + x)[|b|] == x[|b| - |a| - 1] && x[|b| - |a| - 1] in x;
      assert (b + ['#'] + y)[|b|] == '#';
    }
  }

  lemma LastMark(a: string, b: string, x: string, y: string)
    requires '#' !in x && '#' !in y && a + ['#'] + x == b + ['#'] + y
    ensures a == b && x == y
  {
    if |a| < |b| { MarkIsLast(a, b, x, y); }
    if |b| < |a| { MarkIsLast(b, a, y, x); }
    assert (a + ['#'] + x)[..|a|] == a && (b + ['#'] + y)[..|b|] == b;
    assert (a + ['#'] + x)[|a| + 1..] == x && (b + ['#'] + y)[|b| + 1..] == y;
  }

  /** The sites of one writer that stand before site `i`: on an earlier line, or earlier on its line. */
  function Before(sites: seq<Site>, i: nat): set<nat>
    requires i < |sites|
  {
    set j: nat | j < |sites| && SameWriter(sites[j], sites[i])
                 && (sites[j].line < sites[i].line || (sites[j].line == sites[i].line && j < i))
  }

  /** The keys as they are written: file and symbol, and a number where the symbol writes more than once. */
  lemma KeysAsWritten(sites: seq<Site>, i: nat)
    requires i < |sites| && forall k | 0 <= k < |sites| :: '#' !in sites[k].symbol
    ensures (forall j: nat | j < |sites| && j != i :: !SameWriter(sites[j], sites[i])) ==>
              KeyOf(sites, i) == sites[i].file + "#" + sites[i].symbol
    ensures (exists j: nat :: j < |sites| && j != i && SameWriter(sites[j], sites[i])) ==>
              KeyOf(sites, i) == sites[i].file + "#" + sites[i].symbol + "#" + Digits(|Before(sites, i)| + 1)
  {
    forall j: nat | j < |sites|
      ensures SameWriter(sites[j], sites[i]) <==> Prefix(sites[j]) == Prefix(sites[i])
    {
      if Prefix(sites[j]) == Prefix(sites[i]) {
        LastMark(sites[j].file, sites[i].file, sites[j].symbol, sites[i].symbol);
      }
    }
    assert Before(sites, i) == Earlier(sites, i);
    if forall j: nat | j < |sites| && j != i :: !SameWriter(sites[j], sites[i]) {
      assert GroupOf(sites, i) == {i};
    } else {
      var j: nat :| j < |sites| && j != i && SameWriter(sites[j], sites[i]);
      assert {i, j} <= GroupOf(sites, i);
      Smaller({i, j}, GroupOf(sites, i));
    }
  }

  // ------------------------------------------------------------ keys survive edits

  /** The same writes after an edit that moved lines without reordering the writes of one symbol. */
  predicate Shifted(before: seq<Site>, after: seq<Site>) {
    && |before| == |after|
    && (forall k | 0 <= k < |before| :: Prefix(before[k]) == Prefix(after[k]))
    && (forall i: nat, j: nat | i < |before| && j < |before| && Prefix(before[i]) == Prefix(before[j]) ::
          Precedes(before, i, j) <==> Precedes(after, i, j))
  }

  /** Moving lines leaves every key as it was: the baseline survives reformatting. */
  lemma ShiftKeepsKeys(before: seq<Site>, after: seq<Site>, i: nat)
    requires Shifted(before, after) && i < |before|
    ensures KeyOf(before, i) == KeyOf(after, i)
  {
    assert GroupOf(before, i) == GroupOf(after, i);
    assert Earlier(before, i) == Earlier(after, i);
  }
}
