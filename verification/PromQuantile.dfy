/**
 `quantile` is trusted as a shield on the ground that any quantile of N copies of one
 value is that value. A group may hold several resources; this is exactly when the
 trust is deserved, for one group, for one share, and for the shield as a whole.
 */
module PromQuantile {
  import opened PromMeaning

  predicate Sorted(s: seq<real>) {
    forall i, j | 0 <= i < j < |s| :: s[i] <= s[j]
  }

  lemma SortedCons(x: real, s: seq<real>)
    requires Sorted(s) && forall k | 0 <= k < |s| :: x <= s[k]
    ensures Sorted([x] + s)
  {
    var whole := [x] + s;
    forall i, j | 0 <= i < j < |whole|
      ensures whole[i] <= whole[j]
    {
      assert whole[j] == s[j - 1];
      if i > 0 { assert whole[i] == s[i - 1]; }
    }
  }

  function Insert(x: real, s: seq<real>): (r: seq<real>)
    ensures multiset(r) == multiset(s) + multiset{x} && |r| == |s| + 1
  {
    if s == [] then [x]
    else if x <= s[0] then [x] + s
    else
      assert s == [s[0]] + s[1..];
      [s[0]] + Insert(x, s[1..])
  }

  lemma {:induction false} InsertSorted(x: real, s: seq<real>)
    requires Sorted(s)
    ensures Sorted(Insert(x, s))
  {
    if s != [] {
      if x <= s[0] {
        SortedCons(x, s);
      } else {
        var rest := Insert(x, s[1..]);
        InsertSorted(x, s[1..]);
        forall k | 0 <= k < |rest|
          ensures s[0] <= rest[k]
        {
          assert rest[k] in multiset(rest);
          assert rest[k] == x || rest[k] in s[1..];
        }
        SortedCons(s[0], rest);
      }
    }
  }

  function Sort(s: seq<real>): (r: seq<real>)
    ensures Sorted(r) && multiset(r) == multiset(s) && |r| == |s|
  {
    if s == [] then []
    else
      assert s == [s[0]] + s[1..];
      InsertSorted(s[0], Sort(s[1..]));
      Insert(s[0], Sort(s[1..]))
  }

  function Blend(a: real, b: real, weight: real): real {
    a * (1.0 - weight) + b * weight
  }

  lemma BlendBetween(a: real, b: real, weight: real)
    ensures a == b ==> Blend(a, b, weight) == a
    ensures a < b && weight > 0.0 ==> Blend(a, b, weight) > a
  {
    var gain := (b - a) * weight;
    ProductOfPositives(b - a, weight);
    assert gain == b * weight - a * weight;
    assert a * (1.0 - weight) == a - a * weight;
  }

  lemma ProductOfPositives(a: real, b: real)
    ensures a > 0.0 && b > 0.0 ==> a * b > 0.0
    ensures a >= 0.0 && b >= 0.0 ==> a * b >= 0.0
  {
  }

  /** The value at `rank`, interpolated between its two neighbours. */
  function AtRank(s: seq<real>, rank: real): real
    requires s != [] && 0.0 <= rank <= (|s| - 1) as real
  {
    var lower := rank.Floor;
    var weight := rank - lower as real;
    if weight == 0.0 then s[lower] else Blend(s[lower], s[lower + 1], weight)
  }

  predicate IsShare(phi: real) {
    0.0 <= phi <= 1.0
  }

  /** The rank a share of `n` values falls on. */
  function RankOf(phi: real, n: nat): (rank: real)
    requires IsShare(phi) && n > 0
    ensures 0.0 <= rank <= (n - 1) as real
  {
    var m := (n - 1) as real;
    ProductOfPositives(phi, m);
    ProductOfPositives(1.0 - phi, m);
    assert (1.0 - phi) * m == m - phi * m;
    phi * m
  }

  function Quantile(phi: real, values: seq<real>): real
    requires IsShare(phi) && values != []
  {
    AtRank(Sort(values), RankOf(phi, |values|))
  }

  predicate AllEqual(values: seq<real>) {
    forall k | 0 <= k < |values| :: values[k] == values[0]
  }

  lemma AtRankOfOneValue(s: seq<real>, rank: real, value: real)
    requires s != [] && 0.0 <= rank <= (|s| - 1) as real && forall k | 0 <= k < |s| :: s[k] == value
    ensures AtRank(s, rank) == value
  {
    BlendBetween(value, value, rank - rank.Floor as real);
  }

  lemma SortOfOneValue(values: seq<real>)
    requires values != [] && AllEqual(values)
    ensures forall k | 0 <= k < |Sort(values)| :: Sort(values)[k] == values[0]
  {
    var s := Sort(values);
    forall k | 0 <= k < |s|
      ensures s[k] == values[0]
    {
      assert s[k] in multiset(s);
      assert s[k] in values;
    }
  }

  /** Any quantile of copies of one value is that value. */
  lemma QuantileOfOneValue(phi: real, values: seq<real>)
    requires IsShare(phi) && values != [] && AllEqual(values)
    ensures Quantile(phi, values) == values[0]
  {
    SortOfOneValue(values);
    AtRankOfOneValue(Sort(values), RankOf(phi, |values|), values[0]);
  }

  function Fill(x: real, n: nat): (r: seq<real>)
    ensures |r| == n && forall k | 0 <= k < n :: r[k] == x
  {
    seq(n, k => x)
  }

  /** Every element `n` times, one after the other. */
  function Repeated(s: seq<real>, n: nat): seq<real> {
    if s == [] then [] else Fill(s[0], n) + Repeated(s[1..], n)
  }

  /** What stands at place `j` of the copies of element `k`. */
  lemma {:induction false} RepeatedAt(s: seq<real>, n: nat, k: nat, j: nat)
    requires k < |s| && j < n
    ensures 0 <= k * n + j < |Repeated(s, n)| == |s| * n && Repeated(s, n)[k * n + j] == s[k]
  {
    RepeatedLength(s, n);
    var rest := Repeated(s[1..], n);
    if k > 0 {
      RepeatedAt(s[1..], n, k - 1, j);
      assert k * n + j == n + ((k - 1) * n + j);
      assert Repeated(s, n)[n + ((k - 1) * n + j)] == rest[(k - 1) * n + j];
    } else {
      assert Repeated(s, n)[j] == Fill(s[0], n)[j];
      RepeatedLength(s[1..], n);
      assert |s| * n == (|s| - 1) * n + n;
    }
  }

  lemma {:induction false} RepeatedLength(s: seq<real>, n: nat)
    ensures |Repeated(s, n)| == |s| * n
  {
    if s != [] {
      RepeatedLength(s[1..], n);
      assert |s| * n == (|s| - 1) * n + n;
    }
  }

  /** Place `i` of the copies belongs to element `i / n`. */
  lemma RepeatedHolds(s: seq<real>, n: nat, i: nat) returns (k: nat)
    requires n > 0 && i < |Repeated(s, n)|
    ensures k < |s| && Repeated(s, n)[i] == s[k] && k * n <= i < (k + 1) * n
  {
    hide Repeated;
    var j: nat;
    k, j := Divided(i, n);
    RepeatedLength(s, n);
    if k >= |s| { Ordered(|s|, k, n); }
    RepeatedAt(s, n, k, j);
    OneMoreTimes(k, n);
  }

  lemma Divided(i: nat, n: nat) returns (k: nat, j: nat)
    requires n > 0
    ensures i == k * n + j && j < n
  {
    k, j := i / n, i % n;
  }

  lemma Ordered(a: nat, b: nat, n: nat)
    requires a <= b
    ensures a * n <= b * n
  {
  }

  lemma RepeatedSorted(s: seq<real>, n: nat)
    requires Sorted(s) && n > 0
    ensures Sorted(Repeated(s, n))
  {
    forall i, j | 0 <= i < j < |Repeated(s, n)|
      ensures Repeated(s, n)[i] <= Repeated(s, n)[j]
    {
      var k := RepeatedHolds(s, n, i);
      var m := RepeatedHolds(s, n, j);
      if m < k { Ordered(m + 1, k, n); }
    }
  }

  lemma {:induction false} FillOnce(x: real, n: nat)
    ensures multiset(Fill(x, n))[x] == n
    ensures forall y | y != x :: multiset(Fill(x, n))[y] == 0
  {
    if n > 0 {
      FillOnce(x, n - 1);
      assert Fill(x, n) == Fill(x, n - 1) + [x];
    } else {
      assert Fill(x, n) == [];
    }
  }

  lemma {:induction false} RepeatedCounts(s: seq<real>, n: nat, x: real)
    ensures multiset(Repeated(s, n))[x] == multiset(s)[x] * n
  {
    if s != [] {
      hide Repeated, Fill;
      RepeatedCounts(s[1..], n, x);
      FillOnce(s[0], n);
      FirstOf(s, n);
      var first, rest := multiset{s[0]}[x], multiset(s[1..])[x];
      assert multiset(s)[x] == first + rest;
      OneMoreTimes(rest, n);
    }
  }

  lemma FirstOf(s: seq<real>, n: nat)
    requires s != []
    ensures multiset(s) == multiset{s[0]} + multiset(s[1..])
    ensures multiset(Repeated(s, n)) == multiset(Fill(s[0], n)) + multiset(Repeated(s[1..], n))
  {
    assert s == [s[0]] + s[1..];
  }

  lemma OneMoreTimes(c: nat, n: nat)
    ensures (c + 1) * n == c * n + n
  {
  }

  lemma {:induction false} TimesCounts(values: seq<real>, n: nat, x: real)
    ensures multiset(Times(values, n))[x] == multiset(values)[x] * n
  {
    if n > 0 {
      TimesCounts(values, n - 1, x);
      var c := multiset(values)[x];
      assert c * n == c * (n - 1) + c;
    }
  }

  lemma SmallestIsFirst(a: seq<real>, b: seq<real>)
    requires Sorted(a) && a != [] && b != [] && multiset(a) == multiset(b)
    ensures a[0] <= b[0]
  {
    assert b[0] in multiset(a);
    var k :| 0 <= k < |a| && a[k] == b[0];
  }

  lemma RestOf(a: seq<real>)
    requires a != []
    ensures multiset(a[1..]) == multiset(a) - multiset{a[0]}
  {
    assert a == [a[0]] + a[1..];
  }

  lemma {:induction false} SortedUnique(a: seq<real>, b: seq<real>)
    requires Sorted(a) && Sorted(b) && multiset(a) == multiset(b)
    ensures a == b
  {
    assert |multiset(a)| == |a| && |multiset(b)| == |b|;
    if a != [] {
      SmallestIsFirst(a, b);
      SmallestIsFirst(b, a);
      RestOf(a);
      RestOf(b);
      SortedUnique(a[1..], b[1..]);
    }
  }

  /** `n` copies of a group repeat every value of the sorted group. */
  lemma SortTimes(values: seq<real>, n: nat)
    requires n > 0
    ensures Sort(Times(values, n)) == Repeated(Sort(values), n)
  {
    RepeatedSorted(Sort(values), n);
    forall x
      ensures multiset(Sort(Times(values, n)))[x] == multiset(Repeated(Sort(values), n))[x]
    {
      TimesCounts(values, n, x);
      RepeatedCounts(Sort(values), n, x);
    }
    assert multiset(Sort(Times(values, n))) == multiset(Repeated(Sort(values), n));
    SortedUnique(Sort(Times(values, n)), Repeated(Sort(values), n));
  }

  lemma Step(s: seq<real>) returns (j: nat)
    requires Sorted(s) && !AllEqual(s)
    ensures j + 1 < |s| && s[j] < s[j + 1]
  {
    var k :| 0 <= k < |s| && s[k] != s[0];
    j := k - 1;
    while s[j] == s[j + 1]
      invariant 0 <= j < k && s[j + 1] != s[0]
      decreases j
    {
      j := j - 1;
    }
  }

  lemma Ratio(a: real, b: real)
    requires 0.0 <= a <= b && b > 0.0
    ensures a / b * b == a && 0.0 <= a / b <= 1.0
  {
  }

  /** The share whose rank lands on an element of the doubled group but between two of the group. */
  lemma Share(n: nat, j: nat) returns (phi: real)
    requires j + 1 < n
    ensures IsShare(phi)
    ensures RankOf(phi, 2 * n) == (2 * j + 1) as real
    ensures j as real < RankOf(phi, n) < (j + 1) as real
  {
    var a, b := (2 * j + 1) as real, (2 * n - 1) as real;
    phi := a / b;
    Ratio(a, b);
    var m, x := (n - 1) as real, j as real;
    assert b == 2.0 * m + 1.0 && a == 2.0 * x + 1.0;
    assert phi * (2.0 * m + 1.0) == 2.0 * (phi * m) + phi;
    assert 2.0 * (phi * m) == 2.0 * x + 1.0 - phi;
    assert phi < 1.0;
  }

  lemma Between(s: seq<real>, j: nat, rank: real)
    requires j + 1 < |s| && s[j] < s[j + 1] && j as real < rank < (j + 1) as real
    ensures rank <= (|s| - 1) as real && AtRank(s, rank) > s[j]
  {
    assert rank.Floor == j;
    BlendBetween(s[j], s[j + 1], rank - j as real);
  }

  lemma SomeValuesDiffer(values: seq<real>)
    requires values != [] && !AllEqual(values)
    ensures !AllEqual(Sort(values))
  {
    var s := Sort(values);
    var k :| 0 <= k < |values| && values[k] != values[0];
    assert values[k] in multiset(s) && values[0] in multiset(s);
    assert values[k] in s && values[0] in s;
  }

  lemma QuantileIs(phi: real, values: seq<real>, s: seq<real>, rank: real)
    requires IsShare(phi) && values != [] && s == Sort(values) && rank == RankOf(phi, |values|)
    ensures Quantile(phi, values) == AtRank(s, rank)
  {
  }

  lemma QuantileAt(phi: real, values: seq<real>, s: seq<real>, rank: real, k: nat)
    requires IsShare(phi) && values != [] && s == Sort(values) && k < |s|
    requires rank == RankOf(phi, |values|) && rank == k as real
    ensures Quantile(phi, values) == s[k]
  {
    QuantileIs(phi, values, s, rank);
    AtElement(s, k);
  }

  lemma AtElement(s: seq<real>, k: nat)
    requires k < |s|
    ensures AtRank(s, k as real) == s[k]
  {
  }

  lemma TwoReplicasAt(phi: real, s: seq<real>, j: nat, both: seq<real>, twice: seq<real>)
    requires IsShare(phi) && both != [] && twice == Sort(both) && twice == Repeated(s, 2) && j < |s|
    requires RankOf(phi, |both|) == (2 * j + 1) as real
    ensures Quantile(phi, both) == s[j]
  {
    hide Sort, RankOf, Quantile, Repeated;
    RepeatedAt(s, 2, j, 1);
    assert j * 2 + 1 == 2 * j + 1;
    QuantileAt(phi, both, twice, RankOf(phi, |both|), 2 * j + 1);
  }

  lemma OneReplicaAbove(phi: real, values: seq<real>, s: seq<real>, j: nat)
    requires IsShare(phi) && values != [] && s == Sort(values) && j + 1 < |s| && s[j] < s[j + 1]
    requires j as real < RankOf(phi, |s|) < (j + 1) as real
    ensures Quantile(phi, values) > s[j]
  {
    Between(s, j, RankOf(phi, |s|));
    QuantileIs(phi, values, s, RankOf(phi, |s|));
  }

  lemma TimesLength(values: seq<real>, n: nat)
    ensures |Times(values, n)| == |values| * n
  {
    if n > 0 {
      TimesLength(values, n - 1);
      assert |values| * n == |values| * (n - 1) + |values|;
    }
  }

  /** Some quantile tells two replicas from one. */
  lemma SomeQuantileMoves(values: seq<real>) returns (phi: real)
    requires values != [] && !AllEqual(values)
    ensures Times(values, 2) != [] && IsShare(phi) && Quantile(phi, Times(values, 2)) != Quantile(phi, values)
  {
    hide Sort, RankOf, Quantile, Repeated, Times;
    var s := Sort(values);
    SomeValuesDiffer(values);
    var j := Step(s);
    phi := Share(|s|, j);
    SortTimes(values, 2);
    TimesLength(values, 2);
    TwoReplicasAt(phi, s, j, Times(values, 2), Repeated(s, 2));
    OneReplicaAbove(phi, values, s, j);
  }

  /** A quantile of this share reads `n` copies of the group as it reads the group. */
  predicate Ignores(phi: real, values: seq<real>, n: nat)
    requires IsShare(phi) && values != [] && n > 0
  {
    TimesLength(values, n);
    Ordered(1, n, |values|);
    Quantile(phi, Times(values, n)) == Quantile(phi, values)
  }

  /** For a group: every quantile ignores replicas exactly when the group holds one value. */
  lemma QuantileIgnoresReplicasIff(values: seq<real>)
    requires values != []
    ensures (forall phi, n: nat | IsShare(phi) && n > 0 :: Ignores(phi, values, n)) <==> AllEqual(values)
  {
    if AllEqual(values) {
      forall phi, n: nat | IsShare(phi) && n > 0
        ensures Ignores(phi, values, n)
      {
        TimesOfOneValue(values, n);
        QuantileOfOneValue(phi, values);
        QuantileOfOneValue(phi, Times(values, n));
      }
    } else {
      var phi := SomeQuantileMoves(values);
      assert IsShare(phi) && !Ignores(phi, values, 2);
    }
  }

  lemma {:induction false} TimesOfOneValue(values: seq<real>, n: nat)
    requires values != [] && AllEqual(values) && n > 0
    ensures Times(values, n) != [] && AllEqual(Times(values, n)) && Times(values, n)[0] == values[0]
  {
    if n > 1 {
      TimesOfOneValue(values, n - 1);
    } else {
      assert Times(values, 1) == Times(values, 0) + values;
    }
  }

  // ------------------------------------------------------------ one share, every group

  lemma FirstAndLast(phi: real, s: seq<real>, n: nat)
    requires s != [] && n > 0 && phi in {0.0, 1.0}
    ensures |Repeated(s, n)| > 0
    ensures AtRank(Repeated(s, n), RankOf(phi, |Repeated(s, n)|)) == AtRank(s, RankOf(phi, |s|))
  {
    RepeatedAt(s, n, 0, 0);
    RepeatedAt(s, n, |s| - 1, n - 1);
    assert (|s| - 1) * n + (n - 1) == |s| * n - 1;
    if phi == 0.0 {
      AtElement(s, 0);
      AtElement(Repeated(s, n), 0);
    } else {
      AtElement(s, |s| - 1);
      AtElement(Repeated(s, n), |s| * n - 1);
    }
  }

  /** The middle of a list: its middle element, or half way between its two. */
  function Middle(s: seq<real>): real
    requires s != []
  {
    if |s| % 2 == 1 then s[|s| / 2] else Blend(s[|s| / 2 - 1], s[|s| / 2], 0.5)
  }

  lemma MedianIsMiddle(s: seq<real>)
    requires s != []
    ensures AtRank(s, RankOf(0.5, |s|)) == Middle(s)
  {
    var m := |s| / 2;
    var rank := RankOf(0.5, |s|);
    if |s| % 2 == 1 {
      assert |s| - 1 == 2 * m;
      assert rank == m as real;
      AtElement(s, m);
    } else {
      assert |s| - 1 == 2 * (m - 1) + 1;
      assert rank == (m - 1) as real + 0.5;
      assert rank.Floor == m - 1;
    }
  }

  /** Place `i` of the copies, from the first place of element `k` on. */
  lemma PlaceOf(s: seq<real>, n: nat, k: nat, first: nat, i: nat)
    requires k < |s| && first == k * n && first <= i < first + n
    ensures i < |Repeated(s, n)| && Repeated(s, n)[i] == s[k]
  {
    RepeatedAt(s, n, k, i - first);
  }

  lemma MiddleOfEven(s: seq<real>, n: nat, m: nat, half: nat)
    requires n > 0 && m > 0 && |s| == 2 * m && half == m * n && |Repeated(s, n)| == 2 * half
    ensures half > 0 && Middle(Repeated(s, n)) == Middle(s)
  {
    hide Repeated;
    OneMoreTimes(m - 1, n);
    PlaceOf(s, n, m, half, half);
    PlaceOf(s, n, m - 1, half - n, half - 1);
  }

  lemma MiddleOfOdd(s: seq<real>, n: nat, m: nat, first: nat)
    requires n > 0 && |s| == 2 * m + 1 && first == m * n && |Repeated(s, n)| == 2 * first + n
    ensures Middle(Repeated(s, n)) == Middle(s)
  {
    hide Repeated;
    PlaceOf(s, n, m, first, first + n / 2);
    if n % 2 == 0 {
      PlaceOf(s, n, m, first, first + n / 2 - 1);
      BlendBetween(s[m], s[m], 0.5);
    }
  }

  /** The middle of `n` copies of a sorted list is the middle of the list. */
  lemma MiddleOfCopies(s: seq<real>, n: nat)
    requires s != [] && n > 0
    ensures Repeated(s, n) != [] && Middle(Repeated(s, n)) == Middle(s)
  {
    hide Repeated, Middle;
    var m := |s| / 2;
    RepeatedLength(s, n);
    Twice(m, n);
    OneMoreTimes(2 * m, n);
    if |s| == 2 * m { MiddleOfEven(s, n, m, m * n); } else { MiddleOfOdd(s, n, m, m * n); }
  }

  lemma Twice(m: nat, n: nat)
    ensures 2 * m * n == 2 * (m * n)
  {
  }

  lemma FixedShareIgnores(phi: real, values: seq<real>, n: nat)
    requires phi in {0.0, 0.5, 1.0} && values != [] && n > 0
    ensures Ignores(phi, values, n)
  {
    var s := Sort(values);
    TimesLength(values, n);
    Ordered(1, n, |values|);
    SortTimes(values, n);
    RepeatedLength(s, n);
    QuantileIs(phi, values, s, RankOf(phi, |s|));
    QuantileIs(phi, Times(values, n), Repeated(s, n), RankOf(phi, |Repeated(s, n)|));
    if phi == 0.5 {
      MedianIsMiddle(s);
      MedianIsMiddle(Repeated(s, n));
      MiddleOfCopies(s, n);
    } else {
      FirstAndLast(phi, s, n);
    }
  }

  /** Two resources, of value nought and of value one. */
  const NOUGHT_AND_ONE: seq<real> := [0.0, 1.0]

  lemma TwoValues(phi: real)
    requires IsShare(phi)
    ensures Quantile(phi, NOUGHT_AND_ONE) == phi
  {
    assert Sorted(NOUGHT_AND_ONE);
    SortedUnique(Sort(NOUGHT_AND_ONE), NOUGHT_AND_ONE);
    QuantileIs(phi, NOUGHT_AND_ONE, NOUGHT_AND_ONE, phi);
    if phi < 1.0 { assert phi.Floor == 0; }
  }

  lemma FourTimes()
    ensures Times(NOUGHT_AND_ONE, 2) == [0.0, 1.0, 0.0, 1.0]
  {
    TimesOne(NOUGHT_AND_ONE);
  }

  lemma FourSorted()
    ensures Sort([0.0, 1.0, 0.0, 1.0]) == [0.0, 0.0, 1.0, 1.0]
  {
    hide Sort;
    SortedUnique(Sort([0.0, 1.0, 0.0, 1.0]), [0.0, 0.0, 1.0, 1.0]);
  }

  /** What stands at three times the share among nought, nought, one, one. */
  lemma FourAt(phi: real)
    requires IsShare(phi)
    ensures AtRank([0.0, 0.0, 1.0, 1.0], 3.0 * phi)
         == if 3.0 * phi <= 1.0 then 0.0 else if 3.0 * phi < 2.0 then 3.0 * phi - 1.0 else 1.0
  {
    var rank := 3.0 * phi;
    if rank < 1.0 {
      assert rank.Floor == 0;
    } else if rank < 2.0 {
      assert rank.Floor == 1;
    } else if rank < 3.0 {
      assert rank.Floor == 2;
    }
  }

  lemma RankOfFour(phi: real)
    requires IsShare(phi)
    ensures RankOf(phi, 4) == 3.0 * phi
  {
  }

  lemma FourValues(phi: real)
    requires IsShare(phi)
    ensures var both := Times(NOUGHT_AND_ONE, 2);
            && both != []
            && Quantile(phi, both) == if 3.0 * phi <= 1.0 then 0.0 else if 3.0 * phi < 2.0 then 3.0 * phi - 1.0 else 1.0
  {
    hide Sort, Times, AtRank, Quantile;
    FourTimes();
    FourSorted();
    FourAt(phi);
    RankOfFour(phi);
    QuantileIs(phi, [0.0, 1.0, 0.0, 1.0], [0.0, 0.0, 1.0, 1.0], 3.0 * phi);
  }

  /**
   For a share: it ignores replicas in every group exactly when it is the least, the
   greatest or the median.
   */
  lemma ShareIgnoresReplicasIff(phi: real)
    requires IsShare(phi)
    ensures (forall values, n: nat | values != [] && n > 0 :: Ignores(phi, values, n)) <==> phi in {0.0, 0.5, 1.0}
  {
    if phi in {0.0, 0.5, 1.0} {
      forall values, n: nat | values != [] && n > 0
        ensures Ignores(phi, values, n)
      {
        FixedShareIgnores(phi, values, n);
      }
    } else {
      ShareMoves(phi);
    }
  }

  lemma ShareMoves(phi: real)
    requires IsShare(phi) && phi !in {0.0, 0.5, 1.0}
    ensures !Ignores(phi, NOUGHT_AND_ONE, 2)
  {
    TwoValues(phi);
    FourValues(phi);
  }
}
