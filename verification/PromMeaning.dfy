/**
 What an aggregation computes, and what happens to it when several identical
 replicas are scraped: the claim behind the gauge check.
 */
module PromMeaning {
  import opened PromShield

  type Labels = map<string, string>

  datatype Sample = Sample(labels: Labels, value: real)

  type Vector = seq<Sample>

  // ------------------------------------------------------------ lists

  function Map<T, U>(f: T -> U, s: seq<T>): (r: seq<U>)
    ensures |r| == |s| && forall k | 0 <= k < |s| :: r[k] == f(s[k])
  {
    seq(|s|, k requires 0 <= k < |s| => f(s[k]))
  }

  /** The elements of `s` in order of first occurrence. */
  function Dedup<T(==,!new)>(s: seq<T>): (r: seq<T>)
    ensures forall x :: x in r <==> x in s
    ensures forall i, j | 0 <= i < j < |r| :: r[i] != r[j]
  {
    if s == [] then []
    else
      var prefix := s[..|s| - 1];
      assert s == prefix + [s[|s| - 1]];
      if s[|s| - 1] in prefix then Dedup(prefix) else Dedup(prefix) + [s[|s| - 1]]
  }

  lemma DedupSnoc<T(!new)>(s: seq<T>, x: T)
    ensures Dedup(s + [x]) == if x in s then Dedup(s) else Dedup(s) + [x]
  {
    assert (s + [x])[..|s|] == s;
  }

  /** Deduplicating shortens a list exactly when something stands in it twice. */
  lemma {:induction false} DedupLength<T(!new)>(s: seq<T>)
    ensures |Dedup(s)| <= |s|
    ensures |Dedup(s)| == |s| <==> forall i, j | 0 <= i < j < |s| :: s[i] != s[j]
  {
    if s != [] {
      var last := |s| - 1;
      DedupLength(s[..last]);
      if s[last] in s[..last] {
        var i :| 0 <= i < last && s[i] == s[last];
      }
    }
  }

  /** A list of elements seen before adds nothing. */
  lemma {:induction false} DedupAbsorbs<T(!new)>(a: seq<T>, b: seq<T>)
    requires forall x | x in b :: x in a
    ensures Dedup(a + b) == Dedup(a)
  {
    if b == [] {
      assert a + b == a;
    } else {
      var last := |b| - 1;
      DedupAbsorbs(a, b[..last]);
      assert a + b == (a + b[..last]) + [b[last]];
      DedupSnoc(a + b[..last], b[last]);
    }
  }

  /** A list of new elements is deduplicated on its own. */
  lemma {:induction false} DedupAppends<T(!new)>(a: seq<T>, b: seq<T>)
    requires forall x | x in b :: x !in a
    ensures Dedup(a + b) == Dedup(a) + Dedup(b)
  {
    if b == [] {
      assert a + b == a;
    } else {
      var last := |b| - 1;
      DedupAppends(a, b[..last]);
      assert a + b == (a + b[..last]) + [b[last]];
      assert b == b[..last] + [b[last]];
      DedupSnoc(a + b[..last], b[last]);
      DedupSnoc(b[..last], b[last]);
    }
  }

  /** Deduplicating before a function changes nothing once its results are deduplicated. */
  lemma {:induction false} DedupThrough<T(!new), U(!new)>(f: T -> U, s: seq<T>)
    ensures Dedup(Map(f, Dedup(s))) == Dedup(Map(f, s))
  {
    if s != [] {
      var last := |s| - 1;
      var prefix := s[..last];
      assert s == prefix + [s[last]];
      DedupThrough(f, prefix);
      assert Map(f, s) == Map(f, prefix) + [f(s[last])];
      DedupSnoc(Map(f, prefix), f(s[last]));
      if s[last] in prefix {
        var k :| 0 <= k < |prefix| && prefix[k] == s[last];
        assert Map(f, prefix)[k] == f(s[last]);
      } else {
        assert Map(f, Dedup(s)) == Map(f, Dedup(prefix)) + [f(s[last])];
        DedupSnoc(Map(f, Dedup(prefix)), f(s[last]));
        SameElements(f, prefix, Dedup(prefix));
      }
    }
  }

  lemma SameElements<T(!new), U(!new)>(f: T -> U, a: seq<T>, b: seq<T>)
    requires forall x :: x in a <==> x in b
    ensures forall y :: y in Map(f, a) <==> y in Map(f, b)
  {
    forall y | y in Map(f, a)
      ensures y in Map(f, b)
    {
      var i :| 0 <= i < |a| && Map(f, a)[i] == y;
      assert a[i] in b;
      var j :| 0 <= j < |b| && b[j] == a[i];
      assert Map(f, b)[j] == y;
    }
    forall y | y in Map(f, b)
      ensures y in Map(f, a)
    {
      var i :| 0 <= i < |b| && Map(f, b)[i] == y;
      assert b[i] in a;
      var j :| 0 <= j < |a| && a[j] == b[i];
      assert Map(f, a)[j] == y;
    }
  }

  // ------------------------------------------------------------ label sets

  /** The labels an aggregation with this modifier keeps. */
  function Project(grouping: Grouping, labels: Labels): (kept: Labels)
    ensures kept.Keys <= labels.Keys
  {
    map name | name in labels && Keeps(grouping, name) :: labels[name]
  }

  function Projection(grouping: Grouping): Labels -> Labels {
    labels => Project(grouping, labels)
  }

  lemma ProjectJoined(grouping: Grouping, a: Labels, b: Labels)
    ensures Project(grouping, a + b) == Project(grouping, a) + Project(grouping, b)
  {
  }

  predicate IsTag(tag: Labels) {
    tag.Keys <= REPLICA_LABELS
  }

  predicate IsResource(labels: Labels) {
    labels.Keys !! REPLICA_LABELS
  }

  /** Resource labels and replica labels never mix, so a joined label set splits one way. */
  lemma JoinInjective(a: Labels, b: Labels, p: Labels, q: Labels)
    requires IsResource(a) && IsResource(b) && IsTag(p) && IsTag(q)
    ensures a + p == b + q <==> a == b && p == q
  {
    if a + p == b + q {
      forall name | name in a
        ensures name in b && a[name] == b[name]
      {
        assert name !in p && name !in q;
        assert name in (a + p).Keys && (a + p)[name] == a[name];
        assert name in (b + q).Keys;
      }
      forall name | name in b
        ensures name in a && a[name] == b[name]
      {
        assert name !in p && name !in q;
        assert name in (b + q).Keys && (b + q)[name] == b[name];
        assert name in (a + p).Keys;
      }
      forall name | name in p
        ensures name in q && p[name] == q[name]
      {
        assert name !in a && name !in b;
        assert name in (a + p).Keys && (a + p)[name] == p[name];
        assert name in (b + q).Keys;
      }
      forall name | name in q
        ensures name in p && p[name] == q[name]
      {
        assert name !in a && name !in b;
        assert name in (b + q).Keys && (b + q)[name] == q[name];
        assert name in (a + p).Keys;
      }
      assert a == b && p == q;
    }
  }

  // ------------------------------------------------------------ scraping

  function Tagging(tag: Labels): Sample -> Sample {
    (s: Sample) => Sample(s.labels + tag, s.value)
  }

  function Tagged(v: Vector, tag: Labels): Vector {
    Map(Tagging(tag), v)
  }

  /** What Prometheus holds when every replica publishes `v`. */
  function Scrape(v: Vector, replicas: seq<Labels>): Vector {
    if replicas == [] then []
    else Scrape(v, replicas[..|replicas| - 1]) + Tagged(v, replicas[|replicas| - 1])
  }

  predicate OnlyResources(v: Vector) {
    forall k | 0 <= k < |v| :: IsResource(v[k].labels)
  }

  predicate OnlyTags(replicas: seq<Labels>) {
    forall k | 0 <= k < |replicas| :: IsTag(replicas[k])
  }

  /** One replica without labels of its own is the vector itself. */
  lemma ScrapeOnce(v: Vector)
    ensures Scrape(v, [map[]]) == v
  {
    var none: Labels := map[];
    assert [none][..0] == [];
    assert Scrape(v, [none]) == Scrape(v, []) + Tagged(v, none);
    forall k | 0 <= k < |v|
      ensures Tagged(v, none)[k] == v[k]
    {
      assert v[k].labels + none == v[k].labels;
    }
  }

  // ------------------------------------------------------------ aggregation

  function Keying(grouping: Grouping): Sample -> Labels {
    (s: Sample) => Project(grouping, s.labels)
  }

  function KeysOf(grouping: Grouping, v: Vector): seq<Labels> {
    Map(Keying(grouping), v)
  }

  /** The values of one group, in order. */
  function Group(v: Vector, grouping: Grouping, key: Labels): seq<real> {
    if v == [] then []
    else
      var last := v[|v| - 1];
      Group(v[..|v| - 1], grouping, key) + if Project(grouping, last.labels) == key then [last.value] else []
  }

  function Sum(values: seq<real>): real {
    if values == [] then 0.0 else Sum(values[..|values| - 1]) + values[|values| - 1]
  }

  function Greatest(values: seq<real>): real
    requires values != []
  {
    if |values| == 1 then values[0]
    else
      var rest := Greatest(values[..|values| - 1]);
      if values[|values| - 1] > rest then values[|values| - 1] else rest
  }

  function Negated(values: seq<real>): seq<real> {
    Map(x => -x, values)
  }

  /** The operators that turn one group into one value. */
  const REDUCERS: set<string> := {"sum", "count", "max", "min", "avg", "group"}

  /** The reducers that give the same for any number of copies of a group. */
  const STABLE_REDUCERS: set<string> := {"max", "min", "avg", "group"}

  function Reduce(op: string, values: seq<real>): real
    requires op in REDUCERS && values != []
  {
    if op == "sum" then Sum(values)
    else if op == "count" then |values| as real
    else if op == "max" then Greatest(values)
    else if op == "min" then -Greatest(Negated(values))
    else if op == "avg" then Sum(values) / |values| as real
    else 1.0
  }

  function Reducing(op: string, v: Vector, grouping: Grouping): Labels -> Sample
    requires op in REDUCERS
  {
    key => Sample(key, if Group(v, grouping, key) == [] then 0.0 else Reduce(op, Group(v, grouping, key)))
  }

  /** One sample for every distinct kept label set, in order of first occurrence. */
  function Aggregate(op: string, grouping: Grouping, v: Vector): Vector
    requires op in REDUCERS
  {
    Map(Reducing(op, v, grouping), Dedup(KeysOf(grouping, v)))
  }

  // ------------------------------------------------------------ aggregation commutes with scraping

  function Joining(tag: Labels): Labels -> Labels {
    key => key + tag
  }

  /** Every key with every tag, tag by tag. */
  function Cross(keys: seq<Labels>, tags: seq<Labels>): seq<Labels> {
    if tags == [] then []
    else Cross(keys, tags[..|tags| - 1]) + Map(Joining(tags[|tags| - 1]), keys)
  }

  predicate AllResources(keys: seq<Labels>) {
    forall k | 0 <= k < |keys| :: IsResource(keys[k])
  }

  lemma KeysOfTagged(grouping: Grouping, v: Vector, tag: Labels)
    ensures KeysOf(grouping, Tagged(v, tag)) == Map(Joining(Project(grouping, tag)), KeysOf(grouping, v))
  {
    forall k | 0 <= k < |v|
      ensures KeysOf(grouping, Tagged(v, tag))[k] == Map(Joining(Project(grouping, tag)), KeysOf(grouping, v))[k]
    {
      ProjectJoined(grouping, v[k].labels, tag);
    }
  }

  lemma KeysOfConcat(grouping: Grouping, a: Vector, b: Vector)
    ensures KeysOf(grouping, a + b) == KeysOf(grouping, a) + KeysOf(grouping, b)
  {
  }

  lemma {:induction false} KeysOfScrape(grouping: Grouping, v: Vector, tags: seq<Labels>)
    ensures KeysOf(grouping, Scrape(v, tags)) == Cross(KeysOf(grouping, v), Map(Projection(grouping), tags))
  {
    if tags != [] {
      var last := tags[|tags| - 1];
      var prefix := tags[..|tags| - 1];
      KeysOfScrape(grouping, v, prefix);
      assert Map(Projection(grouping), tags)[..|tags| - 1] == Map(Projection(grouping), prefix);
      KeysOfTagged(grouping, v, last);
      KeysOfConcat(grouping, Scrape(v, prefix), Tagged(v, last));
    }
  }

  /** A joined label set stands in the product exactly when both halves stand in theirs. */
  lemma {:induction false} InCross(keys: seq<Labels>, tags: seq<Labels>, key: Labels, tag: Labels)
    requires AllResources(keys) && OnlyTags(tags) && IsResource(key) && IsTag(tag)
    ensures key + tag in Cross(keys, tags) <==> key in keys && tag in tags
  {
    if tags != [] {
      var last := tags[|tags| - 1];
      var prefix := tags[..|tags| - 1];
      InCross(keys, prefix, key, tag);
      var joined := Map(Joining(last), keys);
      assert tags == prefix + [last];
      forall k | 0 <= k < |keys|
        ensures joined[k] == key + tag <==> keys[k] == key && last == tag
      {
        JoinInjective(keys[k], key, last, tag);
      }
      assert key + tag in joined <==> exists k :: 0 <= k < |joined| && joined[k] == key + tag;
      assert key in keys <==> exists k :: 0 <= k < |keys| && keys[k] == key;
      if key in keys && tag == last {
        var k :| 0 <= k < |keys| && keys[k] == key;
        assert joined[k] == key + tag;
      }
    }
  }

  lemma JoinedStands(keys: seq<Labels>, key: Labels, tag: Labels)
    requires AllResources(keys) && IsResource(key) && IsTag(tag)
    ensures key + tag in Map(Joining(tag), keys) <==> key in keys
  {
    var joined := Map(Joining(tag), keys);
    forall k | 0 <= k < |keys|
      ensures joined[k] == key + tag <==> keys[k] == key
    {
      JoinInjective(keys[k], key, tag, tag);
    }
    if key in keys {
      var k :| 0 <= k < |keys| && keys[k] == key;
      assert joined[k] == key + tag;
    }
  }

  lemma {:induction false} DedupJoined(keys: seq<Labels>, tag: Labels)
    requires AllResources(keys) && IsTag(tag)
    ensures Dedup(Map(Joining(tag), keys)) == Map(Joining(tag), Dedup(keys))
  {
    if keys != [] {
      var last := keys[|keys| - 1];
      var prefix := keys[..|keys| - 1];
      DedupJoined(prefix, tag);
      assert keys == prefix + [last];
      var joined := Map(Joining(tag), prefix);
      assert Map(Joining(tag), keys) == joined + [last + tag];
      JoinedStands(prefix, last, tag);
      DedupSnoc(joined, last + tag);
      assert Map(Joining(tag), Dedup(prefix) + [last]) == Map(Joining(tag), Dedup(prefix)) + [last + tag];
    }
  }

  /** The distinct label sets of a product are the product of the distinct ones. */
  lemma {:induction false} DedupCross(keys: seq<Labels>, tags: seq<Labels>)
    requires AllResources(keys) && OnlyTags(tags)
    ensures Dedup(Cross(keys, tags)) == Cross(Dedup(keys), Dedup(tags))
  {
    if tags != [] {
      var last := tags[|tags| - 1];
      var prefix := tags[..|tags| - 1];
      DedupCross(keys, prefix);
      assert tags == prefix + [last];
      var joined := Map(Joining(last), keys);
      forall x | x in joined
        ensures x in Cross(keys, prefix) <==> last in prefix
      {
        var k :| 0 <= k < |joined| && joined[k] == x;
        InCross(keys, prefix, keys[k], last);
      }
      if last in prefix {
        DedupAbsorbs(Cross(keys, prefix), joined);
      } else {
        DedupAppends(Cross(keys, prefix), joined);
        DedupJoined(keys, last);
        assert (Dedup(prefix) + [last])[..|Dedup(prefix)|] == Dedup(prefix);
      }
    }
  }

  function Times(values: seq<real>, n: nat): seq<real> {
    if n == 0 then [] else Times(values, n - 1) + values
  }

  function Count(tags: seq<Labels>, tag: Labels): (n: nat)
    ensures n > 0 <==> tag in tags
  {
    if tags == [] then 0
    else
      assert tags == tags[..|tags| - 1] + [tags[|tags| - 1]];
      Count(tags[..|tags| - 1], tag) + if tags[|tags| - 1] == tag then 1 else 0
  }

  lemma {:induction false} GroupConcat(a: Vector, b: Vector, grouping: Grouping, key: Labels)
    ensures Group(a + b, grouping, key) == Group(a, grouping, key) + Group(b, grouping, key)
  {
    if b == [] {
      assert a + b == a;
    } else {
      GroupConcat(a, b[..|b| - 1], grouping, key);
      assert (a + b)[..|a + b| - 1] == a + b[..|b| - 1];
    }
  }

  lemma {:induction false} GroupTagged(v: Vector, tag: Labels, grouping: Grouping, key: Labels, kept: Labels)
    requires OnlyResources(v) && IsTag(tag) && IsResource(key) && IsTag(kept)
    ensures Group(Tagged(v, tag), grouping, key + kept)
         == if Project(grouping, tag) == kept then Group(v, grouping, key) else []
  {
    if v != [] {
      var last := v[|v| - 1];
      var prefix := v[..|v| - 1];
      GroupTagged(prefix, tag, grouping, key, kept);
      assert Tagged(v, tag)[..|v| - 1] == Tagged(prefix, tag);
      ProjectJoined(grouping, last.labels, tag);
      JoinInjective(Project(grouping, last.labels), key, Project(grouping, tag), kept);
    }
  }

  /** A group of the scraped vector holds one copy of the group per replica that shares the kept labels. */
  lemma {:induction false} GroupScrape(v: Vector, tags: seq<Labels>, grouping: Grouping, key: Labels, kept: Labels)
    requires OnlyResources(v) && OnlyTags(tags) && IsResource(key) && IsTag(kept)
    ensures Group(Scrape(v, tags), grouping, key + kept)
         == Times(Group(v, grouping, key), Count(Map(Projection(grouping), tags), kept))
  {
    if tags != [] {
      var last := tags[|tags| - 1];
      var prefix := tags[..|tags| - 1];
      GroupScrape(v, prefix, grouping, key, kept);
      GroupConcat(Scrape(v, prefix), Tagged(v, last), grouping, key + kept);
      GroupTagged(v, last, grouping, key, kept);
      assert Map(Projection(grouping), tags)[..|tags| - 1] == Map(Projection(grouping), prefix);
    }
  }

  lemma {:induction false} SumConcat(a: seq<real>, b: seq<real>)
    ensures Sum(a + b) == Sum(a) + Sum(b)
  {
    if b == [] {
      assert a + b == a;
    } else {
      SumConcat(a, b[..|b| - 1]);
      assert (a + b)[..|a + b| - 1] == a + b[..|b| - 1];
    }
  }

  /** `n` times `x`. */
  function Many(n: nat, x: real): real {
    if n == 0 then 0.0 else Many(n - 1, x) + x
  }

  lemma {:induction false} ManyIsProduct(n: nat, x: real)
    ensures Many(n, x) == n as real * x
  {
    if n > 0 {
      ManyIsProduct(n - 1, x);
      var m := (n - 1) as real;
      assert n as real == m + 1.0;
      assert (m + 1.0) * x == m * x + x;
    }
  }

  lemma {:induction false} SumTimes(values: seq<real>, n: nat)
    ensures Sum(Times(values, n)) == Many(n, Sum(values))
  {
    if n > 0 {
      SumTimes(values, n - 1);
      SumConcat(Times(values, n - 1), values);
    }
  }

  lemma {:induction false} CountTimes(values: seq<real>, n: nat)
    ensures |Times(values, n)| as real == Many(n, |values| as real)
  {
    if n > 0 { CountTimes(values, n - 1); }
  }

  lemma {:induction false} GreatestConcat(a: seq<real>, b: seq<real>)
    requires a != [] && b != []
    ensures Greatest(a + b) == if Greatest(b) > Greatest(a) then Greatest(b) else Greatest(a)
  {
    assert (a + b)[..|a + b| - 1] == a + b[..|b| - 1];
    if |b| > 1 {
      GreatestConcat(a, b[..|b| - 1]);
    } else {
      assert a + b[..0] == a;
    }
  }

  lemma {:induction false} GreatestTimes(values: seq<real>, n: nat)
    requires values != [] && n > 0
    ensures Times(values, n) != [] && Greatest(Times(values, n)) == Greatest(values)
  {
    if n == 1 {
      assert Times(values, 0) + values == values;
    } else {
      GreatestTimes(values, n - 1);
      GreatestConcat(Times(values, n - 1), values);
    }
  }

  lemma {:induction false} NegatedTimes(values: seq<real>, n: nat)
    ensures Negated(Times(values, n)) == Times(Negated(values), n)
  {
    if n > 0 { NegatedTimes(values, n - 1); }
  }

  lemma ManyOverMany(n: nat, sum: real, length: real)
    requires n > 0 && length > 0.0
    ensures Many(n, length) != 0.0 && Many(n, sum) / Many(n, length) == sum / length
  {
    ManyIsProduct(n, sum);
    ManyIsProduct(n, length);
    CommonFactor(n as real, sum, length);
  }

  lemma CommonFactor(a: real, sum: real, length: real)
    requires a > 0.0 && length > 0.0
    ensures a * length > 0.0 && (a * sum) / (a * length) == sum / length
  {
    var mean := sum / length;
    assert sum == mean * length;
    assert a * (mean * length) == mean * (a * length);
    assert (mean * (a * length)) / (a * length) == mean;
  }

  lemma MeanTimes(values: seq<real>, n: nat)
    requires values != [] && n > 0
    ensures Times(values, n) != []
    ensures Sum(Times(values, n)) / |Times(values, n)| as real == Sum(values) / |values| as real
  {
    SumTimes(values, n);
    CountTimes(values, n);
    GreatestTimes(values, n);
    ManyOverMany(n, Sum(values), |values| as real);
  }

  /** A stable reducer gives the same for any number of copies of the group. */
  lemma ReduceTimes(op: string, values: seq<real>, n: nat)
    requires op in STABLE_REDUCERS && values != [] && n > 0
    ensures Times(values, n) != [] && Reduce(op, Times(values, n)) == Reduce(op, values)
  {
    if op == "max" {
      GreatestTimes(values, n);
    } else if op == "min" {
      NegatedTimes(values, n);
      GreatestTimes(Negated(values), n);
    } else if op == "avg" {
      MeanTimes(values, n);
    } else {
      GreatestTimes(values, n);
    }
  }

  /** What every replica shares with the projection of its labels. */
  function Kept(grouping: Grouping, tags: seq<Labels>): (kept: seq<Labels>)
    requires OnlyTags(tags)
    ensures OnlyTags(kept) && (tags != [] ==> kept != [])
    ensures kept == Dedup(Map(Projection(grouping), tags))
  {
    var all := Map(Projection(grouping), tags);
    assert tags != [] ==> all[0] in Dedup(all);
    assert forall k | 0 <= k < |Dedup(all)| :: Dedup(all)[k] in all;
    Dedup(all)
  }

  lemma {:induction false} GroupFound(v: Vector, grouping: Grouping, key: Labels)
    requires key in KeysOf(grouping, v)
    ensures Group(v, grouping, key) != []
  {
    if v != [] {
      var last := v[|v| - 1];
      assert KeysOf(grouping, v) == KeysOf(grouping, v[..|v| - 1]) + [Project(grouping, last.labels)];
      if Project(grouping, last.labels) != key { GroupFound(v[..|v| - 1], grouping, key); }
    }
  }

  lemma KeysAreResources(grouping: Grouping, v: Vector)
    requires OnlyResources(v)
    ensures AllResources(KeysOf(grouping, v)) && AllResources(Dedup(KeysOf(grouping, v)))
  {
    var keys := KeysOf(grouping, v);
    forall k | 0 <= k < |keys|
      ensures IsResource(keys[k])
    {
      assert keys[k] == Project(grouping, v[k].labels);
    }
    forall k | 0 <= k < |Dedup(keys)|
      ensures IsResource(Dedup(keys)[k])
    {
      assert Dedup(keys)[k] in keys;
    }
  }

  predicate AllIn(part: seq<Labels>, whole: seq<Labels>) {
    forall k | 0 <= k < |part| :: part[k] in whole
  }

  /** One sample of the scraped vector is the sample of the vector with the kept labels added. */
  lemma ReduceOne(op: string, grouping: Grouping, v: Vector, tags: seq<Labels>, key: Labels, kept: Labels)
    requires op in REDUCERS && OnlyResources(v) && OnlyTags(tags) && IsResource(key) && IsTag(kept)
    requires key in KeysOf(grouping, v) && kept in Map(Projection(grouping), tags)
    requires op in STABLE_REDUCERS || Separates(grouping, tags)
    ensures Reducing(op, Scrape(v, tags), grouping)(key + kept) == Tagging(kept)(Reducing(op, v, grouping)(key))
  {
    var values, n := Group(v, grouping, key), Count(Map(Projection(grouping), tags), kept);
    GroupFound(v, grouping, key);
    GroupScrape(v, tags, grouping, key, kept);
    if op in STABLE_REDUCERS {
      ReduceTimes(op, values, n);
    } else {
      CountOnce(Map(Projection(grouping), tags), kept);
      TimesOne(values);
    }
    ReducingAt(op, grouping, v, key, values);
    ReducingAt(op, grouping, Scrape(v, tags), key + kept, Times(values, n));
  }

  lemma TimesOne(values: seq<real>)
    ensures Times(values, 1) == values
  {
    assert Times(values, 1) == Times(values, 0) + values;
  }

  /** Whatever the modifier drops, it tells the same label sets apart. */
  predicate Separates(grouping: Grouping, tags: seq<Labels>)
    requires OnlyTags(tags)
  {
    |Kept(grouping, tags)| == |tags|
  }

  lemma {:induction false} CountOnce(tags: seq<Labels>, tag: Labels)
    requires |Dedup(tags)| == |tags| && tag in tags
    ensures Count(tags, tag) == 1
  {
    DedupLength(tags);
    var prefix := tags[..|tags| - 1];
    assert tags == prefix + [tags[|tags| - 1]];
    if tag in prefix {
      DedupLength(prefix);
      CountOnce(prefix, tag);
      var k :| 0 <= k < |prefix| && prefix[k] == tag;
      assert tags[k] != tags[|tags| - 1];
    }
  }

  /** `scraped` gives every joined label set what `once` gives its first half. */
  predicate Agrees(scraped: Labels -> Sample, once: Labels -> Sample, keys: seq<Labels>, kept: seq<Labels>) {
    forall i, j | 0 <= i < |keys| && 0 <= j < |kept| ::
      scraped(keys[i] + kept[j]) == Tagging(kept[j])(once(keys[i]))
  }

  lemma {:induction false} EmitCross(scraped: Labels -> Sample, once: Labels -> Sample,
                                     keys: seq<Labels>, kept: seq<Labels>)
    requires Agrees(scraped, once, keys, kept)
    ensures Map(scraped, Cross(keys, kept)) == Scrape(Map(once, keys), kept)
  {
    if kept != [] {
      var last := kept[|kept| - 1];
      var prefix := kept[..|kept| - 1];
      EmitCross(scraped, once, keys, prefix);
      assert Map(scraped, Map(Joining(last), keys)) == Tagged(Map(once, keys), last);
      assert Map(scraped, Cross(keys, prefix) + Map(Joining(last), keys))
          == Map(scraped, Cross(keys, prefix)) + Map(scraped, Map(Joining(last), keys));
    }
  }

  /**
   Aggregating what the replicas publish gives what the replicas would publish of the
   aggregate, one copy for every distinct set of labels the modifier keeps. Adding and
   counting do so where no two replicas fall together.
   */
  lemma AggregateScrape(op: string, grouping: Grouping, v: Vector, tags: seq<Labels>)
    requires op in REDUCERS && OnlyResources(v) && OnlyTags(tags)
    requires op in STABLE_REDUCERS || Separates(grouping, tags)
    ensures Aggregate(op, grouping, Scrape(v, tags)) == Scrape(Aggregate(op, grouping, v), Kept(grouping, tags))
  {
    var keys := Dedup(KeysOf(grouping, v));
    var kept := Kept(grouping, tags);
    KeysOfScrape(grouping, v, tags);
    KeysAreResources(grouping, v);
    DedupCross(KeysOf(grouping, v), Map(Projection(grouping), tags));
    var scraped := Reducing(op, Scrape(v, tags), grouping);
    var once := Reducing(op, v, grouping);
    forall i, j | 0 <= i < |keys| && 0 <= j < |kept|
      ensures scraped(keys[i] + kept[j]) == Tagging(kept[j])(once(keys[i]))
    {
      assert keys[i] in keys && kept[j] in kept;
      ReduceOne(op, grouping, v, tags, keys[i], kept[j]);
    }
    EmitCross(scraped, once, keys, kept);
  }

  lemma AggregateIsResource(op: string, grouping: Grouping, v: Vector)
    requires op in REDUCERS && OnlyResources(v)
    ensures OnlyResources(Aggregate(op, grouping, v))
  {
    KeysAreResources(grouping, v);
  }

  function Scaling(n: nat): Sample -> Sample {
    (s: Sample) => Sample(s.labels, Many(n, s.value))
  }

  /** Every value multiplied. */
  function Scaled(v: Vector, n: nat): Vector {
    Map(Scaling(n), v)
  }

  predicate DropsAll(grouping: Grouping, tags: seq<Labels>) {
    forall k | 0 <= k < |tags| :: Project(grouping, tags[k]) == map[]
  }

  lemma {:induction false} CountAll(tags: seq<Labels>)
    requires forall k | 0 <= k < |tags| :: tags[k] == map[]
    ensures Count(tags, map[]) == |tags|
  {
    if tags != [] { CountAll(tags[..|tags| - 1]); }
  }

  lemma {:induction false} DedupSame(tags: seq<Labels>)
    requires tags != [] && forall k | 0 <= k < |tags| :: tags[k] == map[]
    ensures Dedup(tags) == [map[]]
  {
    if |tags| > 1 {
      DedupSame(tags[..|tags| - 1]);
      assert tags[0] in tags[..|tags| - 1];
    } else {
      assert tags[..0] == [];
      assert Dedup(tags) == Dedup(tags[..0]) + [tags[0]];
    }
  }

  lemma CrossOnce(keys: seq<Labels>)
    ensures Cross(keys, [map[]]) == keys
  {
    var none: Labels := map[];
    assert [none][..0] == [];
    assert Cross(keys, [none]) == Cross(keys, []) + Map(Joining(none), keys);
    forall k | 0 <= k < |keys|
      ensures Map(Joining(none), keys)[k] == keys[k]
    {
      assert keys[k] + none == keys[k];
    }
  }

  lemma SumOfCopies(values: seq<real>, n: nat)
    requires values != [] && n > 0
    ensures Times(values, n) != [] && Reduce("sum", Times(values, n)) == Many(n, Reduce("sum", values))
  {
    SumTimes(values, n);
    GreatestTimes(values, n);
  }

  lemma CountOfCopies(values: seq<real>, n: nat)
    requires values != [] && n > 0
    ensures Times(values, n) != [] && Reduce("count", Times(values, n)) == Many(n, Reduce("count", values))
  {
    CountTimes(values, n);
    GreatestTimes(values, n);
  }

  lemma ReducingAt(op: string, grouping: Grouping, v: Vector, key: Labels, values: seq<real>)
    requires op in REDUCERS && values == Group(v, grouping, key) && values != []
    ensures Reducing(op, v, grouping)(key) == Sample(key, Reduce(op, values))
  {
  }

  lemma CopiesInGroup(grouping: Grouping, v: Vector, tags: seq<Labels>, key: Labels)
    requires OnlyResources(v) && OnlyTags(tags) && IsResource(key) && DropsAll(grouping, tags)
    ensures Group(Scrape(v, tags), grouping, key) == Times(Group(v, grouping, key), |tags|)
  {
    GroupScrape(v, tags, grouping, key, map[]);
    assert key + map[] == key;
    CountAll(Map(Projection(grouping), tags));
  }

  lemma AddOne(op: string, grouping: Grouping, v: Vector, tags: seq<Labels>, key: Labels, values: seq<real>)
    requires op in {"sum", "count"} && OnlyResources(v) && OnlyTags(tags) && IsResource(key)
    requires tags != [] && DropsAll(grouping, tags) && key in KeysOf(grouping, v)
    requires values == Group(v, grouping, key)
    ensures Reducing(op, Scrape(v, tags), grouping)(key) == Scaling(|tags|)(Reducing(op, v, grouping)(key))
  {
    GroupFound(v, grouping, key);
    CopiesInGroup(grouping, v, tags, key);
    if op == "sum" { SumOfCopies(values, |tags|); } else { CountOfCopies(values, |tags|); }
    ReducingAt(op, grouping, v, key, values);
    ReducingAt(op, grouping, Scrape(v, tags), key, Times(values, |tags|));
  }

  /** A modifier that drops what tells the replicas apart sees the keys of one. */
  lemma KeysOfCopies(grouping: Grouping, v: Vector, tags: seq<Labels>)
    requires OnlyResources(v) && OnlyTags(tags) && tags != [] && DropsAll(grouping, tags)
    ensures Dedup(KeysOf(grouping, Scrape(v, tags))) == Dedup(KeysOf(grouping, v))
  {
    var kept := Map(Projection(grouping), tags);
    KeysOfScrape(grouping, v, tags);
    KeysAreResources(grouping, v);
    DedupCross(KeysOf(grouping, v), kept);
    DedupSame(kept);
    CrossOnce(Dedup(KeysOf(grouping, v)));
  }

  /** Adding or counting what the replicas publish multiplies the result by their number. */
  lemma AddingScrape(op: string, grouping: Grouping, v: Vector, tags: seq<Labels>)
    requires op in {"sum", "count"} && OnlyResources(v) && OnlyTags(tags)
    requires tags != [] && DropsAll(grouping, tags)
    ensures Aggregate(op, grouping, Scrape(v, tags)) == Scaled(Aggregate(op, grouping, v), |tags|)
  {
    var keys := Dedup(KeysOf(grouping, v));
    KeysOfCopies(grouping, v, tags);
    KeysAreResources(grouping, v);
    var scraped := Reducing(op, Scrape(v, tags), grouping);
    var once := Reducing(op, v, grouping);
    forall k | 0 <= k < |keys|
      ensures scraped(keys[k]) == Scaling(|tags|)(once(keys[k]))
    {
      assert keys[k] in keys;
      AddOne(op, grouping, v, tags, keys[k], Group(v, grouping, keys[k]));
    }
    assert Map(scraped, keys) == Map(Scaling(|tags|), Map(once, keys));
  }

  // ------------------------------------------------------------ expressions

  /**
   The parts of PromQL the claim does not depend on: any meaning will do. A function of one
   series gives it a value and may give it other labels.
   */
  datatype World = World(perSeries: (string, real) -> real, relabel: (string, Labels) -> Labels,
                         paired: (real, real) -> real, other: (string, Grouping, Vector) -> Vector)

  function Applying(world: World, fn: string): Sample -> Sample {
    (s: Sample) => Sample(world.relabel(fn, s.labels), world.perSeries(fn, s.value))
  }

  /** What the function makes of the resource labels does not depend on the replica's, which it keeps. */
  predicate KeepsTag(world: World, fn: string, key: Labels, tag: Labels) {
    IsResource(world.relabel(fn, key)) && world.relabel(fn, key + tag) == world.relabel(fn, key) + tag
  }

  ghost predicate LeavesReplicas(world: World, fn: string) {
    forall key, tag | IsResource(key) && IsTag(tag) :: KeepsTag(world, fn, key, tag)
  }

  /** No function of the expression touches replica labels or reads them into others. */
  ghost predicate LeavesLabels(e: Expr, world: World) {
    match e
    case Metric(_) => true
    case PerSeries(fn, arg) => LeavesReplicas(world, fn) && LeavesLabels(arg, world)
    case Paired(left, right) => LeavesLabels(left, world) && LeavesLabels(right, world)
    case Agg(_, _, arg) => LeavesLabels(arg, world)
  }

  /** The first value under a label set. */
  function Lookup(v: Vector, labels: Labels): seq<real> {
    if v == [] then [] else if v[0].labels == labels then [v[0].value] else Lookup(v[1..], labels)
  }

  function PairOne(world: World, s: Sample, right: Vector): Vector {
    var found := Lookup(right, s.labels);
    if found == [] then [] else [Sample(s.labels, world.paired(s.value, found[0]))]
  }

  /** One-to-one matching on all labels. */
  function Pair(world: World, left: Vector, right: Vector): Vector {
    if left == [] then []
    else Pair(world, left[..|left| - 1], right) + PairOne(world, left[|left| - 1], right)
  }

  function Denote(e: Expr, world: World, env: string -> Vector): Vector {
    match e
    case Metric(name) => env(name)
    case PerSeries(fn, arg) => Map(Applying(world, fn), Denote(arg, world, env))
    case Paired(left, right) => Pair(world, Denote(left, world, env), Denote(right, world, env))
    case Agg(op, grouping, arg) =>
      if op in REDUCERS then Aggregate(op, grouping, Denote(arg, world, env))
      else world.other(op, grouping, Denote(arg, world, env))
  }

  function Scraped(env: string -> Vector, replicas: seq<Labels>): string -> Vector {
    name => Scrape(env(name), replicas)
  }

  /** The replica labels a result can still carry. */
  function KeptNames(e: Expr): set<string> {
    match e
    case Metric(_) => REPLICA_LABELS
    case PerSeries(_, arg) => KeptNames(arg)
    case Paired(left, _) => KeptNames(left)
    case Agg(_, grouping, arg) => set name | name in KeptNames(arg) && Keeps(grouping, name)
  }

  function Only(names: set<string>): Labels -> Labels {
    (labels: Labels) => map name | name in labels && name in names :: labels[name]
  }

  /** The distinct replicas as far as a result still tells them apart. */
  function Apart(names: set<string>, replicas: seq<Labels>): seq<Labels> {
    Dedup(Map(Only(names), replicas))
  }

  /** Aggregations over one metric. */
  predicate Chain(e: Expr) {
    match e
    case Metric(_) => true
    case Agg(op, _, arg) => op in REDUCERS && Chain(arg)
    case _ => false
  }

  /** An aggregation that still tells apart the replicas its argument tells apart. */
  predicate KeepsApart(grouping: Grouping, arg: Expr, replicas: seq<Labels>) {
    |Apart(KeptNames(Agg("", grouping, arg)), replicas)| == |Apart(KeptNames(arg), replicas)|
  }

  /** In particular one that keeps every replica label its argument can still carry. */
  lemma KeepingKeepsApart(grouping: Grouping, arg: Expr, replicas: seq<Labels>)
    requires forall name | name in KeptNames(arg) :: Keeps(grouping, name)
    ensures KeepsApart(grouping, arg, replicas)
  {
    assert KeptNames(Agg("", grouping, arg)) == KeptNames(arg);
  }

  /**
   Nothing that makes replicas show: reducers that ignore copies, sums and counts that
   keep the replicas apart, counts and `group` over a chain whatever its values, and pairs
   that tell the same replicas apart.
   */
  predicate Commutes(e: Expr, replicas: seq<Labels>) {
    match e
    case Metric(_) => true
    case PerSeries(_, arg) => Commutes(arg, replicas)
    case Paired(left, right) =>
      && Commutes(left, replicas) && Commutes(right, replicas)
      && Apart(KeptNames(left), replicas) == Apart(KeptNames(right), replicas)
    case Agg(op, grouping, arg) =>
      && op in REDUCERS
      && (op in STABLE_REDUCERS || KeepsApart(grouping, arg, replicas))
      && (Commutes(arg, replicas) || (op in {"count", "group"} && Chain(arg)))
  }

  ghost predicate Resources(env: string -> Vector) {
    forall name :: OnlyResources(env(name))
  }

  predicate Replicas(replicas: seq<Labels>) {
    && replicas != [] && OnlyTags(replicas)
    && forall i, j | 0 <= i < j < |replicas| :: replicas[i] != replicas[j]
  }

  lemma ApartAreTags(names: set<string>, replicas: seq<Labels>)
    requires OnlyTags(replicas) && replicas != []
    ensures OnlyTags(Apart(names, replicas)) && Apart(names, replicas) != []
  {
    var all := Map(Only(names), replicas);
    assert all[0] in Dedup(all);
    forall k | 0 <= k < |Dedup(all)|
      ensures IsTag(Dedup(all)[k])
    {
      assert Dedup(all)[k] in all;
      var j :| 0 <= j < |all| && all[j] == Dedup(all)[k];
      assert all[j] == Only(names)(replicas[j]);
    }
  }

  lemma {:induction false} DedupDistinct<T(!new)>(s: seq<T>)
    requires forall i, j | 0 <= i < j < |s| :: s[i] != s[j]
    ensures Dedup(s) == s
  {
    if s != [] { DedupDistinct(s[..|s| - 1]); }
  }

  /** With all replica labels kept, distinct replicas stay apart. */
  lemma ApartWhole(replicas: seq<Labels>)
    requires Replicas(replicas)
    ensures Apart(REPLICA_LABELS, replicas) == replicas
  {
    forall k | 0 <= k < |replicas|
      ensures Only(REPLICA_LABELS)(replicas[k]) == replicas[k]
    {
      assert replicas[k].Keys <= REPLICA_LABELS;
    }
    assert Map(Only(REPLICA_LABELS), replicas) == replicas;
    DedupDistinct(replicas);
  }

  /** Projecting what is still told apart is telling apart by the names that are left. */
  lemma ApartProjected(grouping: Grouping, names: set<string>, replicas: seq<Labels>)
    requires OnlyTags(replicas) && replicas != []
    requires OnlyTags(Apart(names, replicas))
    ensures Kept(grouping, Apart(names, replicas))
         == Apart((set name | name in names && Keeps(grouping, name)), replicas)
  {
    var left := set name | name in names && Keeps(grouping, name);
    DedupThrough(Projection(grouping), Map(Only(names), replicas));
    forall k | 0 <= k < |replicas|
      ensures Project(grouping, Only(names)(replicas[k])) == Only(left)(replicas[k])
    {
    }
    assert Map(Projection(grouping), Map(Only(names), replicas)) == Map(Only(left), replicas);
  }

  lemma ApplyTagged(world: World, fn: string, v: Vector, tag: Labels)
    requires OnlyResources(v) && IsTag(tag) && LeavesReplicas(world, fn)
    ensures Map(Applying(world, fn), Tagged(v, tag)) == Tagged(Map(Applying(world, fn), v), tag)
  {
    forall k | 0 <= k < |v|
      ensures Applying(world, fn)(Tagging(tag)(v[k])) == Tagging(tag)(Applying(world, fn)(v[k]))
    {
      assert KeepsTag(world, fn, v[k].labels, tag);
    }
  }

  lemma AppliedAreResources(world: World, fn: string, v: Vector)
    requires OnlyResources(v) && LeavesReplicas(world, fn)
    ensures OnlyResources(Map(Applying(world, fn), v))
  {
    forall k | 0 <= k < |v|
      ensures IsResource(Applying(world, fn)(v[k]).labels)
    {
      assert KeepsTag(world, fn, v[k].labels, map[]);
    }
  }

  lemma {:induction false} ApplyScrape(world: World, fn: string, v: Vector, tags: seq<Labels>)
    requires OnlyResources(v) && OnlyTags(tags) && LeavesReplicas(world, fn)
    ensures Map(Applying(world, fn), Scrape(v, tags)) == Scrape(Map(Applying(world, fn), v), tags)
  {
    if tags != [] {
      var last := tags[|tags| - 1];
      var prefix := tags[..|tags| - 1];
      ApplyScrape(world, fn, v, prefix);
      ApplyTagged(world, fn, v, last);
      assert Map(Applying(world, fn), Scrape(v, prefix) + Tagged(v, last))
          == Map(Applying(world, fn), Scrape(v, prefix)) + Map(Applying(world, fn), Tagged(v, last));
    }
  }

  lemma {:induction false} LookupConcat(a: Vector, b: Vector, labels: Labels)
    ensures Lookup(a + b, labels) == if Lookup(a, labels) != [] then Lookup(a, labels) else Lookup(b, labels)
  {
    if a == [] {
      assert a + b == b;
    } else {
      LookupConcat(a[1..], b, labels);
      assert (a + b)[1..] == a[1..] + b;
    }
  }

  lemma {:induction false} LookupTagged(v: Vector, tag: Labels, key: Labels, kept: Labels)
    requires OnlyResources(v) && IsTag(tag) && IsResource(key) && IsTag(kept)
    ensures Lookup(Tagged(v, tag), key + kept) == if tag == kept then Lookup(v, key) else []
  {
    if v != [] {
      LookupTagged(v[1..], tag, key, kept);
      assert Tagged(v, tag)[1..] == Tagged(v[1..], tag);
      JoinInjective(v[0].labels, key, tag, kept);
    }
  }

  lemma {:induction false} LookupScrape(v: Vector, tags: seq<Labels>, key: Labels, kept: Labels)
    requires OnlyResources(v) && OnlyTags(tags) && IsResource(key) && IsTag(kept)
    ensures Lookup(Scrape(v, tags), key + kept) == if kept in tags then Lookup(v, key) else []
  {
    if tags != [] {
      var last := tags[|tags| - 1];
      var prefix := tags[..|tags| - 1];
      assert tags == prefix + [last];
      LookupScrape(v, prefix, key, kept);
      LookupConcat(Scrape(v, prefix), Tagged(v, last), key + kept);
      LookupTagged(v, last, key, kept);
    }
  }

  lemma {:induction false} PairConcat(world: World, a: Vector, b: Vector, right: Vector)
    ensures Pair(world, a + b, right) == Pair(world, a, right) + Pair(world, b, right)
  {
    hide PairOne;
    if b == [] {
      assert a + b == a;
    } else {
      PairConcat(world, a, b[..|b| - 1], right);
      assert (a + b)[..|a + b| - 1] == a + b[..|b| - 1];
    }
  }

  lemma PairOneTagged(world: World, s: Sample, right: Vector, tag: Labels, tags: seq<Labels>)
    requires IsResource(s.labels) && OnlyResources(right) && OnlyTags(tags) && IsTag(tag) && tag in tags
    ensures PairOne(world, Tagging(tag)(s), Scrape(right, tags)) == Tagged(PairOne(world, s, right), tag)
  {
    LookupScrape(right, tags, s.labels, tag);
  }

  lemma TaggedConcat(a: Vector, b: Vector, tag: Labels)
    ensures Tagged(a + b, tag) == Tagged(a, tag) + Tagged(b, tag)
  {
  }

  lemma {:induction false} PairTagged(world: World, left: Vector, right: Vector, tag: Labels, tags: seq<Labels>)
    requires OnlyResources(left) && OnlyResources(right) && OnlyTags(tags) && IsTag(tag) && tag in tags
    ensures Pair(world, Tagged(left, tag), Scrape(right, tags)) == Tagged(Pair(world, left, right), tag)
  {
    hide PairOne;
    if left != [] {
      var last := left[|left| - 1];
      var prefix := left[..|left| - 1];
      PairTagged(world, prefix, right, tag, tags);
      assert Tagged(left, tag)[..|left| - 1] == Tagged(prefix, tag);
      PairOneTagged(world, last, right, tag, tags);
      TaggedConcat(Pair(world, prefix, right), PairOne(world, last, right), tag);
    }
  }

  lemma {:induction false} PairScrape(world: World, left: Vector, right: Vector, tags: seq<Labels>, all: seq<Labels>)
    requires OnlyResources(left) && OnlyResources(right) && OnlyTags(tags) && OnlyTags(all) && AllIn(tags, all)
    ensures Pair(world, Scrape(left, tags), Scrape(right, all)) == Scrape(Pair(world, left, right), tags)
  {
    if tags != [] {
      var last := tags[|tags| - 1];
      var prefix := tags[..|tags| - 1];
      PairScrape(world, left, right, prefix, all);
      PairConcat(world, Scrape(left, prefix), Tagged(left, last), Scrape(right, all));
      PairTagged(world, left, right, last, all);
    }
  }

  lemma {:induction false} PairIsResource(world: World, left: Vector, right: Vector)
    requires OnlyResources(left)
    ensures OnlyResources(Pair(world, left, right))
  {
    if left != [] { PairIsResource(world, left[..|left| - 1], right); }
  }

  /** A world in which functions do nothing. */
  function AnyWorld(): World {
    World((fn, x) => x, (fn, labels) => labels, (x, y) => x, (op, grouping, v) => v)
  }

  /** No aggregation but the reducers. */
  predicate Reduces(e: Expr) {
    match e
    case Metric(_) => true
    case PerSeries(_, arg) => Reduces(arg)
    case Paired(left, right) => Reduces(left) && Reduces(right)
    case Agg(op, _, arg) => op in REDUCERS && Reduces(arg)
  }

  lemma {:induction false} ChainReduces(e: Expr, world: World)
    requires Chain(e)
    ensures Reduces(e) && LeavesLabels(e, world)
  {
    match e
    case Metric(_) =>
    case Agg(_, _, arg) => ChainReduces(arg, world);
  }

  lemma {:induction false} CommutingReduces(e: Expr, replicas: seq<Labels>)
    requires Commutes(e, replicas)
    ensures Reduces(e)
  {
    match e
    case Metric(_) =>
    case PerSeries(_, arg) => CommutingReduces(arg, replicas);
    case Paired(left, right) =>
      CommutingReduces(left, replicas);
      CommutingReduces(right, replicas);
    case Agg(_, _, arg) =>
      if Commutes(arg, replicas) { CommutingReduces(arg, replicas); } else { ChainReduces(arg, AnyWorld()); }
  }

  lemma {:induction false} DenotesResources(e: Expr, world: World, env: string -> Vector)
    requires Resources(env) && Reduces(e) && LeavesLabels(e, world)
    ensures OnlyResources(Denote(e, world, env))
  {
    match e
    case Metric(_) =>
    case PerSeries(fn, arg) =>
      DenotesResources(arg, world, env);
      AppliedAreResources(world, fn, Denote(arg, world, env));
    case Paired(left, right) =>
      DenotesResources(left, world, env);
      PairIsResource(world, Denote(left, world, env), Denote(right, world, env));
    case Agg(op, grouping, arg) =>
      DenotesResources(arg, world, env);
      AggregateIsResource(op, grouping, Denote(arg, world, env));
  }

  function LabelOf(): Sample -> Labels {
    (s: Sample) => s.labels
  }

  function LabelsOf(v: Vector): seq<Labels> {
    Map(LabelOf(), v)
  }

  lemma {:induction false} LabelsOfScrape(v: Vector, tags: seq<Labels>)
    ensures LabelsOf(Scrape(v, tags)) == Cross(LabelsOf(v), tags)
  {
    if tags != [] {
      var prefix, last := tags[..|tags| - 1], tags[|tags| - 1];
      LabelsOfScrape(v, prefix);
      assert LabelsOf(Tagged(v, last)) == Map(Joining(last), LabelsOf(v));
      assert LabelsOf(Scrape(v, prefix) + Tagged(v, last)) == LabelsOf(Scrape(v, prefix)) + LabelsOf(Tagged(v, last));
    }
  }

  lemma LabelsOfAggregate(op: string, grouping: Grouping, v: Vector)
    requires op in REDUCERS
    ensures LabelsOf(Aggregate(op, grouping, v)) == Dedup(KeysOf(grouping, v))
  {
  }

  lemma SameKeys(grouping: Grouping, a: Vector, b: Vector)
    requires LabelsOf(a) == LabelsOf(b)
    ensures KeysOf(grouping, a) == KeysOf(grouping, b)
  {
    forall k | 0 <= k < |a|
      ensures KeysOf(grouping, a)[k] == KeysOf(grouping, b)[k]
    {
      assert LabelsOf(a)[k] == LabelsOf(b)[k];
    }
  }

  lemma {:induction false} GroupSizes(grouping: Grouping, a: Vector, b: Vector, key: Labels)
    requires |a| == |b| && forall k | 0 <= k < |a| :: a[k].labels == b[k].labels
    ensures |Group(a, grouping, key)| == |Group(b, grouping, key)|
  {
    if a != [] {
      var n := |a| - 1;
      GroupSizes(grouping, a[..n], b[..n], key);
      assert a[n].labels == b[n].labels;
    }
  }

  lemma SameGroupSize(grouping: Grouping, a: Vector, b: Vector, key: Labels)
    requires LabelsOf(a) == LabelsOf(b)
    ensures |Group(a, grouping, key)| == |Group(b, grouping, key)|
  {
    assert |LabelsOf(a)| == |a| && |LabelsOf(b)| == |b|;
    forall k | 0 <= k < |a|
      ensures a[k].labels == b[k].labels
    {
      assert LabelsOf(a)[k] == LabelsOf(b)[k];
    }
    GroupSizes(grouping, a, b, key);
  }

  /** Counting and `group` look at labels alone. */
  lemma LabelsDecide(op: string, grouping: Grouping, a: Vector, b: Vector)
    requires op in {"count", "group"} && LabelsOf(a) == LabelsOf(b)
    ensures Aggregate(op, grouping, a) == Aggregate(op, grouping, b)
  {
    SameKeys(grouping, a, b);
    var keys := Dedup(KeysOf(grouping, a));
    forall k | 0 <= k < |keys|
      ensures Reducing(op, a, grouping)(keys[k]) == Reducing(op, b, grouping)(keys[k])
    {
      SameGroupSize(grouping, a, b, keys[k]);
    }
  }

  /** Whatever a chain does to the values, its labels are those of one copy per replica still told apart. */
  lemma {:induction false} ChainLabels(e: Expr, world: World, env: string -> Vector, replicas: seq<Labels>)
    requires Chain(e) && Resources(env) && Replicas(replicas)
    ensures LabelsOf(Denote(e, world, Scraped(env, replicas)))
         == LabelsOf(Scrape(Denote(e, world, env), Apart(KeptNames(e), replicas)))
  {
    match e
    case Metric(_) =>
      ApartWhole(replicas);
    case Agg(op, grouping, arg) =>
      ChainLabels(arg, world, env, replicas);
      ChainReduces(arg, world);
      DenotesResources(arg, world, env);
      ApartAfter(op, grouping, arg, replicas);
      AggregateLabels(op, grouping, Denote(arg, world, Scraped(env, replicas)), Denote(arg, world, env),
                      Apart(KeptNames(arg), replicas));
  }

  lemma AggregateLabels(op: string, grouping: Grouping, scraped: Vector, once: Vector, tags: seq<Labels>)
    requires op in REDUCERS && OnlyResources(once) && OnlyTags(tags)
    requires LabelsOf(scraped) == LabelsOf(Scrape(once, tags))
    ensures LabelsOf(Aggregate(op, grouping, scraped))
         == LabelsOf(Scrape(Aggregate(op, grouping, once), Kept(grouping, tags)))
  {
    SameKeys(grouping, scraped, Scrape(once, tags));
    LabelsOfAggregate(op, grouping, scraped);
    KeysOfScrape(grouping, once, tags);
    KeysAreResources(grouping, once);
    DedupCross(KeysOf(grouping, once), Map(Projection(grouping), tags));
    LabelsOfAggregate(op, grouping, once);
    LabelsOfScrape(Aggregate(op, grouping, once), Kept(grouping, tags));
  }

  /** One aggregation over an argument that is known on the scraped side, in full or by its labels. */
  lemma AggregateKnown(op: string, grouping: Grouping, scraped: Vector, once: Vector, tags: seq<Labels>)
    requires op in REDUCERS && OnlyResources(once) && OnlyTags(tags)
    requires op in STABLE_REDUCERS || Separates(grouping, tags)
    requires LabelsOf(scraped) == LabelsOf(Scrape(once, tags))
    requires op in {"count", "group"} || scraped == Scrape(once, tags)
    ensures Aggregate(op, grouping, scraped) == Scrape(Aggregate(op, grouping, once), Kept(grouping, tags))
  {
    hide Aggregate, Scrape, LabelsOf;
    AggregateScrape(op, grouping, once, tags);
    if op in {"count", "group"} { LabelsDecide(op, grouping, scraped, Scrape(once, tags)); }
  }

  lemma ApartAfter(op: string, grouping: Grouping, arg: Expr, replicas: seq<Labels>)
    requires Replicas(replicas)
    ensures OnlyTags(Apart(KeptNames(arg), replicas))
    ensures Kept(grouping, Apart(KeptNames(arg), replicas)) == Apart(KeptNames(Agg(op, grouping, arg)), replicas)
    ensures KeepsApart(grouping, arg, replicas) <==> Separates(grouping, Apart(KeptNames(arg), replicas))
  {
    ApartAreTags(KeptNames(arg), replicas);
    ApartProjected(grouping, KeptNames(arg), replicas);
  }

  /**
   Evaluating over scraped replicas gives what the replicas would publish of the value,
   once for every way the replicas can still be told apart.
   */
  lemma {:induction false} ScrapeCommutes(e: Expr, world: World, env: string -> Vector, replicas: seq<Labels>)
    requires Commutes(e, replicas) && LeavesLabels(e, world) && Resources(env) && Replicas(replicas)
    ensures Denote(e, world, Scraped(env, replicas)) == Scrape(Denote(e, world, env), Apart(KeptNames(e), replicas))
  {
    CommutingReduces(e, replicas);
    match e
    case Metric(_) =>
      ApartWhole(replicas);
    case PerSeries(fn, arg) =>
      ScrapeCommutes(arg, world, env, replicas);
      DenotesResources(arg, world, env);
      ApartAreTags(KeptNames(arg), replicas);
      ApplyScrape(world, fn, Denote(arg, world, env), Apart(KeptNames(arg), replicas));
    case Paired(left, right) =>
      ScrapeCommutes(left, world, env, replicas);
      ScrapeCommutes(right, world, env, replicas);
      DenotesResources(left, world, env);
      DenotesResources(right, world, env);
      var apart := Apart(KeptNames(left), replicas);
      ApartAreTags(KeptNames(left), replicas);
      PairScrape(world, Denote(left, world, env), Denote(right, world, env), apart, apart);
    case Agg(op, grouping, arg) =>
      DenotesResources(arg, world, env);
      if Commutes(arg, replicas) {
        ScrapeCommutes(arg, world, env, replicas);
      } else {
        ChainLabels(arg, world, env, replicas);
      }
      ApartAfter(op, grouping, arg, replicas);
      AggregateKnown(op, grouping, Denote(arg, world, Scraped(env, replicas)), Denote(arg, world, env),
                     Apart(KeptNames(arg), replicas));
  }

  // ------------------------------------------------------------ the claim

  /** Every gauge is read below an aggregation that commutes with scraping and leaves no replica label. */
  predicate Steady(e: Expr, replicas: seq<Labels>) {
    match e
    case Metric(_) => false
    case PerSeries(_, arg) => Steady(arg, replicas)
    case Paired(left, right) => Steady(left, replicas) && Steady(right, replicas)
    case Agg(op, _, arg) => Steady(arg, replicas) || (Commutes(e, replicas) && KeptNames(e) == {})
  }

  /** Below the aggregation that makes it steady, functions leave replica labels alone. */
  ghost predicate SteadyLabels(e: Expr, replicas: seq<Labels>, world: World) {
    match e
    case Metric(_) => true
    case PerSeries(_, arg) => SteadyLabels(arg, replicas, world)
    case Paired(left, right) => SteadyLabels(left, replicas, world) && SteadyLabels(right, replicas, world)
    case Agg(_, _, arg) =>
      if Steady(arg, replicas) then SteadyLabels(arg, replicas, world) else LeavesLabels(arg, world)
  }

  lemma {:induction false} LeavingIsSteady(e: Expr, replicas: seq<Labels>, world: World)
    requires LeavesLabels(e, world)
    ensures SteadyLabels(e, replicas, world)
  {
    match e
    case Metric(_) =>
    case PerSeries(_, arg) => LeavingIsSteady(arg, replicas, world);
    case Paired(left, right) =>
      LeavingIsSteady(left, replicas, world);
      LeavingIsSteady(right, replicas, world);
    case Agg(_, _, arg) => LeavingIsSteady(arg, replicas, world);
  }

  lemma ApartNone(replicas: seq<Labels>)
    requires replicas != []
    ensures Apart({}, replicas) == [map[]]
  {
    DedupSame(Map(Only({}), replicas));
  }

  /** A steady expression has the same value for every set of replicas as for the vectors themselves. */
  lemma {:induction false} SteadyIsExact(e: Expr, world: World, env: string -> Vector, replicas: seq<Labels>)
    requires Steady(e, replicas) && SteadyLabels(e, replicas, world) && Resources(env) && Replicas(replicas)
    ensures Denote(e, world, Scraped(env, replicas)) == Denote(e, world, env)
  {
    match e
    case PerSeries(_, arg) =>
      SteadyIsExact(arg, world, env, replicas);
    case Paired(left, right) =>
      SteadyIsExact(left, world, env, replicas);
      SteadyIsExact(right, world, env, replicas);
    case Agg(op, _, arg) =>
      if Steady(arg, replicas) {
        SteadyIsExact(arg, world, env, replicas);
      } else {
        ScrapeCommutes(e, world, env, replicas);
        ApartNone(replicas);
        ScrapeOnce(Denote(e, world, env));
      }
  }

  /**
   What the claim asks of the shields, beyond what the walk asks: an outermost shield is
   bare or a `by` and a modelled reducer, and what stands below it does not make replicas
   show.
   */
  predicate Sensible(e: Expr, replicas: seq<Labels>) {
    match e
    case Metric(_) => true
    case PerSeries(_, arg) => Sensible(arg, replicas)
    case Paired(left, right) => Sensible(left, replicas) && Sensible(right, replicas)
    case Agg(op, grouping, arg) =>
      if Collapses(op, grouping) then !grouping.Without? && Commutes(e, replicas)
      else Sensible(arg, replicas)
  }

  /** Below an outermost shield, functions leave replica labels alone; above, they may do as they like. */
  ghost predicate ShieldsLeaveLabels(e: Expr, world: World) {
    match e
    case Metric(_) => true
    case PerSeries(_, arg) => ShieldsLeaveLabels(arg, world)
    case Paired(left, right) => ShieldsLeaveLabels(left, world) && ShieldsLeaveLabels(right, world)
    case Agg(op, grouping, arg) =>
      if Collapses(op, grouping) then LeavesLabels(arg, world) else ShieldsLeaveLabels(arg, world)
  }

  predicate AllGauges(e: Expr, gauges: set<string>) {
    match e
    case Metric(reference) => BaseMetricName(MetricName(reference)) in gauges
    case PerSeries(_, arg) => AllGauges(arg, gauges)
    case Paired(left, right) => AllGauges(left, gauges) && AllGauges(right, gauges)
    case Agg(_, _, arg) => AllGauges(arg, gauges)
  }

  lemma {:induction false} CleanIsSteady(e: Expr, gauges: set<string>, replicas: seq<Labels>, world: World)
    requires TreeWalk(e, gauges, false) == {} && AllGauges(e, gauges) && Sensible(e, replicas)
    requires ShieldsLeaveLabels(e, world)
    ensures Steady(e, replicas) && SteadyLabels(e, replicas, world)
  {
    match e
    case Metric(_) =>
    case PerSeries(_, arg) =>
      CleanIsSteady(arg, gauges, replicas, world);
    case Paired(left, right) =>
      CleanIsSteady(left, gauges, replicas, world);
      CleanIsSteady(right, gauges, replicas, world);
    case Agg(op, grouping, arg) =>
      if Collapses(op, grouping) {
        RemovesReplicasMeaning(grouping);
        KeptAreReplicaLabels(arg);
        LeavingIsSteady(arg, replicas, world);
      } else {
        CleanIsSteady(arg, gauges, replicas, world);
      }
  }

  lemma {:induction false} KeptAreReplicaLabels(e: Expr)
    ensures KeptNames(e) <= REPLICA_LABELS
  {
    match e
    case Metric(_) =>
    case PerSeries(_, arg) => KeptAreReplicaLabels(arg);
    case Paired(left, _) => KeptAreReplicaLabels(left);
    case Agg(_, _, arg) => KeptAreReplicaLabels(arg);
  }

  /**
   Shield soundness: when the walk reports nothing for the argument of a `sum` over
   gauges, the sum is the same for all sets of identical replicas.
   */
  lemma ShieldIsSound(grouping: Grouping, arg: Expr, gauges: set<string>, world: World, env: string -> Vector,
                      some: seq<Labels>, others: seq<Labels>)
    requires TreeWalk(arg, gauges, false) == {} && AllGauges(arg, gauges)
    requires Sensible(arg, some) && Sensible(arg, others) && ShieldsLeaveLabels(arg, world)
    requires Resources(env) && Replicas(some) && Replicas(others)
    ensures Denote(Agg("sum", grouping, arg), world, Scraped(env, some))
         == Denote(Agg("sum", grouping, arg), world, Scraped(env, others))
  {
    CleanIsSteady(arg, gauges, some, world);
    CleanIsSteady(arg, gauges, others, world);
    SteadyIsExact(arg, world, env, some);
    SteadyIsExact(arg, world, env, others);
  }

  /**
   The defect the check exists for, measured: a `sum` that keeps no replica label reads
   its argument once for every way the replicas can still be told apart.
   */
  lemma SumCountsReplicas(op: string, grouping: Grouping, arg: Expr, world: World, env: string -> Vector,
                          replicas: seq<Labels>)
    requires op in {"sum", "count"} && Commutes(arg, replicas) && LeavesLabels(arg, world)
    requires Resources(env) && Replicas(replicas)
    requires forall name | name in REPLICA_LABELS :: !Keeps(grouping, name)
    ensures Denote(Agg(op, grouping, arg), world, Scraped(env, replicas))
         == Scaled(Denote(Agg(op, grouping, arg), world, env), |Apart(KeptNames(arg), replicas)|)
  {
    ScrapeCommutes(arg, world, env, replicas);
    CommutingReduces(arg, replicas);
    DenotesResources(arg, world, env);
    ApartAreTags(KeptNames(arg), replicas);
    AddsCopies(op, grouping, arg, world, env, Scraped(env, replicas), Apart(KeptNames(arg), replicas));
  }

  lemma AddsCopies(op: string, grouping: Grouping, arg: Expr, world: World, env: string -> Vector,
                   scraped: string -> Vector, apart: seq<Labels>)
    requires op in {"sum", "count"} && OnlyResources(Denote(arg, world, env)) && OnlyTags(apart) && apart != []
    requires forall name | name in REPLICA_LABELS :: !Keeps(grouping, name)
    requires Denote(arg, world, scraped) == Scrape(Denote(arg, world, env), apart)
    ensures Denote(Agg(op, grouping, arg), world, scraped)
         == Scaled(Denote(Agg(op, grouping, arg), world, env), |apart|)
  {
    DropsReplicaLabels(grouping, apart);
    AddingScrape(op, grouping, Denote(arg, world, env), apart);
    AggregateMeaning(op, grouping, arg, world, scraped);
    AggregateMeaning(op, grouping, arg, world, env);
  }

  lemma DropsReplicaLabels(grouping: Grouping, tags: seq<Labels>)
    requires OnlyTags(tags) && forall name | name in REPLICA_LABELS :: !Keeps(grouping, name)
    ensures DropsAll(grouping, tags)
  {
    forall k | 0 <= k < |tags|
      ensures Project(grouping, tags[k]) == map[]
    {
      assert IsTag(tags[k]);
    }
  }

  lemma AggregateMeaning(op: string, grouping: Grouping, arg: Expr, world: World, env: string -> Vector)
    requires op in {"sum", "count"}
    ensures Denote(Agg(op, grouping, arg), world, env) == Aggregate(op, grouping, Denote(arg, world, env))
  {
  }

  /** A flagged `sum by (...) (gauge)` is exactly the number of replicas times the value. */
  lemma FlaggedSumIsMultiplied(labels: seq<string>, name: string, world: World, env: string -> Vector,
                               replicas: seq<Labels>)
    requires RemovesReplicas(By(labels)) && Resources(env) && Replicas(replicas)
    ensures Denote(Agg("sum", By(labels), Metric(name)), world, Scraped(env, replicas))
         == Scaled(Denote(Agg("sum", By(labels), Metric(name)), world, env), |replicas|)
  {
    RemovesReplicasMeaning(By(labels));
    SumCountsReplicas("sum", By(labels), Metric(name), world, env, replicas);
    ApartWhole(replicas);
  }
}
