/**
 A function that copies one label into another, as `label_replace` does, below a shield:
 the walk reads no labels but those of modifiers, so the replicas can survive under
 another name. Exactly when they do.
 */
module PromRelabel {
  import opened PromShield
  import opened PromMeaning
  import opened PromExactness

  function Copied(src: string, dst: string, labels: Labels): Labels {
    if src in labels then labels[dst := labels[src]] else labels
  }

  /** The world in which every function copies `src` into `dst` and keeps the value. */
  function CopyWorld(src: string, dst: string): World {
    World((fn, x) => x, (fn, labels) => Copied(src, dst, labels), (x, y) => x, (op, grouping, v) => v)
  }

  function Copying(src: string, dst: string): Sample -> Sample {
    (s: Sample) => Sample(Copied(src, dst, s.labels), s.value)
  }

  /** `max by (...) (fn(metric))`. */
  function CopyShield(labels: seq<string>, fn: string, name: string): Expr {
    Agg("max", By(labels), PerSeries(fn, Metric(name)))
  }

  lemma DenoteCopy(src: string, dst: string, labels: seq<string>, fn: string, name: string, env: string -> Vector)
    ensures Denote(Agg("sum", Bare, CopyShield(labels, fn, name)), CopyWorld(src, dst), env)
         == Aggregate("sum", Bare, Aggregate("max", By(labels), Map(Copying(src, dst), env(name))))
  {
    var world := CopyWorld(src, dst);
    var applied := PerSeries(fn, Metric(name));
    assert Denote(applied, world, env) == Map(Applying(world, fn), env(name));
    forall k | 0 <= k < |env(name)|
      ensures Applying(world, fn)(env(name)[k]) == Copying(src, dst)(env(name)[k])
    {
    }
    assert Map(Applying(world, fn), env(name)) == Map(Copying(src, dst), env(name));
    DenoteAggregate("max", By(labels), applied, world, env);
    DenoteAggregate("sum", Bare, CopyShield(labels, fn, name), world, env);
  }

  /** A trusted `max by` over scraped resources is the one of the resources. */
  lemma MaxDropsReplicas(labels: seq<string>, v: Vector, replicas: seq<Labels>)
    requires RemovesReplicas(By(labels)) && OnlyResources(v) && OnlyTags(replicas) && replicas != []
    ensures Aggregate("max", By(labels), Scrape(v, replicas)) == Aggregate("max", By(labels), v)
  {
    RemovesReplicasMeaning(By(labels));
    DropsReplicaLabels(By(labels), replicas);
    AggregateScrape("max", By(labels), v, replicas);
    DedupSame(Map(Projection(By(labels)), replicas));
    ScrapeOnce(Aggregate("max", By(labels), v));
  }

  // ------------------------------------------------------------ where the copy is not kept

  lemma ProjectCopied(src: string, dst: string, grouping: Grouping, labels: Labels)
    requires !Keeps(grouping, dst)
    ensures Project(grouping, Copied(src, dst, labels)) == Project(grouping, labels)
  {
  }

  lemma {:induction false} GroupCopied(src: string, dst: string, grouping: Grouping, v: Vector, key: Labels)
    requires !Keeps(grouping, dst)
    ensures Group(Map(Copying(src, dst), v), grouping, key) == Group(v, grouping, key)
  {
    if v != [] {
      var n := |v| - 1;
      GroupCopied(src, dst, grouping, v[..n], key);
      assert Map(Copying(src, dst), v)[..n] == Map(Copying(src, dst), v[..n]);
      ProjectCopied(src, dst, grouping, v[n].labels);
    }
  }

  lemma UnseenCopy(src: string, dst: string, grouping: Grouping, v: Vector)
    requires !Keeps(grouping, dst)
    ensures Aggregate("max", grouping, Map(Copying(src, dst), v)) == Aggregate("max", grouping, v)
  {
    var copied := Map(Copying(src, dst), v);
    forall k | 0 <= k < |v|
      ensures KeysOf(grouping, copied)[k] == KeysOf(grouping, v)[k]
    {
      ProjectCopied(src, dst, grouping, v[k].labels);
    }
    assert KeysOf(grouping, copied) == KeysOf(grouping, v);
    forall key
      ensures Group(copied, grouping, key) == Group(v, grouping, key)
    {
      GroupCopied(src, dst, grouping, v, key);
    }
  }

  // ------------------------------------------------------------ where the replicas agree on it

  /** What the copy makes of resource labels when every replica carries what `tag` carries under `src`. */
  function Under(src: string, dst: string, tag: Labels): Sample -> Sample {
    (s: Sample) => Sample(if src in s.labels + tag then s.labels[dst := (s.labels + tag)[src]] else s.labels, s.value)
  }

  lemma CopyAgreed(src: string, dst: string, s: Sample, tag: Labels, first: Labels)
    requires IsResource(s.labels) && IsTag(tag) && IsTag(first) && dst !in REPLICA_LABELS
    requires Only({src})(tag) == Only({src})(first)
    ensures IsResource(Under(src, dst, first)(s).labels)
    ensures Copying(src, dst)(Tagging(tag)(s)) == Tagging(tag)(Under(src, dst, first)(s))
  {
    assert src in tag <==> src in Only({src})(tag);
    assert src in first <==> src in Only({src})(first);
    if src in tag {
      assert Only({src})(tag)[src] == tag[src] && Only({src})(first)[src] == first[src];
    }
    assert dst !in tag && dst !in first;
    if src in s.labels + tag {
      assert (s.labels + tag)[src] == (s.labels + first)[src];
      var x := (s.labels + tag)[src];
      assert (s.labels + tag)[dst := x] == s.labels[dst := x] + tag;
    }
  }

  lemma MapConcat<T, U>(f: T -> U, a: seq<T>, b: seq<T>)
    ensures Map(f, a + b) == Map(f, a) + Map(f, b)
  {
  }

  lemma AgreedTagged(src: string, dst: string, v: Vector, tag: Labels, first: Labels)
    requires OnlyResources(v) && IsTag(tag) && IsTag(first) && dst !in REPLICA_LABELS
    requires Only({src})(tag) == Only({src})(first)
    ensures Map(Copying(src, dst), Tagged(v, tag)) == Tagged(Map(Under(src, dst, first), v), tag)
    ensures OnlyResources(Map(Under(src, dst, first), v))
  {
    forall k | 0 <= k < |v|
      ensures IsResource(Under(src, dst, first)(v[k]).labels)
      ensures Copying(src, dst)(Tagged(v, tag)[k]) == Tagging(tag)(Under(src, dst, first)(v[k]))
    {
      CopyAgreed(src, dst, v[k], tag, first);
    }
  }

  lemma {:induction false} AgreedScrape(src: string, dst: string, v: Vector, tags: seq<Labels>, first: Labels)
    requires OnlyResources(v) && OnlyTags(tags) && IsTag(first) && dst !in REPLICA_LABELS
    requires forall k | 0 <= k < |tags| :: Only({src})(tags[k]) == Only({src})(first)
    ensures Map(Copying(src, dst), Scrape(v, tags)) == Scrape(Map(Under(src, dst, first), v), tags)
    ensures OnlyResources(Map(Under(src, dst, first), v))
  {
    AgreedTagged(src, dst, v, first, first);
    if tags != [] {
      var prefix, last := tags[..|tags| - 1], tags[|tags| - 1];
      assert Scrape(v, tags) == Scrape(v, prefix) + Tagged(v, last);
      var under := Map(Under(src, dst, first), v);
      assert Scrape(under, tags) == Scrape(under, prefix) + Tagged(under, last);
      AgreedScrape(src, dst, v, prefix, first);
      AgreedTagged(src, dst, v, last, first);
      hide *;
      MapConcat(Copying(src, dst), Scrape(v, prefix), Tagged(v, last));
    }
  }

  lemma AgreedMax(src: string, dst: string, labels: seq<string>, v: Vector, tags: seq<Labels>, first: Labels)
    requires RemovesReplicas(By(labels)) && OnlyResources(v) && OnlyTags(tags) && tags != []
    requires IsTag(first) && dst !in REPLICA_LABELS
    requires forall k | 0 <= k < |tags| :: Only({src})(tags[k]) == Only({src})(first)
    ensures Aggregate("max", By(labels), Map(Copying(src, dst), Scrape(v, tags)))
         == Aggregate("max", By(labels), Map(Under(src, dst, first), v))
  {
    AgreedScrape(src, dst, v, tags, first);
    MaxDropsReplicas(labels, Map(Under(src, dst, first), v), tags);
  }

  // ------------------------------------------------------------ where they do not

  lemma OnlyOne(src: string, a: Labels, b: Labels)
    ensures Only({src})(a) == Only({src})(b) <==>
              (src in a <==> src in b) && (src in a && src in b ==> a[src] == b[src])
  {
    var p, q := Only({src})(a), Only({src})(b);
    assert src in a <==> src in p;
    assert src in b <==> src in q;
    if src in a && src in b { assert p[src] == a[src] && q[src] == b[src]; }
  }

  lemma KeysApart(src: string, dst: string, labels: seq<string>, a: Labels, b: Labels)
    requires IsTag(a) && IsTag(b) && dst !in REPLICA_LABELS && dst in labels
    requires Only({src})(a) != Only({src})(b)
    ensures Project(By(labels), Copied(src, dst, a)) != Project(By(labels), Copied(src, dst, b))
  {
    OnlyOne(src, a, b);
    var p, q := Project(By(labels), Copied(src, dst, a)), Project(By(labels), Copied(src, dst, b));
    assert dst !in a && dst !in b;
    assert dst in p <==> src in a;
    assert dst in q <==> src in b;
    if src in a && src in b { assert p[dst] == a[src] && q[dst] == b[src]; }
  }

  lemma TwoDistinct<T(!new)>(s: seq<T>, i: nat, j: nat)
    requires i < j < |s| && s[i] != s[j]
    ensures |Dedup(s)| >= 2
  {
    assert s[i] in Dedup(s) && s[j] in Dedup(s);
    var a :| 0 <= a < |Dedup(s)| && Dedup(s)[a] == s[i];
    var b :| 0 <= b < |Dedup(s)| && Dedup(s)[b] == s[j];
  }

  /** One resource of value one, copied: one series per replica. */
  function CopiedUnit(src: string, dst: string, tags: seq<Labels>): Vector {
    Map(Copying(src, dst), Scrape([Sample(map[], 1.0)], tags))
  }

  lemma CopiedUnitAt(src: string, dst: string, tags: seq<Labels>)
    ensures |CopiedUnit(src, dst, tags)| == |tags|
    ensures forall k | 0 <= k < |tags| :: CopiedUnit(src, dst, tags)[k].labels == Copied(src, dst, tags[k])
    ensures AtLeastOne(ValuesOf(CopiedUnit(src, dst, tags)))
  {
    var unit := [Sample(map[], 1.0)];
    LabelsOfScrape(unit, tags);
    assert LabelsOf(unit) == [map[]];
    CrossOfNone(tags);
    OnesOfScrape(tags);
    var scraped := Scrape(unit, tags);
    assert |LabelsOf(scraped)| == |scraped|;
    forall k | 0 <= k < |tags|
      ensures CopiedUnit(src, dst, tags)[k].labels == Copied(src, dst, tags[k])
    {
      assert LabelsOf(scraped)[k] == tags[k];
    }
    forall k | 0 <= k < |scraped|
      ensures ValuesOf(CopiedUnit(src, dst, tags))[k] >= 1.0
    {
      assert ValuesOf(scraped)[k] >= 1.0;
    }
  }

  lemma CopiesSurvive(src: string, dst: string, labels: seq<string>, tags: seq<Labels>, i: nat, j: nat)
    requires OnlyTags(tags) && dst !in REPLICA_LABELS && dst in labels && i < j < |tags|
    requires Only({src})(tags[i]) != Only({src})(tags[j])
    ensures var kept := Aggregate("max", By(labels), CopiedUnit(src, dst, tags));
            |kept| >= 2 && Sum(ValuesOf(kept)) > 1.0
  {
    var w := CopiedUnit(src, dst, tags);
    CopiedUnitAt(src, dst, tags);
    KeysApart(src, dst, labels, tags[i], tags[j]);
    var keys := KeysOf(By(labels), w);
    assert keys[i] == Project(By(labels), w[i].labels) && keys[j] == Project(By(labels), w[j].labels);
    TwoDistinct(keys, i, j);
    AggregateStays("max", By(labels), w);
    SumOfOnes(ValuesOf(Aggregate("max", By(labels), w)));
  }

  lemma MaxOfOne(grouping: Grouping, labels: Labels)
    ensures Aggregate("max", grouping, [Sample(labels, 1.0)]) == [Sample(Project(grouping, labels), 1.0)]
  {
    var v := [Sample(labels, 1.0)];
    var key := Project(grouping, labels);
    assert KeysOf(grouping, v) == [key];
    assert v[..0] == [] && [key][..0] == [];
    assert Group(v, grouping, key) == Group(v[..0], grouping, key) + [1.0] == [1.0];
    assert Dedup([key]) == [key];
    ReducingAt("max", grouping, v, key, [1.0]);
  }

  lemma CopiedOnce(src: string, dst: string, tag: Labels)
    ensures CopiedUnit(src, dst, [tag]) == [Sample(Copied(src, dst, tag), 1.0)]
  {
    var unit := [Sample(map[], 1.0)];
    assert [tag][..0] == [];
    assert Scrape(unit, [tag]) == Scrape(unit, []) + Tagged(unit, tag) == Tagged(unit, tag);
    assert map[] + tag == tag;
  }

  lemma SumOfUnit(labels: Labels)
    ensures Aggregate("sum", Bare, [Sample(labels, 1.0)]) == [Sample(map[], 1.0)]
  {
    var kept := [Sample(labels, 1.0)];
    hide Aggregate;
    BareReduce("sum", kept);
    assert ValuesOf(kept) == [1.0];
    assert Sum([1.0]) == Sum([1.0][..0]) + 1.0;
  }

  lemma OneCopy(src: string, dst: string, labels: seq<string>, tag: Labels)
    ensures Aggregate("sum", Bare, Aggregate("max", By(labels), CopiedUnit(src, dst, [tag]))) == [Sample(map[], 1.0)]
  {
    hide Aggregate, CopiedUnit;
    CopiedOnce(src, dst, tag);
    MaxOfOne(By(labels), Copied(src, dst, tag));
    SumOfUnit(Project(By(labels), Copied(src, dst, tag)));
  }

  // ------------------------------------------------------------ the result

  /** The sum above the shield is the same for all the replicas as for one of them. */
  ghost predicate CountsOnce(src: string, dst: string, labels: seq<string>, fn: string, name: string,
                             replicas: seq<Labels>)
    requires replicas != []
  {
    forall env: string -> Vector | Resources(env) ::
      Denote(Agg("sum", Bare, CopyShield(labels, fn, name)), CopyWorld(src, dst), Scraped(env, replicas))
      == Denote(Agg("sum", Bare, CopyShield(labels, fn, name)), CopyWorld(src, dst), Scraped(env, replicas[..1]))
  }

  lemma AgreeWithFirst(src: string, replicas: seq<Labels>, k: nat)
    requires AgreeOn({src}, replicas) && k < |replicas|
    ensures Only({src})(replicas[k]) == Only({src})(replicas[0])
  {
  }

  /** The shield itself gives the same for all the replicas as for the first. */
  lemma SameMax(src: string, dst: string, labels: seq<string>, v: Vector, replicas: seq<Labels>)
    requires RemovesReplicas(By(labels)) && Replicas(replicas) && dst !in REPLICA_LABELS && OnlyResources(v)
    requires dst !in labels || AgreeOn({src}, replicas)
    ensures Aggregate("max", By(labels), Map(Copying(src, dst), Scrape(v, replicas)))
         == Aggregate("max", By(labels), Map(Copying(src, dst), Scrape(v, replicas[..1])))
  {
    hide Aggregate, Scrape, RemovesReplicas, AgreeOn, Copying, Only;
    if dst !in labels {
      UnseenCopy(src, dst, By(labels), Scrape(v, replicas));
      UnseenCopy(src, dst, By(labels), Scrape(v, replicas[..1]));
      MaxDropsReplicas(labels, v, replicas);
      MaxDropsReplicas(labels, v, replicas[..1]);
    } else {
      forall k | 0 <= k < |replicas|
        ensures Only({src})(replicas[k]) == Only({src})(replicas[0])
      {
        AgreeWithFirst(src, replicas, k);
      }
      AgreedMax(src, dst, labels, v, replicas, replicas[0]);
      AgreedMax(src, dst, labels, v, replicas[..1], replicas[0]);
    }
  }

  lemma OnceAt(src: string, dst: string, labels: seq<string>, fn: string, name: string, replicas: seq<Labels>,
               env: string -> Vector)
    requires RemovesReplicas(By(labels)) && Replicas(replicas) && dst !in REPLICA_LABELS && Resources(env)
    requires dst !in labels || AgreeOn({src}, replicas)
    ensures Denote(Agg("sum", Bare, CopyShield(labels, fn, name)), CopyWorld(src, dst), Scraped(env, replicas))
         == Denote(Agg("sum", Bare, CopyShield(labels, fn, name)), CopyWorld(src, dst), Scraped(env, replicas[..1]))
  {
    DenoteCopy(src, dst, labels, fn, name, Scraped(env, replicas));
    DenoteCopy(src, dst, labels, fn, name, Scraped(env, replicas[..1]));
    hide Denote, Aggregate, Scrape;
    SameMax(src, dst, labels, env(name), replicas);
  }

  lemma SumAboveOne(v: Vector)
    requires v != [] && Sum(ValuesOf(v)) > 1.0
    ensures Aggregate("sum", Bare, v) != [Sample(map[], 1.0)]
  {
    hide Aggregate, Sum;
    BareReduce("sum", v);
  }

  lemma ManyCopies(src: string, dst: string, labels: seq<string>, replicas: seq<Labels>, i: nat, j: nat)
    requires OnlyTags(replicas) && dst !in REPLICA_LABELS && dst in labels && i < j < |replicas|
    requires Only({src})(replicas[i]) != Only({src})(replicas[j])
    ensures Aggregate("sum", Bare, Aggregate("max", By(labels), CopiedUnit(src, dst, replicas))) != [Sample(map[], 1.0)]
  {
    hide Aggregate, CopiedUnit, Only, Sum, ValuesOf, OnlyTags;
    CopiesSurvive(src, dst, labels, replicas, i, j);
    SumAboveOne(Aggregate("max", By(labels), CopiedUnit(src, dst, replicas)));
  }

  lemma SumsDiffer(src: string, dst: string, labels: seq<string>, replicas: seq<Labels>)
    requires Replicas(replicas) && dst !in REPLICA_LABELS && dst in labels && !AgreeOn({src}, replicas)
    ensures Aggregate("sum", Bare, Aggregate("max", By(labels), CopiedUnit(src, dst, replicas)))
         != Aggregate("sum", Bare, Aggregate("max", By(labels), CopiedUnit(src, dst, replicas[..1])))
  {
    hide Aggregate, CopiedUnit, Only;
    var i, j :| 0 <= i < j < |replicas| && Only({src})(replicas[i]) != Only({src})(replicas[j]);
    ManyCopies(src, dst, labels, replicas, i, j);
    OneCopy(src, dst, labels, replicas[0]);
    assert replicas[..1] == [replicas[0]];
  }

  lemma DenoteUnit(src: string, dst: string, labels: seq<string>, fn: string, name: string, replicas: seq<Labels>)
    ensures Denote(Agg("sum", Bare, CopyShield(labels, fn, name)), CopyWorld(src, dst), Scraped(UnitEnv(), replicas))
         == Aggregate("sum", Bare, Aggregate("max", By(labels), CopiedUnit(src, dst, replicas)))
  {
    DenoteCopy(src, dst, labels, fn, name, Scraped(UnitEnv(), replicas));
  }

  lemma CopiesCount(src: string, dst: string, labels: seq<string>, fn: string, name: string, replicas: seq<Labels>)
    requires Replicas(replicas) && dst !in REPLICA_LABELS && dst in labels && !AgreeOn({src}, replicas)
    ensures !CountsOnce(src, dst, labels, fn, name, replicas)
  {
    SumsDiffer(src, dst, labels, replicas);
    hide Denote, Aggregate, CopiedUnit;
    DenoteUnit(src, dst, labels, fn, name, replicas);
    DenoteUnit(src, dst, labels, fn, name, replicas[..1]);
    if CountsOnce(src, dst, labels, fn, name, replicas) { OnceOnUnit(src, dst, labels, fn, name, replicas); }
  }

  lemma OnceOnUnit(src: string, dst: string, labels: seq<string>, fn: string, name: string, replicas: seq<Labels>)
    requires replicas != [] && CountsOnce(src, dst, labels, fn, name, replicas)
    ensures Denote(Agg("sum", Bare, CopyShield(labels, fn, name)), CopyWorld(src, dst), Scraped(UnitEnv(), replicas))
         == Denote(Agg("sum", Bare, CopyShield(labels, fn, name)), CopyWorld(src, dst),
                   Scraped(UnitEnv(), replicas[..1]))
  {
    assert Resources(UnitEnv());
  }

  /**
   The walk accepts the shield whatever the function copies. The sum above it counts the
   replicas once exactly when the copy is not kept, or the replicas agree on what is
   copied: for a label of the resource always, for a replica label when all carry the same.
   */
  lemma CopyShieldIff(src: string, dst: string, labels: seq<string>, fn: string, name: string, gauges: set<string>,
                      replicas: seq<Labels>)
    requires RemovesReplicas(By(labels)) && Replicas(replicas) && dst !in REPLICA_LABELS
    ensures TreeWalk(CopyShield(labels, fn, name), gauges, false) == {}
    ensures CountsOnce(src, dst, labels, fn, name, replicas) <==> dst !in labels || AgreeOn({src}, replicas)
  {
    WalkShielded(PerSeries(fn, Metric(name)), gauges);
    if dst !in labels || AgreeOn({src}, replicas) {
      forall env: string -> Vector | Resources(env)
        ensures Denote(Agg("sum", Bare, CopyShield(labels, fn, name)), CopyWorld(src, dst), Scraped(env, replicas))
             == Denote(Agg("sum", Bare, CopyShield(labels, fn, name)), CopyWorld(src, dst),
                       Scraped(env, replicas[..1]))
      {
        OnceAt(src, dst, labels, fn, name, replicas, env);
      }
    } else {
      CopiesCount(src, dst, labels, fn, name, replicas);
    }
  }

  /** Copying from a resource label is one of the functions the soundness theorem admits. */
  lemma ResourceCopyLeaves(src: string, dst: string, fn: string)
    requires src !in REPLICA_LABELS && dst !in REPLICA_LABELS
    ensures LeavesReplicas(CopyWorld(src, dst), fn)
  {
    forall key, tag | IsResource(key) && IsTag(tag)
      ensures KeepsTag(CopyWorld(src, dst), fn, key, tag)
    {
      if src in key { assert (key + tag)[dst := key[src]] == key[dst := key[src]] + tag; }
    }
  }
}
