/**
 `quantile` as a shield: the walk accepts it for every share, and the sum above it is
 right for three of them.
 */
module PromQuantileShield {
  import opened PromShield
  import opened PromMeaning
  import opened PromExactness
  import opened PromQuantile

  function QuantileAt(phi: real, v: Vector, grouping: Grouping): Labels -> Sample
    requires IsShare(phi)
  {
    key => Sample(key, if Group(v, grouping, key) == [] then 0.0 else Quantile(phi, Group(v, grouping, key)))
  }

  /** `quantile(phi, ...)`: one sample for every distinct kept label set. */
  function QuantileOf(phi: real, grouping: Grouping, v: Vector): Vector
    requires IsShare(phi)
  {
    Map(QuantileAt(phi, v, grouping), Dedup(KeysOf(grouping, v)))
  }

  /** The world in which `quantile` is the quantile of this share. */
  function QuantileWorld(phi: real): World
    requires IsShare(phi)
  {
    World((fn, x) => x, (fn, labels) => labels, (x, y) => x,
          (op, grouping, v) => if op == "quantile" then QuantileOf(phi, grouping, v) else v)
  }

  function Shield(grouping: Grouping, name: string): Expr {
    Agg("quantile", grouping, Metric(name))
  }

  lemma DenoteShield(phi: real, grouping: Grouping, name: string, env: string -> Vector)
    requires IsShare(phi)
    ensures Denote(Shield(grouping, name), QuantileWorld(phi), env) == QuantileOf(phi, grouping, env(name))
  {
    hide QuantileOf, Quantile, Aggregate;
    QuantileIsOther();
    OtherIs(Shield(grouping, name), QuantileWorld(phi), env);
  }

  lemma QuantileIsOther()
    ensures "quantile" !in REDUCERS
  {
    assert forall op | op in REDUCERS :: |op| < 8;
  }

  lemma OtherIs(e: Expr, world: World, env: string -> Vector)
    requires e.Agg? && e.arg.Metric? && e.op !in REDUCERS
    ensures Denote(e, world, env) == world.other(e.op, e.grouping, env(e.arg.reference))
  {
  }

  /** A share that ignores copies gives the same for the scraped vector. */
  lemma QuantileScrape(phi: real, grouping: Grouping, v: Vector, tags: seq<Labels>)
    requires phi in {0.0, 0.5, 1.0} && OnlyResources(v) && OnlyTags(tags) && tags != [] && DropsAll(grouping, tags)
    ensures QuantileOf(phi, grouping, Scrape(v, tags)) == QuantileOf(phi, grouping, v)
  {
    var keys := Dedup(KeysOf(grouping, v));
    KeysOfCopies(grouping, v, tags);
    KeysAreResources(grouping, v);
    var scraped, once := QuantileAt(phi, Scrape(v, tags), grouping), QuantileAt(phi, v, grouping);
    forall k | 0 <= k < |keys|
      ensures scraped(keys[k]) == once(keys[k])
    {
      assert keys[k] in keys;
      GroupFound(v, grouping, keys[k]);
      CopiesInGroup(grouping, v, tags, keys[k]);
      assert Ignores(phi, Group(v, grouping, keys[k]), |tags|) by {
        FixedShareIgnores(phi, Group(v, grouping, keys[k]), |tags|);
      }
    }
  }

  /** Under every trusted modifier but `without`, three shares are shields. */
  lemma QuantileIsSteady(phi: real, grouping: Grouping, name: string, env: string -> Vector, replicas: seq<Labels>)
    requires phi in {0.0, 0.5, 1.0} && RemovesReplicas(grouping) && !grouping.Without?
    requires Resources(env) && Replicas(replicas)
    ensures Denote(Shield(grouping, name), QuantileWorld(phi), Scraped(env, replicas))
         == Denote(Shield(grouping, name), QuantileWorld(phi), env)
  {
    RemovesReplicasMeaning(grouping);
    DropsReplicaLabels(grouping, replicas);
    QuantileScrape(phi, grouping, env(name), replicas);
    DenoteShield(phi, grouping, name, env);
    DenoteShield(phi, grouping, name, Scraped(env, replicas));
  }

  // ------------------------------------------------------------ where it fails

  /** Two queues, one empty and one with a single job. */
  const TWO_QUEUES: Vector := [Sample(map["queue" := "a"], 0.0), Sample(map["queue" := "b"], 1.0)]

  const TWO_PODS: seq<Labels> := [map["pod" := "a"], map["pod" := "b"]]

  function QueueEnv(): string -> Vector {
    name => TWO_QUEUES
  }

  lemma QueuesAndPods()
    ensures Resources(QueueEnv()) && Replicas(TWO_PODS) && OnlyResources(TWO_QUEUES) && OnlyTags(TWO_PODS)
    ensures ValuesOf(TWO_QUEUES) == NOUGHT_AND_ONE
  {
    assert TWO_PODS[0]["pod"] != TWO_PODS[1]["pod"];
  }

  /** A bare quantile is one series with the quantile of all values. */
  lemma BareQuantile(phi: real, v: Vector)
    requires IsShare(phi) && v != []
    ensures ValuesOf(v) != [] && QuantileOf(phi, Bare, v) == [Sample(map[], Quantile(phi, ValuesOf(v)))]
  {
    var keys := KeysOf(Bare, v);
    forall k | 0 <= k < |keys|
      ensures keys[k] == map[]
    {
      assert keys[k] == Project(Bare, v[k].labels);
    }
    DedupSame(keys);
    GroupAll(v);
  }

  lemma ValuesOfPods()
    ensures Scrape(TWO_QUEUES, TWO_PODS) != [] && ValuesOf(Scrape(TWO_QUEUES, TWO_PODS)) == Times(NOUGHT_AND_ONE, 2)
  {
    QueuesAndPods();
    DropsReplicaLabels(Bare, TWO_PODS);
    CopiesInGroup(Bare, TWO_QUEUES, TWO_PODS, map[]);
    GroupAll(TWO_QUEUES);
    GroupAll(Scrape(TWO_QUEUES, TWO_PODS));
    FourTimes();
  }

  lemma SumOfOne(inner: Expr, world: World, env: string -> Vector, x: real)
    requires Denote(inner, world, env) == [Sample(map[], x)]
    ensures Denote(Agg("sum", Bare, inner), world, env) == [Sample(map[], x)]
  {
    StepSingle("sum", inner, world, env, x);
  }

  lemma QuantileMoves(phi: real, name: string)
    requires IsShare(phi) && phi !in {0.0, 0.5, 1.0}
    ensures Denote(Agg("sum", Bare, Shield(Bare, name)), QuantileWorld(phi), Scraped(QueueEnv(), TWO_PODS))
         != Denote(Agg("sum", Bare, Shield(Bare, name)), QuantileWorld(phi), QueueEnv())
  {
    hide Quantile, QuantileOf, Scrape, Denote, Times;
    var env, scraped := QueueEnv(), Scraped(QueueEnv(), TWO_PODS);
    QueuesAndPods();
    ValuesOfPods();
    ShareMoves(phi);
    BareQuantile(phi, TWO_QUEUES);
    BareQuantile(phi, Scrape(TWO_QUEUES, TWO_PODS));
    DenoteShield(phi, Bare, name, env);
    DenoteShield(phi, Bare, name, scraped);
    SumOfOne(Shield(Bare, name), QuantileWorld(phi), env, Quantile(phi, NOUGHT_AND_ONE));
    SumOfOne(Shield(Bare, name), QuantileWorld(phi), scraped, Quantile(phi, Times(NOUGHT_AND_ONE, 2)));
  }

  /** The sum over this shield reads every resource once, whatever is published and by how many. */
  ghost predicate QuantileSumIsExact(phi: real, name: string)
    requires IsShare(phi)
  {
    forall env: string -> Vector, replicas: seq<Labels> | Resources(env) && Replicas(replicas) ::
      Denote(Agg("sum", Bare, Shield(Bare, name)), QuantileWorld(phi), Scraped(env, replicas))
      == Denote(Agg("sum", Bare, Shield(Bare, name)), QuantileWorld(phi), env)
  }

  lemma ExactOnQueues(phi: real, name: string)
    requires IsShare(phi) && QuantileSumIsExact(phi, name)
    ensures Denote(Agg("sum", Bare, Shield(Bare, name)), QuantileWorld(phi), Scraped(QueueEnv(), TWO_PODS))
         == Denote(Agg("sum", Bare, Shield(Bare, name)), QuantileWorld(phi), QueueEnv())
  {
    QueuesAndPods();
  }

  /**
   The walk trusts a bare `quantile` for every share. The sum above it is right exactly
   for the least, the greatest and the median.
   */
  lemma QuantileShieldIff(phi: real, name: string, gauges: set<string>)
    requires IsShare(phi)
    ensures TreeWalk(Shield(Bare, name), gauges, false) == {}
    ensures QuantileSumIsExact(phi, name) <==> phi in {0.0, 0.5, 1.0}
  {
    WalkShielded(Metric(name), gauges);
    if phi in {0.0, 0.5, 1.0} {
      forall env: string -> Vector, replicas: seq<Labels> | Resources(env) && Replicas(replicas)
        ensures Denote(Agg("sum", Bare, Shield(Bare, name)), QuantileWorld(phi), Scraped(env, replicas))
             == Denote(Agg("sum", Bare, Shield(Bare, name)), QuantileWorld(phi), env)
      {
        QuantileIsSteady(phi, Bare, name, env, replicas);
        AggregateMeaning("sum", Bare, Shield(Bare, name), QuantileWorld(phi), env);
        AggregateMeaning("sum", Bare, Shield(Bare, name), QuantileWorld(phi), Scraped(env, replicas));
      }
    } else {
      QuantileMoves(phi, name);
      if QuantileSumIsExact(phi, name) { ExactOnQueues(phi, name); }
    }
  }
}
