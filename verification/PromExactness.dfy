/**
 Where the walk trusts too much: which labels a `without` has to name, and when a sum or
 a count below a shield lets the replicas show, said exactly.
 */
module PromExactness {
  import opened PromShield
  import opened PromMeaning

  // ------------------------------------------------------------ what the claim is

  /** The bare sum over `arg` reads every resource once, whatever the resources publish. */
  ghost predicate SumIsExact(arg: Expr, replicas: seq<Labels>) {
    forall world: World, env: string -> Vector | Resources(env) ::
      Denote(Agg("sum", Bare, arg), world, Scraped(env, replicas)) == Denote(Agg("sum", Bare, arg), world, env)
  }

  /** The replicas carry the same values under these label names. */
  predicate AgreeOn(names: set<string>, replicas: seq<Labels>) {
    forall i, j | 0 <= i < j < |replicas| :: Only(names)(replicas[i]) == Only(names)(replicas[j])
  }

  /** Aggregations that ignore copies over one metric, and nothing else. */
  predicate StableChain(e: Expr) {
    match e
    case Metric(_) => true
    case Agg(op, _, arg) => op in STABLE_REDUCERS && StableChain(arg)
    case _ => false
  }

  /** Aggregations over one metric in which no `min` stands above a sum or a count it could hide. */
  predicate Telling(e: Expr) {
    match e
    case Metric(_) => true
    case Agg(op, _, arg) => op in REDUCERS && Telling(arg) && (op == "min" ==> StableChain(arg))
    case _ => false
  }

  lemma {:induction false} StableCommutes(e: Expr, replicas: seq<Labels>)
    requires StableChain(e)
    ensures Telling(e) && Commutes(e, replicas)
  {
    match e
    case Metric(_) =>
    case Agg(_, _, arg) => StableCommutes(arg, replicas);
  }

  lemma {:induction false} TellingIsChain(e: Expr)
    requires Telling(e)
    ensures Chain(e)
  {
    match e
    case Metric(_) =>
    case Agg(_, _, arg) => TellingIsChain(arg);
  }

  lemma ApartOnceIff(names: set<string>, replicas: seq<Labels>)
    requires replicas != []
    ensures |Apart(names, replicas)| == 1 <==> AgreeOn(names, replicas)
    ensures Apart(names, replicas) != []
  {
    var all, apart := Map(Only(names), replicas), Apart(names, replicas);
    assert all[0] in apart;
    if |apart| == 1 {
      forall i, j | 0 <= i < j < |replicas|
        ensures all[i] == all[j]
      {
        assert all[i] in apart && all[j] in apart;
      }
    } else {
      assert apart[0] in all && apart[1] in all;
      var i :| 0 <= i < |all| && all[i] == apart[0];
      var j :| 0 <= j < |all| && all[j] == apart[1];
      assert Only(names)(replicas[i]) != Only(names)(replicas[j]);
    }
  }

  // ------------------------------------------------------------ where it holds

  lemma ScaledOnce(v: Vector)
    ensures Scaled(v, 1) == v
  {
    forall k | 0 <= k < |v|
      ensures Scaled(v, 1)[k] == v[k]
    {
      assert Many(1, v[k].value) == Many(0, v[k].value) + v[k].value;
    }
  }

  lemma AgreeingSumIsExact(arg: Expr, world: World, env: string -> Vector, replicas: seq<Labels>)
    requires Commutes(arg, replicas) && LeavesLabels(arg, world) && Resources(env) && Replicas(replicas)
    requires AgreeOn(KeptNames(arg), replicas)
    ensures Denote(Agg("sum", Bare, arg), world, Scraped(env, replicas)) == Denote(Agg("sum", Bare, arg), world, env)
  {
    ApartOnceIff(KeptNames(arg), replicas);
    SumCountsReplicas("sum", Bare, arg, world, env, replicas);
    ScaledOnce(Denote(Agg("sum", Bare, arg), world, env));
  }

  // ------------------------------------------------------------ one resource of value one

  /** One series without labels and of value one, under every name. */
  function UnitEnv(): string -> Vector {
    name => [Sample(map[], 1.0)]
  }

  lemma AggregateSingle(op: string, grouping: Grouping, x: real)
    requires op in REDUCERS
    ensures Aggregate(op, grouping, [Sample(map[], x)]) == [Sample(map[], if op in {"count", "group"} then 1.0 else x)]
  {
    var none: Labels := map[];
    var v := [Sample(none, x)];
    assert Project(grouping, none) == none;
    assert KeysOf(grouping, v) == [none];
    assert v[..0] == [];
    assert Group(v, grouping, none) == Group(v[..0], grouping, none) + [x] == [x];
    assert [none][..0] == [];
    assert Dedup([none]) == [none];
    assert Sum([x]) == Sum([x][..0]) + x == x;
    ReducingAt(op, grouping, v, none, [x]);
  }

  lemma {:induction false} ChainUnit(e: Expr, world: World)
    requires Chain(e)
    ensures Denote(e, world, UnitEnv()) == [Sample(map[], 1.0)]
  {
    match e
    case Metric(_) =>
    case Agg(op, grouping, arg) =>
      ChainUnit(arg, world);
      AggregateSingle(op, grouping, 1.0);
  }

  /** On one scraped resource, a chain has one series for every replica it still tells apart. */
  lemma UnitLabels(e: Expr, world: World, replicas: seq<Labels>)
    requires Chain(e) && Replicas(replicas)
    ensures LabelsOf(Denote(e, world, Scraped(UnitEnv(), replicas))) == Apart(KeptNames(e), replicas)
  {
    var apart := Apart(KeptNames(e), replicas);
    assert Resources(UnitEnv());
    ChainLabels(e, world, UnitEnv(), replicas);
    ChainUnit(e, world);
    LabelsOfScrape([Sample(map[], 1.0)], apart);
    assert LabelsOf([Sample(map[], 1.0)]) == [map[]];
    CrossOfNone(apart);
  }

  lemma {:induction false} CrossOfNone(tags: seq<Labels>)
    ensures Cross([map[]], tags) == tags
  {
    if tags != [] {
      var last := tags[|tags| - 1];
      CrossOfNone(tags[..|tags| - 1]);
      assert map[] + last == last;
      assert Map(Joining(last), [map[]]) == [last];
    }
  }

  // ------------------------------------------------------------ values of one and more

  predicate AtLeastOne(values: seq<real>) {
    forall k | 0 <= k < |values| :: values[k] >= 1.0
  }

  predicate SomeAbove(values: seq<real>) {
    exists k :: 0 <= k < |values| && values[k] > 1.0
  }

  lemma {:induction false} SumOfOnes(values: seq<real>)
    requires AtLeastOne(values)
    ensures Sum(values) >= |values| as real
    ensures SomeAbove(values) ==> Sum(values) > |values| as real
  {
    if values != [] {
      var n := |values| - 1;
      SumOfOnes(values[..n]);
      if SomeAbove(values) && values[n] == 1.0 {
        var k :| 0 <= k < |values| && values[k] > 1.0;
        assert values[..n][k] > 1.0;
      }
    }
  }

  lemma {:induction false} GreatestIsGreatest(values: seq<real>)
    requires values != []
    ensures Greatest(values) in values
    ensures forall k | 0 <= k < |values| :: values[k] <= Greatest(values)
  {
    if |values| > 1 { GreatestIsGreatest(values[..|values| - 1]); }
  }

  lemma Quotient(sum: real, n: real)
    requires n > 0.0
    ensures sum >= n ==> sum / n >= 1.0
    ensures sum > n ==> sum / n > 1.0
  {
    var q := sum / n;
    assert q * n == sum;
    if q < 1.0 { assert (1.0 - q) * n > 0.0; }
    if q <= 1.0 { assert (1.0 - q) * n >= 0.0; }
  }

  /** Reducing values of one and more gives one and more. */
  lemma ReduceStays(op: string, values: seq<real>)
    requires op in REDUCERS && values != [] && AtLeastOne(values)
    ensures Reduce(op, values) >= 1.0
  {
    SumOfOnes(values);
    GreatestIsGreatest(values);
    GreatestIsGreatest(Negated(values));
    Quotient(Sum(values), |values| as real);
    if op == "min" {
      var k :| 0 <= k < |Negated(values)| && Negated(values)[k] == Greatest(Negated(values));
      assert Negated(values)[k] == -values[k];
    }
  }

  /** A value above one stays visible through every reducer but `min`, `count` and `group`. */
  lemma ReduceRises(op: string, values: seq<real>)
    requires op in {"sum", "max", "avg"} && AtLeastOne(values) && SomeAbove(values)
    ensures Reduce(op, values) > 1.0
  {
    SumOfOnes(values);
    GreatestIsGreatest(values);
    Quotient(Sum(values), |values| as real);
  }

  /** Adding or counting two and more gives more than one. */
  lemma ReduceMany(op: string, values: seq<real>)
    requires op in {"sum", "count"} && AtLeastOne(values) && |values| >= 2
    ensures Reduce(op, values) > 1.0
  {
    SumOfOnes(values);
  }

  function ValueOf(): Sample -> real {
    (s: Sample) => s.value
  }

  function ValuesOf(v: Vector): seq<real> {
    Map(ValueOf(), v)
  }

  lemma {:induction false} GroupBounds(v: Vector, grouping: Grouping, key: Labels)
    requires AtLeastOne(ValuesOf(v))
    ensures AtLeastOne(Group(v, grouping, key))
  {
    if v != [] {
      var n := |v| - 1;
      assert ValuesOf(v)[n] == v[n].value;
      assert ValuesOf(v[..n]) == ValuesOf(v)[..n];
      GroupBounds(v[..n], grouping, key);
    }
  }

  lemma {:induction false} GroupHolds(v: Vector, grouping: Grouping, i: nat)
    requires i < |v|
    ensures v[i].value in Group(v, grouping, Project(grouping, v[i].labels))
  {
    var n := |v| - 1;
    if i < n { GroupHolds(v[..n], grouping, i); }
  }

  lemma {:induction false} GroupHoldsTwo(v: Vector, grouping: Grouping, i: nat, j: nat)
    requires i < j < |v| && Project(grouping, v[i].labels) == Project(grouping, v[j].labels)
    ensures |Group(v, grouping, Project(grouping, v[i].labels))| >= 2
  {
    var n := |v| - 1;
    if j < n {
      GroupHoldsTwo(v[..n], grouping, i, j);
    } else {
      GroupHolds(v[..n], grouping, i);
    }
  }

  /** The aggregate holds what reducing the group of any of its samples gives. */
  lemma AggregateHolds(op: string, grouping: Grouping, v: Vector, i: nat) returns (k: nat)
    requires op in REDUCERS && i < |v|
    ensures var key := Project(grouping, v[i].labels);
            && Group(v, grouping, key) != [] && k < |Aggregate(op, grouping, v)|
            && Aggregate(op, grouping, v)[k].value == Reduce(op, Group(v, grouping, key))
  {
    var keys := KeysOf(grouping, v);
    var key := Project(grouping, v[i].labels);
    assert keys[i] == key;
    assert key in Dedup(keys);
    GroupFound(v, grouping, key);
    k :| 0 <= k < |Dedup(keys)| && Dedup(keys)[k] == key;
    ReducingAt(op, grouping, v, key, Group(v, grouping, key));
  }

  lemma AggregateStays(op: string, grouping: Grouping, v: Vector)
    requires op in REDUCERS && AtLeastOne(ValuesOf(v))
    ensures AtLeastOne(ValuesOf(Aggregate(op, grouping, v)))
  {
    var keys := Dedup(KeysOf(grouping, v));
    forall k | 0 <= k < |keys|
      ensures ValuesOf(Aggregate(op, grouping, v))[k] >= 1.0
    {
      assert keys[k] in keys;
      GroupFound(v, grouping, keys[k]);
      GroupBounds(v, grouping, keys[k]);
      ReduceStays(op, Group(v, grouping, keys[k]));
      ReducingAt(op, grouping, v, keys[k], Group(v, grouping, keys[k]));
    }
  }

  lemma AggregateRises(op: string, grouping: Grouping, v: Vector)
    requires op in {"sum", "max", "avg"} && AtLeastOne(ValuesOf(v)) && SomeAbove(ValuesOf(v))
    ensures SomeAbove(ValuesOf(Aggregate(op, grouping, v)))
  {
    var i :| 0 <= i < |ValuesOf(v)| && ValuesOf(v)[i] > 1.0;
    var values := Group(v, grouping, Project(grouping, v[i].labels));
    GroupHolds(v, grouping, i);
    GroupBounds(v, grouping, Project(grouping, v[i].labels));
    var m :| 0 <= m < |values| && values[m] == v[i].value;
    ReduceRises(op, values);
    var k := AggregateHolds(op, grouping, v, i);
    assert ValuesOf(Aggregate(op, grouping, v))[k] > 1.0;
  }

  /** Where two series fall together, adding or counting shows it. */
  lemma AggregateMerges(op: string, grouping: Grouping, v: Vector)
    requires op in {"sum", "count"} && AtLeastOne(ValuesOf(v)) && |Dedup(KeysOf(grouping, v))| != |v|
    ensures SomeAbove(ValuesOf(Aggregate(op, grouping, v)))
  {
    var keys := KeysOf(grouping, v);
    DedupLength(keys);
    var i, j :| 0 <= i < j < |keys| && keys[i] == keys[j];
    var key := Project(grouping, v[i].labels);
    assert keys[i] == key && keys[j] == Project(grouping, v[j].labels);
    GroupHoldsTwo(v, grouping, i, j);
    GroupBounds(v, grouping, key);
    ReduceMany(op, Group(v, grouping, key));
    var k := AggregateHolds(op, grouping, v, i);
    assert ValuesOf(Aggregate(op, grouping, v))[k] > 1.0;
  }

  // ------------------------------------------------------------ where it fails

  /** A sum or a count that lets replicas fall together makes some value exceed one, for good. */
  lemma {:induction false} MergingShows(e: Expr, world: World, replicas: seq<Labels>)
    requires Telling(e) && Replicas(replicas)
    ensures var v := Denote(e, world, Scraped(UnitEnv(), replicas));
            AtLeastOne(ValuesOf(v)) && (!Commutes(e, replicas) ==> SomeAbove(ValuesOf(v)))
  {
    match e
    case Metric(_) =>
      OnesOfScrape(replicas);
    case Agg(op, grouping, arg) =>
      hide Denote, Aggregate, KeptNames, Apart, ValuesOf, KeysOf;
      var v := Denote(arg, world, Scraped(UnitEnv(), replicas));
      MergingShows(arg, world, replicas);
      TellingIsChain(arg);
      if op == "min" { StableCommutes(arg, replicas); }
      UnitKeys(op, grouping, arg, world, replicas);
      AggregateStays(op, grouping, v);
      StepShows(op, grouping, arg, v, replicas);
      DenoteAggregate(op, grouping, arg, world, Scraped(UnitEnv(), replicas));
  }

  lemma DenoteAggregate(op: string, grouping: Grouping, arg: Expr, world: World, env: string -> Vector)
    requires op in REDUCERS
    ensures Denote(Agg(op, grouping, arg), world, env) == Aggregate(op, grouping, Denote(arg, world, env))
  {
  }

  /** One aggregation over series of which `v` holds the values on one scraped resource. */
  lemma StepShows(op: string, grouping: Grouping, arg: Expr, v: Vector, replicas: seq<Labels>)
    requires op in REDUCERS && AtLeastOne(ValuesOf(v)) && Chain(arg)
    requires op == "min" ==> Commutes(arg, replicas)
    requires !Commutes(arg, replicas) ==> SomeAbove(ValuesOf(v))
    requires |Dedup(KeysOf(grouping, v))| == |v| ==> KeepsApart(grouping, arg, replicas)
    ensures !Commutes(Agg(op, grouping, arg), replicas) ==> SomeAbove(ValuesOf(Aggregate(op, grouping, v)))
  {
    hide Aggregate, ValuesOf, KeysOf, KeepsApart;
    if op in {"sum", "count"} && !KeepsApart(grouping, arg, replicas) {
      AggregateMerges(op, grouping, v);
    } else if !Commutes(Agg(op, grouping, arg), replicas) {
      AggregateRises(op, grouping, v);
    }
  }

  lemma {:induction false} OnesOfScrape(tags: seq<Labels>)
    ensures AtLeastOne(ValuesOf(Scrape([Sample(map[], 1.0)], tags)))
  {
    if tags != [] { OnesOfScrape(tags[..|tags| - 1]); }
  }

  /** The keys of an aggregate over one resource are the replicas it still tells apart. */
  lemma UnitKeys(op: string, grouping: Grouping, arg: Expr, world: World, replicas: seq<Labels>)
    requires op in REDUCERS && Chain(arg) && Replicas(replicas)
    ensures var v := Denote(arg, world, Scraped(UnitEnv(), replicas));
            |Dedup(KeysOf(grouping, v))| == |v| <==> KeepsApart(grouping, arg, replicas)
  {
    var v := Denote(arg, world, Scraped(UnitEnv(), replicas));
    UnitLabels(arg, world, replicas);
    UnitLabels(Agg(op, grouping, arg), world, replicas);
    assert |LabelsOf(v)| == |v|;
    LabelsOfAggregate(op, grouping, v);
  }

  lemma {:induction false} GroupAll(v: Vector)
    ensures Group(v, Bare, map[]) == ValuesOf(v)
  {
    if v != [] {
      var n := |v| - 1;
      GroupAll(v[..n]);
      assert Project(Bare, v[n].labels) == map[];
      assert ValuesOf(v) == ValuesOf(v[..n]) + [v[n].value];
    }
  }

  /** A bare aggregate is one series with all values reduced. */
  lemma BareReduce(op: string, v: Vector)
    requires op in REDUCERS && v != []
    ensures ValuesOf(v) != [] && Aggregate(op, Bare, v) == [Sample(map[], Reduce(op, ValuesOf(v)))]
  {
    var keys := KeysOf(Bare, v);
    forall k | 0 <= k < |keys|
      ensures keys[k] == map[]
    {
      assert keys[k] == Project(Bare, v[k].labels);
    }
    DedupSame(keys);
    GroupAll(v);
    ReducingAt(op, Bare, v, map[], ValuesOf(v));
  }

  lemma CopiesShow(arg: Expr, world: World, replicas: seq<Labels>)
    requires Telling(arg) && Replicas(replicas)
    requires !AgreeOn(KeptNames(arg), replicas) || !Commutes(arg, replicas)
    ensures Denote(Agg("sum", Bare, arg), world, Scraped(UnitEnv(), replicas))
         != Denote(Agg("sum", Bare, arg), world, UnitEnv())
  {
    var v := Denote(arg, world, Scraped(UnitEnv(), replicas));
    TellingIsChain(arg);
    UnitLabels(arg, world, replicas);
    assert |LabelsOf(v)| == |v| == |ValuesOf(v)|;
    ApartOnceIff(KeptNames(arg), replicas);
    MergingShows(arg, world, replicas);
    SumOfOnes(ValuesOf(v));
    BareReduce("sum", v);
    ChainUnit(Agg("sum", Bare, arg), world);
    AggregateMeaning("sum", Bare, arg, world, Scraped(UnitEnv(), replicas));
  }

  lemma ExactAt(arg: Expr, world: World, env: string -> Vector, replicas: seq<Labels>)
    requires SumIsExact(arg, replicas) && Resources(env)
    ensures Denote(Agg("sum", Bare, arg), world, Scraped(env, replicas)) == Denote(Agg("sum", Bare, arg), world, env)
  {
  }

  /**
   When a sum over aggregations of one metric is right: exactly when the replicas agree on
   every replica label that is still kept, and every sum below it, and every count whose
   value is read, still tells apart the replicas its argument tells apart.
   */
  lemma SumIsExactIff(arg: Expr, replicas: seq<Labels>)
    requires Telling(arg) && Replicas(replicas)
    ensures SumIsExact(arg, replicas) <==> AgreeOn(KeptNames(arg), replicas) && Commutes(arg, replicas)
  {
    TellingIsChain(arg);
    if AgreeOn(KeptNames(arg), replicas) && Commutes(arg, replicas) {
      forall world: World, env: string -> Vector | Resources(env)
        ensures Denote(Agg("sum", Bare, arg), world, Scraped(env, replicas))
                  == Denote(Agg("sum", Bare, arg), world, env)
      {
        ChainReduces(arg, world);
        AgreeingSumIsExact(arg, world, env, replicas);
      }
    } else {
      CopiesShow(arg, AnyWorld(), replicas);
      assert Resources(UnitEnv());
      if SumIsExact(arg, replicas) { ExactAt(arg, AnyWorld(), UnitEnv(), replicas); }
    }
  }

  // ------------------------------------------------------------ shields the walk accepts

  lemma {:induction false} WalkShielded(e: Expr, gauges: set<string>)
    ensures TreeWalk(e, gauges, true) == {}
  {
    match e
    case Metric(_) =>
    case PerSeries(_, arg) => WalkShielded(arg, gauges);
    case Paired(left, right) =>
      WalkShielded(left, gauges);
      WalkShielded(right, gauges);
    case Agg(_, _, arg) => WalkShielded(arg, gauges);
  }

  /** What a trusted `without` keeps of a gauge: every replica label its list does not name. */
  lemma WithoutShieldIff(labels: seq<string>, op: string, name: string, gauges: set<string>, replicas: seq<Labels>)
    requires op in STABLE_REDUCERS && RemovesReplicas(Without(labels)) && Replicas(replicas)
    ensures var arg := Agg(op, Without(labels), Metric(name));
            && TreeWalk(arg, gauges, false) == {}
            && (SumIsExact(arg, replicas)
                <==> AgreeOn((set x | x in REPLICA_LABELS && x !in labels), replicas))
  {
    var arg := Agg(op, Without(labels), Metric(name));
    StableCommutes(arg, replicas);
    SumIsExactIff(arg, replicas);
    assert KeptNames(arg) == set x | x in REPLICA_LABELS && x !in labels;
  }

  /**
   A sum or a count below a shield the walk accepts: sound exactly when its own modifier
   still tells every two replicas apart.
   */
  lemma SumBelowShieldIff(below: string, inner: Grouping, labels: seq<string>, name: string, gauges: set<string>,
                          replicas: seq<Labels>)
    requires below in {"sum", "count"} && RemovesReplicas(By(labels)) && Replicas(replicas)
    ensures var arg := Agg("max", By(labels), Agg(below, inner, Metric(name)));
            && TreeWalk(arg, gauges, false) == {}
            && (SumIsExact(arg, replicas)
                <==> |Apart((set x | x in REPLICA_LABELS && Keeps(inner, x)), replicas)| == |replicas|)
  {
    var added := Agg(below, inner, Metric(name));
    var arg := Agg("max", By(labels), added);
    WalkShielded(added, gauges);
    SumIsExactIff(arg, replicas);
    NothingKept("max", labels, added, replicas);
    AddedCommutes(below, inner, name, replicas);
  }

  lemma NothingKept(op: string, labels: seq<string>, arg: Expr, replicas: seq<Labels>)
    requires RemovesReplicas(By(labels)) && Replicas(replicas)
    ensures AgreeOn(KeptNames(Agg(op, By(labels), arg)), replicas)
  {
    RemovesReplicasMeaning(By(labels));
    KeptAreReplicaLabels(arg);
    assert KeptNames(Agg(op, By(labels), arg)) == {};
    ApartNone(replicas);
    ApartOnceIff({}, replicas);
  }

  lemma AddedCommutes(op: string, inner: Grouping, name: string, replicas: seq<Labels>)
    requires op in {"sum", "count"} && Replicas(replicas)
    ensures Commutes(Agg(op, inner, Metric(name)), replicas)
       <==> |Apart((set x | x in REPLICA_LABELS && Keeps(inner, x)), replicas)| == |replicas|
  {
    KeptByOne(inner, name, replicas);
    hide Apart, KeepsApart, Keeps, Replicas;
  }

  lemma KeptByOne(inner: Grouping, name: string, replicas: seq<Labels>)
    requires Replicas(replicas)
    ensures KeepsApart(inner, Metric(name), replicas)
       <==> |Apart((set x | x in REPLICA_LABELS && Keeps(inner, x)), replicas)| == |replicas|
  {
    ApartWhole(replicas);
    hide Apart, Keeps, Replicas;
    assert KeptNames(Agg("", inner, Metric(name))) == set x | x in REPLICA_LABELS && Keeps(inner, x);
  }

  /** So a bare count below a shield passes the walk, and the sum then counts processes. */
  lemma CountBelowShieldIsUnsound(name: string, gauges: set<string>, world: World, replicas: seq<Labels>)
    requires Replicas(replicas)
    ensures var arg := Agg("max", Bare, Agg("count", Bare, Metric(name)));
            && TreeWalk(arg, gauges, false) == {}
            && Denote(Agg("sum", Bare, arg), world, Scraped(UnitEnv(), replicas)) == [Sample(map[], |replicas| as real)]
  {
    var scraped := Scraped(UnitEnv(), replicas);
    var count := Agg("count", Bare, Metric(name));
    CountOfUnit(name, world, replicas);
    StepSingle("max", count, world, scraped, |replicas| as real);
    StepSingle("sum", Agg("max", Bare, count), world, scraped, |replicas| as real);
    WalkShielded(count, gauges);
  }

  lemma CountOfUnit(name: string, world: World, replicas: seq<Labels>)
    requires Replicas(replicas)
    ensures Denote(Agg("count", Bare, Metric(name)), world, Scraped(UnitEnv(), replicas))
         == [Sample(map[], |replicas| as real)]
  {
    assert Resources(UnitEnv());
    hide Denote, Scaled, Aggregate, Apart, Replicas, Resources, Scraped;
    SumCountsReplicas("count", Bare, Metric(name), world, UnitEnv(), replicas);
    ApartWhole(replicas);
    DenoteAggregate("count", Bare, Metric(name), world, UnitEnv());
    UnitIs(name, world);
    AggregateSingle("count", Bare, 1.0);
    ScaledUnit(|replicas|);
  }

  lemma UnitIs(name: string, world: World)
    ensures Denote(Metric(name), world, UnitEnv()) == [Sample(map[], 1.0)]
  {
  }

  lemma ScaledUnit(n: nat)
    ensures Scaled([Sample(map[], 1.0)], n) == [Sample(map[], n as real)]
  {
    ManyIsProduct(n, 1.0);
  }

  lemma StepSingle(op: string, inner: Expr, world: World, env: string -> Vector, x: real)
    requires op in {"sum", "max"} && Denote(inner, world, env) == [Sample(map[], x)]
    ensures Denote(Agg(op, Bare, inner), world, env) == [Sample(map[], x)]
  {
    AggregateSingle(op, Bare, x);
  }

  // ------------------------------------------------------------ why `min` above a sum is left out

  const POD_P: Labels := map["pod" := "p"]
  const POD_Q: Labels := map["pod" := "q"]

  /** Two processes in one pod, one in another. */
  const THREE_PROCESSES: seq<Labels> :=
    [map["instance" := "a", "pod" := "p"], map["instance" := "b", "pod" := "p"], map["instance" := "c", "pod" := "q"]]

  function CountByPod(name: string): Expr {
    Agg("count", By(["pod"]), Metric(name))
  }

  lemma TwoOfThree(p: Labels, q: Labels)
    requires p != q
    ensures Dedup([p, p, q]) == [p, q] && Count([p, p, q], p) == 2 && Count([p, p, q], q) == 1
  {
    var tags := [p, p, q];
    assert tags[..2] == [p, p] && tags[..2][..1] == [p] && tags[..2][..1][..0] == [];
    assert Dedup([p]) == [p] && Dedup([p, p]) == [p];
    assert Count([p], p) == 1 && Count([p, p], p) == 2;
    assert Count([p], q) == 0 && Count([p, p], q) == 0;
  }

  lemma PodOf(tag: Labels)
    requires "pod" in tag
    ensures Project(By(["pod"]), tag) == map["pod" := tag["pod"]]
  {
    assert forall name :: Keeps(By(["pod"]), name) <==> name == "pod";
  }

  lemma ThreeProcesses()
    ensures Replicas(THREE_PROCESSES) && IsTag(POD_P) && IsTag(POD_Q) && POD_P != POD_Q
    ensures Map(Projection(By(["pod"])), THREE_PROCESSES) == [POD_P, POD_P, POD_Q]
  {
    var t := THREE_PROCESSES;
    assert t[0]["instance"] == "a" && t[1]["instance"] == "b" && t[2]["instance"] == "c";
    assert POD_P["pod"] != POD_Q["pod"];
    PodOf(t[0]);
    PodOf(t[1]);
    PodOf(t[2]);
  }

  /** Resources carry no pod: they all fall into one group. */
  lemma {:induction false} OneGroup(v: Vector)
    requires OnlyResources(v)
    ensures |Group(v, By(["pod"]), map[])| == |v|
    ensures forall k | 0 <= k < |v| :: KeysOf(By(["pod"]), v)[k] == map[]
  {
    if v != [] {
      var n := |v| - 1;
      OneGroup(v[..n]);
      assert "pod" in REPLICA_LABELS && IsResource(v[n].labels);
      assert Project(By(["pod"]), v[n].labels) == map[];
      assert KeysOf(By(["pod"]), v) == KeysOf(By(["pod"]), v[..n]) + [map[]];
    }
  }

  lemma CountOnceByPod(v: Vector)
    requires OnlyResources(v) && v != []
    ensures Aggregate("count", By(["pod"]), v) == [Sample(map[], |v| as real)]
  {
    OneGroup(v);
    DedupSame(KeysOf(By(["pod"]), v));
    ReducingAt("count", By(["pod"]), v, map[], Group(v, By(["pod"]), map[]));
  }

  /** Counting one group of the scraped vector, when all resources fall into one. */
  lemma CountAt(grouping: Grouping, v: Vector, tags: seq<Labels>, kept: Labels, n: nat)
    requires OnlyResources(v) && OnlyTags(tags) && IsTag(kept) && v != [] && n > 0
    requires |Group(v, grouping, map[])| == |v| && n == Count(Map(Projection(grouping), tags), kept)
    ensures Reducing("count", Scrape(v, tags), grouping)(kept) == Sample(kept, (n * |v|) as real)
  {
    GroupScrape(v, tags, grouping, map[], kept);
    assert map[] + kept == kept;
    TimesSize(Group(v, grouping, map[]), n);
    assert n * |v| > 0;
    ReducingAt("count", grouping, Scrape(v, tags), kept, Times(Group(v, grouping, map[]), n));
  }

  lemma {:induction false} TimesSize(values: seq<real>, n: nat)
    ensures |Times(values, n)| == n * |values|
  {
    if n > 0 {
      TimesSize(values, n - 1);
      assert n * |values| == (n - 1) * |values| + |values|;
    }
  }

  lemma TwoKeys(grouping: Grouping, v: Vector, tags: seq<Labels>, p: Labels, q: Labels)
    requires OnlyResources(v) && OnlyTags(tags) && p != q
    requires Dedup(KeysOf(grouping, v)) == [map[]] && Map(Projection(grouping), tags) == [p, p, q]
    requires OnlyTags([p, p, q])
    ensures Dedup(KeysOf(grouping, Scrape(v, tags))) == [p, q]
  {
    hide Dedup, Scrape, KeysOf, Count, Cross;
    TwoOfThree(p, q);
    KeysOfScrape(grouping, v, tags);
    KeysAreResources(grouping, v);
    DedupCross(KeysOf(grouping, v), [p, p, q]);
    CrossOfNone([p, q]);
  }

  lemma EmitTwo(op: string, grouping: Grouping, v: Vector, p: Labels, q: Labels)
    requires op in REDUCERS && Dedup(KeysOf(grouping, v)) == [p, q]
    ensures Aggregate(op, grouping, v) == [Reducing(op, v, grouping)(p), Reducing(op, v, grouping)(q)]
  {
    hide Dedup, KeysOf, Reducing;
  }

  /** The same for two kept label sets, the first of two replicas. */
  lemma CountTwo(grouping: Grouping, v: Vector, tags: seq<Labels>, p: Labels, q: Labels)
    requires OnlyResources(v) && OnlyTags(tags) && IsTag(p) && IsTag(q) && p != q && v != []
    requires |Group(v, grouping, map[])| == |v| && Dedup(KeysOf(grouping, v)) == [map[]]
    requires Map(Projection(grouping), tags) == [p, p, q]
    ensures Aggregate("count", grouping, Scrape(v, tags)) == [Sample(p, (2 * |v|) as real), Sample(q, |v| as real)]
  {
    hide Aggregate, Dedup, Scrape, KeysOf, Reducing, Count, Group, Projection;
    TwoOfThree(p, q);
    TwoKeys(grouping, v, tags, p, q);
    EmitTwo("count", grouping, Scrape(v, tags), p, q);
    CountAt(grouping, v, tags, p, 2);
    CountAt(grouping, v, tags, q, 1);
  }

  lemma OneKey(v: Vector)
    requires OnlyResources(v) && v != []
    ensures Dedup(KeysOf(By(["pod"]), v)) == [map[]]
  {
    OneGroup(v);
    DedupSame(KeysOf(By(["pod"]), v));
  }

  lemma CountThriceByPod(v: Vector)
    requires OnlyResources(v) && v != []
    ensures Aggregate("count", By(["pod"]), Scrape(v, THREE_PROCESSES))
         == [Sample(POD_P, (2 * |v|) as real), Sample(POD_Q, |v| as real)]
  {
    hide Aggregate, Scrape, Group, KeysOf, Projection, Dedup;
    ThreeProcesses();
    OneGroup(v);
    OneKey(v);
    CountTwo(By(["pod"]), v, THREE_PROCESSES, POD_P, POD_Q);
  }

  lemma LeastOfTwo(n: nat)
    ensures Reduce("min", [(2 * n) as real, n as real]) == n as real
  {
    var values := Negated([(2 * n) as real, n as real]);
    assert values == [-((2 * n) as real), -(n as real)];
    assert values[..1] == [-((2 * n) as real)];
    assert Greatest(values) == -(n as real);
  }

  lemma MinOverPods(v: Vector)
    requires OnlyResources(v)
    ensures Aggregate("min", Bare, Aggregate("count", By(["pod"]), Scrape(v, THREE_PROCESSES)))
         == Aggregate("min", Bare, Aggregate("count", By(["pod"]), v))
  {
    if v == [] {
      EmptyScrape(THREE_PROCESSES);
      hide Aggregate, Scrape;
    } else {
      hide Aggregate, Scrape, Reduce;
      CountOnceByPod(v);
      CountThriceByPod(v);
      var thrice := [Sample(POD_P, (2 * |v|) as real), Sample(POD_Q, |v| as real)];
      BareReduce("min", thrice);
      assert ValuesOf(thrice) == [(2 * |v|) as real, |v| as real];
      LeastOfTwo(|v|);
      AggregateSingle("min", Bare, |v| as real);
    }
  }

  lemma {:induction false} EmptyScrape(tags: seq<Labels>)
    ensures Scrape([], tags) == []
  {
    if tags != [] { EmptyScrape(tags[..|tags| - 1]); }
  }

  /**
   A `min` can hide what a count below it adds: here two processes of one pod fall together,
   and the sum is right all the same, because the pod of the third is counted right.
   */
  lemma MinCanHide(name: string)
    ensures var arg := Agg("min", Bare, CountByPod(name));
            && Replicas(THREE_PROCESSES) && !Commutes(arg, THREE_PROCESSES) && SumIsExact(arg, THREE_PROCESSES)
  {
    var arg := Agg("min", Bare, CountByPod(name));
    ThreeProcesses();
    forall world: World, env: string -> Vector | Resources(env)
      ensures Denote(Agg("sum", Bare, arg), world, Scraped(env, THREE_PROCESSES))
           == Denote(Agg("sum", Bare, arg), world, env)
    {
      MinOverPods(env(name));
      DenoteMin(name, world, env);
      DenoteMin(name, world, Scraped(env, THREE_PROCESSES));
      DenoteAggregate("sum", Bare, arg, world, env);
      DenoteAggregate("sum", Bare, arg, world, Scraped(env, THREE_PROCESSES));
    }
    PodsFallTogether(name);
  }

  lemma DenoteMin(name: string, world: World, env: string -> Vector)
    ensures Denote(Agg("min", Bare, CountByPod(name)), world, env)
         == Aggregate("min", Bare, Aggregate("count", By(["pod"]), env(name)))
  {
    DenoteAggregate("min", Bare, CountByPod(name), world, env);
    DenoteAggregate("count", By(["pod"]), Metric(name), world, env);
  }

  lemma PodsFallTogether(name: string)
    ensures !Commutes(Agg("min", Bare, CountByPod(name)), THREE_PROCESSES)
  {
    ThreeProcesses();
    TwoOfThree(POD_P, POD_Q);
    ApartWhole(THREE_PROCESSES);
    ApartAfter("count", By(["pod"]), Metric(name), THREE_PROCESSES);
    assert Kept(By(["pod"]), THREE_PROCESSES) == [POD_P, POD_Q];
    assert !KeepsApart(By(["pod"]), Metric(name), THREE_PROCESSES);
    NotCommuting(By(["pod"]), Metric(name), THREE_PROCESSES);
  }

  lemma NotCommuting(grouping: Grouping, arg: Expr, replicas: seq<Labels>)
    requires !KeepsApart(grouping, arg, replicas)
    ensures !Commutes(Agg("min", Bare, Agg("count", grouping, arg)), replicas)
  {
    hide KeepsApart;
    assert !Commutes(Agg("count", grouping, arg), replicas);
  }
}
