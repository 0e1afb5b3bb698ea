/**
 Which aggregations remove the replica dimension, and the walk that decides, over
 the tree of an expression, which gauges a `sum` still reads once per replica.
 */
module PromShield {
  import opened Text
  import opened PromText

  /** Labels that name the process that was scraped, not the resource. */
  const REPLICA_LABELS: set<string> :=
    {"instance", "pod", "job", "replica", "container", "kubernetes_pod_name", "host"}

  const ACROSS_SERIES_AGGREGATIONS: set<string> :=
    {"count_values", "bottomk", "stddev", "stdvar", "quantile", "group", "count", "topk", "avg", "min", "max", "sum"}

  const REPLICA_IDEMPOTENT_AGGREGATIONS: set<string> := {"max", "min", "avg", "group", "quantile"}

  /** The modifier of an aggregation: none, `by (...)` or `without (...)`. */
  datatype Grouping = Bare | By(labels: seq<string>) | Without(labels: seq<string>)

  predicate Keeps(grouping: Grouping, name: string) {
    match grouping
    case Bare => false
    case By(labels) => name in labels
    case Without(labels) => name !in labels
  }

  predicate RemovesReplicas(grouping: Grouping) {
    match grouping
    case Bare => true
    case By(labels) => forall k | 0 <= k < |labels| :: labels[k] !in REPLICA_LABELS
    case Without(labels) => exists k | 0 <= k < |labels| :: labels[k] in REPLICA_LABELS
  }

  predicate Collapses(op: string, grouping: Grouping) {
    op in REPLICA_IDEMPOTENT_AGGREGATIONS && RemovesReplicas(grouping)
  }

  /**
   What the answer of the check means for a modifier: no modifier and a trusted `by`
   drop every replica label, a trusted `without` only some.
   */
  lemma RemovesReplicasMeaning(grouping: Grouping)
    ensures !grouping.Without? ==>
              (RemovesReplicas(grouping) <==> forall name | name in REPLICA_LABELS :: !Keeps(grouping, name))
    ensures grouping.Without? ==>
              (RemovesReplicas(grouping) <==> exists name :: name in REPLICA_LABELS && !Keeps(grouping, name))
  {
    match grouping
    case Bare =>
    case By(labels) =>
      assert forall name | name in labels :: exists k :: 0 <= k < |labels| && labels[k] == name;
    case Without(labels) =>
      assert forall k | 0 <= k < |labels| :: labels[k] in labels;
  }

  /**
   An expression: a reference to a metric as it is written, with its selector and its range,
   a function of each series, a series-wise pair, or an aggregation.
   */
  datatype Expr =
    | Metric(reference: string)
    | PerSeries(fn: string, arg: Expr)
    | Paired(left: Expr, right: Expr)
    | Agg(op: string, grouping: Grouping, arg: Expr)

  function Leaves(e: Expr): set<string> {
    match e
    case Metric(name) => {name}
    case PerSeries(_, arg) => Leaves(arg)
    case Paired(left, right) => Leaves(left) + Leaves(right)
    case Agg(_, _, arg) => Leaves(arg)
  }

  /** The metric a reference names, without its selector and its range. */
  function MetricName(reference: string): (name: string)
    ensures name <= reference
  {
    reference[..NameEnd(reference, 0)]
  }

  /** The name without the suffix Prometheus derives from a histogram or summary. */
  function BaseMetricName(name: string): (family: string)
    ensures family <= name
  {
    if EndsWith(name, "_bucket") then name[..|name| - 7]
    else if EndsWith(name, "_sum") then name[..|name| - 4]
    else if EndsWith(name, "_count") then name[..|name| - 6]
    else name
  }

  /** The family a reference reads, where it is declared a gauge. */
  function GaugeOf(name: string, gauges: set<string>): (families: set<string>)
    ensures families <= gauges
  {
    if BaseMetricName(name) in gauges then {BaseMetricName(name)} else {}
  }

  /** The gauges no enclosing aggregation is trusted to have collapsed. */
  function TreeWalk(e: Expr, gauges: set<string>, shielded: bool): (families: set<string>)
    ensures families <= gauges
  {
    match e
    case Metric(reference) => if shielded then {} else GaugeOf(MetricName(reference), gauges)
    case PerSeries(_, arg) => TreeWalk(arg, gauges, shielded)
    case Paired(left, right) => TreeWalk(left, gauges, shielded) + TreeWalk(right, gauges, shielded)
    case Agg(op, grouping, arg) => TreeWalk(arg, gauges, shielded || Collapses(op, grouping))
  }
}
