/**
 The verdict of the link gate: every target and shape is classified first and
 reconciled second against a baseline that may only shrink.
 */
module LinkLedger {
  import opened Text
  import opened RouteMatcher
  import opened ShapeMatcher
  import opened TemplateExpansion

  // ------------------------------------------------------------ inputs

  datatype Reference = Reference(target: string, file: string, line: nat, hrefLike: bool)

  /** A reviewed row: a tolerated dead target, with the reason and the finding that owns it. */
  datatype Entry = Entry(key: string, reason: string, finding: string, class_: string)

  datatype Row = ExpandedRow | ShapeRow(pattern: string) | UnparsedRow | OtherRow

  /**
   What the reconciliation reads: the references and template rows of the sources,
   the two baselines, and the classifiers it asks about targets, shapes and rows.
   */
  datatype Input = Input(
    references: seq<Reference>, baseline: seq<Entry>, rows: seq<Row>, deadShapes: seq<Entry>,
    classify: string -> Verdict, shapeAlive: string -> bool,
    reasoned: Entry -> bool, owned: Entry -> bool)

  /** The input the gate builds for one application, with the classifiers over its routes. */
  function GateInput(references: seq<Reference>, routes: seq<string>, baseline: seq<Entry>,
                     rows: seq<Row>, deadShapes: seq<Entry>): Input
  {
    Input(references, baseline, rows, deadShapes,
          t => Classify(t, routes), p => ShapeAlive(p, routes),
          (e: Entry) => Trim(e.reason) != [], (e: Entry) => IsFindingId(Trim(e.finding)))
  }

  const PREFIX_CONSTANT := "prefix-constant"

  /** `/^(PF|R|VAL|D)-\d+$/`. */
  predicate IsFindingId(s: string) {
    exists p | p in {"PF-", "R-", "VAL-", "D-"} ::
      StartsWith(s, p) && |s| > |p| && forall c | c in s[|p|..] :: IsDigit(c)
  }

  function TargetsOf(references: seq<Reference>): seq<string> {
    Distinct(AllTargets(references))
  }

  function AllTargets(references: seq<Reference>): (all: seq<string>)
    ensures |all| == |references| && forall k | 0 <= k < |references| :: all[k] == references[k].target
  {
    seq(|references|, k requires 0 <= k < |references| => references[k].target)
  }

  function PatternsOf(rows: seq<Row>): seq<string> {
    Distinct(AllPatterns(rows))
  }

  function AllPatterns(rows: seq<Row>): seq<string> {
    if rows == [] then []
    else AllPatterns(rows[..|rows| - 1]) +
         if rows[|rows| - 1].ShapeRow? then [rows[|rows| - 1].pattern] else []
  }

  /** The row in force for a key: a map built in order keeps the last. */
  function EntryFor(entries: seq<Entry>, key: string): (entry: Option<Entry>)
    ensures entry.Some? ==> entry.value in entries && entry.value.key == key
    ensures entry.None? <==> forall e | e in entries :: e.key != key
  {
    if entries == [] then None
    else if entries[|entries| - 1].key == key then Some(entries[|entries| - 1])
    else
      var entry := EntryFor(entries[..|entries| - 1], key);
      assert entries == entries[..|entries| - 1] + [entries[|entries| - 1]];
      entry
  }

  predicate Navigated(references: seq<Reference>, target: string) {
    exists r | r in references :: r.target == target && r.hrefLike
  }

  // ------------------------------------------------------------ what is reported

  datatype Problem =
    | RowsDoNotReconcile
    | UnparsedTemplate(row: nat)
    | Captured(target: string)
    | DeadLink(target: string)
    | WithoutReason(target: string)
    | WithoutFinding(target: string)
    | PrefixRefused(target: string)
    | BaselinedButAlive(target: string)
    | StaleEntry(target: string)
    | DeadShape(pattern: string)
    | ShapeWithoutReason(pattern: string)
    | ShapeWithoutFinding(pattern: string)
    | BaselinedShapeButAlive(pattern: string)
    | StaleShape(pattern: string)

  predicate IsTarget(input: Input, target: string) {
    exists r | r in input.references :: r.target == target
  }

  predicate IsPattern(input: Input, pattern: string) {
    ShapeRow(pattern) in input.rows
  }

  predicate IsKey(entries: seq<Entry>, key: string) {
    exists e | e in entries :: e.key == key
  }

  predicate DeadTarget(input: Input, target: string) {
    IsTarget(input, target) && input.classify(target) == Dead
  }

  predicate AliveTarget(input: Input, target: string) {
    IsTarget(input, target) && input.classify(target) in {Exact, CatchAll}
  }

  /** Which problems an input has: the meaning of the report, one line per kind. */
  ghost predicate Reported(input: Input, problem: Problem) {
    match problem
    case RowsDoNotReconcile => OtherRow in input.rows
    case UnparsedTemplate(k) => k < |input.rows| && input.rows[k].UnparsedRow?
    case Captured(t) => IsTarget(input, t) && input.classify(t) == DynamicCapture
    case DeadLink(t) => DeadTarget(input, t) && !IsKey(input.baseline, t)
    case WithoutReason(t) => DeadTarget(input, t) && Unreasoned(input, EntryFor(input.baseline, t))
    case WithoutFinding(t) => DeadTarget(input, t) && Unowned(input, EntryFor(input.baseline, t))
    case PrefixRefused(t) =>
      DeadTarget(input, t) && IsPrefixConstant(EntryFor(input.baseline, t)) && Navigated(input.references, t)
    case BaselinedButAlive(t) => AliveTarget(input, t) && IsKey(input.baseline, t)
    case StaleEntry(t) => IsKey(input.baseline, t) && !IsTarget(input, t)
    case DeadShape(p) => IsPattern(input, p) && !input.shapeAlive(p) && !IsKey(input.deadShapes, p)
    case ShapeWithoutReason(p) =>
      IsPattern(input, p) && !input.shapeAlive(p) && Unreasoned(input, EntryFor(input.deadShapes, p))
    case ShapeWithoutFinding(p) =>
      IsPattern(input, p) && !input.shapeAlive(p) && Unowned(input, EntryFor(input.deadShapes, p))
    case BaselinedShapeButAlive(p) =>
      IsPattern(input, p) && input.shapeAlive(p) && IsKey(input.deadShapes, p)
    case StaleShape(p) => IsKey(input.deadShapes, p) && !IsPattern(input, p)
  }

  predicate Unreasoned(input: Input, entry: Option<Entry>) {
    entry.Some? && !input.reasoned(entry.value)
  }

  predicate Unowned(input: Input, entry: Option<Entry>) {
    entry.Some? && !input.owned(entry.value)
  }

  predicate IsPrefixConstant(entry: Option<Entry>) {
    entry.Some? && entry.value.class_ == PREFIX_CONSTANT
  }

  // ------------------------------------------------------------ what is counted

  datatype Stats = Stats(
    targets: nat, alive: nat, dead: nat, captures: nat,
    baselined: nat, prefixConstants: nat, deadDebt: nat, deadShapes: nat)

  const NO_STATS := Stats(0, 0, 0, 0, 0, 0, 0, 0)

  ghost function CountAlive(input: Input, targets: seq<string>): nat {
    if targets == [] then 0
    else CountAlive(input, targets[..|targets| - 1])
         + if input.classify(targets[|targets| - 1]) in {Exact, CatchAll} then 1 else 0
  }

  ghost function CountDead(input: Input, targets: seq<string>): nat {
    if targets == [] then 0
    else CountDead(input, targets[..|targets| - 1])
         + if input.classify(targets[|targets| - 1]) == Dead then 1 else 0
  }

  // ------------------------------------------------------------ the loops

  /** One target of the first loop: what it adds to the report and to the counts. */
  method JudgeTarget(target: string, input: Input, stats: Stats) returns (found: seq<Problem>, stats': Stats)
    requires IsTarget(input, target)
    ensures forall p :: p in found <==> Reported(input, p) && IsAbout(p, target)
    ensures stats'.targets == stats.targets && stats'.deadShapes == stats.deadShapes
    ensures stats'.alive == stats.alive + (if input.classify(target) in {Exact, CatchAll} then 1 else 0)
    ensures stats'.dead == stats.dead + (if input.classify(target) == Dead then 1 else 0)
    ensures stats'.captures == stats.captures + (if input.classify(target) == DynamicCapture then 1 else 0)
    ensures stats'.prefixConstants + stats'.deadDebt
         == stats.prefixConstants + stats.deadDebt + (if input.classify(target) == Dead then 1 else 0)
    ensures stats'.prefixConstants == stats.prefixConstants +
              (if DeadTarget(input, target) && IsPrefixConstant(EntryFor(input.baseline, target))
                  && !Navigated(input.references, target) then 1 else 0)
    ensures stats'.baselined == stats.baselined +
              (if DeadTarget(input, target) && IsKey(input.baseline, target) then 1 else 0)
  {
    found, stats' := [], stats;
    var verdict := input.classify(target);
    var entry := EntryFor(input.baseline, target);
    if verdict == DynamicCapture {
      return [Captured(target)], stats.(captures := stats.captures + 1);
    }
    if verdict == Dead {
      stats' := stats'.(dead := stats'.dead + 1);
      if entry.None? {
        return [DeadLink(target)], stats'.(deadDebt := stats'.deadDebt + 1);
      }
      stats' := stats'.(baselined := stats'.baselined + 1);
      if !input.reasoned(entry.value) {
        found := found + [WithoutReason(target)];
      }
      if !input.owned(entry.value) {
        found := found + [WithoutFinding(target)];
      }
      if entry.value.class_ == PREFIX_CONSTANT {
        if !Navigated(input.references, target) {
          return found, stats'.(prefixConstants := stats'.prefixConstants + 1);
        }
        found := found + [PrefixRefused(target)];
      }
      return found, stats'.(deadDebt := stats'.deadDebt + 1);
    }
    stats' := stats'.(alive := stats'.alive + 1);
    if entry.Some? {
      found := [BaselinedButAlive(target)];
    }
  }

  predicate IsAbout(p: Problem, target: string) {
    match p
    case Captured(t) => t == target
    case DeadLink(t) => t == target
    case WithoutReason(t) => t == target
    case WithoutFinding(t) => t == target
    case PrefixRefused(t) => t == target
    case BaselinedButAlive(t) => t == target
    case _ => false
  }

  predicate IsAboutShape(p: Problem, pattern: string) {
    match p
    case DeadShape(s) => s == pattern
    case ShapeWithoutReason(s) => s == pattern
    case ShapeWithoutFinding(s) => s == pattern
    case BaselinedShapeButAlive(s) => s == pattern
    case _ => false
  }

  /** One shape of the second loop. */
  method JudgeShape(pattern: string, input: Input) returns (found: seq<Problem>, dead: bool)
    requires IsPattern(input, pattern)
    ensures forall p :: p in found <==> Reported(input, p) && IsAboutShape(p, pattern)
    ensures dead <==> !input.shapeAlive(pattern)
  {
    found := [];
    var alive := input.shapeAlive(pattern);
    var entry := EntryFor(input.deadShapes, pattern);
    dead := !alive;
    if dead {
      if entry.None? {
        return [DeadShape(pattern)], dead;
      }
      if !input.reasoned(entry.value) {
        found := found + [ShapeWithoutReason(pattern)];
      }
      if !input.owned(entry.value) {
        found := found + [ShapeWithoutFinding(pattern)];
      }
    } else if entry.Some? {
      found := [BaselinedShapeButAlive(pattern)];
    }
  }

  lemma TargetsAreTargets(input: Input, t: string)
    ensures t in TargetsOf(input.references) <==> IsTarget(input, t)
  {
    var all := AllTargets(input.references);
    if IsTarget(input, t) {
      var r :| r in input.references && r.target == t;
      var k :| 0 <= k < |input.references| && input.references[k] == r;
      assert all[k] == t;
    }
    if t in all {
      var k :| 0 <= k < |all| && all[k] == t;
      assert input.references[k] in input.references && input.references[k].target == t;
    }
  }

  lemma {:induction false} PatternsAreRows(rows: seq<Row>, p: string)
    ensures p in AllPatterns(rows) <==> ShapeRow(p) in rows
  {
    if rows != [] {
      PatternsAreRows(rows[..|rows| - 1], p);
      assert rows == rows[..|rows| - 1] + [rows[|rows| - 1]];
    }
  }

  method JudgeTargets(input: Input) returns (problems: seq<Problem>, stats: Stats)
    ensures forall p :: p in problems <==> Reported(input, p) && exists t :: IsAbout(p, t)
    ensures stats.targets == |TargetsOf(input.references)| && stats.deadShapes == 0
    ensures stats.alive == CountAlive(input, TargetsOf(input.references))
    ensures stats.dead == CountDead(input, TargetsOf(input.references))
    ensures stats.targets == stats.alive + stats.dead + stats.captures
    ensures stats.dead == stats.prefixConstants + stats.deadDebt && stats.baselined <= stats.dead
  {
    var targets := TargetsOf(input.references);
    problems, stats := [], NO_STATS.(targets := |targets|);
    for k := 0 to |targets|
      invariant forall p :: p in problems <==> Reported(input, p) && exists t | t in targets[..k] :: IsAbout(p, t)
      invariant stats.targets == |targets| && stats.deadShapes == 0
      invariant stats.alive == CountAlive(input, targets[..k]) && stats.dead == CountDead(input, targets[..k])
      invariant k == stats.alive + stats.dead + stats.captures
      invariant stats.dead == stats.prefixConstants + stats.deadDebt && stats.baselined <= stats.dead
    {
      TargetsAreTargets(input, targets[k]);
      var found;
      found, stats := JudgeTarget(targets[k], input, stats);
      assert targets[..k + 1] == targets[..k] + [targets[k]];
      problems := problems + found;
    }
    assert targets[..|targets|] == targets;
    forall p, t | Reported(input, p) && IsAbout(p, t) ensures t in targets { TargetsAreTargets(input, t); }
  }

  method JudgeShapes(input: Input) returns (problems: seq<Problem>, dead: nat)
    ensures forall p :: p in problems <==> Reported(input, p) && exists s :: IsAboutShape(p, s)
    ensures dead <= |PatternsOf(input.rows)|
  {
    var patterns := PatternsOf(input.rows);
    problems, dead := [], 0;
    for k := 0 to |patterns|
      invariant forall p :: p in problems <==> Reported(input, p) && exists s | s in patterns[..k] :: IsAboutShape(p, s)
      invariant dead <= k
    {
      PatternsAreRows(input.rows, patterns[k]);
      var found, isDead := JudgeShape(patterns[k], input);
      assert patterns[..k + 1] == patterns[..k] + [patterns[k]];
      problems := problems + found;
      if isDead {
        dead := dead + 1;
      }
    }
    assert patterns[..|patterns|] == patterns;
    forall p, s | Reported(input, p) && IsAboutShape(p, s) ensures s in patterns { PatternsAreRows(input.rows, s); }
  }

  /** The two passes over the baselines, for rows nothing stands under any more. */
  method FindStale(input: Input) returns (problems: seq<Problem>)
    ensures forall p :: p in problems <==> Reported(input, p) && (p.StaleEntry? || p.StaleShape?)
  {
    problems := [];
    for k := 0 to |input.baseline|
      invariant forall p :: p in problems <==>
                  p.StaleEntry? && !IsTarget(input, p.target) && IsKey(input.baseline[..k], p.target)
    {
      assert input.baseline[..k + 1] == input.baseline[..k] + [input.baseline[k]];
      if !IsTarget(input, input.baseline[k].key) {
        problems := problems + [StaleEntry(input.baseline[k].key)];
      }
    }
    assert input.baseline[..|input.baseline|] == input.baseline;
    for k := 0 to |input.deadShapes|
      invariant forall p :: p in problems <==>
                  || (p.StaleEntry? && Reported(input, p))
                  || (p.StaleShape? && !IsPattern(input, p.pattern) && IsKey(input.deadShapes[..k], p.pattern))
    {
      assert input.deadShapes[..k + 1] == input.deadShapes[..k] + [input.deadShapes[k]];
      if !IsPattern(input, input.deadShapes[k].key) {
        problems := problems + [StaleShape(input.deadShapes[k].key)];
      }
    }
    assert input.deadShapes[..|input.deadShapes|] == input.deadShapes;
  }

  /** The anti-drop invariant and the unparsed rows. */
  method CheckRows(input: Input) returns (problems: seq<Problem>)
    ensures forall p :: p in problems <==> Reported(input, p) && (p.RowsDoNotReconcile? || p.UnparsedTemplate?)
  {
    problems := [];
    var expanded, shapes, unparsed := 0, 0, 0;
    for k := 0 to |input.rows|
      invariant expanded + shapes + unparsed <= k
      invariant expanded + shapes + unparsed == k <==> OtherRow !in input.rows[..k]
      invariant forall p :: p in problems <==> p.UnparsedTemplate? && p.row < k && input.rows[p.row].UnparsedRow?
    {
      assert input.rows[..k + 1] == input.rows[..k] + [input.rows[k]];
      match input.rows[k]
      case ExpandedRow => expanded := expanded + 1;
      case ShapeRow(_) => shapes := shapes + 1;
      case UnparsedRow =>
        unparsed := unparsed + 1;
        problems := problems + [UnparsedTemplate(k)];
      case OtherRow =>
    }
    assert input.rows[..|input.rows|] == input.rows;
    if |input.rows| != expanded + shapes + unparsed {
      problems := [RowsDoNotReconcile] + problems;
    }
  }

  /**
   The whole reconciliation. The report holds exactly the problems the input has,
   and the counts balance: every target is alive, dead or captured, and every
   dead target is a prefix constant or debt.
   */
  method ClassifyAll(input: Input) returns (problems: seq<Problem>, stats: Stats)
    ensures forall p :: p in problems <==> Reported(input, p)
    ensures stats.targets == |TargetsOf(input.references)|
    ensures stats.alive == CountAlive(input, TargetsOf(input.references))
    ensures stats.dead == CountDead(input, TargetsOf(input.references))
    ensures stats.targets == stats.alive + stats.dead + stats.captures
    ensures stats.dead == stats.prefixConstants + stats.deadDebt && stats.baselined <= stats.dead
  {
    var rows := CheckRows(input);
    var targets;
    targets, stats := JudgeTargets(input);
    var stale := FindStale(input);
    var shapes, dead := JudgeShapes(input);
    stats := stats.(deadShapes := dead);
    problems := rows + targets + stale + shapes;
    forall p: Problem
      ensures p in problems <==> Reported(input, p)
    {
      EveryProblemIsSomewhere(p);
    }
  }

  lemma EveryProblemIsSomewhere(p: Problem)
    ensures || (exists t :: IsAbout(p, t)) || (exists s :: IsAboutShape(p, s))
            || p.StaleEntry? || p.StaleShape? || p.RowsDoNotReconcile? || p.UnparsedTemplate?
  {
    match p {
      case Captured(t) => assert IsAbout(p, t);
      case DeadLink(t) => assert IsAbout(p, t);
      case WithoutReason(t) => assert IsAbout(p, t);
      case WithoutFinding(t) => assert IsAbout(p, t);
      case PrefixRefused(t) => assert IsAbout(p, t);
      case BaselinedButAlive(t) => assert IsAbout(p, t);
      case DeadShape(s) => assert IsAboutShape(p, s);
      case ShapeWithoutReason(s) => assert IsAboutShape(p, s);
      case ShapeWithoutFinding(s) => assert IsAboutShape(p, s);
      case BaselinedShapeButAlive(s) => assert IsAboutShape(p, s);
      case _ =>
    }
  }

  // ------------------------------------------------------------ when the gate is green

  ghost predicate Clean(input: Input) {
    forall p :: !Reported(input, p)
  }

  ghost predicate Answers(input: Input, entry: Entry) {
    input.reasoned(entry) && input.owned(entry)
  }

  /** The ratchet, said at once: the baseline is exactly the debt, and every row of it answers for itself. */
  ghost predicate RatchetHolds(input: Input) {
    && OtherRow !in input.rows && UnparsedRow !in input.rows
    && (forall t | IsTarget(input, t) :: input.classify(t) != DynamicCapture)
    && (forall t :: DeadTarget(input, t) <==> IsKey(input.baseline, t))
    && (forall p :: (IsPattern(input, p) && !input.shapeAlive(p)) <==> IsKey(input.deadShapes, p))
    && (forall t | IsKey(input.baseline, t) :: Answers(input, EntryFor(input.baseline, t).value))
    && (forall p | IsKey(input.deadShapes, p) :: Answers(input, EntryFor(input.deadShapes, p).value))
    && (forall t | IsKey(input.baseline, t) && IsPrefixConstant(EntryFor(input.baseline, t)) ::
          !Navigated(input.references, t))
  }

  lemma RatchetMeansClean(input: Input)
    requires RatchetHolds(input)
    ensures Clean(input)
  {
    forall p: Problem
      ensures !Reported(input, p)
    {
      if p.UnparsedTemplate? && p.row < |input.rows| {
        assert input.rows[p.row] in input.rows;
      }
    }
  }

  lemma CleanTarget(input: Input, t: string)
    requires Clean(input)
    ensures IsTarget(input, t) ==> input.classify(t) != DynamicCapture
    ensures DeadTarget(input, t) <==> IsKey(input.baseline, t)
    ensures IsKey(input.baseline, t) ==> Answers(input, EntryFor(input.baseline, t).value)
    ensures IsKey(input.baseline, t) && IsPrefixConstant(EntryFor(input.baseline, t)) ==>
              !Navigated(input.references, t)
  {
    assert !Reported(input, Captured(t)) && !Reported(input, DeadLink(t)) && !Reported(input, StaleEntry(t));
    assert !Reported(input, WithoutReason(t)) && !Reported(input, WithoutFinding(t));
    assert !Reported(input, BaselinedButAlive(t)) && !Reported(input, PrefixRefused(t));
  }

  lemma CleanShape(input: Input, p: string)
    requires Clean(input)
    ensures (IsPattern(input, p) && !input.shapeAlive(p)) <==> IsKey(input.deadShapes, p)
    ensures IsKey(input.deadShapes, p) ==> Answers(input, EntryFor(input.deadShapes, p).value)
  {
    assert !Reported(input, DeadShape(p)) && !Reported(input, StaleShape(p));
    assert !Reported(input, BaselinedShapeButAlive(p));
    assert !Reported(input, ShapeWithoutReason(p)) && !Reported(input, ShapeWithoutFinding(p));
  }

  lemma CleanRows(input: Input)
    requires Clean(input)
    ensures OtherRow !in input.rows && UnparsedRow !in input.rows
  {
    assert !Reported(input, RowsDoNotReconcile);
    if UnparsedRow in input.rows {
      var k :| 0 <= k < |input.rows| && input.rows[k] == UnparsedRow;
      assert Reported(input, UnparsedTemplate(k));
    }
  }

  lemma CleanMeansRatchet(input: Input)
    requires Clean(input)
    ensures RatchetHolds(input)
  {
    hide Reported, DeadTarget, Answers, Navigated, IsTarget, IsPattern, IsPrefixConstant;
    CleanRows(input);
    forall t
      ensures IsTarget(input, t) ==> input.classify(t) != DynamicCapture
      ensures DeadTarget(input, t) <==> IsKey(input.baseline, t)
      ensures IsKey(input.baseline, t) ==> Answers(input, EntryFor(input.baseline, t).value)
      ensures IsKey(input.baseline, t) && IsPrefixConstant(EntryFor(input.baseline, t)) ==>
                !Navigated(input.references, t)
    {
      CleanTarget(input, t);
    }
    forall p
      ensures (IsPattern(input, p) && !input.shapeAlive(p)) <==> IsKey(input.deadShapes, p)
      ensures IsKey(input.deadShapes, p) ==> Answers(input, EntryFor(input.deadShapes, p).value)
    {
      CleanShape(input, p);
    }
  }

  /** The gate is green exactly when the ratchet holds. */
  lemma CleanIffRatchet(input: Input)
    ensures Clean(input) <==> RatchetHolds(input)
  {
    if Clean(input) { CleanMeansRatchet(input); }
    if RatchetHolds(input) { RatchetMeansClean(input); }
  }

  /** Behind a green gate every row of either baseline gives a reason that is not blank, and names its finding. */
  lemma GreenRowsAnswer(references: seq<Reference>, routes: seq<string>, baseline: seq<Entry>, rows: seq<Row>,
                        deadShapes: seq<Entry>, key: string)
    requires Clean(GateInput(references, routes, baseline, rows, deadShapes))
    ensures IsKey(baseline, key) ==>
              && !AllSpace(EntryFor(baseline, key).value.reason)
              && IsFindingId(Trim(EntryFor(baseline, key).value.finding))
    ensures IsKey(deadShapes, key) ==>
              && !AllSpace(EntryFor(deadShapes, key).value.reason)
              && IsFindingId(Trim(EntryFor(deadShapes, key).value.finding))
  {
    var input := GateInput(references, routes, baseline, rows, deadShapes);
    hide IsFindingId;
    CleanTarget(input, key);
    CleanShape(input, key);
    if IsKey(baseline, key) { TrimEmptyIff(EntryFor(baseline, key).value.reason); }
    if IsKey(deadShapes, key) { TrimEmptyIff(EntryFor(deadShapes, key).value.reason); }
  }

  lemma {:induction false} EarlierIsShadowed(row: Entry, entries: seq<Entry>, key: string)
    requires IsKey(entries, row.key)
    ensures EntryFor([row] + entries, key) == EntryFor(entries, key)
    ensures IsKey([row] + entries, key) <==> IsKey(entries, key)
  {
    var all := [row] + entries;
    assert IsKey(all, key) <==> row.key == key || IsKey(entries, key);
    ShadowedEntry(row, entries, key);
  }

  lemma {:induction false} ShadowedEntry(row: Entry, entries: seq<Entry>, key: string)
    ensures EntryFor([row] + entries, key) ==
              if EntryFor(entries, key).Some? then EntryFor(entries, key)
              else if row.key == key then Some(row) else None
  {
    var all := [row] + entries;
    if entries == [] {
      assert all == [row] && all[..0] == [];
    } else {
      assert all[..|all| - 1] == [row] + entries[..|entries| - 1];
      ShadowedEntry(row, entries[..|entries| - 1], key);
    }
  }

  /** An earlier row of a key that has another is never asked for anything: the gate stays green with it. */
  lemma EarlierRowIsNotAsked(input: Input, row: Entry)
    requires Clean(input) && IsKey(input.baseline, row.key)
    ensures Clean(input.(baseline := [row] + input.baseline))
  {
    var more := input.(baseline := [row] + input.baseline);
    CleanIffRatchet(input);
    forall t
      ensures EntryFor(more.baseline, t) == EntryFor(input.baseline, t)
      ensures IsKey(more.baseline, t) <==> IsKey(input.baseline, t)
    {
      EarlierIsShadowed(row, input.baseline, t);
    }
    assert forall t :: DeadTarget(more, t) <==> DeadTarget(input, t);
    CleanIffRatchet(more);
  }

  /** Where no key has two rows, a green gate has asked every row. */
  lemma EveryRowAnswers(references: seq<Reference>, routes: seq<string>, baseline: seq<Entry>, rows: seq<Row>,
                        deadShapes: seq<Entry>, k: nat)
    requires Clean(GateInput(references, routes, baseline, rows, deadShapes)) && k < |baseline|
    requires forall i, j | 0 <= i < j < |baseline| :: baseline[i].key != baseline[j].key
    ensures !AllSpace(baseline[k].reason) && IsFindingId(Trim(baseline[k].finding))
  {
    EntryForUnique(baseline, k);
    assert IsKey(baseline, baseline[k].key) by { assert baseline[k] in baseline; }
    hide IsFindingId, GateInput;
    GreenRowsAnswer(references, routes, baseline, rows, deadShapes, baseline[k].key);
  }

  // ------------------------------------------------------------ what a row must say

  /** A finding is named `PF-12`, `R-1`, `VAL-3` or `D-08`. */
  lemma FindingIdIff(s: string)
    ensures IsFindingId(s) <==> exists digits: string ::
              && digits != "" && (forall c | c in digits :: '0' <= c <= '9')
              && (s == "PF-" + digits || s == "R-" + digits || s == "VAL-" + digits || s == "D-" + digits)
  {
    if p :| p in {"PF-", "R-", "VAL-", "D-"} && p <= s && |s| > |p| && forall c | c in s[|p|..] :: IsDigit(c) {
      assert s == p + s[|p|..];
    }
    if digits: string :| digits != "" && (forall c | c in digits :: '0' <= c <= '9')
                         && (s == "PF-" + digits || s == "R-" + digits || s == "VAL-" + digits || s == "D-" + digits) {
      var n := |s| - |digits|;
      assert s[n..] == digits && StartsWith(s, s[..n]);
      assert s[..n] in {"PF-", "R-", "VAL-", "D-"};
    }
  }

  /** A row that declares a prefix constant is believed until the prefix is navigated to. */
  lemma PrefixConstantIff(input: Input, target: string)
    ensures Reported(input, PrefixRefused(target)) <==>
              && DeadTarget(input, target)
              && (exists r :: r in input.references && r.target == target && r.hrefLike)
              && (exists k :: 0 <= k < |input.baseline| && input.baseline[k].key == target
                              && input.baseline[k].class_ == "prefix-constant"
                              && forall m | k < m < |input.baseline| :: input.baseline[m].key != target)
  {
    var entries := input.baseline;
    if k: nat :| k < |entries| && entries[k].key == target && forall m | k < m < |entries| :: entries[m].key != target {
      LastStandsFor(entries, k);
    }
    if EntryFor(entries, target).Some? { var k := LastOf(entries, target); }
  }

  lemma {:induction false} LastOf(entries: seq<Entry>, key: string) returns (k: nat)
    requires EntryFor(entries, key).Some?
    ensures k < |entries| && entries[k].key == key && forall m | k < m < |entries| :: entries[m].key != key
    ensures EntryFor(entries, key) == Some(entries[k])
  {
    var last := |entries| - 1;
    if entries[last].key == key {
      k := last;
    } else {
      k := LastOf(entries[..last], key);
      assert forall m | k < m < last :: entries[..last][m] == entries[m];
    }
  }

  // ------------------------------------------------------------ `--update`

  function Carry(previous: Option<Entry>, key: string): Entry {
    match previous
    case None => Entry(key, "", "", "")
    case Some(e) => Entry(key, e.reason, e.finding, e.class_)
  }

  /** A row per key, carrying over what was reviewed. Shapes never had a class to carry. */
  function CarryAll(keys: seq<string>, known: seq<Entry>): (entries: seq<Entry>)
    ensures |entries| == |keys|
    ensures forall k | 0 <= k < |keys| :: entries[k] == Carry(EntryFor(known, keys[k]), keys[k])
  {
    seq(|keys|, k requires 0 <= k < |keys| => Carry(EntryFor(known, keys[k]), keys[k]))
  }

  function CarryShapes(keys: seq<string>, known: seq<Entry>): (entries: seq<Entry>)
    ensures |entries| == |keys|
    ensures forall k | 0 <= k < |keys| :: entries[k] == Carry(EntryFor(known, keys[k]), keys[k]).(class_ := "")
  {
    seq(|keys|, k requires 0 <= k < |keys| => Carry(EntryFor(known, keys[k]), keys[k]).(class_ := ""))
  }

  function DeadKeys(targets: seq<string>, classify: string -> Verdict): (dead: seq<string>)
    ensures forall t :: t in dead <==> t in targets && classify(t) == Dead
    ensures NoRepeats(targets) ==> NoRepeats(dead)
  {
    if targets == [] then []
    else
      var last := targets[|targets| - 1];
      var dead := DeadKeys(targets[..|targets| - 1], classify);
      assert targets == targets[..|targets| - 1] + [last];
      if classify(last) == Dead then dead + [last] else dead
  }

  function DeadPatterns(patterns: seq<string>, alive: string -> bool): (dead: seq<string>)
    ensures forall p :: p in dead <==> p in patterns && !alive(p)
    ensures NoRepeats(patterns) ==> NoRepeats(dead)
  {
    if patterns == [] then []
    else
      var last := patterns[|patterns| - 1];
      var dead := DeadPatterns(patterns[..|patterns| - 1], alive);
      assert patterns == patterns[..|patterns| - 1] + [last];
      if !alive(last) then dead + [last] else dead
  }

  /** The rewritten ceiling, or `None`: a dynamic capture is never recorded. */
  function Update(input: Input): Option<(seq<Entry>, seq<Entry>)> {
    if exists t | t in TargetsOf(input.references) :: input.classify(t) == DynamicCapture then None
    else Some((
      CarryAll(DeadKeys(TargetsOf(input.references), input.classify), input.baseline),
      CarryShapes(DeadPatterns(PatternsOf(input.rows), input.shapeAlive), input.deadShapes)))
  }

  /** The update refuses exactly where a target is captured: a dead one never stops it. */
  lemma UpdateRefusesIff(input: Input)
    ensures Update(input).None? <==> exists t :: IsTarget(input, t) && input.classify(t) == DynamicCapture
  {
    forall t
      ensures t in TargetsOf(input.references) <==> IsTarget(input, t)
    {
      TargetsAreTargets(input, t);
    }
  }

  /** One row per key, and the keys are these. */
  ghost predicate RowsFor(rows: seq<Entry>, owed: string -> bool) {
    && (forall j, k | 0 <= j < k < |rows| :: rows[j].key != rows[k].key)
    && (forall key :: IsKey(rows, key) <==> owed(key))
  }

  /** A new key gets a row to fill in, and a known one keeps its finding, its reason and its class. */
  ghost predicate KeepsWhatIsKnown(row: Entry, known: seq<Entry>) {
    && (!IsKey(known, row.key) ==> row.reason == "" && row.finding == "" && row.class_ == "")
    && (forall k | 0 <= k < |known| && known[k].key == row.key
                   && (forall m | k < m < |known| :: known[m].key != row.key) ::
          row.reason == known[k].reason && row.finding == known[k].finding && row.class_ == known[k].class_)
  }

  /** As for targets, but a shape has no class. */
  ghost predicate KeepsButClass(row: Entry, known: seq<Entry>) {
    row.class_ == "" && exists class_ :: KeepsWhatIsKnown(row.(class_ := class_), known)
  }

  lemma {:induction false} LastStandsFor(entries: seq<Entry>, k: nat)
    requires k < |entries| && forall m | k < m < |entries| :: entries[m].key != entries[k].key
    ensures EntryFor(entries, entries[k].key) == Some(entries[k])
  {
    if k < |entries| - 1 {
      assert entries[..|entries| - 1][k] == entries[k];
      LastStandsFor(entries[..|entries| - 1], k);
    }
  }

  lemma CarryKeeps(known: seq<Entry>, key: string)
    ensures KeepsWhatIsKnown(Carry(EntryFor(known, key), key), known)
  {
    var row := Carry(EntryFor(known, key), key);
    forall k | 0 <= k < |known| && known[k].key == key && forall m | k < m < |known| :: known[m].key != key
      ensures row == known[k]
    {
      LastStandsFor(known, k);
    }
  }

  lemma RowsOfUpdate(input: Input)
    requires Update(input).Some?
    ensures RowsFor(Update(input).value.0, t => DeadTarget(input, t))
    ensures RowsFor(Update(input).value.1, p => IsPattern(input, p) && !input.shapeAlive(p))
  {
    var dead := DeadKeys(TargetsOf(input.references), input.classify);
    var shapes := DeadPatterns(PatternsOf(input.rows), input.shapeAlive);
    var rows, others := Update(input).value.0, Update(input).value.1;
    DistinctHasNoRepeats(AllTargets(input.references));
    DistinctHasNoRepeats(AllPatterns(input.rows));
    assert forall k | 0 <= k < |dead| :: rows[k].key == dead[k];
    assert forall k | 0 <= k < |shapes| :: others[k].key == shapes[k];
    forall t
      ensures IsKey(rows, t) <==> DeadTarget(input, t)
    {
      TargetsAreTargets(input, t);
      if t in dead {
        var k :| 0 <= k < |dead| && dead[k] == t;
        assert rows[k] in rows;
      }
    }
    forall p
      ensures IsKey(others, p) <==> IsPattern(input, p) && !input.shapeAlive(p)
    {
      PatternsAreRows(input.rows, p);
      if p in shapes {
        var k :| 0 <= k < |shapes| && shapes[k] == p;
        assert others[k] in others;
      }
    }
  }

  /**
   The rewritten ceiling: one row for every dead target and one for every dead shape, in
   either baseline or not, each keeping what was reviewed and empty where nothing was.
   */
  lemma UpdateIsTheDebt(input: Input)
    requires forall t | IsTarget(input, t) :: input.classify(t) != DynamicCapture
    ensures Update(input).Some?
    ensures RowsFor(Update(input).value.0, t => DeadTarget(input, t))
    ensures RowsFor(Update(input).value.1, p => IsPattern(input, p) && !input.shapeAlive(p))
    ensures forall e | e in Update(input).value.0 :: KeepsWhatIsKnown(e, input.baseline)
    ensures forall e | e in Update(input).value.1 :: KeepsButClass(e, input.deadShapes)
  {
    UpdateRefusesIff(input);
    RowsOfUpdate(input);
    var rows, others := Update(input).value.0, Update(input).value.1;
    forall e | e in rows
      ensures KeepsWhatIsKnown(e, input.baseline)
    {
      CarryKeeps(input.baseline, e.key);
    }
    forall e | e in others
      ensures KeepsButClass(e, input.deadShapes)
    {
      CarryKeeps(input.deadShapes, e.key);
      var carried := Carry(EntryFor(input.deadShapes, e.key), e.key);
      assert e == carried.(class_ := "");
      assert e.(class_ := carried.class_) == carried;
    }
  }

  function Updated(input: Input): Input
    requires Update(input).Some?
  {
    input.(baseline := Update(input).value.0, deadShapes := Update(input).value.1)
  }

  lemma {:induction false} EntryForUnique(entries: seq<Entry>, k: nat)
    requires k < |entries|
    requires forall i, j | 0 <= i < j < |entries| :: entries[i].key != entries[j].key
    ensures EntryFor(entries, entries[k].key) == Some(entries[k])
  {
    if k < |entries| - 1 {
      EntryForUnique(entries[..|entries| - 1], k);
    }
  }

  lemma UpdatedBaseline(input: Input, t: string)
    requires Update(input).Some?
    ensures IsKey(Updated(input).baseline, t) <==> DeadTarget(input, t)
    ensures DeadTarget(input, t) ==>
              EntryFor(Updated(input).baseline, t) == Some(Carry(EntryFor(input.baseline, t), t))
  {
    var targets := TargetsOf(input.references);
    var dead := DeadKeys(targets, input.classify);
    var next := Updated(input).baseline;
    DistinctHasNoRepeats(AllTargets(input.references));
    assert NoRepeats(dead);
    assert forall k | 0 <= k < |dead| :: next[k].key == dead[k];
    TargetsAreTargets(input, t);
    if t in dead {
      var k :| 0 <= k < |dead| && dead[k] == t;
      EntryForUnique(next, k);
      assert next[k] in next;
    }
  }

  lemma UpdatedShapes(input: Input, p: string)
    requires Update(input).Some?
    ensures IsKey(Updated(input).deadShapes, p) <==> IsPattern(input, p) && !input.shapeAlive(p)
    ensures IsPattern(input, p) && !input.shapeAlive(p) ==>
              EntryFor(Updated(input).deadShapes, p) == Some(Carry(EntryFor(input.deadShapes, p), p).(class_ := ""))
  {
    var dead := DeadPatterns(PatternsOf(input.rows), input.shapeAlive);
    var next := Updated(input).deadShapes;
    DistinctHasNoRepeats(AllPatterns(input.rows));
    assert NoRepeats(dead);
    assert forall k | 0 <= k < |dead| :: next[k].key == dead[k];
    PatternsAreRows(input.rows, p);
    if p in dead {
      var k :| 0 <= k < |dead| && dead[k] == p;
      EntryForUnique(next, k);
      assert next[k] in next;
    }
  }

  /** Updating again changes nothing. */
  lemma UpdateIsFixpoint(input: Input)
    requires Update(input).Some?
    ensures Update(Updated(input)) == Update(input)
  {
    var next := Updated(input);
    var dead := DeadKeys(TargetsOf(input.references), input.classify);
    var shapes := DeadPatterns(PatternsOf(input.rows), input.shapeAlive);
    forall k | 0 <= k < |dead|
      ensures Carry(EntryFor(next.baseline, dead[k]), dead[k]) == next.baseline[k]
    {
      assert dead[k] in dead;
      TargetsAreTargets(input, dead[k]);
      UpdatedBaseline(input, dead[k]);
    }
    forall k | 0 <= k < |shapes|
      ensures Carry(EntryFor(next.deadShapes, shapes[k]), shapes[k]).(class_ := "") == next.deadShapes[k]
    {
      assert shapes[k] in shapes;
      PatternsAreRows(input.rows, shapes[k]);
      UpdatedShapes(input, shapes[k]);
    }
    assert CarryAll(dead, next.baseline) == next.baseline;
    assert CarryShapes(shapes, next.deadShapes) == next.deadShapes;
  }

  /** The same keys and classes, with reasons and findings supplied. */
  ghost predicate FilledIn(input: Input, from: seq<Entry>, to: seq<Entry>) {
    && |from| == |to|
    && forall k | 0 <= k < |from| :: to[k].key == from[k].key && to[k].class_ == from[k].class_ && Answers(input, to[k])
  }

  lemma {:induction false} FilledInKeys(input: Input, from: seq<Entry>, to: seq<Entry>, key: string)
    requires FilledIn(input, from, to)
    ensures IsKey(to, key) <==> IsKey(from, key)
    ensures IsKey(from, key) ==>
              && EntryFor(from, key).Some? && EntryFor(to, key).Some?
              && EntryFor(to, key).value.class_ == EntryFor(from, key).value.class_
              && Answers(input, EntryFor(to, key).value)
  {
    assert EntryFor(from, key).Some? <==> IsKey(from, key);
    assert EntryFor(to, key).Some? <==> IsKey(to, key);
    if from != [] {
      FilledInKeys(input, from[..|from| - 1], to[..|to| - 1], key);
      var n := |from| - 1;
      assert to[n].key == from[n].key;
      assert from == from[..n] + [from[n]] && to == to[..n] + [to[n]];
    }
  }

  /** Rows with the keys and classes of an update are carried over as they are. */
  lemma CarriedAsFilled(input: Input, from: seq<Entry>, to: seq<Entry>, keys: seq<string>)
    requires FilledIn(input, from, to) && NoRepeats(keys) && |keys| == |from|
    requires forall k | 0 <= k < |from| :: from[k].key == keys[k]
    ensures forall k | 0 <= k < |keys| :: Carry(EntryFor(to, keys[k]), keys[k]) == to[k]
  {
    forall k | 0 <= k < |keys|
      ensures Carry(EntryFor(to, keys[k]), keys[k]) == to[k]
    {
      assert forall i, j | 0 <= i < j < |to| :: to[i].key == keys[i] && to[j].key == keys[j] && keys[i] != keys[j];
      assert to[k].key == keys[k];
      EntryForUnique(to, k);
    }
  }

  /** Updating a ceiling whose reasons and findings were filled in changes nothing. */
  lemma FilledUpdateIsFixpoint(input: Input, baseline: seq<Entry>, deadShapes: seq<Entry>)
    requires Update(input).Some?
    requires FilledIn(input, Updated(input).baseline, baseline)
    requires FilledIn(input, Updated(input).deadShapes, deadShapes)
    ensures Update(input.(baseline := baseline, deadShapes := deadShapes)) == Some((baseline, deadShapes))
  {
    var dead := DeadKeys(TargetsOf(input.references), input.classify);
    var shapes := DeadPatterns(PatternsOf(input.rows), input.shapeAlive);
    DistinctHasNoRepeats(AllTargets(input.references));
    DistinctHasNoRepeats(AllPatterns(input.rows));
    CarriedAsFilled(input, Updated(input).baseline, baseline, dead);
    CarriedAsFilled(input, Updated(input).deadShapes, deadShapes, shapes);
    assert CarryAll(dead, baseline) == baseline;
    forall k | 0 <= k < |shapes|
      ensures deadShapes[k].class_ == ""
    {
      assert deadShapes[k].class_ == Updated(input).deadShapes[k].class_;
    }
    assert CarryShapes(shapes, deadShapes) == deadShapes;
  }

  lemma FilledBaseline(input: Input, baseline: seq<Entry>, t: string)
    requires Update(input).Some? && FilledIn(input, Updated(input).baseline, baseline)
    ensures IsKey(baseline, t) <==> DeadTarget(input, t)
    ensures DeadTarget(input, t) ==>
              && EntryFor(baseline, t).Some? && Answers(input, EntryFor(baseline, t).value)
              && (IsPrefixConstant(EntryFor(baseline, t)) <==> IsPrefixConstant(EntryFor(input.baseline, t)))
  {
    UpdatedBaseline(input, t);
    FilledInKeys(input, Updated(input).baseline, baseline, t);
  }

  lemma FilledShapes(input: Input, deadShapes: seq<Entry>, p: string)
    requires Update(input).Some? && FilledIn(input, Updated(input).deadShapes, deadShapes)
    ensures IsKey(deadShapes, p) <==> IsPattern(input, p) && !input.shapeAlive(p)
    ensures IsKey(deadShapes, p) ==> EntryFor(deadShapes, p).Some? && Answers(input, EntryFor(deadShapes, p).value)
  {
    UpdatedShapes(input, p);
    FilledInKeys(input, Updated(input).deadShapes, deadShapes, p);
  }

  lemma UpdateRefusesCaptures(input: Input, t: string)
    requires Update(input).Some? && IsTarget(input, t)
    ensures input.classify(t) != DynamicCapture
  {
    TargetsAreTargets(input, t);
  }

  /**
   After `--update`, once a human has supplied the missing reasons and findings,
   the gate is green exactly when every template was parsed and no prefix
   constant is navigated to: `--update` itself never leaves anything else red.
   */
  lemma UpdateThenGreen(input: Input, baseline: seq<Entry>, deadShapes: seq<Entry>)
    requires Update(input).Some?
    requires FilledIn(input, Updated(input).baseline, baseline)
    requires FilledIn(input, Updated(input).deadShapes, deadShapes)
    ensures Clean(input.(baseline := baseline, deadShapes := deadShapes)) <==>
              && OtherRow !in input.rows && UnparsedRow !in input.rows
              && forall t | DeadTarget(input, t) && IsPrefixConstant(EntryFor(input.baseline, t)) ::
                   !Navigated(input.references, t)
  {
    hide Reported, Update, Updated, FilledIn, EntryFor, IsPrefixConstant, Navigated, Clean;
    var filled := input.(baseline := baseline, deadShapes := deadShapes);
    forall t { FilledBaseline(input, baseline, t); }
    forall p { FilledShapes(input, deadShapes, p); }
    forall t | IsTarget(input, t) { UpdateRefusesCaptures(input, t); }
    assert forall t :: DeadTarget(filled, t) <==> DeadTarget(input, t);
    CleanIffRatchet(filled);
  }
}
