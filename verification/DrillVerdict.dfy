/**
 The verdict of a restore drill: the source-driven comparison of two manifests, and a
 total evaluation in which `ok` needs positive evidence from every stage.
 */
module DrillVerdict {
  import opened Text

  // ------------------------------------------------------------ manifests

  datatype Table = Table(name: string, rowCount: int, checksum: string)

  datatype Entry = Entry(key: string, value: string)

  /** The entries of the five kinds of schema object, in key order. */
  datatype Schema = Schema(enums: seq<Entry>, columns: seq<Entry>, indexes: seq<Entry>,
                           constraints: seq<Entry>, sequences: seq<Entry>)

  datatype Manifest = Manifest(tables: seq<Table>, schema: Option<Schema>)

  datatype Diff = Diff(missing: seq<Table>, unexpected: seq<Table>, rowCounts: seq<Table>, checksums: seq<Table>,
                       schema: seq<Entry>)

  /** `new Map(tables.map((t) => [t.name, t]))`: the last table of a name stands. */
  function ByName(tables: seq<Table>): (m: map<string, Table>)
    ensures forall n | n in m :: m[n].name == n && m[n] in tables
    ensures forall t | t in tables :: t.name in m
  {
    if tables == [] then map[]
    else
      var last := tables[|tables| - 1];
      assert tables == tables[..|tables| - 1] + [last];
      ByName(tables[..|tables| - 1])[last.name := last]
  }

  function ByKey(entries: seq<Entry>): (m: map<string, Entry>)
    ensures forall k | k in m :: m[k].key == k && m[k] in entries
    ensures forall e | e in entries :: e.key in m
  {
    if entries == [] then map[]
    else
      var last := entries[|entries| - 1];
      assert entries == entries[..|entries| - 1] + [last];
      ByKey(entries[..|entries| - 1])[last.key := last]
  }

  function Absent(other: map<string, Table>): Table -> bool {
    (t: Table) => t.name !in other
  }

  function RowsDiffer(other: map<string, Table>): Table -> bool {
    (t: Table) => t.name in other && other[t.name].rowCount != t.rowCount
  }

  function ChecksumsDiffer(other: map<string, Table>): Table -> bool {
    (t: Table) => t.name in other && other[t.name].checksum != t.checksum
  }

  function EntryDiffers(other: map<string, Entry>): Entry -> bool {
    (e: Entry) => e.key !in other || other[e.key].value != e.value
  }

  function EntryAbsent(other: map<string, Entry>): Entry -> bool {
    (e: Entry) => e.key !in other
  }

  function EntriesDiff(left: seq<Entry>, right: seq<Entry>): seq<Entry> {
    Filter(left, EntryDiffers(ByKey(right))) + Filter(right, EntryAbsent(ByKey(left)))
  }

  function SchemaDiff(source: Option<Schema>, restored: Option<Schema>): seq<Entry> {
    if source.None? || restored.None? then []
    else
      EntriesDiff(source.value.enums, restored.value.enums) +
      EntriesDiff(source.value.columns, restored.value.columns) +
      EntriesDiff(source.value.indexes, restored.value.indexes) +
      EntriesDiff(source.value.constraints, restored.value.constraints) +
      EntriesDiff(source.value.sequences, restored.value.sequences)
  }

  function ManifestDiff(source: Manifest, restored: Manifest): Diff {
    var other := ByName(restored.tables);
    Diff(Filter(source.tables, Absent(other)),
         Filter(restored.tables, Absent(ByName(source.tables))),
         Filter(source.tables, RowsDiffer(other)),
         Filter(source.tables, ChecksumsDiffer(other)),
         SchemaDiff(source.schema, restored.schema))
  }

  method Differing(entries: seq<Entry>, other: map<string, Entry>) returns (out: seq<Entry>)
    ensures out == Filter(entries, EntryDiffers(other))
  {
    out := [];
    for i := 0 to |entries|
      invariant out == Filter(entries[..i], EntryDiffers(other))
    {
      FilterSnoc(entries, i, EntryDiffers(other));
      if entries[i].key !in other {
        out := out + [entries[i]];
      } else if other[entries[i].key].value != entries[i].value {
        out := out + [entries[i]];
      }
    }
    assert entries[..|entries|] == entries;
  }

  method OnlyHere(entries: seq<Entry>, other: map<string, Entry>) returns (out: seq<Entry>)
    ensures out == Filter(entries, EntryAbsent(other))
  {
    out := [];
    for i := 0 to |entries|
      invariant out == Filter(entries[..i], EntryAbsent(other))
    {
      FilterSnoc(entries, i, EntryAbsent(other));
      if entries[i].key !in other { out := out + [entries[i]]; }
    }
    assert entries[..|entries|] == entries;
  }

  method DiffEntries(left: seq<Entry>, right: seq<Entry>) returns (out: seq<Entry>)
    ensures out == EntriesDiff(left, right)
  {
    var changed := Differing(left, ByKey(right));
    var added := OnlyHere(right, ByKey(left));
    out := changed + added;
  }

  method DiffSchema(source: Option<Schema>, restored: Option<Schema>) returns (out: seq<Entry>)
    ensures out == SchemaDiff(source, restored)
  {
    if source.None? || restored.None? { return []; }
    var enums := DiffEntries(source.value.enums, restored.value.enums);
    var columns := DiffEntries(source.value.columns, restored.value.columns);
    var indexes := DiffEntries(source.value.indexes, restored.value.indexes);
    var constraints := DiffEntries(source.value.constraints, restored.value.constraints);
    var sequences := DiffEntries(source.value.sequences, restored.value.sequences);
    out := enums + columns + indexes + constraints + sequences;
  }

  method BuildManifestDiff(source: Manifest, restored: Manifest) returns (diff: Diff)
    ensures diff == ManifestDiff(source, restored)
  {
    var other, sourceNames := ByName(restored.tables), ByName(source.tables);
    var missing: seq<Table>, unexpected: seq<Table>, rows: seq<Table>, sums: seq<Table> := [], [], [], [];
    for i := 0 to |source.tables|
      invariant missing == Filter(source.tables[..i], Absent(other))
      invariant rows == Filter(source.tables[..i], RowsDiffer(other))
      invariant sums == Filter(source.tables[..i], ChecksumsDiffer(other))
    {
      var table := source.tables[i];
      FilterSnoc(source.tables, i, Absent(other));
      FilterSnoc(source.tables, i, RowsDiffer(other));
      FilterSnoc(source.tables, i, ChecksumsDiffer(other));
      if table.name !in other {
        missing := missing + [table];
        continue;
      }
      if table.rowCount != other[table.name].rowCount { rows := rows + [table]; }
      if table.checksum != other[table.name].checksum { sums := sums + [table]; }
    }
    assert source.tables[..|source.tables|] == source.tables;
    for i := 0 to |restored.tables|
      invariant unexpected == Filter(restored.tables[..i], Absent(sourceNames))
    {
      FilterSnoc(restored.tables, i, Absent(sourceNames));
      if restored.tables[i].name !in sourceNames { unexpected := unexpected + [restored.tables[i]]; }
    }
    assert restored.tables[..|restored.tables|] == restored.tables;
    var schema := DiffSchema(source.schema, restored.schema);
    diff := Diff(missing, unexpected, rows, sums, schema);
  }

  // ------------------------------------------------------------ what an empty difference means

  predicate TablesEmpty(d: Diff) {
    d.missing == [] && d.unexpected == [] && d.rowCounts == [] && d.checksums == []
  }

  predicate Distinct(tables: seq<Table>) {
    forall i, j | 0 <= i < j < |tables| :: tables[i].name != tables[j].name
  }

  /** Every table of the source stands in the restore as it is, and nothing else does. */
  predicate TablesAgree(source: seq<Table>, restored: seq<Table>) {
    && (forall k | 0 <= k < |source| ::
          source[k].name in ByName(restored) && ByName(restored)[source[k].name] == source[k])
    && ByName(restored).Keys == ByName(source).Keys
  }

  lemma NamesAre(tables: seq<Table>, name: string)
    ensures name in ByName(tables) <==> exists k :: 0 <= k < |tables| && tables[k].name == name
  {
    if name in ByName(tables) {
      assert ByName(tables)[name] in tables;
    }
    forall k | 0 <= k < |tables| && tables[k].name == name
      ensures name in ByName(tables)
    {
      assert tables[k] in tables;
    }
  }

  lemma AgreeingTable(t: Table, other: map<string, Table>)
    requires t.name in other ==> other[t.name].name == t.name
    ensures !Absent(other)(t) && !RowsDiffer(other)(t) && !ChecksumsDiffer(other)(t)
       <==> t.name in other && other[t.name] == t
  {
  }

  /** No difference between the tables exactly when they agree. */
  lemma DiffEmptyIff(source: Manifest, restored: Manifest)
    ensures TablesEmpty(ManifestDiff(source, restored)) <==> TablesAgree(source.tables, restored.tables)
  {
    hide ByName, Filter, ManifestDiff, TablesEmpty, Absent, RowsDiffer, ChecksumsDiffer;
    var s, r := source.tables, restored.tables;
    var other := ByName(r);
    DiffLists(source, restored);
    FilterEmptyIff(s, Absent(other));
    FilterEmptyIff(s, RowsDiffer(other));
    FilterEmptyIff(s, ChecksumsDiffer(other));
    FilterEmptyIff(r, Absent(ByName(s)));
    forall k | 0 <= k < |s|
      ensures !Absent(other)(s[k]) && !RowsDiffer(other)(s[k]) && !ChecksumsDiffer(other)(s[k])
         <==> s[k].name in other && other[s[k].name] == s[k]
    {
      AgreeingTable(s[k], other);
    }
    forall k | 0 <= k < |r|
      ensures Absent(ByName(s))(r[k]) <==> r[k].name !in ByName(s)
    {
      AbsentIs(r[k], ByName(s));
    }
    NamesCover(s, r);
  }

  lemma AbsentIs(t: Table, other: map<string, Table>)
    ensures Absent(other)(t) <==> t.name !in other
  {
  }

  lemma DiffLists(source: Manifest, restored: Manifest)
    ensures TablesEmpty(ManifestDiff(source, restored)) <==>
              && Filter(source.tables, Absent(ByName(restored.tables))) == []
              && Filter(source.tables, RowsDiffer(ByName(restored.tables))) == []
              && Filter(source.tables, ChecksumsDiffer(ByName(restored.tables))) == []
              && Filter(restored.tables, Absent(ByName(source.tables))) == []
  {
    hide ByName, Filter, Absent, RowsDiffer, ChecksumsDiffer;
  }

  lemma NamesWithin(tables: seq<Table>, names: set<string>)
    ensures (forall k | 0 <= k < |tables| :: tables[k].name in names) <==> ByName(tables).Keys <= names
  {
    hide ByName;
    if forall k | 0 <= k < |tables| :: tables[k].name in names {
      forall name | name in ByName(tables)
        ensures name in names
      {
        NamesAre(tables, name);
      }
    }
    forall k | 0 <= k < |tables| && ByName(tables).Keys <= names
      ensures tables[k].name in names
    {
      assert tables[k] in tables;
    }
  }

  lemma NamesCover(source: seq<Table>, restored: seq<Table>)
    ensures (forall k | 0 <= k < |restored| :: restored[k].name in ByName(source))
       <==> ByName(restored).Keys <= ByName(source).Keys
    ensures (forall k | 0 <= k < |source| :: source[k].name in ByName(restored))
       <==> ByName(source).Keys <= ByName(restored).Keys
  {
    NamesWithin(restored, ByName(source).Keys);
    NamesWithin(source, ByName(restored).Keys);
  }

  lemma NotTheLast<K, V>(before: map<K, V>, last: K, value: V, key: K)
    requires key in before && key != last
    ensures key in before[last := value] && before[last := value][key] == before[key]
  {
  }

  lemma {:induction false} DistinctByName(tables: seq<Table>, k: nat)
    requires Distinct(tables) && k < |tables|
    ensures tables[k].name in ByName(tables) && ByName(tables)[tables[k].name] == tables[k]
  {
    var last := |tables| - 1;
    var prefix := tables[..last];
    if k < last {
      DistinctByName(prefix, k);
      assert prefix[k] == tables[k];
      NotTheLast(ByName(prefix), tables[last].name, tables[last], tables[k].name);
    }
  }

  predicate StandsIn(tables: seq<Table>) {
    forall k | 0 <= k < |tables| :: tables[k].name in ByName(tables) && ByName(tables)[tables[k].name] == tables[k]
  }

  lemma DistinctStands(tables: seq<Table>)
    requires Distinct(tables)
    ensures StandsIn(tables)
  {
    forall k | 0 <= k < |tables|
      ensures tables[k].name in ByName(tables) && ByName(tables)[tables[k].name] == tables[k]
    {
      DistinctByName(tables, k);
    }
  }

  predicate SameTables(s: seq<Table>, r: seq<Table>) {
    (forall k | 0 <= k < |s| :: s[k] in r) && (forall k | 0 <= k < |r| :: r[k] in s)
  }

  lemma AgreeingAreSame(s: seq<Table>, r: seq<Table>)
    requires TablesAgree(s, r) && StandsIn(r)
    ensures SameTables(s, r)
  {
    forall k | 0 <= k < |s|
      ensures s[k] in r
    {
      assert ByName(r)[s[k].name] == s[k];
    }
    forall k | 0 <= k < |r|
      ensures r[k] in s
    {
      assert r[k].name in ByName(r) && r[k].name in ByName(s);
      var u := ByName(s)[r[k].name];
      assert u in s && ByName(r)[u.name] == u;
    }
  }

  lemma SameAgree(s: seq<Table>, r: seq<Table>)
    requires SameTables(s, r) && StandsIn(r)
    ensures TablesAgree(s, r)
  {
    forall k | 0 <= k < |s|
      ensures s[k].name in ByName(r) && ByName(r)[s[k].name] == s[k]
    {
      assert s[k] in r;
    }
    NamesCover(s, r);
    forall k | 0 <= k < |r|
      ensures r[k].name in ByName(s)
    {
      assert r[k] in s;
    }
  }

  /** With distinct names in the restore, no difference means the same tables. */
  lemma NoDifferenceIsEquality(source: Manifest, restored: Manifest)
    requires Distinct(restored.tables)
    ensures TablesEmpty(ManifestDiff(source, restored)) <==> SameTables(source.tables, restored.tables)
  {
    DiffEmptyIff(source, restored);
    DistinctStands(restored.tables);
    if TablesAgree(source.tables, restored.tables) { AgreeingAreSame(source.tables, restored.tables); }
    if SameTables(source.tables, restored.tables) { SameAgree(source.tables, restored.tables); }
  }

  predicate KeysDistinct(entries: seq<Entry>) {
    forall i, j | 0 <= i < j < |entries| :: entries[i].key != entries[j].key
  }

  lemma {:induction false} DistinctByKey(entries: seq<Entry>, k: nat)
    requires KeysDistinct(entries) && k < |entries|
    ensures entries[k].key in ByKey(entries) && ByKey(entries)[entries[k].key] == entries[k]
  {
    var last := |entries| - 1;
    var prefix := entries[..last];
    if k < last {
      DistinctByKey(prefix, k);
      assert prefix[k] == entries[k];
      NotTheLast(ByKey(prefix), entries[last].key, entries[last], entries[k].key);
    }
  }

  /** The entries of an object agree on both sides. */
  predicate EntriesAgree(left: seq<Entry>, right: seq<Entry>) {
    && (forall k | 0 <= k < |left| :: left[k].key in ByKey(right) && ByKey(right)[left[k].key].value == left[k].value)
    && (forall k | 0 <= k < |right| :: right[k].key in ByKey(left))
  }

  lemma EntriesEmptyIff(left: seq<Entry>, right: seq<Entry>)
    ensures EntriesDiff(left, right) == [] <==> EntriesAgree(left, right)
  {
    FilterEmptyIff(left, EntryDiffers(ByKey(right)));
    FilterEmptyIff(right, EntryAbsent(ByKey(left)));
  }

  /** An object has each key once, so agreeing objects are equal. */
  lemma AgreeingObjects(left: seq<Entry>, right: seq<Entry>)
    requires KeysDistinct(left) && EntriesAgree(left, right)
    ensures ByKey(left) == ByKey(right)
  {
    forall k | k in ByKey(left)
      ensures k in ByKey(right) && ByKey(right)[k] == ByKey(left)[k]
    {
      var e := ByKey(left)[k];
      assert e in left;
    }
    forall k | k in ByKey(right)
      ensures k in ByKey(left)
    {
      assert ByKey(right)[k] in right;
    }
  }

  /** What the comparison of the schemas establishes; it is skipped where one was not read. */
  predicate SchemasAgree(source: Option<Schema>, restored: Option<Schema>) {
    source.Some? && restored.Some? ==>
      && EntriesAgree(source.value.enums, restored.value.enums)
      && EntriesAgree(source.value.columns, restored.value.columns)
      && EntriesAgree(source.value.indexes, restored.value.indexes)
      && EntriesAgree(source.value.constraints, restored.value.constraints)
      && EntriesAgree(source.value.sequences, restored.value.sequences)
  }

  lemma SchemaEmptyIff(source: Option<Schema>, restored: Option<Schema>)
    ensures SchemaDiff(source, restored) == [] <==> SchemasAgree(source, restored)
  {
    if source.Some? && restored.Some? {
      EntriesEmptyIff(source.value.enums, restored.value.enums);
      EntriesEmptyIff(source.value.columns, restored.value.columns);
      EntriesEmptyIff(source.value.indexes, restored.value.indexes);
      EntriesEmptyIff(source.value.constraints, restored.value.constraints);
      EntriesEmptyIff(source.value.sequences, restored.value.sequences);
    }
  }

  predicate WellKeyed(schema: Schema) {
    && KeysDistinct(schema.enums) && KeysDistinct(schema.columns) && KeysDistinct(schema.indexes)
    && KeysDistinct(schema.constraints) && KeysDistinct(schema.sequences)
  }

  /** The five kinds of a schema, as the objects they are read from. */
  function Objects(schema: Schema): seq<map<string, Entry>> {
    [ByKey(schema.enums), ByKey(schema.columns), ByKey(schema.indexes), ByKey(schema.constraints),
     ByKey(schema.sequences)]
  }

  lemma EqualObjects(left: seq<Entry>, right: seq<Entry>)
    requires KeysDistinct(left) && KeysDistinct(right)
    ensures EntriesAgree(left, right) <==> ByKey(left) == ByKey(right)
  {
    if EntriesAgree(left, right) { AgreeingObjects(left, right); }
    if ByKey(left) == ByKey(right) {
      forall k | 0 <= k < |left|
        ensures left[k].key in ByKey(right) && ByKey(right)[left[k].key].value == left[k].value
      {
        DistinctByKey(left, k);
      }
      forall k | 0 <= k < |right|
        ensures right[k].key in ByKey(left)
      {
        DistinctByKey(right, k);
      }
    }
  }

  /** Between two schemas that were read, no difference means the same objects. */
  lemma NoSchemaDifferenceIsEquality(source: Schema, restored: Schema)
    requires WellKeyed(source) && WellKeyed(restored)
    ensures SchemaDiff(Some(source), Some(restored)) == [] <==> Objects(source) == Objects(restored)
  {
    hide EntriesAgree, ByKey, KeysDistinct, SchemaDiff;
    SchemaEmptyIff(Some(source), Some(restored));
    EqualObjects(source.enums, restored.enums);
    EqualObjects(source.columns, restored.columns);
    EqualObjects(source.indexes, restored.indexes);
    EqualObjects(source.constraints, restored.constraints);
    EqualObjects(source.sequences, restored.sequences);
    var a, b := Objects(source), Objects(restored);
    assert a == b <==> a[0] == b[0] && a[1] == b[1] && a[2] == b[2] && a[3] == b[3] && a[4] == b[4];
  }

  // ------------------------------------------------------------ the input and the verdicts

  datatype Verdict =
    | UnreachableSource | ToolingUnavailable | DumpRouteMismatch | InsufficientReadRole | UnbaselinedLedger
    | UnsafeScratchTarget | ScratchNotEmpty | RestoreFailed | EmptyManifest | MissingTable | UnexpectedTable
    | SourceMutatedDuringDump | RowCountDivergence | ChecksumDivergence | SchemaDivergence | InventoryDrift
    | PendingMigration | LedgerChecksumMismatch | SloUnrecorded | FaultInjected | ScratchCleanupFailed | Unknown | Ok

  /** Highest first: what an operator reads at the top of a failing run. */
  const VERDICT_PRECEDENCE: seq<Verdict> :=
    [UnreachableSource, ToolingUnavailable, DumpRouteMismatch, InsufficientReadRole, UnbaselinedLedger,
     UnsafeScratchTarget, ScratchNotEmpty, RestoreFailed, EmptyManifest, MissingTable, UnexpectedTable,
     SourceMutatedDuringDump, RowCountDivergence, ChecksumDivergence, SchemaDivergence, InventoryDrift,
     PendingMigration, LedgerChecksumMismatch, SloUnrecorded, FaultInjected, ScratchCleanupFailed, Unknown, Ok]

  const MIN_EXPECTED_TABLES := 50

  datatype Finding = Finding(verdict: Verdict, subject: string)

  datatype Row = Row(name: string, finished: bool, rolledBack: bool, checksum: string, expected: string)

  datatype Ledger = Ledger(present: bool, rows: seq<Row>)

  datatype ReadRole = ReadRole(superuser: bool, bypassRls: bool)

  datatype Durations = Durations(dump: real, restore: real, verify: real, total: real)

  /** The reviewed baseline; a duration that was never measured is `None`. */
  datatype Baseline = Baseline(tableCount: Option<int>, recorded: bool, tolerance: Option<real>, dump: Option<real>,
                               restore: Option<real>, verify: Option<real>, total: Option<real>)

  datatype Input = Input(
    sourceReachable: Option<bool>, toolingAvailable: bool, dumpRouteMatched: Option<bool>, readRole: Option<ReadRole>,
    scratchName: Option<string>, sourceDatabase: Option<string>, scratchWasEmpty: Option<bool>, restoreOk: Option<bool>,
    sourceManifest: Option<Manifest>, restoredManifest: Option<Manifest>, afterDump: Option<Manifest>,
    sourceLedger: Option<Ledger>, restoredLedger: Option<Ledger>, migrations: Option<seq<string>>,
    durations: Option<Durations>, baseline: Option<Baseline>, scratchDropped: bool, faultInjected: bool,
    fatalError: string)

  datatype Report = Report(verdict: Verdict, exitCode: int, failures: seq<Finding>, sloExceeded: bool,
                           baselineWritable: bool)

  /** `^restore_drill_\d+$`. */
  predicate IsScratchName(name: string) {
    && StartsWith(name, "restore_drill_") && |name| > 14
    && forall k | 14 <= k < |name| :: IsDigit(name[k])
  }

  predicate IsSafeScratchTarget(scratch: Option<string>, source: Option<string>) {
    && scratch.Some? && IsScratchName(scratch.value)
    && source.Some? && source.value != []
    && scratch != source
  }

  // ------------------------------------------------------------ the findings, stage by stage

  /** `fail(verdict, ...)` where the condition holds. */
  function Add(findings: seq<Finding>, condition: bool, verdict: Verdict): seq<Finding> {
    if condition then findings + [Finding(verdict, [])] else findings
  }

  predicate EvidenceMissing(i: Input) {
    || i.sourceReachable.None? || i.restoreOk.None? || i.sourceManifest.None? || i.restoredManifest.None?
    || i.sourceLedger.None? || i.restoredLedger.None? || i.durations.None?
  }

  predicate SeesTooLittle(role: Option<ReadRole>) {
    role.Some? && !role.value.superuser && !role.value.bypassRls
  }

  predicate Unbaselined(ledger: Option<Ledger>) {
    ledger.Some? && !ledger.value.present
  }

  predicate UnsafeTarget(i: Input) {
    i.scratchName.Some? && !IsSafeScratchTarget(i.scratchName, i.sourceDatabase)
  }

  predicate TooFewTables(i: Input) {
    i.sourceManifest.Some? && |i.sourceManifest.value.tables| < MIN_EXPECTED_TABLES
  }

  predicate InventoryDrifted(i: Input) {
    && i.baseline.Some? && i.baseline.value.tableCount.Some?
    && i.sourceManifest.Some? && i.sourceManifest.value.tables != []
    && i.baseline.value.tableCount.value != |i.sourceManifest.value.tables|
  }

  predicate SloMissing(i: Input) {
    i.baseline.Some? && i.durations.Some? && !i.baseline.value.recorded
  }

  function AfterStart(i: Input): seq<Finding> {
    var f := Add([], EvidenceMissing(i), Unknown);
    var f := Add(f, i.fatalError != [], Unknown);
    var f := Add(f, i.sourceReachable == Some(false), UnreachableSource);
    var f := Add(f, !i.toolingAvailable, ToolingUnavailable);
    Add(f, i.dumpRouteMatched == Some(false), DumpRouteMismatch)
  }

  function AfterRestore(i: Input, findings: seq<Finding>): seq<Finding> {
    var f := Add(findings, SeesTooLittle(i.readRole), InsufficientReadRole);
    var f := Add(f, Unbaselined(i.sourceLedger), UnbaselinedLedger);
    var f := Add(f, UnsafeTarget(i), UnsafeScratchTarget);
    var f := Add(f, i.scratchWasEmpty == Some(false), ScratchNotEmpty);
    Add(f, i.restoreOk == Some(false), RestoreFailed)
  }

  function AddTables(findings: seq<Finding>, tables: seq<Table>, verdict: Verdict): seq<Finding> {
    if tables == [] then findings
    else AddTables(findings, tables[..|tables| - 1], verdict) + [Finding(verdict, tables[|tables| - 1].name)]
  }

  function AddEntries(findings: seq<Finding>, entries: seq<Entry>): seq<Finding> {
    if entries == [] then findings
    else AddEntries(findings, entries[..|entries| - 1]) + [Finding(SchemaDivergence, entries[|entries| - 1].key)]
  }

  function AddDiff(findings: seq<Finding>, diff: Diff): seq<Finding> {
    var f := AddTables(findings, diff.missing, MissingTable);
    var f := AddTables(f, diff.unexpected, UnexpectedTable);
    var f := AddTables(f, diff.rowCounts, RowCountDivergence);
    var f := AddTables(f, diff.checksums, ChecksumDivergence);
    AddEntries(f, diff.schema)
  }

  function AddDrift(findings: seq<Finding>, drift: Diff): seq<Finding> {
    AddTables(findings, drift.missing + drift.unexpected + drift.rowCounts + drift.checksums, SourceMutatedDuringDump)
  }

  function AfterComparison(i: Input, findings: seq<Finding>): seq<Finding> {
    var f := Add(findings, TooFewTables(i), EmptyManifest);
    var f := if i.sourceManifest.Some? && i.restoredManifest.Some?
             then AddDiff(f, ManifestDiff(i.sourceManifest.value, i.restoredManifest.value)) else f;
    var f := if i.sourceManifest.Some? && i.afterDump.Some?
             then AddDrift(f, ManifestDiff(i.sourceManifest.value, i.afterDump.value)) else f;
    Add(f, InventoryDrifted(i), InventoryDrift)
  }

  function RowsByName(rows: seq<Row>): map<string, Row> {
    if rows == [] then map[] else RowsByName(rows[..|rows| - 1])[rows[|rows| - 1].name := rows[|rows| - 1]]
  }

  predicate IsEdited(row: Row) {
    row.expected != [] && row.checksum != [] && row.checksum != row.expected
  }

  predicate IsApplied(rows: map<string, Row>, name: string) {
    name in rows && rows[name].finished && !rows[name].rolledBack && !IsEdited(rows[name])
  }

  function AddMigration(findings: seq<Finding>, rows: map<string, Row>, name: string): seq<Finding> {
    if name !in rows then Add(findings, true, PendingMigration)
    else
      var f := Add(findings, !rows[name].finished, PendingMigration);
      var f := Add(f, rows[name].rolledBack, PendingMigration);
      Add(f, IsEdited(rows[name]), LedgerChecksumMismatch)
  }

  function AddMigrations(findings: seq<Finding>, rows: map<string, Row>, names: seq<string>): seq<Finding> {
    if names == [] then findings
    else AddMigration(AddMigrations(findings, rows, names[..|names| - 1]), rows, names[|names| - 1])
  }

  function AfterLedger(i: Input, findings: seq<Finding>): seq<Finding> {
    if i.restoredLedger.None? || i.migrations.None? then findings
    else if !i.restoredLedger.value.present then Add(findings, true, UnbaselinedLedger)
    else AddMigrations(findings, RowsByName(i.restoredLedger.value.rows), i.migrations.value)
  }

  function AfterEnd(i: Input, findings: seq<Finding>): seq<Finding> {
    var f := Add(findings, SloMissing(i), SloUnrecorded);
    var f := Add(f, i.faultInjected, FaultInjected);
    Add(f, !i.scratchDropped, ScratchCleanupFailed)
  }

  /** All findings of one drill, in the order they are made. */
  function Findings(i: Input): seq<Finding> {
    AfterEnd(i, AfterLedger(i, AfterComparison(i, AfterRestore(i, AfterStart(i)))))
  }

  // ------------------------------------------------------------ the verdict

  predicate Reported(findings: seq<Finding>, verdict: Verdict) {
    exists k :: 0 <= k < |findings| && findings[k].verdict == verdict
  }

  function FirstReported(order: seq<Verdict>, findings: seq<Finding>): Verdict {
    if order == [] || order[0] == Ok then Ok
    else if Reported(findings, order[0]) then order[0]
    else FirstReported(order[1..], findings)
  }

  function VerdictOf(findings: seq<Finding>): Verdict {
    FirstReported(VERDICT_PRECEDENCE, findings)
  }

  function ExitCode(verdict: Verdict): int {
    if verdict == Ok then 0 else 1
  }

  /** What `--update` may write despite: its own remedies, and nothing about fidelity. */
  predicate Forgiven(verdict: Verdict) {
    verdict == SloUnrecorded || verdict == InventoryDrift
  }

  predicate Writable(findings: seq<Finding>) {
    forall k | 0 <= k < |findings| :: Forgiven(findings[k].verdict)
  }

  predicate TooSlow(recorded: Option<real>, measured: real, tolerance: real) {
    recorded.Some? && recorded.value > 0.0 && measured > recorded.value * tolerance
  }

  predicate SloExceeded(i: Input) {
    i.baseline.Some? && i.durations.Some? &&
    var b, d := i.baseline.value, i.durations.value;
    var tolerance := if b.tolerance.Some? then b.tolerance.value else 3.0;
    TooSlow(b.dump, d.dump, tolerance) || TooSlow(b.restore, d.restore, tolerance) ||
    TooSlow(b.verify, d.verify, tolerance) || TooSlow(b.total, d.total, tolerance)
  }

  function Judge(input: Option<Input>): Report {
    match input
    case None => Report(Unknown, 1, [Finding(Unknown, [])], false, false)
    case Some(i) =>
      var findings := Findings(i);
      Report(VerdictOf(findings), ExitCode(VerdictOf(findings)), findings, SloExceeded(i), Writable(findings))
  }

  // ------------------------------------------------------------ the evaluation, as it runs

  method PushTables(findings: seq<Finding>, tables: seq<Table>, verdict: Verdict) returns (out: seq<Finding>)
    ensures out == AddTables(findings, tables, verdict)
  {
    out := findings;
    for k := 0 to |tables|
      invariant out == AddTables(findings, tables[..k], verdict)
    {
      assert tables[..k + 1][..k] == tables[..k];
      out := out + [Finding(verdict, tables[k].name)];
    }
    assert tables[..|tables|] == tables;
  }

  method PushEntries(findings: seq<Finding>, entries: seq<Entry>) returns (out: seq<Finding>)
    ensures out == AddEntries(findings, entries)
  {
    out := findings;
    for k := 0 to |entries|
      invariant out == AddEntries(findings, entries[..k])
    {
      assert entries[..k + 1][..k] == entries[..k];
      out := out + [Finding(SchemaDivergence, entries[k].key)];
    }
    assert entries[..|entries|] == entries;
  }

  method Fail(findings: seq<Finding>, condition: bool, verdict: Verdict) returns (out: seq<Finding>)
    ensures out == Add(findings, condition, verdict)
  {
    out := findings;
    if condition { out := out + [Finding(verdict, [])]; }
  }

  method CheckStart(i: Input) returns (out: seq<Finding>)
    ensures out == AfterStart(i)
  {
    out := Fail([], EvidenceMissing(i), Unknown);
    out := Fail(out, i.fatalError != [], Unknown);
    out := Fail(out, i.sourceReachable == Some(false), UnreachableSource);
    out := Fail(out, !i.toolingAvailable, ToolingUnavailable);
    out := Fail(out, i.dumpRouteMatched == Some(false), DumpRouteMismatch);
  }

  method CheckRestore(i: Input, findings: seq<Finding>) returns (out: seq<Finding>)
    ensures out == AfterRestore(i, findings)
  {
    out := Fail(findings, SeesTooLittle(i.readRole), InsufficientReadRole);
    out := Fail(out, Unbaselined(i.sourceLedger), UnbaselinedLedger);
    out := Fail(out, UnsafeTarget(i), UnsafeScratchTarget);
    out := Fail(out, i.scratchWasEmpty == Some(false), ScratchNotEmpty);
    out := Fail(out, i.restoreOk == Some(false), RestoreFailed);
  }

  method CompareManifests(source: Manifest, restored: Manifest, findings: seq<Finding>) returns (out: seq<Finding>)
    ensures out == AddDiff(findings, ManifestDiff(source, restored))
  {
    var diff := BuildManifestDiff(source, restored);
    out := PushTables(findings, diff.missing, MissingTable);
    out := PushTables(out, diff.unexpected, UnexpectedTable);
    out := PushTables(out, diff.rowCounts, RowCountDivergence);
    out := PushTables(out, diff.checksums, ChecksumDivergence);
    out := PushEntries(out, diff.schema);
  }

  method CheckComparison(i: Input, findings: seq<Finding>) returns (out: seq<Finding>)
    ensures out == AfterComparison(i, findings)
  {
    out := Fail(findings, TooFewTables(i), EmptyManifest);
    if i.sourceManifest.Some? && i.restoredManifest.Some? {
      out := CompareManifests(i.sourceManifest.value, i.restoredManifest.value, out);
    }
    if i.sourceManifest.Some? && i.afterDump.Some? {
      var drift := BuildManifestDiff(i.sourceManifest.value, i.afterDump.value);
      var changed := drift.missing + drift.unexpected + drift.rowCounts + drift.checksums;
      out := PushTables(out, changed, SourceMutatedDuringDump);
    }
    out := Fail(out, InventoryDrifted(i), InventoryDrift);
  }

  method CheckMigration(rows: map<string, Row>, name: string, findings: seq<Finding>) returns (out: seq<Finding>)
    ensures out == AddMigration(findings, rows, name)
  {
    if name !in rows {
      out := Fail(findings, true, PendingMigration);
      return;
    }
    var row := rows[name];
    out := Fail(findings, !row.finished, PendingMigration);
    out := Fail(out, row.rolledBack, PendingMigration);
    out := Fail(out, IsEdited(row), LedgerChecksumMismatch);
  }

  method CheckLedger(i: Input, findings: seq<Finding>) returns (out: seq<Finding>)
    ensures out == AfterLedger(i, findings)
  {
    out := findings;
    if i.restoredLedger.None? || i.migrations.None? { return; }
    if !i.restoredLedger.value.present {
      out := Fail(out, true, UnbaselinedLedger);
      return;
    }
    var rows, names := RowsByName(i.restoredLedger.value.rows), i.migrations.value;
    for k := 0 to |names|
      invariant out == AddMigrations(findings, rows, names[..k])
    {
      assert names[..k + 1][..k] == names[..k];
      out := CheckMigration(rows, names[k], out);
    }
    assert names[..|names|] == names;
  }

  method CheckEnd(i: Input, findings: seq<Finding>) returns (out: seq<Finding>)
    ensures out == AfterEnd(i, findings)
  {
    out := Fail(findings, SloMissing(i), SloUnrecorded);
    out := Fail(out, i.faultInjected, FaultInjected);
    out := Fail(out, !i.scratchDropped, ScratchCleanupFailed);
  }

  method PickVerdict(findings: seq<Finding>) returns (verdict: Verdict)
    ensures verdict == VerdictOf(findings)
  {
    var order := VERDICT_PRECEDENCE;
    for k := 0 to |order|
      invariant FirstReported(order[k..], findings) == VerdictOf(findings)
    {
      assert order[k..][1..] == order[k + 1..];
      if order[k] == Ok { break; }
      if exists j :: 0 <= j < |findings| && findings[j].verdict == order[k] { return order[k]; }
    }
    verdict := Ok;
  }

  method EvaluateDrill(input: Option<Input>) returns (report: Report)
    ensures report == Judge(input)
  {
    if input.None? { return Report(Unknown, 1, [Finding(Unknown, [])], false, false); }
    var i := input.value;
    var findings := CheckStart(i);
    findings := CheckRestore(i, findings);
    findings := CheckComparison(i, findings);
    findings := CheckLedger(i, findings);
    findings := CheckEnd(i, findings);
    var verdict := PickVerdict(findings);
    report := Report(verdict, ExitCode(verdict), findings, SloExceeded(i), Writable(findings));
  }

  // ------------------------------------------------------------ what the verdict means

  lemma {:induction false} FirstReportedIsFirst(order: seq<Verdict>, findings: seq<Finding>)
    requires order != [] && order[|order| - 1] == Ok && forall k | 0 <= k < |order| - 1 :: order[k] != Ok
    ensures var v := FirstReported(order, findings);
            exists k :: 0 <= k < |order| && order[k] == v && (v != Ok ==> Reported(findings, v))
                     && forall j | 0 <= j < k :: !Reported(findings, order[j])
    ensures FirstReported(order, findings) == Ok ==> forall j | 0 <= j < |order| - 1 :: !Reported(findings, order[j])
  {
    var v := FirstReported(order, findings);
    if order[0] == Ok || Reported(findings, order[0]) {
      assert order[0] == v;
    } else {
      FirstReportedIsFirst(order[1..], findings);
      var k :| 0 <= k < |order[1..]| && order[1..][k] == v && forall j | 0 <= j < k ::
          !Reported(findings, order[1..][j]);
      forall j | 0 <= j < k + 1
        ensures !Reported(findings, order[j])
      {
        if j > 0 { assert order[j] == order[1..][j - 1]; }
      }
      assert order[k + 1] == v;
      if v == Ok {
        forall j | 0 <= j < |order| - 1
          ensures !Reported(findings, order[j])
        {
          if j > 0 { assert order[j] == order[1..][j - 1]; }
        }
      }
    }
  }

  function Rank(verdict: Verdict): nat {
    match verdict
    case UnreachableSource => 0
    case ToolingUnavailable => 1
    case DumpRouteMismatch => 2
    case InsufficientReadRole => 3
    case UnbaselinedLedger => 4
    case UnsafeScratchTarget => 5
    case ScratchNotEmpty => 6
    case RestoreFailed => 7
    case EmptyManifest => 8
    case MissingTable => 9
    case UnexpectedTable => 10
    case SourceMutatedDuringDump => 11
    case RowCountDivergence => 12
    case ChecksumDivergence => 13
    case SchemaDivergence => 14
    case InventoryDrift => 15
    case PendingMigration => 16
    case LedgerChecksumMismatch => 17
    case SloUnrecorded => 18
    case FaultInjected => 19
    case ScratchCleanupFailed => 20
    case Unknown => 21
    case Ok => 22
  }

  lemma RankIsPlace(k: nat)
    requires k < |VERDICT_PRECEDENCE|
    ensures Rank(VERDICT_PRECEDENCE[k]) == k
    ensures VERDICT_PRECEDENCE[k] == Ok <==> k == 22
  {
  }

  lemma PlaceOfRank(verdict: Verdict)
    ensures Rank(verdict) < |VERDICT_PRECEDENCE| && VERDICT_PRECEDENCE[Rank(verdict)] == verdict
  {
  }

  predicate AllIn(findings: seq<Finding>, allowed: Verdict -> bool) {
    forall k | 0 <= k < |findings| :: allowed(findings[k].verdict)
  }

  /** The verdict is the highest-ranked finding, and `ok` only where there is none. */
  lemma HighestPrecedence(findings: seq<Finding>)
    requires AllIn(findings, NotOk())
    ensures VerdictOf(findings) == Ok <==> findings == []
    ensures findings != [] ==> Reported(findings, VerdictOf(findings))
    ensures forall k | 0 <= k < |findings| :: Rank(VerdictOf(findings)) <= Rank(findings[k].verdict)
  {
    var order, v := VERDICT_PRECEDENCE, VerdictOf(findings);
    forall k | 0 <= k < |order|
      ensures Rank(order[k]) == k && (order[k] == Ok <==> k == 22)
    {
      RankIsPlace(k);
    }
    FirstReportedIsFirst(order, findings);
    var place :| 0 <= place < |order| && order[place] == v && (v != Ok ==> Reported(findings, v))
              && forall j | 0 <= j < place :: !Reported(findings, order[j]);
    forall k | 0 <= k < |findings|
      ensures place <= Rank(findings[k].verdict) < 22
    {
      PlaceOfRank(findings[k].verdict);
      assert Reported(findings, findings[k].verdict);
      assert findings[k].verdict != Ok;
      RankIsPlace(Rank(findings[k].verdict));
    }
    if findings != [] {
      assert place <= Rank(findings[0].verdict) < 22;
      assert order[place] != Ok;
    } else {
      assert !Reported(findings, v);
    }
  }

  lemma AddAll(f: seq<Finding>, condition: bool, verdict: Verdict, allowed: Verdict -> bool)
    ensures AllIn(Add(f, condition, verdict), allowed) <==> AllIn(f, allowed) && (condition ==> allowed(verdict))
  {
    Snoc(f, Finding(verdict, []), allowed);
  }

  lemma Snoc(f: seq<Finding>, last: Finding, allowed: Verdict -> bool)
    ensures AllIn(f + [last], allowed) <==> AllIn(f, allowed) && allowed(last.verdict)
  {
    assert (f + [last])[|f|] == last;
    assert forall k | 0 <= k < |f| :: (f + [last])[k] == f[k];
  }

  lemma {:induction false} AddTablesAll(f: seq<Finding>, tables: seq<Table>, verdict: Verdict, allowed: Verdict -> bool)
    ensures AllIn(AddTables(f, tables, verdict), allowed) <==> AllIn(f, allowed) && (tables != [] ==> allowed(verdict))
  {
    if tables != [] {
      var prefix := tables[..|tables| - 1];
      AddTablesAll(f, prefix, verdict, allowed);
      Snoc(AddTables(f, prefix, verdict), Finding(verdict, tables[|tables| - 1].name), allowed);
    }
  }

  lemma {:induction false} AddEntriesAll(f: seq<Finding>, entries: seq<Entry>, allowed: Verdict -> bool)
    ensures AllIn(AddEntries(f, entries), allowed)
       <==> AllIn(f, allowed) && (entries != [] ==> allowed(SchemaDivergence))
  {
    if entries != [] {
      var prefix := entries[..|entries| - 1];
      AddEntriesAll(f, prefix, allowed);
      Snoc(AddEntries(f, prefix), Finding(SchemaDivergence, entries[|entries| - 1].key), allowed);
    }
  }

  lemma AddMigrationAll(f: seq<Finding>, rows: map<string, Row>, name: string, allowed: Verdict -> bool)
    requires !allowed(PendingMigration) && !allowed(LedgerChecksumMismatch)
    ensures AllIn(AddMigration(f, rows, name), allowed) <==> AllIn(f, allowed) && IsApplied(rows, name)
  {
    AddAll(f, true, PendingMigration, allowed);
    if name in rows {
      var f1 := Add(f, !rows[name].finished, PendingMigration);
      var f2 := Add(f1, rows[name].rolledBack, PendingMigration);
      AddAll(f, !rows[name].finished, PendingMigration, allowed);
      AddAll(f1, rows[name].rolledBack, PendingMigration, allowed);
      AddAll(f2, IsEdited(rows[name]), LedgerChecksumMismatch, allowed);
    }
  }

  predicate AllApplied(rows: map<string, Row>, names: seq<string>) {
    forall k | 0 <= k < |names| :: IsApplied(rows, names[k])
  }

  lemma {:induction false} AddMigrationsAll(f: seq<Finding>, rows: map<string, Row>, names: seq<string>,
                                            allowed: Verdict -> bool)
    requires !allowed(PendingMigration) && !allowed(LedgerChecksumMismatch)
    ensures AllIn(AddMigrations(f, rows, names), allowed) <==> AllIn(f, allowed) && AllApplied(rows, names)
  {
    if names != [] {
      var prefix := names[..|names| - 1];
      AddMigrationsAll(f, rows, prefix, allowed);
      AddMigrationAll(AddMigrations(f, rows, prefix), rows, names[|names| - 1], allowed);
      assert names == prefix + [names[|names| - 1]];
    }
  }

  // ------------------------------------------------------------ stage by stage

  /** Verdicts that only their own remedy or nothing at all excuses. */
  predicate Strict(allowed: Verdict -> bool) {
    forall v | allowed(v) :: Forgiven(v)
  }

  predicate StartSound(i: Input) {
    && !EvidenceMissing(i) && i.fatalError == []
    && i.sourceReachable == Some(true) && i.toolingAvailable && i.dumpRouteMatched != Some(false)
  }

  lemma TwoAnswers(answer: Option<bool>)
    ensures answer == None || answer == Some(true) || answer == Some(false)
  {
    if answer.Some? {
      if answer.value { assert answer == Some(true); } else { assert answer == Some(false); }
    }
  }

  lemma StartIff(i: Input, allowed: Verdict -> bool)
    requires Strict(allowed)
    ensures AllIn(AfterStart(i), allowed) <==> StartSound(i)
  {
    var f1 := Add([], EvidenceMissing(i), Unknown);
    var f2 := Add(f1, i.fatalError != [], Unknown);
    var f3 := Add(f2, i.sourceReachable == Some(false), UnreachableSource);
    var f4 := Add(f3, !i.toolingAvailable, ToolingUnavailable);
    AddAll([], EvidenceMissing(i), Unknown, allowed);
    AddAll(f1, i.fatalError != [], Unknown, allowed);
    AddAll(f2, i.sourceReachable == Some(false), UnreachableSource, allowed);
    AddAll(f3, !i.toolingAvailable, ToolingUnavailable, allowed);
    AddAll(f4, i.dumpRouteMatched == Some(false), DumpRouteMismatch, allowed);
    TwoAnswers(i.sourceReachable);
  }

  predicate RestoreSound(i: Input) {
    && !SeesTooLittle(i.readRole) && !Unbaselined(i.sourceLedger) && !UnsafeTarget(i)
    && i.scratchWasEmpty != Some(false) && i.restoreOk != Some(false)
  }

  lemma RestoreIff(i: Input, f: seq<Finding>, allowed: Verdict -> bool)
    requires Strict(allowed)
    ensures AllIn(AfterRestore(i, f), allowed) <==> AllIn(f, allowed) && RestoreSound(i)
  {
    var f1 := Add(f, SeesTooLittle(i.readRole), InsufficientReadRole);
    var f2 := Add(f1, Unbaselined(i.sourceLedger), UnbaselinedLedger);
    var f3 := Add(f2, UnsafeTarget(i), UnsafeScratchTarget);
    var f4 := Add(f3, i.scratchWasEmpty == Some(false), ScratchNotEmpty);
    AddAll(f, SeesTooLittle(i.readRole), InsufficientReadRole, allowed);
    AddAll(f1, Unbaselined(i.sourceLedger), UnbaselinedLedger, allowed);
    AddAll(f2, UnsafeTarget(i), UnsafeScratchTarget, allowed);
    AddAll(f3, i.scratchWasEmpty == Some(false), ScratchNotEmpty, allowed);
    AddAll(f4, i.restoreOk == Some(false), RestoreFailed, allowed);
  }

  predicate Agree(source: Manifest, restored: Manifest) {
    TablesAgree(source.tables, restored.tables) && SchemasAgree(source.schema, restored.schema)
  }

  lemma DiffIff(source: Manifest, restored: Manifest, f: seq<Finding>, allowed: Verdict -> bool)
    requires !allowed(MissingTable) && !allowed(UnexpectedTable) && !allowed(RowCountDivergence)
    requires !allowed(ChecksumDivergence) && !allowed(SchemaDivergence)
    ensures AllIn(AddDiff(f, ManifestDiff(source, restored)), allowed) <==> AllIn(f, allowed) && Agree(source, restored)
  {
    var diff := ManifestDiff(source, restored);
    var f1 := AddTables(f, diff.missing, MissingTable);
    var f2 := AddTables(f1, diff.unexpected, UnexpectedTable);
    var f3 := AddTables(f2, diff.rowCounts, RowCountDivergence);
    var f4 := AddTables(f3, diff.checksums, ChecksumDivergence);
    AddTablesAll(f, diff.missing, MissingTable, allowed);
    AddTablesAll(f1, diff.unexpected, UnexpectedTable, allowed);
    AddTablesAll(f2, diff.rowCounts, RowCountDivergence, allowed);
    AddTablesAll(f3, diff.checksums, ChecksumDivergence, allowed);
    AddEntriesAll(f4, diff.schema, allowed);
    DiffEmptyIff(source, restored);
    SchemaEmptyIff(source.schema, restored.schema);
  }

  lemma DriftIff(source: Manifest, after: Manifest, f: seq<Finding>, allowed: Verdict -> bool)
    requires Strict(allowed)
    ensures AllIn(AddDrift(f, ManifestDiff(source, after)), allowed)
       <==> AllIn(f, allowed) && TablesAgree(source.tables, after.tables)
  {
    var drift := ManifestDiff(source, after);
    AddTablesAll(f, drift.missing + drift.unexpected + drift.rowCounts + drift.checksums, SourceMutatedDuringDump,
        allowed);
    DiffEmptyIff(source, after);
    assert |drift.missing + drift.unexpected + drift.rowCounts + drift.checksums|
        == |drift.missing| + |drift.unexpected| + |drift.rowCounts| + |drift.checksums|;
  }

  predicate ComparisonSound(i: Input) {
    && !TooFewTables(i)
    && (i.sourceManifest.Some? && i.restoredManifest.Some? ==> Agree(i.sourceManifest.value, i.restoredManifest.value))
    && (i.sourceManifest.Some? && i.afterDump.Some? ==>
          TablesAgree(i.sourceManifest.value.tables, i.afterDump.value.tables))
  }

  lemma ComparisonIff(i: Input, f: seq<Finding>, allowed: Verdict -> bool)
    requires Strict(allowed)
    ensures AllIn(AfterComparison(i, f), allowed)
       <==> AllIn(f, allowed) && ComparisonSound(i) && (InventoryDrifted(i) ==> allowed(InventoryDrift))
  {
    AddAll(f, TooFewTables(i), EmptyManifest, allowed);
    var f1 := Add(f, TooFewTables(i), EmptyManifest);
    var f2 := f1;
    if i.sourceManifest.Some? && i.restoredManifest.Some? {
      DiffIff(i.sourceManifest.value, i.restoredManifest.value, f1, allowed);
      f2 := AddDiff(f1, ManifestDiff(i.sourceManifest.value, i.restoredManifest.value));
    }
    var f3 := f2;
    if i.sourceManifest.Some? && i.afterDump.Some? {
      DriftIff(i.sourceManifest.value, i.afterDump.value, f2, allowed);
      f3 := AddDrift(f2, ManifestDiff(i.sourceManifest.value, i.afterDump.value));
    }
    AddAll(f3, InventoryDrifted(i), InventoryDrift, allowed);
  }

  predicate LedgerSound(i: Input) {
    i.restoredLedger.Some? && i.migrations.Some? ==>
      && i.restoredLedger.value.present
      && AllApplied(RowsByName(i.restoredLedger.value.rows), i.migrations.value)
  }

  lemma LedgerIff(i: Input, f: seq<Finding>, allowed: Verdict -> bool)
    requires Strict(allowed)
    ensures AllIn(AfterLedger(i, f), allowed) <==> AllIn(f, allowed) && LedgerSound(i)
  {
    AddAll(f, true, UnbaselinedLedger, allowed);
    if i.restoredLedger.Some? && i.migrations.Some? {
      AddMigrationsAll(f, RowsByName(i.restoredLedger.value.rows), i.migrations.value, allowed);
    }
  }

  lemma EndIff(i: Input, f: seq<Finding>, allowed: Verdict -> bool)
    requires Strict(allowed)
    ensures AllIn(AfterEnd(i, f), allowed)
       <==> AllIn(f, allowed) && (SloMissing(i) ==> allowed(SloUnrecorded)) && !i.faultInjected && i.scratchDropped
  {
    var f1 := Add(f, SloMissing(i), SloUnrecorded);
    var f2 := Add(f1, i.faultInjected, FaultInjected);
    AddAll(f, SloMissing(i), SloUnrecorded, allowed);
    AddAll(f1, i.faultInjected, FaultInjected, allowed);
    AddAll(f2, !i.scratchDropped, ScratchCleanupFailed, allowed);
  }

  /** Positive evidence of fidelity: everything a verdict needs apart from the reviewed baseline. */
  predicate Faithful(i: Input) {
    StartSound(i) && RestoreSound(i) && ComparisonSound(i) && LedgerSound(i) && !i.faultInjected && i.scratchDropped
  }

  lemma FindingsIff(i: Input, allowed: Verdict -> bool)
    requires Strict(allowed)
    ensures AllIn(Findings(i), allowed)
       <==> (Faithful(i) && (InventoryDrifted(i) ==> allowed(InventoryDrift)) &&
             (SloMissing(i) ==> allowed(SloUnrecorded)))
  {
    var f1 := AfterStart(i);
    var f2 := AfterRestore(i, f1);
    var f3 := AfterComparison(i, f2);
    var f4 := AfterLedger(i, f3);
    StartIff(i, allowed);
    RestoreIff(i, f1, allowed);
    ComparisonIff(i, f2, allowed);
    LedgerIff(i, f3, allowed);
    EndIff(i, f4, allowed);
  }

  function NoVerdict(): Verdict -> bool {
    (v: Verdict) => false
  }

  function ForgivenOnly(): Verdict -> bool {
    (v: Verdict) => Forgiven(v)
  }

  /**
   `ok` means exactly this: the seven required pieces of evidence are there, nothing that
   was read speaks against the run, no fault was injected and the scratch database is gone.
   */
  lemma OkIff(i: Input)
    ensures Findings(i) == [] <==> Faithful(i) && !InventoryDrifted(i) && !SloMissing(i)
    ensures Findings(i) == [] ==> Judge(Some(i)).verdict == Ok && Judge(Some(i)).exitCode == 0
  {
    FindingsIff(i, NoVerdict());
    if Findings(i) != [] { assert !NoVerdict()(Findings(i)[0].verdict); }
    if Findings(i) == [] { NothingReported(VERDICT_PRECEDENCE); }
  }

  lemma {:induction false} NothingReported(order: seq<Verdict>)
    ensures FirstReported(order, []) == Ok
  {
    if order != [] { NothingReported(order[1..]); }
  }

  // ------------------------------------------------------------ no finding is ever `ok`

  lemma {:induction false} TablesNotOk(f: seq<Finding>, tables: seq<Table>, verdict: Verdict, known: Verdict -> bool)
    requires AllIn(f, known) && known(verdict)
    ensures AllIn(AddTables(f, tables, verdict), known)
  {
    AddTablesAll(f, tables, verdict, known);
  }

  lemma {:induction false} MigrationsNotOk(f: seq<Finding>, rows: map<string, Row>, names: seq<string>,
                                           known: Verdict -> bool)
    requires AllIn(f, known) && known(PendingMigration) && known(LedgerChecksumMismatch)
    ensures AllIn(AddMigrations(f, rows, names), known)
  {
    if names != [] { MigrationsNotOk(f, rows, names[..|names| - 1], known); }
  }

  lemma DiffNotOk(f: seq<Finding>, diff: Diff, known: Verdict -> bool)
    requires AllIn(f, known) && forall v | v != Ok :: known(v)
    ensures AllIn(AddDiff(f, diff), known)
  {
    var f1 := AddTables(f, diff.missing, MissingTable);
    var f2 := AddTables(f1, diff.unexpected, UnexpectedTable);
    var f3 := AddTables(f2, diff.rowCounts, RowCountDivergence);
    var f4 := AddTables(f3, diff.checksums, ChecksumDivergence);
    AddTablesAll(f, diff.missing, MissingTable, known);
    AddTablesAll(f1, diff.unexpected, UnexpectedTable, known);
    AddTablesAll(f2, diff.rowCounts, RowCountDivergence, known);
    AddTablesAll(f3, diff.checksums, ChecksumDivergence, known);
    AddEntriesAll(f4, diff.schema, known);
  }

  lemma ComparisonNotOk(i: Input, f: seq<Finding>, known: Verdict -> bool)
    requires AllIn(f, known) && forall v | v != Ok :: known(v)
    ensures AllIn(AfterComparison(i, f), known)
  {
    AddAll(f, TooFewTables(i), EmptyManifest, known);
    var f1 := Add(f, TooFewTables(i), EmptyManifest);
    var f2 := f1;
    if i.sourceManifest.Some? && i.restoredManifest.Some? {
      DiffNotOk(f1, ManifestDiff(i.sourceManifest.value, i.restoredManifest.value), known);
      f2 := AddDiff(f1, ManifestDiff(i.sourceManifest.value, i.restoredManifest.value));
    }
    var f3 := f2;
    if i.sourceManifest.Some? && i.afterDump.Some? {
      var drift := ManifestDiff(i.sourceManifest.value, i.afterDump.value);
      TablesNotOk(f2, drift.missing + drift.unexpected + drift.rowCounts + drift.checksums, SourceMutatedDuringDump,
          known);
      f3 := AddDrift(f2, drift);
    }
    AddAll(f3, InventoryDrifted(i), InventoryDrift, known);
  }

  function NotOk(): Verdict -> bool {
    (v: Verdict) => v != Ok
  }

  lemma AddNotOk(f: seq<Finding>, condition: bool, verdict: Verdict)
    requires AllIn(f, NotOk()) && verdict != Ok
    ensures AllIn(Add(f, condition, verdict), NotOk())
  {
    AddAll(f, condition, verdict, NotOk());
  }

  lemma StartNotOk(i: Input)
    ensures AllIn(AfterStart(i), NotOk())
  {
    var f1 := Add([], EvidenceMissing(i), Unknown);
    AddNotOk([], EvidenceMissing(i), Unknown);
    var f2 := Add(f1, i.fatalError != [], Unknown);
    AddNotOk(f1, i.fatalError != [], Unknown);
    var f3 := Add(f2, i.sourceReachable == Some(false), UnreachableSource);
    AddNotOk(f2, i.sourceReachable == Some(false), UnreachableSource);
    var f4 := Add(f3, !i.toolingAvailable, ToolingUnavailable);
    AddNotOk(f3, !i.toolingAvailable, ToolingUnavailable);
    AddNotOk(f4, i.dumpRouteMatched == Some(false), DumpRouteMismatch);
  }

  lemma RestoreNotOk(i: Input, f: seq<Finding>)
    requires AllIn(f, NotOk())
    ensures AllIn(AfterRestore(i, f), NotOk())
  {
    var f1 := Add(f, SeesTooLittle(i.readRole), InsufficientReadRole);
    AddNotOk(f, SeesTooLittle(i.readRole), InsufficientReadRole);
    var f2 := Add(f1, Unbaselined(i.sourceLedger), UnbaselinedLedger);
    AddNotOk(f1, Unbaselined(i.sourceLedger), UnbaselinedLedger);
    var f3 := Add(f2, UnsafeTarget(i), UnsafeScratchTarget);
    AddNotOk(f2, UnsafeTarget(i), UnsafeScratchTarget);
    var f4 := Add(f3, i.scratchWasEmpty == Some(false), ScratchNotEmpty);
    AddNotOk(f3, i.scratchWasEmpty == Some(false), ScratchNotEmpty);
    AddNotOk(f4, i.restoreOk == Some(false), RestoreFailed);
  }

  lemma LedgerNotOk(i: Input, f: seq<Finding>, known: Verdict -> bool)
    requires AllIn(f, known) && known(UnbaselinedLedger) && known(PendingMigration) && known(LedgerChecksumMismatch)
    ensures AllIn(AfterLedger(i, f), known)
  {
    if i.restoredLedger.Some? && i.migrations.Some? {
      if i.restoredLedger.value.present {
        MigrationsNotOk(f, RowsByName(i.restoredLedger.value.rows), i.migrations.value, known);
      } else {
        AddAll(f, true, UnbaselinedLedger, known);
      }
    }
  }

  lemma EndNotOk(i: Input, f: seq<Finding>)
    requires AllIn(f, NotOk())
    ensures AllIn(AfterEnd(i, f), NotOk())
  {
    var f1 := Add(f, SloMissing(i), SloUnrecorded);
    AddNotOk(f, SloMissing(i), SloUnrecorded);
    var f2 := Add(f1, i.faultInjected, FaultInjected);
    AddNotOk(f1, i.faultInjected, FaultInjected);
    AddNotOk(f2, !i.scratchDropped, ScratchCleanupFailed);
  }

  lemma NoFindingIsOk(i: Input)
    ensures AllIn(Findings(i), NotOk())
  {
    var f1 := AfterStart(i);
    var f2 := AfterRestore(i, f1);
    var f3 := AfterComparison(i, f2);
    var f4 := AfterLedger(i, f3);
    StartNotOk(i);
    RestoreNotOk(i, f1);
    ComparisonNotOk(i, f2, NotOk());
    LedgerNotOk(i, f3, NotOk());
    EndNotOk(i, f4);
  }

  // ------------------------------------------------------------ the main results

  /** The verdict is `ok` and the exit code zero exactly for a faithful, reviewed drill. */
  lemma VerdictOkIff(i: Input)
    ensures Judge(Some(i)).verdict == Ok <==> Faithful(i) && !InventoryDrifted(i) && !SloMissing(i)
    ensures Judge(Some(i)).exitCode == 0 <==> Judge(Some(i)).verdict == Ok
    ensures Judge(Some(i)).verdict == Ok <==> Judge(Some(i)).failures == []
  {
    NoFindingIsOk(i);
    HighestPrecedence(Findings(i));
    OkIff(i);
  }

  /** `part` is `whole`, or was not read. */
  predicate KeptOrGone<T(==)>(whole: Option<T>, part: Option<T>) {
    part == whole || part.None?
  }

  /** The manifest, without its schema, or nothing. */
  predicate ManifestKeptOrGone(whole: Option<Manifest>, part: Option<Manifest>) {
    part.Some? ==>
      whole.Some? && part.value.tables == whole.value.tables && KeptOrGone(whole.value.schema, part.value.schema)
  }

  /** The same run with some of what it read taken away. */
  predicate Forgets(i: Input, j: Input) {
    && KeptOrGone(i.sourceReachable, j.sourceReachable) && KeptOrGone(i.dumpRouteMatched, j.dumpRouteMatched)
    && KeptOrGone(i.readRole, j.readRole) && KeptOrGone(i.scratchName, j.scratchName)
    && KeptOrGone(i.sourceDatabase, j.sourceDatabase) && KeptOrGone(i.scratchWasEmpty, j.scratchWasEmpty)
    && KeptOrGone(i.restoreOk, j.restoreOk) && ManifestKeptOrGone(i.sourceManifest, j.sourceManifest)
    && ManifestKeptOrGone(i.restoredManifest, j.restoredManifest) && ManifestKeptOrGone(i.afterDump, j.afterDump)
    && KeptOrGone(i.sourceLedger, j.sourceLedger) && KeptOrGone(i.restoredLedger, j.restoredLedger)
    && KeptOrGone(i.migrations, j.migrations) && KeptOrGone(i.durations, j.durations)
    && KeptOrGone(i.baseline, j.baseline)
    && j.toolingAvailable == i.toolingAvailable && j.scratchDropped == i.scratchDropped
    && j.faultInjected == i.faultInjected && j.fatalError == i.fatalError
  }

  /**
   What an `ok` run may do without, exactly: anything but the seven required pieces of
   evidence, and the name of the source database as long as a scratch name is there. The
   schema of a manifest may go, on one side or on both.
   Where the script says that absence is never agreement, it means those seven.
   */
  lemma WhatMayBeAbsent(i: Input, j: Input)
    requires Judge(Some(i)).verdict == Ok && Forgets(i, j)
    ensures Judge(Some(j)).verdict == Ok <==> !EvidenceMissing(j) && (j.scratchName.Some? ==> j.sourceDatabase.Some?)
  {
    hide Judge, AllApplied, RowsByName, TablesAgree, EntriesAgree;
    VerdictOkIff(i);
    VerdictOkIff(j);
  }

  function SomeTables(n: nat): (tables: seq<Table>)
    ensures |tables| == n && Distinct(tables)
  {
    seq(n, k requires 0 <= k < n => Table(seq(k, j => 't'), 0, ""))
  }

  /** The seven required pieces of evidence and nothing else: no role, route, scratch name, migrations or baseline. */
  function BareRun(source: Manifest, restored: Manifest): Input {
    Input(Some(true), true, None, None, None, None, None, Some(true), Some(source), Some(restored), None,
          Some(Ledger(true, [])), Some(Ledger(true, [])), None, Some(Durations(1.0, 1.0, 1.0, 3.0)), None, true,
          false, "")
  }

  lemma AgreesWithItself(tables: seq<Table>, schema: Option<Schema>)
    requires Distinct(tables)
    ensures Agree(Manifest(tables, schema), Manifest(tables, None))
  {
    DistinctStands(tables);
  }

  /**
   It passes, as soon as there are fifty tables, and with whatever schema on one side: what
   was read there is compared with nothing.
   */
  lemma BareRunIsOk(schema: Option<Schema>)
    ensures var tables := SomeTables(MIN_EXPECTED_TABLES);
            Judge(Some(BareRun(Manifest(tables, schema), Manifest(tables, None)))).verdict == Ok
  {
    hide SomeTables, Agree, Judge;
    var tables := SomeTables(MIN_EXPECTED_TABLES);
    AgreesWithItself(tables, schema);
    VerdictOkIff(BareRun(Manifest(tables, schema), Manifest(tables, None)));
  }

  /** The schemas are the same objects, as far as both were read. */
  predicate SameSchemas(source: Option<Schema>, restored: Option<Schema>) {
    source.Some? && restored.Some? && WellKeyed(source.value) && WellKeyed(restored.value) ==>
      Objects(source.value) == Objects(restored.value)
  }

  lemma AgreeingSchemas(source: Manifest, restored: Manifest)
    requires Agree(source, restored)
    ensures SameSchemas(source.schema, restored.schema)
  {
    hide WellKeyed, Objects, TablesAgree, SchemaDiff;
    SchemaEmptyIff(source.schema, restored.schema);
    if source.schema.Some? && restored.schema.Some? && WellKeyed(source.schema.value)
        && WellKeyed(restored.schema.value) {
      NoSchemaDifferenceIsEquality(source.schema.value, restored.schema.value);
    }
  }

  /**
   `ok` is evidence: at least fifty tables, every one restored as it was, nothing else, and
   the same schema as far as both sides read theirs.
   */
  lemma OkMeansRestored(i: Input)
    requires Judge(Some(i)).verdict == Ok
    ensures i.sourceManifest.Some? && i.restoredManifest.Some? && i.durations.Some?
    ensures |i.sourceManifest.value.tables| >= MIN_EXPECTED_TABLES
    ensures Agree(i.sourceManifest.value, i.restoredManifest.value)
    ensures SameSchemas(i.sourceManifest.value.schema, i.restoredManifest.value.schema)
    ensures i.sourceLedger.Some? && i.sourceLedger.value.present && i.restoredLedger.Some?
    ensures i.scratchDropped && !i.faultInjected
  {
    VerdictOkIff(i);
    AgreeingSchemas(i.sourceManifest.value, i.restoredManifest.value);
  }

  /** Taking any required evidence away, or injecting a fault, never leaves `ok`. */
  lemma NoEvidenceNoPass(i: Input)
    ensures i.sourceReachable.None? || i.restoreOk.None? || i.sourceManifest.None? || i.restoredManifest.None? ||
            i.sourceLedger.None? || i.restoredLedger.None? || i.durations.None? || i.faultInjected
            ==> Judge(Some(i)).verdict != Ok && !Judge(Some(i)).baselineWritable
    ensures Judge(None).verdict == Unknown && Judge(None).exitCode == 1 && !Judge(None).baselineWritable
  {
    VerdictOkIff(i);
    WritableIff(i);
  }

  /** The baseline may be rewritten exactly from a faithful run, reviewed or not. */
  lemma WritableIff(i: Input)
    ensures Judge(Some(i)).baselineWritable <==> Faithful(i)
  {
    FindingsIff(i, ForgivenOnly());
    assert Writable(Findings(i)) <==> AllIn(Findings(i), ForgivenOnly());
  }

  lemma VerdictIsForgiven(findings: seq<Finding>)
    requires AllIn(findings, NotOk()) && Writable(findings)
    ensures VerdictOf(findings) in {Ok, SloUnrecorded, InventoryDrift}
  {
    HighestPrecedence(findings);
  }

  /** So a writable baseline says that the restore brought the tables back, and the schema as far as both were read. */
  lemma WritableMeansRestored(i: Input)
    requires Judge(Some(i)).baselineWritable
    ensures i.sourceManifest.Some? && i.restoredManifest.Some?
    ensures Agree(i.sourceManifest.value, i.restoredManifest.value)
    ensures SameSchemas(i.sourceManifest.value.schema, i.restoredManifest.value.schema)
    ensures Judge(Some(i)).verdict in {Ok, SloUnrecorded, InventoryDrift}
  {
    WritableIff(i);
    NoFindingIsOk(i);
    VerdictIsForgiven(Findings(i));
    AgreeingSchemas(i.sourceManifest.value, i.restoredManifest.value);
  }

  // ------------------------------------------------------------ later stages only add

  lemma {:induction false} TablesExtend(f: seq<Finding>, tables: seq<Table>, verdict: Verdict)
    ensures f <= AddTables(f, tables, verdict)
  {
    if tables != [] { TablesExtend(f, tables[..|tables| - 1], verdict); }
  }

  lemma {:induction false} MigrationsExtend(f: seq<Finding>, rows: map<string, Row>, names: seq<string>)
    ensures f <= AddMigrations(f, rows, names)
  {
    if names != [] { MigrationsExtend(f, rows, names[..|names| - 1]); }
  }

  lemma EndExtends(i: Input, f: seq<Finding>)
    ensures f <= AfterEnd(i, f)
    ensures !i.scratchDropped ==> Reported(AfterEnd(i, f), ScratchCleanupFailed)
  {
    var f2 := Add(Add(f, SloMissing(i), SloUnrecorded), i.faultInjected, FaultInjected);
    assert f <= f2 <= AfterEnd(i, f);
    if !i.scratchDropped { assert AfterEnd(i, f)[|f2|].verdict == ScratchCleanupFailed; }
  }

  lemma LedgerExtends(i: Input, f: seq<Finding>)
    ensures f <= AfterLedger(i, f)
  {
    if i.restoredLedger.Some? && i.migrations.Some? {
      MigrationsExtend(f, RowsByName(i.restoredLedger.value.rows), i.migrations.value);
    }
  }

  function High(): Verdict -> bool {
    (v: Verdict) => Rank(v) > Rank(SchemaDivergence)
  }

  lemma DriftExtends(f: seq<Finding>, drift: Diff)
    ensures f <= AddDrift(f, drift)
  {
    TablesExtend(f, drift.missing + drift.unexpected + drift.rowCounts + drift.checksums, SourceMutatedDuringDump);
  }

  function AfterDiff(i: Input, findings: seq<Finding>): seq<Finding>
    requires i.sourceManifest.Some? && i.restoredManifest.Some?
  {
    AddDiff(Add(findings, TooFewTables(i), EmptyManifest),
            ManifestDiff(i.sourceManifest.value, i.restoredManifest.value))
  }

  lemma ComparisonExtends(i: Input, f: seq<Finding>, diffed: seq<Finding>)
    requires i.sourceManifest.Some? && i.restoredManifest.Some? && diffed == AfterDiff(i, f)
    ensures diffed <= AfterComparison(i, f)
  {
    if i.afterDump.Some? { DriftExtends(diffed, ManifestDiff(i.sourceManifest.value, i.afterDump.value)); }
  }

  lemma DiffIsReported(i: Input, f: seq<Finding>, source: Manifest, restored: Manifest)
    requires i.sourceManifest == Some(source) && i.restoredManifest == Some(restored) && !Agree(source, restored)
    ensures !AllIn(AfterDiff(i, f), High())
  {
    HighRejects();
    DiffIff(source, restored, Add(f, TooFewTables(i), EmptyManifest), High());
  }

  lemma HighRejects()
    ensures !High()(MissingTable) && !High()(UnexpectedTable) && !High()(RowCountDivergence)
    ensures !High()(ChecksumDivergence) && !High()(SchemaDivergence)
  {
  }

  /** Where the manifests differ, the comparison reports a divergence. */
  lemma DivergenceIsReported(i: Input, f: seq<Finding>, diffed: seq<Finding>)
    requires i.sourceManifest.Some? && i.restoredManifest.Some? && diffed == AfterDiff(i, f)
    requires !AllIn(diffed, High())
    ensures !AllIn(AfterComparison(i, f), High())
  {
    ComparisonExtends(i, f, diffed);
    ExtendedNotAll(diffed, AfterComparison(i, f), High());
  }

  lemma ExtendedNotAll(f: seq<Finding>, whole: seq<Finding>, allowed: Verdict -> bool)
    requires f <= whole && !AllIn(f, allowed)
    ensures !AllIn(whole, allowed)
  {
    var k :| 0 <= k < |f| && !allowed(f[k].verdict);
    assert whole[k] == f[k];
  }

  lemma HighestIsLow(findings: seq<Finding>)
    requires AllIn(findings, NotOk()) && !AllIn(findings, High())
    ensures Rank(VerdictOf(findings)) <= Rank(SchemaDivergence)
  {
    HighestPrecedence(findings);
  }

  lemma ComparedFindingsStay(i: Input, compared: seq<Finding>)
    requires compared == AfterComparison(i, AfterRestore(i, AfterStart(i)))
    ensures compared <= Findings(i)
    ensures !i.scratchDropped ==> Reported(Findings(i), ScratchCleanupFailed)
  {
    LedgerExtends(i, compared);
    EndExtends(i, AfterLedger(i, compared));
  }

  /** A run that diverges and fails to clean up reports the divergence, and lists the cleanup. */
  lemma DivergenceOutranksCleanup(i: Input)
    requires !i.scratchDropped && i.sourceManifest.Some? && i.restoredManifest.Some?
    requires !Agree(i.sourceManifest.value, i.restoredManifest.value)
    ensures Rank(Judge(Some(i)).verdict) <= Rank(SchemaDivergence)
    ensures Reported(Judge(Some(i)).failures, ScratchCleanupFailed)
  {
    var compared := AfterComparison(i, AfterRestore(i, AfterStart(i)));
    var started := AfterRestore(i, AfterStart(i));
    DiffIsReported(i, started, i.sourceManifest.value, i.restoredManifest.value);
    DivergenceIsReported(i, started, AfterDiff(i, started));
    ComparedFindingsStay(i, compared);
    ExtendedNotAll(compared, Findings(i), High());
    NoFindingIsOk(i);
    HighestIsLow(Findings(i));
  }
}
