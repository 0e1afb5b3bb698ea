/**
 Which fault gives which verdict: every finding of a drill, by name, in terms of what the
 run read, and from there the verdict of a run in terms of its faults.
 */
module DrillFaults {
  import opened Text
  import opened DrillVerdict

  // ------------------------------------------------------------ what is wrong between two readings

  /** The table that stands for its name: the last one that carries it. */
  ghost predicate Stands(tables: seq<Table>, k: nat) {
    k < |tables| && forall m | k < m < |tables| :: tables[m].name != tables[k].name
  }

  ghost predicate Names(tables: seq<Table>, name: string) {
    exists k :: 0 <= k < |tables| && tables[k].name == name
  }

  ghost predicate RowsChanged(source: seq<Table>, other: seq<Table>, name: string) {
    exists k, m :: 0 <= k < |source| && 0 <= m && Stands(other, m) && source[k].name == other[m].name == name
                   && source[k].rowCount != other[m].rowCount
  }

  ghost predicate ChecksumChanged(source: seq<Table>, other: seq<Table>, name: string) {
    exists k, m :: 0 <= k < |source| && 0 <= m && Stands(other, m) && source[k].name == other[m].name == name
                   && source[k].checksum != other[m].checksum
  }

  ghost predicate StandsEntry(entries: seq<Entry>, k: nat) {
    k < |entries| && forall m | k < m < |entries| :: entries[m].key != entries[k].key
  }

  ghost predicate HasKey(entries: seq<Entry>, key: string) {
    exists k :: 0 <= k < |entries| && entries[k].key == key
  }

  ghost predicate ValueChanged(source: seq<Entry>, other: seq<Entry>, key: string) {
    exists k, m :: 0 <= k < |source| && 0 <= m && StandsEntry(other, m) && source[k].key == other[m].key == key
                   && source[k].value != other[m].value
  }

  /** An object of one side only, or with another definition. */
  ghost predicate ObjectChanged(source: seq<Entry>, other: seq<Entry>, key: string) {
    (HasKey(source, key) && !HasKey(other, key)) || (HasKey(other, key) && !HasKey(source, key))
    || ValueChanged(source, other, key)
  }

  ghost predicate SchemaChanged(source: Schema, other: Schema, key: string) {
    || ObjectChanged(source.enums, other.enums, key) || ObjectChanged(source.columns, other.columns, key)
    || ObjectChanged(source.indexes, other.indexes, key)
    || ObjectChanged(source.constraints, other.constraints, key)
    || ObjectChanged(source.sequences, other.sequences, key)
  }

  ghost predicate TableChanged(source: seq<Table>, other: seq<Table>, name: string) {
    (Names(source, name) && !Names(other, name)) || (Names(other, name) && !Names(source, name))
    || RowsChanged(source, other, name) || ChecksumChanged(source, other, name)
  }

  // ------------------------------------------------------------ the ledger and the scratch name

  ghost predicate StandsRow(rows: seq<Row>, k: nat) {
    k < |rows| && forall m | k < m < |rows| :: rows[m].name != rows[k].name
  }

  /** The migration is in no row of the ledger, or its row says that it is not applied. */
  ghost predicate Pending(rows: seq<Row>, name: string) {
    || (forall k | 0 <= k < |rows| :: rows[k].name != name)
    || (exists k :: 0 <= k && StandsRow(rows, k) && rows[k].name == name && (!rows[k].finished || rows[k].rolledBack))
  }

  /** The file was edited after it was applied: both checksums are known and differ. */
  ghost predicate Edited(rows: seq<Row>, name: string) {
    exists k :: 0 <= k && StandsRow(rows, k) && rows[k].name == name
                && rows[k].expected != "" && rows[k].checksum != "" && rows[k].expected != rows[k].checksum
  }

  /** `restore_drill_` and digits. */
  ghost predicate SpellsScratch(name: string) {
    exists digits: string :: digits != "" && (forall c | c in digits :: '0' <= c <= '9')
                             && name == "restore_drill_" + digits
  }

  // ------------------------------------------------------------ the faults

  ghost predicate BothManifests(i: Input) {
    i.sourceManifest.Some? && i.restoredManifest.Some?
  }

  /** The run shows this fault, about this table or object where the fault is about one. */
  ghost predicate Fault(i: Input, verdict: Verdict, subject: string) {
    match verdict
    case UnreachableSource => subject == "" && i.sourceReachable == Some(false)
    case ToolingUnavailable => subject == "" && !i.toolingAvailable
    case DumpRouteMismatch => subject == "" && i.dumpRouteMatched == Some(false)
    case InsufficientReadRole =>
      subject == "" && i.readRole.Some? && !i.readRole.value.superuser && !i.readRole.value.bypassRls
    case UnbaselinedLedger =>
      subject == "" &&
      ((i.sourceLedger.Some? && !i.sourceLedger.value.present)
       || (i.restoredLedger.Some? && !i.restoredLedger.value.present && i.migrations.Some?))
    case UnsafeScratchTarget =>
      subject == "" && i.scratchName.Some? &&
      !(SpellsScratch(i.scratchName.value) && i.sourceDatabase.Some? && i.sourceDatabase.value != ""
        && i.sourceDatabase.value != i.scratchName.value)
    case ScratchNotEmpty => subject == "" && i.scratchWasEmpty == Some(false)
    case RestoreFailed => subject == "" && i.restoreOk == Some(false)
    case EmptyManifest => subject == "" && i.sourceManifest.Some? && |i.sourceManifest.value.tables| < 50
    case MissingTable =>
      BothManifests(i) && Names(i.sourceManifest.value.tables, subject)
      && !Names(i.restoredManifest.value.tables, subject)
    case UnexpectedTable =>
      BothManifests(i) && Names(i.restoredManifest.value.tables, subject)
      && !Names(i.sourceManifest.value.tables, subject)
    case SourceMutatedDuringDump =>
      i.sourceManifest.Some? && i.afterDump.Some?
      && TableChanged(i.sourceManifest.value.tables, i.afterDump.value.tables, subject)
    case RowCountDivergence =>
      BothManifests(i) && RowsChanged(i.sourceManifest.value.tables, i.restoredManifest.value.tables, subject)
    case ChecksumDivergence =>
      BothManifests(i) && ChecksumChanged(i.sourceManifest.value.tables, i.restoredManifest.value.tables, subject)
    case SchemaDivergence =>
      BothManifests(i) && i.sourceManifest.value.schema.Some? && i.restoredManifest.value.schema.Some?
      && SchemaChanged(i.sourceManifest.value.schema.value, i.restoredManifest.value.schema.value, subject)
    case InventoryDrift =>
      subject == "" && i.sourceManifest.Some? && |i.sourceManifest.value.tables| > 0
      && i.baseline.Some? && i.baseline.value.tableCount.Some?
      && i.baseline.value.tableCount.value != |i.sourceManifest.value.tables|
    case PendingMigration =>
      subject == "" && i.restoredLedger.Some? && i.restoredLedger.value.present && i.migrations.Some?
      && exists k :: 0 <= k < |i.migrations.value| && Pending(i.restoredLedger.value.rows, i.migrations.value[k])
    case LedgerChecksumMismatch =>
      subject == "" && i.restoredLedger.Some? && i.restoredLedger.value.present && i.migrations.Some?
      && exists k :: 0 <= k < |i.migrations.value| && Edited(i.restoredLedger.value.rows, i.migrations.value[k])
    case SloUnrecorded => subject == "" && i.baseline.Some? && !i.baseline.value.recorded && i.durations.Some?
    case FaultInjected => subject == "" && i.faultInjected
    case ScratchCleanupFailed => subject == "" && !i.scratchDropped
    case Unknown =>
      subject == "" &&
      (i.fatalError != "" || i.sourceReachable == None || i.restoreOk == None || i.sourceManifest == None
       || i.restoredManifest == None || i.sourceLedger == None || i.restoredLedger == None || i.durations == None)
    case Ok => false
  }

  // ------------------------------------------------------------ the maps keep the last

  lemma {:induction false} TableStands(tables: seq<Table>, k: nat)
    requires Stands(tables, k)
    ensures tables[k].name in ByName(tables) && ByName(tables)[tables[k].name] == tables[k]
  {
    var last := |tables| - 1;
    if k < last {
      assert tables[..last][k] == tables[k];
      TableStands(tables[..last], k);
      NotTheLast(ByName(tables[..last]), tables[last].name, tables[last], tables[k].name);
    }
  }

  lemma {:induction false} SomeTableStands(tables: seq<Table>, name: string) returns (k: nat)
    requires Names(tables, name)
    ensures Stands(tables, k) && tables[k].name == name
  {
    var last := |tables| - 1;
    if tables[last].name == name {
      k := last;
    } else {
      var j :| 0 <= j < |tables| && tables[j].name == name;
      assert tables[..last][j].name == name;
      k := SomeTableStands(tables[..last], name);
    }
  }

  lemma {:induction false} EntryStands(entries: seq<Entry>, k: nat)
    requires StandsEntry(entries, k)
    ensures entries[k].key in ByKey(entries) && ByKey(entries)[entries[k].key] == entries[k]
  {
    var last := |entries| - 1;
    if k < last {
      assert entries[..last][k] == entries[k];
      EntryStands(entries[..last], k);
      NotTheLast(ByKey(entries[..last]), entries[last].key, entries[last], entries[k].key);
    }
  }

  lemma {:induction false} SomeEntryStands(entries: seq<Entry>, key: string) returns (k: nat)
    requires HasKey(entries, key)
    ensures StandsEntry(entries, k) && entries[k].key == key
  {
    var last := |entries| - 1;
    if entries[last].key == key {
      k := last;
    } else {
      var j :| 0 <= j < |entries| && entries[j].key == key;
      assert entries[..last][j].key == key;
      k := SomeEntryStands(entries[..last], key);
    }
  }

  lemma {:induction false} RowStands(rows: seq<Row>, k: nat)
    requires StandsRow(rows, k)
    ensures rows[k].name in RowsByName(rows) && RowsByName(rows)[rows[k].name] == rows[k]
  {
    var last := |rows| - 1;
    if k < last {
      assert rows[..last][k] == rows[k];
      RowStands(rows[..last], k);
      NotTheLast(RowsByName(rows[..last]), rows[last].name, rows[last], rows[k].name);
    }
  }

  /** A name is in the map exactly when a row carries it, and the last such row stands for it. */
  lemma {:induction false} RowsNamed(rows: seq<Row>, name: string) returns (k: nat)
    ensures name in RowsByName(rows) <==> exists j :: 0 <= j < |rows| && rows[j].name == name
    ensures name in RowsByName(rows) ==> StandsRow(rows, k) && rows[k].name == name
  {
    k := 0;
    if rows != [] {
      var last := |rows| - 1;
      var before := RowsNamed(rows[..last], name);
      assert forall j | 0 <= j < last :: rows[..last][j] == rows[j];
      k := if rows[last].name == name then last else before;
    }
  }

  // ------------------------------------------------------------ what each list of differences holds

  lemma NamesMeaning(tables: seq<Table>, name: string)
    ensures name in ByName(tables) <==> Names(tables, name)
  {
    NamesAre(tables, name);
  }

  ghost predicate NamedIn(tables: seq<Table>, name: string) {
    exists t | t in tables :: t.name == name
  }

  lemma FilterNamed(tables: seq<Table>, keep: Table -> bool, name: string)
    ensures NamedIn(Filter(tables, keep), name) <==>
              exists k :: 0 <= k < |tables| && tables[k].name == name && keep(tables[k])
  {
    if NamedIn(Filter(tables, keep), name) {
      var t :| t in Filter(tables, keep) && t.name == name;
      FilterMembers(tables, keep, t);
      var k :| 0 <= k < |tables| && tables[k] == t;
    }
    if k :| 0 <= k < |tables| && tables[k].name == name && keep(tables[k]) {
      FilterMembers(tables, keep, tables[k]);
      assert tables[k] in Filter(tables, keep);
    }
  }

  lemma AbsentNamed(source: seq<Table>, other: seq<Table>, name: string)
    ensures NamedIn(Filter(source, Absent(ByName(other))), name) <==> Names(source, name) && !Names(other, name)
  {
    FilterNamed(source, Absent(ByName(other)), name);
    NamesMeaning(other, name);
  }

  lemma RowsNamedChanged(source: seq<Table>, other: seq<Table>, name: string)
    ensures NamedIn(Filter(source, RowsDiffer(ByName(other))), name) <==> RowsChanged(source, other, name)
  {
    FilterNamed(source, RowsDiffer(ByName(other)), name);
    NamesMeaning(other, name);
    if Names(other, name) {
      var m := SomeTableStands(other, name);
      TableStands(other, m);
      forall j: nat | Stands(other, j) && other[j].name == name
        ensures other[j] == other[m]
      {
        TableStands(other, j);
      }
    }
  }

  lemma ChecksumsNamedChanged(source: seq<Table>, other: seq<Table>, name: string)
    ensures NamedIn(Filter(source, ChecksumsDiffer(ByName(other))), name) <==> ChecksumChanged(source, other, name)
  {
    FilterNamed(source, ChecksumsDiffer(ByName(other)), name);
    NamesMeaning(other, name);
    if Names(other, name) {
      var m := SomeTableStands(other, name);
      TableStands(other, m);
      forall j: nat | Stands(other, j) && other[j].name == name
        ensures other[j] == other[m]
      {
        TableStands(other, j);
      }
    }
  }

  ghost predicate KeyIn(entries: seq<Entry>, key: string) {
    exists e | e in entries :: e.key == key
  }

  lemma FilterKeyed(entries: seq<Entry>, keep: Entry -> bool, key: string)
    ensures KeyIn(Filter(entries, keep), key) <==>
              exists k :: 0 <= k < |entries| && entries[k].key == key && keep(entries[k])
  {
    if KeyIn(Filter(entries, keep), key) {
      var e :| e in Filter(entries, keep) && e.key == key;
      FilterMembers(entries, keep, e);
      var k :| 0 <= k < |entries| && entries[k] == e;
    }
    if k :| 0 <= k < |entries| && entries[k].key == key && keep(entries[k]) {
      FilterMembers(entries, keep, entries[k]);
      assert entries[k] in Filter(entries, keep);
    }
  }

  lemma KeyMeaning(entries: seq<Entry>, key: string)
    ensures key in ByKey(entries) <==> HasKey(entries, key)
  {
    if HasKey(entries, key) {
      var k :| 0 <= k < |entries| && entries[k].key == key;
      assert entries[k] in entries;
    }
    if key in ByKey(entries) { assert ByKey(entries)[key] in entries; }
  }

  lemma KeyConcat(a: seq<Entry>, b: seq<Entry>, key: string)
    ensures KeyIn(a + b, key) <==> KeyIn(a, key) || KeyIn(b, key)
  {
    if e :| e in a && e.key == key { assert e in a + b; }
    if e :| e in b && e.key == key { assert e in a + b; }
  }

  lemma ObjectMeaning(left: seq<Entry>, right: seq<Entry>, key: string)
    ensures KeyIn(EntriesDiff(left, right), key) <==> ObjectChanged(left, right, key)
  {
    KeyConcat(Filter(left, EntryDiffers(ByKey(right))), Filter(right, EntryAbsent(ByKey(left))), key);
    FilterKeyed(left, EntryDiffers(ByKey(right)), key);
    FilterKeyed(right, EntryAbsent(ByKey(left)), key);
    KeyMeaning(left, key);
    KeyMeaning(right, key);
    if HasKey(right, key) {
      var m := SomeEntryStands(right, key);
      EntryStands(right, m);
      forall j: nat | StandsEntry(right, j) && right[j].key == key
        ensures right[j] == right[m]
      {
        EntryStands(right, j);
      }
    }
  }

  lemma SchemaMeaning(source: Schema, restored: Schema, key: string)
    ensures KeyIn(SchemaDiff(Some(source), Some(restored)), key) <==> SchemaChanged(source, restored, key)
  {
    hide ObjectChanged, KeyIn, EntriesDiff;
    ObjectMeaning(source.enums, restored.enums, key);
    ObjectMeaning(source.columns, restored.columns, key);
    ObjectMeaning(source.indexes, restored.indexes, key);
    ObjectMeaning(source.constraints, restored.constraints, key);
    ObjectMeaning(source.sequences, restored.sequences, key);
    var a := EntriesDiff(source.enums, restored.enums);
    var b := EntriesDiff(source.columns, restored.columns);
    var c := EntriesDiff(source.indexes, restored.indexes);
    var d := EntriesDiff(source.constraints, restored.constraints);
    var e := EntriesDiff(source.sequences, restored.sequences);
    KeyConcat(a, b, key);
    KeyConcat(a + b, c, key);
    KeyConcat(a + b + c, d, key);
    KeyConcat(a + b + c + d, e, key);
  }

  // ------------------------------------------------------------ what each stage adds

  lemma InAdd(f: seq<Finding>, condition: bool, verdict: Verdict, x: Finding)
    ensures x in Add(f, condition, verdict) <==> x in f || (condition && x == Finding(verdict, ""))
  {
  }

  lemma {:induction false} InTables(f: seq<Finding>, tables: seq<Table>, verdict: Verdict, x: Finding)
    ensures x in AddTables(f, tables, verdict) <==>
              x in f || (x.verdict == verdict && NamedIn(tables, x.subject))
  {
    if tables != [] {
      var n := |tables| - 1;
      InTables(f, tables[..n], verdict, x);
      assert tables == tables[..n] + [tables[n]];
      assert NamedIn(tables, x.subject) <==> NamedIn(tables[..n], x.subject) || tables[n].name == x.subject;
    }
  }

  lemma {:induction false} InEntries(f: seq<Finding>, entries: seq<Entry>, x: Finding)
    ensures x in AddEntries(f, entries) <==> x in f || (x.verdict == SchemaDivergence && KeyIn(entries, x.subject))
  {
    if entries != [] {
      var n := |entries| - 1;
      InEntries(f, entries[..n], x);
      assert entries == entries[..n] + [entries[n]];
      assert KeyIn(entries, x.subject) <==> KeyIn(entries[..n], x.subject) || entries[n].key == x.subject;
    }
  }

  lemma InStart(i: Input, x: Finding)
    ensures x in AfterStart(i) <==>
              Fault(i, x.verdict, x.subject)
              && x.verdict in {Unknown, UnreachableSource, ToolingUnavailable, DumpRouteMismatch}
  {
    var f1 := Add([], EvidenceMissing(i), Unknown);
    var f2 := Add(f1, i.fatalError != [], Unknown);
    var f3 := Add(f2, i.sourceReachable == Some(false), UnreachableSource);
    var f4 := Add(f3, !i.toolingAvailable, ToolingUnavailable);
    InAdd([], EvidenceMissing(i), Unknown, x);
    InAdd(f1, i.fatalError != [], Unknown, x);
    InAdd(f2, i.sourceReachable == Some(false), UnreachableSource, x);
    InAdd(f3, !i.toolingAvailable, ToolingUnavailable, x);
    InAdd(f4, i.dumpRouteMatched == Some(false), DumpRouteMismatch, x);
  }

  lemma ScratchSpelled(name: string)
    ensures IsScratchName(name) <==> SpellsScratch(name)
  {
    var prefix := "restore_drill_";
    if IsScratchName(name) {
      var digits := name[14..];
      assert name == prefix + digits;
      assert forall c | c in digits :: '0' <= c <= '9';
    }
    if digits: string :| digits != "" && (forall c | c in digits :: '0' <= c <= '9') && name == prefix + digits {
      assert forall k | 14 <= k < |name| :: name[k] == digits[k - 14] && name[k] in digits;
    }
  }

  lemma InRestore(i: Input, f: seq<Finding>, x: Finding)
    ensures x in AfterRestore(i, f) <==>
              x in f
              || (Fault(i, x.verdict, x.subject)
                  && x.verdict in {InsufficientReadRole, UnsafeScratchTarget, ScratchNotEmpty, RestoreFailed})
              || (x == Finding(UnbaselinedLedger, "") && i.sourceLedger.Some? && !i.sourceLedger.value.present)
  {
    var f1 := Add(f, SeesTooLittle(i.readRole), InsufficientReadRole);
    var f2 := Add(f1, Unbaselined(i.sourceLedger), UnbaselinedLedger);
    var f3 := Add(f2, UnsafeTarget(i), UnsafeScratchTarget);
    var f4 := Add(f3, i.scratchWasEmpty == Some(false), ScratchNotEmpty);
    InAdd(f, SeesTooLittle(i.readRole), InsufficientReadRole, x);
    InAdd(f1, Unbaselined(i.sourceLedger), UnbaselinedLedger, x);
    InAdd(f2, UnsafeTarget(i), UnsafeScratchTarget, x);
    InAdd(f3, i.scratchWasEmpty == Some(false), ScratchNotEmpty, x);
    InAdd(f4, i.restoreOk == Some(false), RestoreFailed, x);
    hide IsScratchName, SpellsScratch;
    if i.scratchName.Some? { ScratchSpelled(i.scratchName.value); }
  }

  lemma InLists(f: seq<Finding>, diff: Diff, x: Finding)
    ensures x in AddDiff(f, diff) <==>
              || x in f
              || (x.verdict == MissingTable && NamedIn(diff.missing, x.subject))
              || (x.verdict == UnexpectedTable && NamedIn(diff.unexpected, x.subject))
              || (x.verdict == RowCountDivergence && NamedIn(diff.rowCounts, x.subject))
              || (x.verdict == ChecksumDivergence && NamedIn(diff.checksums, x.subject))
              || (x.verdict == SchemaDivergence && KeyIn(diff.schema, x.subject))
  {
    hide AddTables, AddEntries, NamedIn, KeyIn;
    var f1 := AddTables(f, diff.missing, MissingTable);
    var f2 := AddTables(f1, diff.unexpected, UnexpectedTable);
    var f3 := AddTables(f2, diff.rowCounts, RowCountDivergence);
    var f4 := AddTables(f3, diff.checksums, ChecksumDivergence);
    InTables(f, diff.missing, MissingTable, x);
    InTables(f1, diff.unexpected, UnexpectedTable, x);
    InTables(f2, diff.rowCounts, RowCountDivergence, x);
    InTables(f3, diff.checksums, ChecksumDivergence, x);
    InEntries(f4, diff.schema, x);
  }

  lemma DiffOf(source: Manifest, restored: Manifest, name: string)
    ensures var diff, s, r := ManifestDiff(source, restored), source.tables, restored.tables;
            && (NamedIn(diff.missing, name) <==> Names(s, name) && !Names(r, name))
            && (NamedIn(diff.unexpected, name) <==> Names(r, name) && !Names(s, name))
            && (NamedIn(diff.rowCounts, name) <==> RowsChanged(s, r, name))
            && (NamedIn(diff.checksums, name) <==> ChecksumChanged(s, r, name))
            && diff.schema == SchemaDiff(source.schema, restored.schema)
  {
    hide Filter, ByName, NamedIn, Names, RowsChanged, ChecksumChanged, SchemaDiff;
    AbsentNamed(source.tables, restored.tables, name);
    AbsentNamed(restored.tables, source.tables, name);
    RowsNamedChanged(source.tables, restored.tables, name);
    ChecksumsNamedChanged(source.tables, restored.tables, name);
  }

  lemma DiffFaults(i: Input, subject: string)
    requires BothManifests(i)
    ensures var diff := ManifestDiff(i.sourceManifest.value, i.restoredManifest.value);
            && (NamedIn(diff.missing, subject) <==> Fault(i, MissingTable, subject))
            && (NamedIn(diff.unexpected, subject) <==> Fault(i, UnexpectedTable, subject))
            && (NamedIn(diff.rowCounts, subject) <==> Fault(i, RowCountDivergence, subject))
            && (NamedIn(diff.checksums, subject) <==> Fault(i, ChecksumDivergence, subject))
            && (KeyIn(diff.schema, subject) <==> Fault(i, SchemaDivergence, subject))
  {
    hide ManifestDiff, NamedIn, KeyIn, Names, RowsChanged, ChecksumChanged, SchemaChanged, SchemaDiff;
    DiffOf(i.sourceManifest.value, i.restoredManifest.value, subject);
    SchemaFindings(i.sourceManifest.value.schema, i.restoredManifest.value.schema, subject);
  }

  lemma InDiff(i: Input, f: seq<Finding>, x: Finding)
    requires BothManifests(i)
    ensures x in AddDiff(f, ManifestDiff(i.sourceManifest.value, i.restoredManifest.value)) <==>
              || x in f
              || (Fault(i, x.verdict, x.subject)
                  && x.verdict in {MissingTable, UnexpectedTable, RowCountDivergence, ChecksumDivergence,
                                   SchemaDivergence})
  {
    hide AddDiff, ManifestDiff, NamedIn, KeyIn, Fault;
    InLists(f, ManifestDiff(i.sourceManifest.value, i.restoredManifest.value), x);
    DiffFaults(i, x.subject);
  }

  lemma SchemaFindings(source: Option<Schema>, restored: Option<Schema>, key: string)
    ensures KeyIn(SchemaDiff(source, restored), key) <==>
              source.Some? && restored.Some? && SchemaChanged(source.value, restored.value, key)
  {
    if source.Some? && restored.Some? { SchemaMeaning(source.value, restored.value, key); }
  }

  lemma NamedConcat(a: seq<Table>, b: seq<Table>, name: string)
    ensures NamedIn(a + b, name) <==> NamedIn(a, name) || NamedIn(b, name)
  {
    if t :| t in a && t.name == name { assert t in a + b; }
    if t :| t in b && t.name == name { assert t in a + b; }
  }

  lemma InDrift(i: Input, f: seq<Finding>, x: Finding)
    requires i.sourceManifest.Some? && i.afterDump.Some?
    ensures x in AddDrift(f, ManifestDiff(i.sourceManifest.value, i.afterDump.value)) <==>
              x in f || (Fault(i, x.verdict, x.subject) && x.verdict == SourceMutatedDuringDump)
  {
    var d := ManifestDiff(i.sourceManifest.value, i.afterDump.value);
    DiffOf(i.sourceManifest.value, i.afterDump.value, x.subject);
    hide ManifestDiff, AddTables, NamedIn, Names, RowsChanged, ChecksumChanged;
    InTables(f, d.missing + d.unexpected + d.rowCounts + d.checksums, SourceMutatedDuringDump, x);
    NamedConcat(d.missing, d.unexpected, x.subject);
    NamedConcat(d.missing + d.unexpected, d.rowCounts, x.subject);
    NamedConcat(d.missing + d.unexpected + d.rowCounts, d.checksums, x.subject);
  }

  lemma InComparison(i: Input, f: seq<Finding>, x: Finding)
    ensures x in AfterComparison(i, f) <==>
              x in f
              || (Fault(i, x.verdict, x.subject)
                  && x.verdict in {EmptyManifest, MissingTable, UnexpectedTable, RowCountDivergence,
                                   ChecksumDivergence, SchemaDivergence, SourceMutatedDuringDump, InventoryDrift})
  {
    hide ManifestDiff, AddDiff, AddDrift, RowsChanged, ChecksumChanged, SchemaChanged, TableChanged, Names;
    InAdd(f, TooFewTables(i), EmptyManifest, x);
    var f1 := Add(f, TooFewTables(i), EmptyManifest);
    var f2 := f1;
    if BothManifests(i) {
      InDiff(i, f1, x);
      f2 := AddDiff(f1, ManifestDiff(i.sourceManifest.value, i.restoredManifest.value));
    }
    var f3 := f2;
    if i.sourceManifest.Some? && i.afterDump.Some? {
      InDrift(i, f2, x);
      f3 := AddDrift(f2, ManifestDiff(i.sourceManifest.value, i.afterDump.value));
    }
    InAdd(f3, InventoryDrifted(i), InventoryDrift, x);
  }

  lemma RowMeaning(rows: seq<Row>, name: string)
    ensures name !in RowsByName(rows) || !RowsByName(rows)[name].finished || RowsByName(rows)[name].rolledBack
       <==> Pending(rows, name)
    ensures name in RowsByName(rows) && IsEdited(RowsByName(rows)[name]) <==> Edited(rows, name)
  {
    var at := RowsNamed(rows, name);
    if name in RowsByName(rows) {
      RowStands(rows, at);
      forall k: nat | StandsRow(rows, k) && rows[k].name == name
        ensures rows[k] == rows[at]
      {
        RowStands(rows, k);
      }
    }
  }

  lemma InMigration(f: seq<Finding>, rows: seq<Row>, name: string, x: Finding)
    ensures x in AddMigration(f, RowsByName(rows), name) <==>
              x in f || (x == Finding(PendingMigration, "") && Pending(rows, name))
              || (x == Finding(LedgerChecksumMismatch, "") && Edited(rows, name))
  {
    var known := RowsByName(rows);
    RowMeaning(rows, name);
    InAdd(f, true, PendingMigration, x);
    if name in known {
      var f1 := Add(f, !known[name].finished, PendingMigration);
      var f2 := Add(f1, known[name].rolledBack, PendingMigration);
      InAdd(f, !known[name].finished, PendingMigration, x);
      InAdd(f1, known[name].rolledBack, PendingMigration, x);
      InAdd(f2, IsEdited(known[name]), LedgerChecksumMismatch, x);
    }
  }

  ghost predicate SomePending(rows: seq<Row>, names: seq<string>) {
    exists k :: 0 <= k < |names| && Pending(rows, names[k])
  }

  ghost predicate SomeEdited(rows: seq<Row>, names: seq<string>) {
    exists k :: 0 <= k < |names| && Edited(rows, names[k])
  }

  lemma SomeMore(rows: seq<Row>, names: seq<string>)
    requires names != []
    ensures var n := |names| - 1;
            && (SomePending(rows, names) <==> SomePending(rows, names[..n]) || Pending(rows, names[n]))
            && (SomeEdited(rows, names) <==> SomeEdited(rows, names[..n]) || Edited(rows, names[n]))
  {
    hide Pending, Edited;
    var n := |names| - 1;
    assert forall k | 0 <= k < n :: names[..n][k] == names[k];
  }

  lemma {:induction false} InMigrations(f: seq<Finding>, rows: seq<Row>, names: seq<string>, x: Finding)
    ensures x in AddMigrations(f, RowsByName(rows), names) <==>
              x in f || (x == Finding(PendingMigration, "") && SomePending(rows, names))
              || (x == Finding(LedgerChecksumMismatch, "") && SomeEdited(rows, names))
  {
    hide Pending, Edited, RowsByName, AddMigration;
    if names != [] {
      var n := |names| - 1;
      hide SomePending, SomeEdited;
      InMigrations(f, rows, names[..n], x);
      InMigration(AddMigrations(f, RowsByName(rows), names[..n]), rows, names[n], x);
      SomeMore(rows, names);
    }
  }

  lemma InLedger(i: Input, f: seq<Finding>, x: Finding)
    ensures x in AfterLedger(i, f) <==>
              x in f
              || (Fault(i, x.verdict, x.subject) && x.verdict in {PendingMigration, LedgerChecksumMismatch})
              || (x == Finding(UnbaselinedLedger, "") && i.restoredLedger.Some? && !i.restoredLedger.value.present
                  && i.migrations.Some?)
  {
    hide Pending, Edited, RowsByName, AddMigrations;
    InAdd(f, true, UnbaselinedLedger, x);
    if i.restoredLedger.Some? && i.migrations.Some? {
      InMigrations(f, i.restoredLedger.value.rows, i.migrations.value, x);
    }
  }

  lemma InEnd(i: Input, f: seq<Finding>, x: Finding)
    ensures x in AfterEnd(i, f) <==>
              x in f
              || (Fault(i, x.verdict, x.subject)
                  && x.verdict in {SloUnrecorded, FaultInjected, ScratchCleanupFailed})
  {
    var f1 := Add(f, SloMissing(i), SloUnrecorded);
    var f2 := Add(f1, i.faultInjected, FaultInjected);
    InAdd(f, SloMissing(i), SloUnrecorded, x);
    InAdd(f1, i.faultInjected, FaultInjected, x);
    InAdd(f2, !i.scratchDropped, ScratchCleanupFailed, x);
  }

  // ------------------------------------------------------------ the findings and the verdict

  /** A drill reports exactly its faults, each under its own verdict and about its own table or object. */
  lemma FindingsAreFaults(i: Input, verdict: Verdict, subject: string)
    ensures Finding(verdict, subject) in Findings(i) <==> Fault(i, verdict, subject)
  {
    var x := Finding(verdict, subject);
    var f1 := AfterStart(i);
    var f2 := AfterRestore(i, f1);
    var f3 := AfterComparison(i, f2);
    var f4 := AfterLedger(i, f3);
    hide AfterStart, AfterRestore, AfterComparison, AfterLedger, AfterEnd;
    InStart(i, x);
    InRestore(i, f1, x);
    InComparison(i, f2, x);
    InLedger(i, f3, x);
    InEnd(i, f4, x);
    hide RowsChanged, ChecksumChanged, SchemaChanged, TableChanged, Names, Pending, Edited, SpellsScratch;
  }

  ghost predicate HasFault(i: Input, verdict: Verdict) {
    exists subject :: Fault(i, verdict, subject)
  }

  lemma ReportedIffFault(i: Input, verdict: Verdict)
    ensures Reported(Findings(i), verdict) <==> HasFault(i, verdict)
  {
    hide Findings, Fault;
    if Reported(Findings(i), verdict) {
      var k :| 0 <= k < |Findings(i)| && Findings(i)[k].verdict == verdict;
      var x := Findings(i)[k];
      assert x == Finding(verdict, x.subject) && x in Findings(i);
      FindingsAreFaults(i, verdict, x.subject);
    }
    if subject :| Fault(i, verdict, subject) {
      FindingsAreFaults(i, verdict, subject);
    }
  }

  /**
   The verdict of a run: the fault that ranks highest among those it shows, and `ok` exactly
   when it shows none.
   */
  lemma VerdictIsTopFault(i: Input, verdict: Verdict)
    requires verdict != Ok
    ensures Judge(Some(i)).verdict == verdict <==>
              HasFault(i, verdict) && forall w: Verdict | Rank(w) < Rank(verdict) :: !HasFault(i, w)
  {
    var f := Findings(i);
    var v := Judge(Some(i)).verdict;
    hide HasFault, Findings, Fault, Reported, Judge;
    JudgeIsVerdict(i);
    NoFindingIsOk(i);
    HighestPrecedence(f);
    ReportedIffFault(i, verdict);
    if v == verdict {
      forall w: Verdict | Rank(w) < Rank(verdict)
        ensures !HasFault(i, w)
      {
        ReportedIffFault(i, w);
        NoneAbove(f, v, w);
      }
    }
    if HasFault(i, verdict) && forall w: Verdict | Rank(w) < Rank(verdict) :: !HasFault(i, w) {
      RankOfReported(f, verdict);
      ReportedIffFault(i, v);
      SameRank(v, verdict);
    }
  }

  lemma JudgeIsVerdict(i: Input)
    ensures Judge(Some(i)).verdict == VerdictOf(Findings(i))
  {
  }

  lemma NoneAbove(f: seq<Finding>, v: Verdict, w: Verdict)
    requires forall k | 0 <= k < |f| :: Rank(v) <= Rank(f[k].verdict)
    requires Rank(w) < Rank(v)
    ensures !Reported(f, w)
  {
  }

  lemma RankOfReported(f: seq<Finding>, verdict: Verdict)
    requires Reported(f, verdict) && AllIn(f, NotOk())
    ensures f != [] && Rank(VerdictOf(f)) <= Rank(verdict) && Reported(f, VerdictOf(f))
  {
    HighestPrecedence(f);
  }

  lemma SameRank(v: Verdict, w: Verdict)
    requires Rank(v) == Rank(w)
    ensures v == w
  {
    PlaceOfRank(v);
    PlaceOfRank(w);
  }

  lemma PlainFault(i: Input, w: Verdict)
    requires Rank(w) <= Rank(RestoreFailed)
    ensures HasFault(i, w) <==> Fault(i, w, "")
  {
    hide SpellsScratch;
    if subject :| Fault(i, w, subject) { assert subject == ""; }
  }

  lemma AboveRestore(i: Input)
    ensures (forall w: Verdict | Rank(w) < Rank(RestoreFailed) :: !HasFault(i, w)) <==>
              && !HasFault(i, ScratchNotEmpty) && !HasFault(i, UnsafeScratchTarget) && !HasFault(i, UnbaselinedLedger)
              && !HasFault(i, InsufficientReadRole) && !HasFault(i, DumpRouteMismatch)
              && !HasFault(i, ToolingUnavailable) && !HasFault(i, UnreachableSource)
  {
    hide HasFault;
  }

  lemma PlainFaults(i: Input)
    ensures HasFault(i, RestoreFailed) <==> i.restoreOk == Some(false)
    ensures HasFault(i, ScratchNotEmpty) <==> Fault(i, ScratchNotEmpty, "")
    ensures HasFault(i, UnsafeScratchTarget) <==> Fault(i, UnsafeScratchTarget, "")
    ensures HasFault(i, UnbaselinedLedger) <==> Fault(i, UnbaselinedLedger, "")
    ensures HasFault(i, InsufficientReadRole) <==> Fault(i, InsufficientReadRole, "")
    ensures HasFault(i, DumpRouteMismatch) <==> Fault(i, DumpRouteMismatch, "")
    ensures HasFault(i, ToolingUnavailable) <==> Fault(i, ToolingUnavailable, "")
    ensures HasFault(i, UnreachableSource) <==> Fault(i, UnreachableSource, "")
  {
    assert Fault(i, RestoreFailed, "") <==> i.restoreOk == Some(false);
    hide HasFault, Fault;
    PlainFault(i, RestoreFailed);
    PlainFault(i, ScratchNotEmpty);
    PlainFault(i, UnsafeScratchTarget);
    PlainFault(i, UnbaselinedLedger);
    PlainFault(i, InsufficientReadRole);
    PlainFault(i, DumpRouteMismatch);
    PlainFault(i, ToolingUnavailable);
    PlainFault(i, UnreachableSource);
  }

  /** In particular a failed restore is the verdict exactly when nothing ranked above it is wrong. */
  lemma RestoreFailedIff(i: Input)
    ensures Judge(Some(i)).verdict == RestoreFailed <==>
              && i.restoreOk == Some(false) && !Fault(i, ScratchNotEmpty, "") && !Fault(i, UnsafeScratchTarget, "")
              && !Fault(i, UnbaselinedLedger, "") && !Fault(i, InsufficientReadRole, "")
              && !Fault(i, DumpRouteMismatch, "") && !Fault(i, ToolingUnavailable, "")
              && !Fault(i, UnreachableSource, "")
  {
    hide *;
    VerdictIsTopFault(i, RestoreFailed);
    AboveRestore(i);
    PlainFaults(i);
  }

  // ------------------------------------------------------------ the rest of the report

  /** The exit code is zero exactly when the run shows no fault, and one otherwise. */
  lemma ExitCodeIff(i: Input)
    ensures Judge(Some(i)).exitCode == if exists v: Verdict :: HasFault(i, v) then 1 else 0
    ensures Judge(Some(i)).verdict == Ok <==> !exists v: Verdict :: HasFault(i, v)
  {
    var f := Findings(i);
    hide HasFault, Findings;
    NoFindingIsOk(i);
    HighestPrecedence(f);
    forall v: Verdict { ReportedIffFault(i, v); }
    if f != [] { assert Reported(f, f[0].verdict); }
  }

  /** A phase takes more than its recorded time, three times over where the baseline names no factor. */
  ghost predicate TakesLonger(recorded: Option<real>, measured: real, factor: Option<real>) {
    recorded.Some? && recorded.value > 0.0 &&
    match factor case None => measured > 3.0 * recorded.value case Some(t) => measured > t * recorded.value
  }

  lemma PhaseTooSlow(recorded: Option<real>, measured: real, factor: Option<real>)
    ensures TooSlow(recorded, measured, if factor.Some? then factor.value else 3.0)
       <==> TakesLonger(recorded, measured, factor)
  {
    if recorded.Some? {
      var t := if factor.Some? then factor.value else 3.0;
      assert recorded.value * t == t * recorded.value;
    }
  }

  /** The run is too slow when some phase is, against a baseline and with its durations measured. */
  lemma SloExceededIff(i: Input)
    ensures Judge(Some(i)).sloExceeded <==>
              i.baseline.Some? && i.durations.Some? &&
              var b, d := i.baseline.value, i.durations.value;
              TakesLonger(b.dump, d.dump, b.tolerance) || TakesLonger(b.restore, d.restore, b.tolerance)
              || TakesLonger(b.verify, d.verify, b.tolerance) || TakesLonger(b.total, d.total, b.tolerance)
  {
    hide TooSlow, TakesLonger, Findings;
    if i.baseline.Some? && i.durations.Some? {
      var b, d := i.baseline.value, i.durations.value;
      PhaseTooSlow(b.dump, d.dump, b.tolerance);
      PhaseTooSlow(b.restore, d.restore, b.tolerance);
      PhaseTooSlow(b.verify, d.verify, b.tolerance);
      PhaseTooSlow(b.total, d.total, b.tolerance);
    }
  }

  /** The baseline may be written exactly when no fault but the two its writing repairs is shown. */
  lemma WritableIffForgiven(i: Input)
    ensures Judge(Some(i)).baselineWritable <==>
              forall v: Verdict | HasFault(i, v) :: v == SloUnrecorded || v == InventoryDrift
  {
    var f := Findings(i);
    hide Findings, HasFault;
    forall v: Verdict { ReportedIffFault(i, v); }
    if forall v: Verdict | HasFault(i, v) :: v == SloUnrecorded || v == InventoryDrift {
      forall k | 0 <= k < |f|
        ensures Forgiven(f[k].verdict)
      {
        assert Reported(f, f[k].verdict);
      }
    }
  }
}
