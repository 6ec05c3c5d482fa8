/**
 What the migrations do to the rows that are there: the cells each one appends, and the rows it
 adds to `schema_migrations` (src/wudup/db_schema.py).
 */
module MigrationCells {
  import opened Ordering
  import opened Schema
  import opened Migrations
  import opened MigrationRuns
  import opened MigrationPremise

  // ---------- The cells, as the statements declare them ----------

  const EMPTY_TEXTS: seq<Cell> :=
    [TextCell(""), TextCell(""), TextCell(""), TextCell(""), TextCell(""), TextCell(""), TextCell("")]

  /** What the migration to a version appends to every row of a table. */
  function AddedCells(target: int, t: TableName): seq<Cell> {
    if target == 6 && t.ServicePolicy? then [NullCell, TextCell("[]")]
    else if target == 7 && (t.PendingUpdates? || t.UpdateEvents? || t.KnownImages?) then EMPTY_TEXTS
    else if target == 10 && t.SecurityScanCache? then [TextCell("[]")]
    else if (target == 12 || target == 13) && t.ReleaseNoteCache? then [TextCell("")]
    else []
  }

  /** What all migrations from one version to another append. */
  function CellsBetween(from: int, until: int, t: TableName): seq<Cell>
    decreases if until <= from then 0 else until - from
  {
    if from < 1 || until <= from then [] else CellsBetween(from, until - 1, t) + AddedCells(until, t)
  }

  /** Every row with these cells behind its old ones, one for each column behind the old ones. */
  ghost predicate ObjectExtended(a: SqlObject, b: SqlObject, cells: seq<Cell>) {
    if a.OtherObject? then b == a
    else
      && b.Table? && a.columns <= b.columns && |b.columns| == |a.columns| + |cells|
      && b.rows.Keys == a.rows.Keys && forall k :: k in a.rows ==> b.rows[k] == a.rows[k] + cells
  }

  /** A table that is there is extended by these cells; a table that is new is empty. */
  ghost predicate Extended(a: Database, b: Database, t: TableName, cells: seq<Cell>) {
    if t in a.objects then t in b.objects && ObjectExtended(a.objects[t], b.objects[t], cells)
    else t in b.objects ==> b.objects[t].Table? && b.objects[t].rows == map[]
  }

  /** From the version of `a` to that of `b`, every table but `schema_migrations`. */
  ghost predicate Carried(a: Database, b: Database) {
    forall t: TableName :: !t.SchemaMigrations? ==> Extended(a, b, t, CellsBetween(a.version, b.version, t))
  }

  /** A row keeps one cell for each column if it had one. */
  lemma RowsStayComplete(a: Database, b: Database, t: TableName, k: Cell)
    requires Carried(a, b) && !t.SchemaMigrations? && t in a.objects && a.objects[t].Table? && k in a.objects[t].rows
    requires |a.objects[t].rows[k]| == |a.objects[t].columns|
    ensures t in b.objects && b.objects[t].Table? && k in b.objects[t].rows
    ensures |b.objects[t].rows[k]| == |b.objects[t].columns|
    ensures b.objects[t].rows[k] == a.objects[t].rows[k] + CellsBetween(a.version, b.version, t)
  {
    assert Extended(a, b, t, CellsBetween(a.version, b.version, t));
  }

  // ---------- Statements ----------

  lemma NothingExtends(db: Database, t: TableName)
    ensures Extended(db, db, t, [])
  {
    if t in db.objects && db.objects[t].Table? {
      forall k | k in db.objects[t].rows ensures db.objects[t].rows[k] == db.objects[t].rows[k] + [] {
      }
    }
  }

  lemma SameExtends(a: Database, b: Database, t: TableName)
    requires SameTable(a, b, t)
    ensures Extended(a, b, t, [])
  {
    NothingExtends(a, t);
  }

  lemma ExtendsTwice(a: Database, b: Database, c: Database, t: TableName, x: seq<Cell>, y: seq<Cell>)
    requires Extended(a, b, t, x) && Extended(b, c, t, y)
    ensures Extended(a, c, t, x + y)
  {
    if t in a.objects && a.objects[t].Table? {
      var rows := a.objects[t].rows;
      forall k | k in rows ensures c.objects[t].rows[k] == rows[k] + (x + y) {
        assert rows[k] + x + y == rows[k] + (x + y);
      }
    }
  }

  lemma NoMore(cells: seq<Cell>)
    ensures cells + [] == cells
  {
  }

  lemma CreateExtends(db: Database, created: TableName, columns: seq<Column>, t: TableName)
    ensures Extended(db, CreateTable(db, created, columns), t, [])
  {
    NothingExtends(db, t);
  }

  /** The default values of some columns. */
  function Defaults(columns: seq<Column>): (cells: seq<Cell>)
    ensures |cells| == |columns| && forall i :: 0 <= i < |cells| ==> cells[i] == DefaultCell(columns[i])
  {
    seq(|columns|, i requires 0 <= i < |columns| => DefaultCell(columns[i]))
  }

  lemma AddColumnExtends(db: Database, altered: TableName, c: Column, t: TableName)
    requires AddColumn(db, altered, c).Ok?
    ensures Extended(db, AddColumn(db, altered, c).value, t, if t == altered then [DefaultCell(c)] else [])
  {
    hide DefaultCell;
    NothingExtends(db, t);
  }

  lemma {:induction false} AddColumnsExtend(db: Database, altered: TableName, columns: seq<Column>, t: TableName)
    requires AddColumns(db, altered, columns).Ok?
    ensures Extended(db, AddColumns(db, altered, columns).value, t, if t == altered then Defaults(columns) else [])
    decreases |columns|
  {
    hide AddColumn, Extended, DefaultCell;
    if columns == [] {
      NothingExtends(db, t);
    } else {
      var next := AddColumn(db, altered, columns[0]).value;
      AddColumnExtends(db, altered, columns[0], t);
      AddColumnsExtend(next, altered, columns[1..], t);
      ExtendsTwice(db, next, AddColumns(db, altered, columns).value, t,
                   if t == altered then [DefaultCell(columns[0])] else [],
                   if t == altered then Defaults(columns[1..]) else []);
      assert Defaults(columns) == [DefaultCell(columns[0])] + Defaults(columns[1..]);
      NoMore([]);
    }
  }

  // ---------- One migration ----------

  lemma ScheduleDefaults()
    ensures Defaults(SCHEDULE_COLUMNS) == [NullCell, TextCell("[]")]
  {
  }

  lemma DigestDefaults()
    ensures Defaults(DeclaredDigestColumns()) == EMPTY_TEXTS
  {
  }

  lemma SchedulesExtend(db: Database, t: TableName)
    requires AddSchedules(db).Ok?
    ensures Extended(db, AddSchedules(db).value, t, AddedCells(6, t))
  {
    hide CreatedColumns, ExpectedSchema, ValidateIfPresent, ValidateTableColumns, Expected5, CreateTable, AddColumns,
      Extended, Defaults;
    ScheduleDefaults();
    var altered := AddColumns(db, ServicePolicy, SCHEDULE_COLUMNS).value;
    AddColumnsExtend(db, ServicePolicy, SCHEDULE_COLUMNS, t);
    CreateExtends(altered, AutoUpdateScheduleRuns, CreatedColumns(AutoUpdateScheduleRuns), t);
    ExtendsTwice(db, altered, AddSchedules(db).value, t, AddedCells(6, t), []);
    NoMore(AddedCells(6, t));
  }

  lemma ProvenanceExtends(db: Database, t: TableName)
    requires AddProvenance(db).Ok?
    ensures Extended(db, AddProvenance(db).value, t, AddedCells(7, t))
  {
    hide ValidateVersion6, AddColumns, DeclaredDigestColumns, Extended, Defaults;
    DigestDefaults();
    var digest := DeclaredDigestColumns();
    var pending := AddColumns(db, PendingUpdates, digest).value;
    var events := AddColumns(pending, UpdateEvents, digest).value;
    AddColumnsExtend(db, PendingUpdates, digest, t);
    AddColumnsExtend(pending, UpdateEvents, digest, t);
    AddColumnsExtend(events, KnownImages, digest, t);
    var one := if t.PendingUpdates? then EMPTY_TEXTS else [];
    var two := if t.UpdateEvents? then EMPTY_TEXTS else [];
    var three := if t.KnownImages? then EMPTY_TEXTS else [];
    ExtendsTwice(db, pending, events, t, one, two);
    ExtendsTwice(db, events, AddProvenance(db).value, t, one + two, three);
    assert one + two + three == AddedCells(7, t);
  }

  lemma WebTablesExtend(db: Database, t: TableName)
    requires AddWebTables(db).Ok?
    ensures Extended(db, AddWebTables(db).value, t, [])
  {
    hide CreatedColumns, ExpectedSchema, ValidateIfPresent, CreateTable, Extended;
    var users := CreateTable(db, WebUsers, CreatedColumns(WebUsers));
    var sessions := CreateTable(users, WebSessions, CreatedColumns(WebSessions));
    CreateExtends(db, WebUsers, CreatedColumns(WebUsers), t);
    CreateExtends(users, WebSessions, CreatedColumns(WebSessions), t);
    CreateExtends(sessions, WebSettings, CreatedColumns(WebSettings), t);
    ExtendsTwice(db, users, sessions, t, [], []);
    ExtendsTwice(db, sessions, AddWebTables(db).value, t, [] + [], []);
    NoMore([]);
  }

  lemma AddTableExtends(db: Database, added: TableName, expected: seq<Column>, created: seq<Column>, t: TableName)
    requires AddTable(db, added, expected, created).Ok?
    ensures Extended(db, AddTable(db, added, expected, created).value, t, [])
  {
    hide ValidateIfPresent, CreateTable, Extended;
    CreateExtends(db, added, created, t);
  }

  lemma AppendExtends(db: Database, altered: TableName, expected: seq<Column>, c: Column, cell: Cell, t: TableName)
    requires AppendColumn(db, altered, expected, c).Ok? && DefaultCell(c) == cell
    ensures Extended(db, AppendColumn(db, altered, expected, c).value, t, if t == altered then [cell] else [])
  {
    hide ValidateTableColumns, AddColumn, Extended, DefaultCell;
    AddColumnExtends(db, altered, c, t);
  }

  /** Each migration, on any database on which it succeeds. */
  lemma ChangeTablesExtends(target: int, db: Database, t: TableName)
    requires 2 <= target <= SCHEMA_VERSION && ChangeTables(target, db).Ok?
    ensures Extended(db, ChangeTables(target, db).value, t, AddedCells(target, t))
  {
    hide Extended, AddTable, AppendColumn, AddWebTables, AddSchedules, AddProvenance;
    hide ExpectedSchema, CreatedColumns, Expected5, Expected6, Expected9, Expected11, Expected12;
    ReleaseNoteColumns();
    ScanCacheColumns();
    match target
    case 2 => AddTableExtends(db, PendingUpdates, ExpectedSchema(PendingUpdates), PENDING_UPDATES_V2_COLUMNS, t);
    case 3 => AddTableExtends(db, TagExclusionRules, ExpectedSchema(TagExclusionRules),
                              CreatedColumns(TagExclusionRules), t);
    case 4 => WebTablesExtend(db, t);
    case 5 => AddTableExtends(db, ReleaseNoteCache, Expected11(ReleaseNoteCache).value,
                              RELEASE_NOTE_CACHE_V5_COLUMNS, t);
    case 6 => SchedulesExtend(db, t);
    case 7 => ProvenanceExtends(db, t);
    case 8 => AddTableExtends(db, DependencySnoozes, ExpectedSchema(DependencySnoozes),
                              CreatedColumns(DependencySnoozes), t);
    case 9 => AddTableExtends(db, SecurityScanCache, Expected9(SecurityScanCache).value,
                              SECURITY_SCAN_CACHE_V9_COLUMNS, t);
    case 10 => AppendExtends(db, SecurityScanCache, Expected9(SecurityScanCache).value,
                             DefaultColumn(FindingsJson, TextType, EmptyArray), TextCell("[]"), t);
    case 11 => AddTableExtends(db, ReleaseNotificationHistory, ExpectedSchema(ReleaseNotificationHistory),
                               CreatedColumns(ReleaseNotificationHistory), t);
    case 12 => AppendExtends(db, ReleaseNoteCache, Expected11(ReleaseNoteCache).value,
                             DefaultColumn(Body, TextType, EmptyText), TextCell(""), t);
    case 13 => AppendExtends(db, ReleaseNoteCache, Expected12(ReleaseNoteCache).value,
                             DefaultColumn(TargetDigest, TextType, EmptyText), TextCell(""), t);
    case 14 => NothingExtends(db, t);
    case _ => AddTableExtends(db, ReleaseSkips, ExpectedSchema(ReleaseSkips), CreatedColumns(ReleaseSkips), t);
  }

  // ---------- The rows of `schema_migrations` ----------

  /** The row of a migration: its version, its name and the time it was recorded. */
  ghost predicate IsMigrationRow(version: int, row: seq<Cell>, time: string) {
    && |row| == 3 && row[0] == IntCell(version) && row[2] == TextCell(time)
    && row[1] == TextCell(
         match version
         case 1 => "create update state tables"
         case 2 => "add pending update records"
         case 3 => "add tag exclusion rules"
         case 4 => "add web auth state"
         case 5 => "add release note cache"
         case 6 => "add auto update schedules"
         case 7 => "add digest tag provenance columns"
         case 8 => "add dependency snoozes"
         case 9 => "add security scan cache"
         case 10 => "add security scan findings"
         case 11 => "add release notification history"
         case 12 => "add release note body cache"
         case 13 => "schema version 13"
         case 14 => "index recent service events"
         case _ => "add release skips")
  }

  function MigrationRows(db: Database): map<Cell, seq<Cell>> {
    if SchemaMigrations in db.objects && db.objects[SchemaMigrations].Table? then db.objects[SchemaMigrations].rows
    else map[]
  }

  /** The versions from `first` to `last` are recorded; rows that were there stay, the others get the given time. */
  ghost predicate Records(a: Database, b: Database, first: int, last: int, time: int -> string) {
    && (forall k :: k in MigrationRows(a) ==> k in MigrationRows(b) && MigrationRows(b)[k] == MigrationRows(a)[k])
    && (forall k :: k in MigrationRows(b) && k !in MigrationRows(a) ==>
          k.IntCell? && first <= k.n <= last && IsMigrationRow(k.n, MigrationRows(b)[k], time(k.n)))
    && forall v :: first <= v <= last ==> IntCell(v) in MigrationRows(b)
  }

  lemma RecordsOne(db: Database, version: int, now: string, time: int -> string)
    requires 1 <= version <= SCHEMA_VERSION && RecordSchemaMigration(db, version, now).Ok? && time(version) == now
    ensures Records(db, RecordSchemaMigration(db, version, now).value, version, version, time)
  {
  }

  lemma RecordsNone(db: Database, first: int, last: int, time: int -> string)
    requires first > last
    ensures Records(db, db, first, last, time)
  {
  }

  lemma RecordsThen(a: Database, b: Database, c: Database, first: int, middle: int, last: int, time: int -> string)
    requires Records(a, b, first, middle, time) && Records(b, c, middle + 1, last, time)
    requires first <= middle + 1 <= last + 1
    ensures Records(a, c, first, last, time)
  {
    hide MigrationRows, IsMigrationRow;
  }

  lemma RecordsFromSame(a: Database, b: Database, c: Database, first: int, last: int, time: int -> string)
    requires MigrationRows(a) == MigrationRows(b) && Records(b, c, first, last, time)
    ensures Records(a, c, first, last, time)
  {
    hide MigrationRows, IsMigrationRow;
  }

  lemma {:induction false} RecordsFrom(db: Database, first: int, last: int, now: string, time: int -> string)
    requires 1 <= first && last <= SCHEMA_VERSION && RecordFrom(db, first, last, now).Ok?
    requires forall v :: first <= v <= last ==> time(v) == now
    ensures Records(db, RecordFrom(db, first, last, now).value, first, if first <= last then last else first - 1, time)
    decreases last - first
  {
    hide RecordSchemaMigration, Records;
    if first > last {
      RecordsNone(db, first, first - 1, time);
    } else {
      var next := RecordSchemaMigration(db, first, now).value;
      RecordsOne(db, first, now, time);
      RecordsFrom(next, first + 1, last, now, time);
      RecordsThen(db, next, RecordFrom(db, first, last, now).value, first, first, last, time);
    }
  }

  // ---------- Transactions ----------

  lemma {:induction false} NoneAfterNewest(from: int, until: int, t: TableName)
    requires SCHEMA_VERSION <= from
    ensures CellsBetween(from, until, t) == []
    decreases if until <= from then 0 else until - from
  {
    if from < until { NoneAfterNewest(from, until - 1, t); }
  }

  lemma {:induction false} CellsJoin(a: int, b: int, c: int, t: TableName)
    requires a <= b <= c && (a < 1 ==> b < 1 || b >= SCHEMA_VERSION)
    ensures CellsBetween(a, b, t) + CellsBetween(b, c, t) == CellsBetween(a, c, t)
    decreases c - b
  {
    hide AddedCells;
    if a < 1 {
      if b >= SCHEMA_VERSION { NoneAfterNewest(b, c, t); }
    } else if b == c {
      NoMore(CellsBetween(a, b, t));
    } else {
      CellsJoin(a, b, c - 1, t);
      assert CellsBetween(a, b, t) + (CellsBetween(b, c - 1, t) + AddedCells(c, t))
          == CellsBetween(a, b, t) + CellsBetween(b, c - 1, t) + AddedCells(c, t);
    }
  }

  lemma CarriedTwice(a: Database, b: Database, c: Database)
    requires Carried(a, b) && Carried(b, c) && a.version <= b.version <= c.version
    requires a.version < 1 ==> b.version < 1 || b.version >= SCHEMA_VERSION
    ensures Carried(a, c)
  {
    hide Extended, CellsBetween;
    forall t: TableName | !t.SchemaMigrations? ensures Extended(a, c, t, CellsBetween(a.version, c.version, t)) {
      ExtendsTwice(a, b, c, t, CellsBetween(a.version, b.version, t), CellsBetween(b.version, c.version, t));
      CellsJoin(a.version, b.version, c.version, t);
    }
  }

  lemma CarriedItself(db: Database)
    ensures Carried(db, db)
  {
    hide Extended;
    forall t: TableName ensures Extended(db, db, t, []) { NothingExtends(db, t); }
  }

  lemma OnlyMigrationsCarried(a: Database, b: Database)
    requires OnlyTable(a, b, SchemaMigrations)
    ensures Carried(a, b)
  {
    hide Extended, Kept, SameTable;
    forall t: TableName | !t.SchemaMigrations? ensures Extended(a, b, t, []) { SameExtends(a, b, t); }
  }

  lemma AtVersion(a: Database, b: Database, version: int, t: TableName, cells: seq<Cell>)
    requires Extended(a, b, t, cells)
    ensures Extended(a, b.(version := version), t, cells)
    ensures MigrationRows(b.(version := version)) == MigrationRows(b)
  {
  }

  lemma SameRows(a: Database, b: Database)
    requires SameTable(a, b, SchemaMigrations)
    ensures MigrationRows(a) == MigrationRows(b)
  {
  }

  lemma {:induction false} CreateTablesExtend(db: Database, tables: seq<TableName>, t: TableName)
    ensures Extended(db, CreateTables(db, tables), t, [])
    ensures MigrationRows(CreateTables(db, tables)) == MigrationRows(db)
    decreases |tables|
  {
    hide CreatedColumns, Extended;
    if tables == [] {
      NothingExtends(db, t);
    } else {
      var next := CreateTable(db, tables[0], CreatedColumns(tables[0]));
      CreateExtends(db, tables[0], CreatedColumns(tables[0]), t);
      CreateTablesExtend(next, tables[1..], t);
      ExtendsTwice(db, next, CreateTables(db, tables), t, [], []);
      NoMore([]);
    }
  }

  lemma EnsureKeepsRows(db: Database)
    ensures MigrationRows(CreateTable(db, SchemaMigrations, CreatedColumns(SchemaMigrations))) == MigrationRows(db)
  {
    hide CreatedColumns;
  }

  lemma BackfillRecords(db: Database, version: int, now: string, time: int -> string)
    requires 0 <= version <= SCHEMA_VERSION && BackfillSchemaMigrations(db, version, now).Ok?
    requires forall v :: 1 <= v <= version ==> time(v) == now
    ensures Records(db, BackfillSchemaMigrations(db, version, now).value, 1, version, time)
  {
    hide CreatedColumns, ExpectedSchema, ValidateIfPresent, CreateTable, RecordFrom, Records, MigrationRows;
    var ensured := CreateTable(db, SchemaMigrations, CreatedColumns(SchemaMigrations));
    EnsureKeepsRows(db);
    RecordsFrom(ensured, 1, version, now, time);
    RecordsFromSame(db, ensured, BackfillSchemaMigrations(db, version, now).value, 1, version, time);
  }

  lemma UpgradeCarries(db: Database, now: string, time: int -> string)
    requires RunJob(Upgrade, db, now).Ok? && forall v :: 1 <= v <= db.version ==> time(v) == now
    ensures var r := RunJob(Upgrade, db, now).value;
            1 <= db.version <= SCHEMA_VERSION && r.version == db.version
            && Carried(db, r) && Records(db, r, 1, db.version, time)
  {
    hide BackfillSchemaMigrations, Records, Carried, ValidateSchema, Kept, SameTable;
    BackfillOnly(db, db.version, now);
    OnlyMigrationsCarried(db, RunJob(Upgrade, db, now).value);
    BackfillRecords(db, db.version, now, time);
  }

  /** One whole migration: the cells of its version and its row in `schema_migrations`. */
  lemma MigrationCarries(target: int, db: Database, now: string, time: int -> string)
    requires 2 <= target <= SCHEMA_VERSION && db.version == target - 1 && Migrate(target, db, now).Ok?
    requires time(target) == now
    ensures var r := Migrate(target, db, now).value;
            r.version == target && Carried(db, r) && Records(db, r, target, target, time)
  {
    hide ChangeTables, RecordSchemaMigration, Records, MigrationRows, Kept, SameTable, Extended, AddedCells, Touches;
    var x := ChangeTables(target, db).value;
    var changed := x.(version := target);
    var r := RecordSchemaMigration(changed, target, now).value;
    ChangeTablesFramed(target, db);
    RecordOnly(changed, target, now);
    MigrationsUntouched(target);
    SameRows(db, x);
    RecordsOne(changed, target, now, time);
    AtVersion(db, x, target, SchemaMigrations, AddedCells(target, SchemaMigrations)) by {
      ChangeTablesExtends(target, db, SchemaMigrations);
    }
    RecordsFromSame(db, changed, r, target, target, time);
    forall t: TableName | !t.SchemaMigrations? ensures Extended(db, r, t, CellsBetween(db.version, r.version, t)) {
      ChangeTablesExtends(target, db, t);
      AtVersion(db, x, target, t, AddedCells(target, t));
      SameExtends(changed, r, t);
      ExtendsTwice(db, changed, r, t, AddedCells(target, t), []);
      NoMore(AddedCells(target, t));
      OneMigration(target, t);
    }
  }

  lemma MigrationsUntouched(target: int)
    ensures !Touches(target, SchemaMigrations)
  {
  }

  lemma OneMigration(target: int, t: TableName)
    requires 2 <= target
    ensures CellsBetween(target - 1, target, t) == AddedCells(target, t)
  {
    hide AddedCells;
    assert [] + AddedCells(target, t) == AddedCells(target, t);
  }

  lemma MigrateToCarries(target: int, db: Database, now: string, time: int -> string)
    requires 2 <= target <= SCHEMA_VERSION && target - 1 <= db.version && RunJob(MigrateTo(target), db, now).Ok?
    requires time(target) == now
    ensures var r := RunJob(MigrateTo(target), db, now).value;
            && r.version == (if db.version < target then target else db.version) && Carried(db, r)
            && (db.version < target ==> Records(db, r, target, target, time))
  {
    hide Migrate, Records, Carried;
    if db.version >= target {
      CarriedItself(db);
    } else {
      MigrationCarries(target, db, now, time);
    }
  }

  lemma CreateCarries(db: Database, now: string, time: int -> string)
    requires db.version < 1 || db.version == SCHEMA_VERSION
    requires RunJob(Create, db, now).Ok? && forall v :: 1 <= v <= SCHEMA_VERSION ==> time(v) == now
    ensures var r := RunJob(Create, db, now).value;
            r.version == SCHEMA_VERSION && Carried(db, r) && Records(db, r, 1, SCHEMA_VERSION, time)
  {
    hide CreateTables, ValidateSchema, BackfillSchemaMigrations, Extended, Kept, SameTable, Records, MigrationRows;
    var created := CreateTables(db, ALL_TABLES);
    var recorded := BackfillSchemaMigrations(created, SCHEMA_VERSION, now).value;
    var r := RunJob(Create, db, now).value;
    BackfillOnly(created, SCHEMA_VERSION, now);
    BackfillRecords(created, SCHEMA_VERSION, now, time);
    CreateTablesExtend(db, ALL_TABLES, SchemaMigrations);
    RecordsFromSame(db, created, recorded, 1, SCHEMA_VERSION, time);
    SameAtVersion(recorded, SCHEMA_VERSION);
    RecordsToSame(db, recorded, r, 1, SCHEMA_VERSION, time);
    forall t: TableName | !t.SchemaMigrations? ensures Extended(db, r, t, []) {
      CreateTablesExtend(db, ALL_TABLES, t);
      SameExtends(created, recorded, t);
      ExtendsTwice(db, created, recorded, t, [], []);
      NoMore([]);
      AtVersion(db, recorded, SCHEMA_VERSION, t, []);
    }
  }

  lemma SameAtVersion(db: Database, version: int)
    ensures MigrationRows(db.(version := version)) == MigrationRows(db)
  {
  }

  lemma RecordsToSame(a: Database, b: Database, c: Database, first: int, last: int, time: int -> string)
    requires Records(a, b, first, last, time) && MigrationRows(c) == MigrationRows(b)
    ensures Records(a, c, first, last, time)
  {
    hide MigrationRows, IsMigrationRow;
  }

  // ---------- Any number of processes ----------

  /** What is committed carries the initial rows, and so does the work of a process about to commit. */
  ghost predicate CellsInv(initial: Database, s: State) {
    && Carried(initial, s.committed)
    && forall p :: p in s.processes && s.processes[p].pc.Committing? ==>
         Carried(s.committed, s.processes[p].work)
  }

  lemma WorkCarries(initial: Database, s: State, job: Job, now: string)
    requires CommittedOk(initial, s.committed, s.log) && JobReady(initial, s.committed, job) && JobOk(job)
    requires 0 <= initial.version && RunJob(job, s.committed, now).Ok?
    ensures Carried(s.committed, RunJob(job, s.committed, now).value)
  {
    hide Carried, RunJob, Records, Conforms, Kept, Partial;
    var time := v => now;
    match job
    case Upgrade => UpgradeCarries(s.committed, now, time);
    case MigrateTo(target) => MigrateToCarries(target, s.committed, now, time);
    case Create => CreateCarries(s.committed, now, time);
  }

  lemma StepCells(initial: Database, s: State, a: Action)
    requires Inv(initial, s) && CellsInv(initial, s) && Apply(s, a).Some?
    ensures CellsInv(initial, Apply(s, a).value)
  {
    hide Carried, RunJob, Kept, Conforms, Partial, Recorded, ValidateSchema, ValidateExistingFrom;
    var x := s.processes[a.p];
    assert ProcessOk(initial, s, a.p, x);
    if a.Work? && x.pc.Working? {
      if RunJob(x.pc.job, x.work, a.now).Ok? { WorkCarries(initial, s, x.pc.job, a.now); }
    } else if a.Commit? && x.pc.Committing? {
      CommitCells(initial, s, a.p);
    }
  }

  lemma CommitCells(initial: Database, s: State, p: nat)
    requires Inv(initial, s) && CellsInv(initial, s) && p in s.processes && s.processes[p].pc.Committing?
    ensures Carried(initial, s.processes[p].work)
    ensures forall q :: q in s.processes && q != p ==> !s.processes[q].pc.Committing?
  {
    hide Carried, Kept, Conforms, Partial, Recorded, JobReady;
    assert ProcessOk(initial, s, p, s.processes[p]);
    CarriedTwice(initial, s.committed, s.processes[p].work);
  }

  lemma {:induction false} ExecCells(initial: Database, s: State, actions: seq<Action>)
    requires Inv(initial, s) && CellsInv(initial, s) && Exec(s, actions).Some?
    ensures CellsInv(initial, Exec(s, actions).value)
    decreases |actions|
  {
    hide Inv, Apply, CellsInv;
    if actions != [] {
      StepInv(initial, s, actions[0]);
      StepCells(initial, s, actions[0]);
      ExecCells(initial, Apply(s, actions[0]).value, actions[1..]);
    }
  }

  /** In every committed state the initial rows end with exactly the cells of the migrations committed so far. */
  lemma CommittedRowsCarried(initial: Database, s: State)
    requires ReachableFrom(initial, s)
    ensures Carried(initial, s.committed)
  {
    hide Init, Inv, Exec, Carried;
    var start, actions :| Init(start) && start.committed == initial && Exec(start, actions) == Some(s);
    InitInv(start);
    InitCells(start);
    ExecCells(initial, start, actions);
  }

  lemma InitCells(start: State)
    requires Init(start)
    ensures CellsInv(start.committed, start)
  {
    hide Carried, Initial;
    CarriedItself(start.committed);
  }
}
