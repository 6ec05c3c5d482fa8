/**
 One process's whole `init_schema` and exactly the databases on which it succeeds
 (src/wudup/db_schema.py).
 */
module MigrationPremise {
  import opened Ordering
  import opened Schema
  import opened Migrations
  import opened MigrationRuns

  /** The migration loop from `target` on; `clock` gives the time of each transaction. */
  function UpgradeFrom(db: Database, target: int, clock: int -> string): Result<Database, DatabaseError>
    requires 2 <= target
    decreases SCHEMA_VERSION + 1 - target
  {
    if target > SCHEMA_VERSION then Ok(db)
    else
      var next :- RunJob(MigrateTo(target), db, clock(target));
      UpgradeFrom(next, target + 1, clock)
  }

  /** `init_schema` with no other process around. */
  function InitRun(db: Database, clock: int -> string): Result<Database, DatabaseError> {
    if db.version > 0 then
      var upgraded :- RunJob(Upgrade, db, clock(db.version));
      var newest :- UpgradeFrom(upgraded, db.version + 1, clock);
      var _ :- ValidateSchema(newest, SCHEMA_VERSION);
      Ok(newest)
    else if db.version != 0 then Raise(UnsupportedVersion)
    else
      var _ :- ValidateExisting(db);
      RunJob(Create, db, clock(0))
  }

  // ---------- What a migration leaves alone ----------

  /** The tables that `_MIGRATIONS_BY_TARGET_VERSION[target]` creates or alters. */
  predicate Touches(target: int, t: TableName) {
    match target
    case 2 => t.PendingUpdates?
    case 3 => t.TagExclusionRules?
    case 4 => IsWebTable(t)
    case 5 => t.ReleaseNoteCache?
    case 6 => t.ServicePolicy? || t.AutoUpdateScheduleRuns?
    case 7 => IsProvenanceTable(t)
    case 8 => t.DependencySnoozes?
    case 9 => t.SecurityScanCache?
    case 10 => t.SecurityScanCache?
    case 11 => t.ReleaseNotificationHistory?
    case 12 => t.ReleaseNoteCache?
    case 13 => t.ReleaseNoteCache?
    case 15 => t.ReleaseSkips?
    case _ => false
  }

  ghost predicate SameTable(a: Database, b: Database, t: TableName) {
    (t in a.objects <==> t in b.objects) && (t in a.objects ==> b.objects[t] == a.objects[t])
  }

  /** `b` is `a` with rows and columns added, outside `t` not even those. */
  ghost predicate OnlyTable(a: Database, b: Database, t: TableName) {
    b.version == a.version && Kept(a, b) && forall u :: u != t ==> SameTable(a, b, u)
  }

  lemma CreateTableOnly(db: Database, t: TableName, columns: seq<Column>)
    ensures OnlyTable(db, CreateTable(db, t, columns), t)
  {
    hide ObjectKept;
    KeptReflexive(db);
  }

  lemma AddColumnOnly(db: Database, t: TableName, c: Column)
    requires AddColumn(db, t, c).Ok?
    ensures OnlyTable(db, AddColumn(db, t, c).value, t)
  {
    hide *;
    var grown := GrownTable(db, t, c);
    TableReplaced(db, t, grown);
  }

  lemma GrownTable(db: Database, t: TableName, c: Column) returns (grown: SqlObject)
    requires AddColumn(db, t, c).Ok?
    ensures t in db.objects && ObjectKept(t, db.objects[t], grown)
    ensures AddColumn(db, t, c).value == db.(objects := db.objects[t := grown])
  {
    grown := AddColumn(db, t, c).value.objects[t];
  }

  lemma TableReplaced(db: Database, t: TableName, grown: SqlObject)
    requires t in db.objects && ObjectKept(t, db.objects[t], grown)
    ensures OnlyTable(db, db.(objects := db.objects[t := grown]), t)
  {
    KeptReflexive(db);
    hide ObjectKept;
  }

  lemma OnlyTableTwice(a: Database, b: Database, c: Database, t: TableName)
    requires OnlyTable(a, b, t) && OnlyTable(b, c, t)
    ensures OnlyTable(a, c, t)
  {
    hide Kept;
    KeptTransitive(a, b, c);
    forall u | u != t ensures SameTable(a, c, u) {
      assert SameTable(a, b, u) && SameTable(b, c, u);
    }
  }

  lemma {:induction false} AddColumnsOnly(db: Database, t: TableName, columns: seq<Column>)
    requires AddColumns(db, t, columns).Ok?
    ensures OnlyTable(db, AddColumns(db, t, columns).value, t)
    decreases |columns|
  {
    if columns == [] {
      KeptReflexive(db);
    } else {
      AddColumnOnly(db, t, columns[0]);
      var next := AddColumn(db, t, columns[0]).value;
      AddColumnsOnly(next, t, columns[1..]);
      hide AddColumn, OnlyTable;
      OnlyTableTwice(db, next, AddColumns(next, t, columns[1..]).value, t);
    }
  }

  /** A migration keeps what is there and leaves the tables it does not touch as they were. */
  ghost predicate Framed(target: int, a: Database, b: Database) {
    b.version == a.version && Kept(a, b) && forall u :: !Touches(target, u) ==> SameTable(a, b, u)
  }

  lemma OnlyIsFramed(target: int, a: Database, b: Database, t: TableName)
    requires OnlyTable(a, b, t) && Touches(target, t)
    ensures Framed(target, a, b)
  {
    hide Kept, SameTable;
  }

  lemma FramedTwice(target: int, a: Database, b: Database, c: Database)
    requires Framed(target, a, b) && Framed(target, b, c)
    ensures Framed(target, a, c)
  {
    hide Kept;
    KeptTransitive(a, b, c);
    forall u | !Touches(target, u) ensures SameTable(a, c, u) {
      assert SameTable(a, b, u) && SameTable(b, c, u);
    }
  }

  lemma WebTablesFramed(db: Database)
    requires AddWebTables(db).Ok?
    ensures Framed(4, db, AddWebTables(db).value)
  {
    hide CreatedColumns, ExpectedSchema, ValidateIfPresent, Framed, CreateTable;
    var users := CreateTable(db, WebUsers, CreatedColumns(WebUsers));
    var sessions := CreateTable(users, WebSessions, CreatedColumns(WebSessions));
    var settings := CreateTable(sessions, WebSettings, CreatedColumns(WebSettings));
    CreateIsFramed(4, db, WebUsers, CreatedColumns(WebUsers));
    CreateIsFramed(4, users, WebSessions, CreatedColumns(WebSessions));
    CreateIsFramed(4, sessions, WebSettings, CreatedColumns(WebSettings));
    FramedTwice(4, db, users, sessions);
    FramedTwice(4, db, sessions, settings);
  }

  lemma CreateIsFramed(target: int, db: Database, t: TableName, columns: seq<Column>)
    requires Touches(target, t)
    ensures Framed(target, db, CreateTable(db, t, columns))
  {
    hide *;
    CreateTableOnly(db, t, columns);
    OnlyIsFramed(target, db, CreateTable(db, t, columns), t);
  }

  lemma ColumnsAreFramed(target: int, db: Database, t: TableName, columns: seq<Column>)
    requires Touches(target, t) && AddColumns(db, t, columns).Ok?
    ensures Framed(target, db, AddColumns(db, t, columns).value)
  {
    hide *;
    AddColumnsOnly(db, t, columns);
    OnlyIsFramed(target, db, AddColumns(db, t, columns).value, t);
  }

  lemma SchedulesFramed(db: Database)
    requires AddSchedules(db).Ok?
    ensures Framed(6, db, AddSchedules(db).value)
  {
    hide CreatedColumns, ExpectedSchema, ValidateIfPresent, ValidateTableColumns, Expected5, Framed, CreateTable,
      AddColumns;
    var altered := AddColumns(db, ServicePolicy, SCHEDULE_COLUMNS).value;
    ColumnsAreFramed(6, db, ServicePolicy, SCHEDULE_COLUMNS);
    CreateIsFramed(6, altered, AutoUpdateScheduleRuns, CreatedColumns(AutoUpdateScheduleRuns));
    FramedTwice(6, db, altered, AddSchedules(db).value);
  }

  lemma ProvenanceFramed(db: Database)
    requires AddProvenance(db).Ok?
    ensures Framed(7, db, AddProvenance(db).value)
  {
    hide ValidateVersion6, Framed, AddColumns, DeclaredDigestColumns;
    var digest := DeclaredDigestColumns();
    var pending := AddColumns(db, PendingUpdates, digest).value;
    var events := AddColumns(pending, UpdateEvents, digest).value;
    ColumnsAreFramed(7, db, PendingUpdates, digest);
    ColumnsAreFramed(7, pending, UpdateEvents, digest);
    ColumnsAreFramed(7, events, KnownImages, digest);
    FramedTwice(7, db, pending, events);
    FramedTwice(7, db, events, AddProvenance(db).value);
  }

  lemma AddTableFramed(target: int, db: Database, t: TableName, expected: seq<Column>, created: seq<Column>)
    requires Touches(target, t) && AddTable(db, t, expected, created).Ok?
    ensures Framed(target, db, AddTable(db, t, expected, created).value)
  {
    hide ValidateIfPresent, CreateTable, Framed;
    CreateIsFramed(target, db, t, created);
  }

  lemma AppendColumnFramed(target: int, db: Database, t: TableName, expected: seq<Column>, c: Column)
    requires Touches(target, t) && AppendColumn(db, t, expected, c).Ok?
    ensures Framed(target, db, AppendColumn(db, t, expected, c).value)
  {
    hide ValidateTableColumns, AddColumn, Framed;
    AddColumnOnly(db, t, c);
    OnlyIsFramed(target, db, AddColumn(db, t, c).value, t);
  }

  lemma ChangeTablesFramed(target: int, db: Database)
    requires 2 <= target <= SCHEMA_VERSION && ChangeTables(target, db).Ok?
    ensures Framed(target, db, ChangeTables(target, db).value)
  {
    hide Framed, AddTable, AppendColumn, AddWebTables, AddSchedules, AddProvenance;
    hide ExpectedSchema, CreatedColumns, Expected5, Expected6, Expected9, Expected11, Expected12;
    ReleaseNoteColumns();
    ScanCacheColumns();
    match target
    case 2 => AddTableFramed(2, db, PendingUpdates, ExpectedSchema(PendingUpdates), PENDING_UPDATES_V2_COLUMNS);
    case 3 => AddTableFramed(3, db, TagExclusionRules, ExpectedSchema(TagExclusionRules),
                             CreatedColumns(TagExclusionRules));
    case 4 => WebTablesFramed(db);
    case 5 => AddTableFramed(5, db, ReleaseNoteCache, Expected11(ReleaseNoteCache).value,
                             RELEASE_NOTE_CACHE_V5_COLUMNS);
    case 6 => SchedulesFramed(db);
    case 7 => ProvenanceFramed(db);
    case 8 => AddTableFramed(8, db, DependencySnoozes, ExpectedSchema(DependencySnoozes),
                             CreatedColumns(DependencySnoozes));
    case 9 => AddTableFramed(9, db, SecurityScanCache, Expected9(SecurityScanCache).value,
                             SECURITY_SCAN_CACHE_V9_COLUMNS);
    case 10 => AppendColumnFramed(10, db, SecurityScanCache, Expected9(SecurityScanCache).value,
                                  DefaultColumn(FindingsJson, TextType, EmptyArray));
    case 11 => AddTableFramed(11, db, ReleaseNotificationHistory, ExpectedSchema(ReleaseNotificationHistory),
                              CreatedColumns(ReleaseNotificationHistory));
    case 12 => AppendColumnFramed(12, db, ReleaseNoteCache, Expected11(ReleaseNoteCache).value,
                                  DefaultColumn(Body, TextType, EmptyText));
    case 13 => AppendColumnFramed(13, db, ReleaseNoteCache, Expected12(ReleaseNoteCache).value,
                                  DefaultColumn(TargetDigest, TextType, EmptyText));
    case 14 => NothingFramed(14, db);
    case _ => AddTableFramed(15, db, ReleaseSkips, ExpectedSchema(ReleaseSkips), CreatedColumns(ReleaseSkips));
  }

  lemma NothingFramed(target: int, db: Database)
    ensures Framed(target, db, db)
  {
    KeptReflexive(db);
  }

  // ---------- What a transaction keeps ----------

  lemma RecordOnly(db: Database, version: int, now: string)
    requires 1 <= version <= SCHEMA_VERSION && RecordSchemaMigration(db, version, now).Ok?
    ensures OnlyTable(db, RecordSchemaMigration(db, version, now).value, SchemaMigrations)
  {
    hide MigrationName;
    KeptReflexive(db);
  }

  lemma {:induction false} RecordFromOnly(db: Database, first: int, last: int, now: string)
    requires 1 <= first && last <= SCHEMA_VERSION && RecordFrom(db, first, last, now).Ok?
    ensures OnlyTable(db, RecordFrom(db, first, last, now).value, SchemaMigrations)
    decreases last - first
  {
    hide *;
    RecordFromStep(db, first, last, now);
    if first <= last {
      RecordOnly(db, first, now);
      var next := RecordSchemaMigration(db, first, now).value;
      RecordFromOnly(next, first + 1, last, now);
      OnlyTableTwice(db, next, RecordFrom(next, first + 1, last, now).value, SchemaMigrations);
    }
  }

  lemma RecordFromStep(db: Database, first: int, last: int, now: string)
    requires 1 <= first && last <= SCHEMA_VERSION && RecordFrom(db, first, last, now).Ok?
    ensures first > last ==> OnlyTable(db, RecordFrom(db, first, last, now).value, SchemaMigrations)
    ensures first <= last ==>
              && first <= SCHEMA_VERSION && RecordSchemaMigration(db, first, now).Ok?
              && RecordFrom(db, first, last, now)
                 == RecordFrom(RecordSchemaMigration(db, first, now).value, first + 1, last, now)
  {
    hide RecordSchemaMigration, ObjectKept;
    if first > last { KeptReflexive(db); }
  }

  lemma BackfillOnly(db: Database, version: int, now: string)
    requires version <= SCHEMA_VERSION && BackfillSchemaMigrations(db, version, now).Ok?
    ensures OnlyTable(db, BackfillSchemaMigrations(db, version, now).value, SchemaMigrations)
  {
    hide CreatedColumns, ExpectedSchema, ValidateIfPresent, CreateTable, OnlyTable, RecordFrom;
    var ensured := CreateTable(db, SchemaMigrations, CreatedColumns(SchemaMigrations));
    CreateTableOnly(db, SchemaMigrations, CreatedColumns(SchemaMigrations));
    RecordFromOnly(ensured, 1, version, now);
    OnlyTableTwice(db, ensured, RecordFrom(ensured, 1, version, now).value, SchemaMigrations);
  }

  /** One migration: its tables and the migration table. */
  lemma MigrateFramed(target: int, db: Database, now: string)
    requires 2 <= target <= SCHEMA_VERSION && Migrate(target, db, now).Ok?
    ensures var r := Migrate(target, db, now).value;
            && ChangeTables(target, db).Ok? && r.version == target && Kept(db, r)
            && forall u :: !Touches(target, u) && !u.SchemaMigrations? ==> SameTable(db, r, u)
  {
    hide ChangeTables, RecordSchemaMigration, Touches;
    hide Kept;
    ChangeTablesFramed(target, db);
    var x := ChangeTables(target, db).value;
    var changed := x.(version := target);
    RecordOnly(changed, target, now);
    var r := RecordSchemaMigration(changed, target, now).value;
    KeptAtVersion(db, x, target);
    KeptTransitive(db, changed, r);
    forall u | !Touches(target, u) && !u.SchemaMigrations? ensures SameTable(db, r, u) {
      assert SameTable(db, x, u) && SameTable(changed, r, u);
    }
  }

  lemma KeptAtVersion(a: Database, b: Database, version: int)
    requires Kept(a, b)
    ensures Kept(a, b.(version := version))
  {
  }

  lemma {:induction false} CreateTablesKeep(db: Database, tables: seq<TableName>)
    ensures Kept(db, CreateTables(db, tables))
    decreases |tables|
  {
    if tables == [] {
      KeptReflexive(db);
    } else {
      var next := CreateTable(db, tables[0], CreatedColumns(tables[0]));
      hide CreatedColumns;
      CreateTableOnly(db, tables[0], CreatedColumns(tables[0]));
      CreateTablesKeep(next, tables[1..]);
      KeptTransitive(db, next, CreateTables(next, tables[1..]));
    }
  }

  lemma CreateSchemaKeeps(db: Database, now: string)
    requires CreateSchema(db, now).Ok?
    ensures Kept(db, CreateSchema(db, now).value)
  {
    hide CreateTables, ValidateSchema, BackfillSchemaMigrations, Kept;
    var created := CreateTables(db, ALL_TABLES);
    CreateTablesKeep(db, ALL_TABLES);
    BackfillOnly(created, SCHEMA_VERSION, now);
    var recorded := BackfillSchemaMigrations(created, SCHEMA_VERSION, now).value;
    KeptTransitive(db, created, recorded);
    KeptAtVersion(db, recorded, SCHEMA_VERSION);
  }

  /** No transaction drops a table, a column or a row, whatever database it meets. */
  lemma RunJobKeeps(job: Job, db: Database, now: string)
    requires JobOk(job) && RunJob(job, db, now).Ok?
    ensures Kept(db, RunJob(job, db, now).value)
  {
    hide ValidateSchema, BackfillSchemaMigrations, Migrate, CreateSchema, Kept, Touches, SameTable;
    match job
    case Upgrade => BackfillOnly(db, db.version, now);
    case MigrateTo(target) =>
      if db.version >= target {
        KeptReflexive(db);
      } else {
        MigrateFramed(target, db, now);
      }
    case Create => CreateSchemaKeeps(db, now);
  }

  // ---------- Success needs the premise ----------

  /** The version whose migration adds the table. */
  function Introduced(t: TableName): int {
    match t
    case PendingUpdates => 2
    case TagExclusionRules => 3
    case SchemaMigrations => 4
    case WebUsers => 4
    case WebSessions => 4
    case WebSettings => 4
    case ReleaseNoteCache => 5
    case AutoUpdateScheduleRuns => 6
    case DependencySnoozes => 8
    case SecurityScanCache => 9
    case ReleaseNotificationHistory => 11
    case ReleaseSkips => 15
    case _ => 1
  }

  lemma ExpectedFromIntroduction(version: int, t: TableName)
    requires 1 <= version <= SCHEMA_VERSION
    ensures Expected(version, t).None? <==> version < Introduced(t)
  {
    hide ExpectedSchema, Without;
  }

  lemma UntouchedBefore(target: int, t: TableName)
    requires 2 <= target < Introduced(t)
    ensures !Touches(target, t)
  {
  }

  /** The columns the introducing migration validates in a table that is already there. */
  function AcceptedColumns(t: TableName): seq<Column> {
    if t.PendingUpdates? then ExpectedSchema(t) else EarlyColumns(t)
  }

  lemma AddTableValidates(db: Database, t: TableName, expected: seq<Column>, created: seq<Column>)
    requires AddTable(db, t, expected, created).Ok? && t in db.objects
    ensures HasTable(db, t, expected)
  {
    hide CreateTable;
  }

  lemma WebTablesValidate(db: Database, t: TableName)
    requires AddWebTables(db).Ok? && IsWebTable(t) && t in db.objects
    ensures HasTable(db, t, ExpectedSchema(t))
  {
    hide CreateTable, CreatedColumns, ExpectedSchema;
  }

  lemma SchedulesValidate(db: Database)
    requires AddSchedules(db).Ok? && AutoUpdateScheduleRuns in db.objects
    ensures HasTable(db, AutoUpdateScheduleRuns, ExpectedSchema(AutoUpdateScheduleRuns))
  {
    hide CreateTable, AddColumns, CreatedColumns, ExpectedSchema, Expected5;
  }

  /** The columns that the introducing migration expects in a table of its own. */
  function IntroducedColumns(t: TableName): seq<Column> {
    match t
    case ReleaseNoteCache => Expected11(t).value
    case SecurityScanCache => Expected9(t).value
    case _ => ExpectedSchema(t)
  }

  lemma AcceptedIsIntroduced(t: TableName)
    ensures AcceptedColumns(t) == IntroducedColumns(t)
  {
    hide ExpectedSchema, CreatedColumns;
    ReleaseNoteColumns();
    ScanCacheColumns();
  }

  lemma IntroducingMigration(t: TableName, db: Database) returns (created: seq<Column>)
    requires 2 <= Introduced(t) && !t.SchemaMigrations?
    ensures ChangeTables(Introduced(t), db) ==
            if IsWebTable(t) then AddWebTables(db)
            else if t.AutoUpdateScheduleRuns? then AddSchedules(db)
            else AddTable(db, t, IntroducedColumns(t), created)
  {
    hide ExpectedSchema, CreatedColumns, AddTable, AddWebTables, AddSchedules, Expected9, Expected11;
    created := match t
      case PendingUpdates => PENDING_UPDATES_V2_COLUMNS
      case ReleaseNoteCache => RELEASE_NOTE_CACHE_V5_COLUMNS
      case SecurityScanCache => SECURITY_SCAN_CACHE_V9_COLUMNS
      case _ => CreatedColumns(t);
  }

  lemma IntroductionValidates(t: TableName, db: Database)
    requires 2 <= Introduced(t) && !t.SchemaMigrations?
    requires ChangeTables(Introduced(t), db).Ok? && t in db.objects
    ensures HasTable(db, t, AcceptedColumns(t))
  {
    hide *;
    AcceptedIsIntroduced(t);
    OwnColumns(t);
    var created := IntroducingMigration(t, db);
    if IsWebTable(t) {
      WebTablesValidate(db, t);
    } else if t.AutoUpdateScheduleRuns? {
      SchedulesValidate(db);
    } else {
      AddTableValidates(db, t, IntroducedColumns(t), created);
    }
  }

  lemma OwnColumns(t: TableName)
    ensures IsWebTable(t) || t.AutoUpdateScheduleRuns? ==> IntroducedColumns(t) == ExpectedSchema(t)
  {
    hide ExpectedSchema;
  }

  /** In a run that succeeds, a table is absent or fitting until the migration that adds it. */
  lemma {:induction false} EarlyTableFits(db: Database, target: int, clock: int -> string, t: TableName)
    requires 2 <= target <= Introduced(t) && !t.SchemaMigrations? && db.version == target - 1
    requires UpgradeFrom(db, target, clock).Ok?
    ensures t in db.objects ==> HasTable(db, t, AcceptedColumns(t))
    decreases Introduced(t) - target
  {
    hide AcceptedColumns, Migrate, ChangeTables;
    var now := clock(target);
    assert RunJob(MigrateTo(target), db, now) == Migrate(target, db, now);
    MigrateFramed(target, db, now);
    var next := Migrate(target, db, now).value;
    if target == Introduced(t) {
      if t in db.objects { IntroductionValidates(t, db); }
    } else {
      UntouchedBefore(target, t);
      assert SameTable(db, next, t);
      EarlyTableFits(next, target + 1, clock, t);
    }
  }

  /** An early `pending_updates` reaches the migration to version 7, which refuses it. */
  lemma {:induction false} PendingUpdatesBlock(db: Database, target: int, clock: int -> string)
    requires 2 <= target <= 7 && db.version == target - 1
    requires HasTable(db, PendingUpdates, ExpectedSchema(PendingUpdates))
    ensures UpgradeFrom(db, target, clock).Raise?
    decreases 7 - target
  {
    hide Migrate, ChangeTables, ExpectedSchema;
    var now := clock(target);
    assert RunJob(MigrateTo(target), db, now) == Migrate(target, db, now);
    if target == 7 {
      EarlyPendingUpdatesBlock(db, now);
    } else if Migrate(target, db, now).Ok? {
      var next := Migrate(target, db, now).value;
      MigrateFramed(target, db, now);
      if target == 2 {
        EarlyPendingUpdatesBlock(db, now);
        PendingUpdatesUntouched(db, now);
      } else {
        assert !Touches(target, PendingUpdates);
        assert SameTable(db, next, PendingUpdates);
      }
      PendingUpdatesBlock(next, target + 1, clock);
    }
  }

  lemma PendingUpdatesUntouched(db: Database, now: string)
    requires ChangeTables(2, db) == Ok(db) && Migrate(2, db, now).Ok?
    ensures SameTable(db, Migrate(2, db, now).value, PendingUpdates)
  {
    hide ChangeTables, RecordSchemaMigration;
    var changed := db.(version := 2);
    RecordOnly(changed, 2, now);
    assert SameTable(changed, RecordSchemaMigration(changed, 2, now).value, PendingUpdates);
  }

  /** The first transaction accepts a database only with its version's tables. */
  lemma UpgradeNeeds(db: Database, now: string)
    requires RunJob(Upgrade, db, now).Ok?
    ensures var r := RunJob(Upgrade, db, now).value;
            && 1 <= db.version <= SCHEMA_VERSION && r.version == db.version
            && ValidateSchema(db, db.version).Ok?
            && (SchemaMigrations in db.objects ==> HasTable(db, SchemaMigrations, ExpectedSchema(SchemaMigrations)))
            && forall u :: u != SchemaMigrations ==> SameTable(db, r, u)
  {
    hide ValidateSchema, CreatedColumns, ExpectedSchema, CreateTable, RecordFrom, SameTable, Kept;
    BackfillOnly(db, db.version, now);
  }

  lemma SuccessNeedsTable(db: Database, clock: int -> string, t: TableName)
    requires db.version > 0 && InitRun(db, clock).Ok?
    ensures db.version <= SCHEMA_VERSION && TableConforms(db, db.version, t)
  {
    hide Expected, ExpectedSchema, ValidateSchema, RunJob, UpgradeFrom, Kept;
    var now := clock(db.version);
    UpgradeNeeds(db, now);
    var upgraded := RunJob(Upgrade, db, now).value;
    var version := db.version;
    ValidateSchemaIff(db, version);
    ExpectedFromIntroduction(version, t);
    if version < Introduced(t) && t in db.objects {
      if t != SchemaMigrations {
        assert SameTable(db, upgraded, t);
        EarlyTableFits(upgraded, version + 1, clock, t);
        if t == PendingUpdates { PendingUpdatesBlock(upgraded, version + 1, clock); }
      }
    }
  }

  // ---------- Success from the premise ----------

  lemma {:induction false} UpgradeSucceeds(db: Database, target: int, clock: int -> string)
    requires 2 <= target <= SCHEMA_VERSION + 1 && Conforms(db, target - 1) && RowsRecorded(db, target - 1)
    ensures var r := UpgradeFrom(db, target, clock);
            && r.Ok? && Conforms(r.value, SCHEMA_VERSION) && RowsRecorded(r.value, SCHEMA_VERSION)
            && Kept(db, r.value)
    decreases SCHEMA_VERSION + 1 - target
  {
    hide TablesConform, RowsRecorded, Migrate, Kept;
    if target > SCHEMA_VERSION {
      KeptReflexive(db);
    } else {
      MigrateOk(target, db, clock(target));
      var next := Migrate(target, db, clock(target)).value;
      UpgradeSucceeds(next, target + 1, clock);
      KeptTransitive(db, next, UpgradeFrom(next, target + 1, clock).value);
    }
  }

  lemma InitRunSucceeds(db: Database, clock: int -> string)
    requires Initial(db)
    ensures var r := InitRun(db, clock);
            && r.Ok? && Conforms(r.value, SCHEMA_VERSION) && RowsRecorded(r.value, SCHEMA_VERSION)
            && Kept(db, r.value)
  {
    hide TablesConform, RowsRecorded, Partial, Kept, ValidateSchema, ValidateExistingFrom, BackfillSchemaMigrations,
      CreateSchema, UpgradeFrom;
    if db.version == 0 {
      PartialValidates(db, ALL_TABLES);
      CreateSchemaOk(db, clock(0));
    } else {
      var version := db.version;
      ConformingValidates(db, version);
      BackfillOk(db, version, clock(version));
      var upgraded := BackfillSchemaMigrations(db, version, clock(version)).value;
      UpgradeSucceeds(upgraded, version + 1, clock);
      var newest := UpgradeFrom(upgraded, version + 1, clock).value;
      KeptTransitive(db, upgraded, newest);
      ConformingValidates(newest, SCHEMA_VERSION);
    }
  }

  // ---------- Exactly ----------

  lemma {:induction false} ExistingValidates(db: Database, tables: seq<TableName>, t: TableName)
    requires ValidateExistingFrom(db, tables).Ok? && t in tables && t in db.objects
    ensures HasTable(db, t, ExpectedSchema(t))
  {
    hide ExpectedSchema;
    if t != tables[0] { ExistingValidates(db, tables[1..], t); }
  }

  /** `init_schema` succeeds on exactly the databases of the premise, new ones included. */
  lemma InitRunSucceedsIff(db: Database, clock: int -> string)
    ensures InitRun(db, clock).Ok? <==> Initial(db)
  {
    hide Expected, ExpectedSchema, ValidateSchema, RunJob, UpgradeFrom, Kept, RowsRecorded, ValidateExistingFrom,
      TableConforms;
    if Initial(db) { InitRunSucceeds(db, clock); }
    if InitRun(db, clock).Ok? {
      if db.version == 0 {
        forall t | t in db.objects ensures HasTable(db, t, ExpectedSchema(t)) {
          AllTables(t);
          ExistingValidates(db, ALL_TABLES, t);
        }
      } else {
        SuccessNeedsTable(db, clock, SchemaMigrations);
        forall t ensures TableConforms(db, db.version, t) {
          SuccessNeedsTable(db, clock, t);
        }
      }
    }
  }

  /**
   The premise of an existing database in full: the tables of its version are as validation wants
   them; each later table is absent or has the columns its migration validates; and version 1 has
   no `pending_updates`.
   */
  ghost predicate Upgradable(db: Database) {
    && 1 <= db.version <= SCHEMA_VERSION
    && ValidateSchema(db, db.version).Ok?
    && (forall t :: Expected(db.version, t).None? && t in db.objects ==> HasTable(db, t, EarlyColumns(t)))
    && (db.version == 1 ==> PendingUpdates !in db.objects)
  }

  lemma UpgradableIff(db: Database)
    requires 1 <= db.version <= SCHEMA_VERSION
    ensures Upgradable(db) <==> Conforms(db, db.version)
  {
    hide Expected, ExpectedSchema, EarlyColumns, ValidateSchema;
    var version := db.version;
    ValidateSchemaIff(db, version);
    ExpectedFromIntroduction(version, PendingUpdates);
    if Upgradable(db) {
      forall t ensures TableConforms(db, version, t) {
        ExpectedFromIntroduction(version, t);
      }
    }
    if TablesConform(db, version) {
      assert TableConforms(db, version, PendingUpdates);
      forall t | Expected(version, t).Some? ensures HasTable(db, t, Expected(version, t).value) {
        assert TableConforms(db, version, t);
      }
      forall t | Expected(version, t).None? && t in db.objects ensures HasTable(db, t, EarlyColumns(t)) {
        assert TableConforms(db, version, t);
      }
    }
  }

  lemma InitRunUpgradesIff(db: Database, clock: int -> string)
    requires db.version != 0
    ensures InitRun(db, clock).Ok? <==> Upgradable(db)
  {
    hide ValidateSchema, InitRun, TablesConform;
    InitRunSucceedsIff(db, clock);
    if 1 <= db.version <= SCHEMA_VERSION { UpgradableIff(db); }
  }

  // ---------- A database that is never upgraded ----------

  /** Version 1 with an empty `pending_updates` of the newest columns beside its own tables. */
  function EarlyPending(): Database {
    Database(1, map t: TableName | t in ALL_TABLES && (Expected1(t).Some? || t.PendingUpdates?) ::
      Table(if t.PendingUpdates? then ExpectedSchema(t) else Expected1(t).value, map[]))
  }

  /** Validation and the migration to version 2 accept it; every whole run raises. */
  lemma EarlyPendingNeverUpgrades(clock: int -> string)
    ensures ValidateSchema(EarlyPending(), 1).Ok?
    ensures ChangeTables(2, EarlyPending()) == Ok(EarlyPending())
    ensures InitRun(EarlyPending(), clock).Raise?
  {
    hide ExpectedSchema, Expected1, ValidateSchema, InitRun, ChangeTables;
    var db := EarlyPending();
    AllTables(PendingUpdates);
    EarlyPendingUpdatesBlock(db, "");
    forall t | Expected(1, t).Some? ensures HasTable(db, t, Expected(1, t).value) {
      AllTables(t);
      ExpectedFromIntroduction(1, t);
    }
    ValidateSchemaIff(db, 1);
    InitRunUpgradesIff(db, clock);
  }
}
