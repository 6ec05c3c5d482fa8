/**
 The schema versions and the migrations between them (src/wudup/db_schema.py). A database is
 its `user_version` and its tables; a table is its columns and its rows by primary key.
 */
module Migrations {
  import opened Ordering
  import opened Schema

  datatype Cell = NullCell | IntCell(n: int) | TextCell(s: string)

  datatype SqlObject =
    | Table(columns: seq<Column>, rows: map<Cell, seq<Cell>>)
    | OtherObject

  datatype Database = Database(version: int, objects: map<TableName, SqlObject>)

  datatype DatabaseError =
    | UnsupportedVersion | MissingTable | NotATable | UnexpectedColumns | SqlFailed

  const SCHEMA_VERSION := 15

  // ---------- What each version expects ----------

  /** The tuple comprehensions that drop columns by name. */
  function Without(columns: seq<Column>, names: set<ColumnName>): seq<Column> {
    if columns == [] then []
    else (if columns[0].name in names then [] else [columns[0]]) + Without(columns[1..], names)
  }

  function WithoutIn(columns: Option<seq<Column>>, names: set<ColumnName>): Option<seq<Column>> {
    if columns.Some? then Some(Without(columns.value, names)) else None
  }

  const DIGEST_COLUMNS: set<ColumnName> :=
    {DigestSourceImage, DigestResolvedTag, DigestWatchTag, DigestTargetDigest, DigestFinalImage,
     DigestProvenanceSource, DigestProvenanceConfidence}

  function Expected14(t: TableName): Option<seq<Column>> {
    if t.ReleaseSkips? then None else Some(ExpectedSchema(t))
  }

  function Expected12(t: TableName): Option<seq<Column>> {
    if t.ReleaseNoteCache? then WithoutIn(Expected14(t), {TargetDigest}) else Expected14(t)
  }

  function Expected11(t: TableName): Option<seq<Column>> {
    if t.ReleaseNoteCache? then WithoutIn(Expected12(t), {Body}) else Expected12(t)
  }

  function Expected10(t: TableName): Option<seq<Column>> {
    if t.ReleaseNotificationHistory? then None else Expected11(t)
  }

  function Expected9(t: TableName): Option<seq<Column>> {
    if t.SecurityScanCache? then WithoutIn(Expected10(t), {FindingsJson}) else Expected10(t)
  }

  function Expected8(t: TableName): Option<seq<Column>> {
    if t.SecurityScanCache? then None else Expected9(t)
  }

  function Expected7(t: TableName): Option<seq<Column>> {
    if t.DependencySnoozes? then None else Expected8(t)
  }

  function Expected6(t: TableName): Option<seq<Column>> {
    if t.PendingUpdates? || t.UpdateEvents? || t.KnownImages? then WithoutIn(Expected7(t), DIGEST_COLUMNS)
    else Expected7(t)
  }

  function Expected5(t: TableName): Option<seq<Column>> {
    if t.AutoUpdateScheduleRuns? then None
    else if t.ServicePolicy? then WithoutIn(Expected6(t), {AutoUpdateTime, AutoUpdateDaysJson})
    else Expected6(t)
  }

  function Expected4(t: TableName): Option<seq<Column>> {
    if t.ReleaseNoteCache? then None else Expected5(t)
  }

  function Expected3(t: TableName): Option<seq<Column>> {
    if t.SchemaMigrations? || t.WebUsers? || t.WebSessions? || t.WebSettings? then None else Expected4(t)
  }

  function Expected2(t: TableName): Option<seq<Column>> {
    if t.TagExclusionRules? then None else Expected3(t)
  }

  function Expected1(t: TableName): Option<seq<Column>> {
    if t.PendingUpdates? then None else Expected2(t)
  }

  /** `_EXPECTED_SCHEMAS_BY_VERSION` */
  function Expected(version: int, t: TableName): Option<seq<Column>>
    requires 1 <= version <= SCHEMA_VERSION
  {
    match version
    case 1 => Expected1(t)
    case 2 => Expected2(t)
    case 3 => Expected3(t)
    case 4 => Expected4(t)
    case 5 => Expected5(t)
    case 6 => Expected6(t)
    case 7 => Expected7(t)
    case 8 => Expected8(t)
    case 9 => Expected9(t)
    case 10 => Expected10(t)
    case 11 => Expected11(t)
    case 12 => Expected12(t)
    case 13 => Expected14(t)
    case 14 => Expected14(t)
    case _ => Some(ExpectedSchema(t))
  }

  // ---------- Statements ----------

  function DefaultCell(c: Column): Cell {
    match c.default
    case None => NullCell
    case Some(EmptyText) => TextCell("")
    case Some(Zero) => IntCell(0)
    case Some(One) => IntCell(1)
    case Some(EmptyObject) => TextCell("{}")
    case Some(EmptyArray) => TextCell("[]")
    case Some(ReleaseText) => TextCell("release")
    case Some(ActiveText) => TextCell("active")
    case Some(AdminText) => TextCell("admin")
  }

  /** `CREATE TABLE IF NOT EXISTS` */
  function CreateTable(db: Database, t: TableName, columns: seq<Column>): Database {
    if t in db.objects then db else db.(objects := db.objects[t := Table(columns, map[])])
  }

  /** `ALTER TABLE ... ADD COLUMN`: every row gets the default value. */
  function AddColumn(db: Database, t: TableName, c: Column): Result<Database, DatabaseError> {
    if t !in db.objects || !db.objects[t].Table? then Raise(SqlFailed)
    else
      var Table(columns, rows) := db.objects[t];
      if exists i :: 0 <= i < |columns| && columns[i].name == c.name then Raise(SqlFailed)
      else
        Ok(db.(objects := db.objects[t := Table(columns + [c], map k | k in rows :: rows[k] + [DefaultCell(c)])]))
  }

  function AddColumns(db: Database, t: TableName, columns: seq<Column>): Result<Database, DatabaseError>
    decreases |columns|
  {
    if columns == [] then Ok(db)
    else
      var next :- AddColumn(db, t, columns[0]);
      AddColumns(next, t, columns[1..])
  }

  function TableColumns(db: Database, t: TableName): seq<Column> {
    if t in db.objects && db.objects[t].Table? then db.objects[t].columns else []
  }

  function ValidateTableColumns(db: Database, t: TableName, expected: seq<Column>)
    : Result<(), DatabaseError>
  {
    if TableColumns(db, t) == expected then Ok(()) else Raise(UnexpectedColumns)
  }

  /** The check before `CREATE TABLE IF NOT EXISTS`: what is there must be the right table. */
  function ValidateIfPresent(db: Database, t: TableName, expected: seq<Column>): Result<(), DatabaseError> {
    if t !in db.objects then Ok(())
    else if !db.objects[t].Table? then Raise(NotATable)
    else ValidateTableColumns(db, t, expected)
  }

  function ValidatePresent(db: Database, t: TableName, expected: seq<Column>): Result<(), DatabaseError> {
    if t !in db.objects then Raise(MissingTable)
    else if !db.objects[t].Table? then Raise(NotATable)
    else ValidateTableColumns(db, t, expected)
  }

  const ALL_TABLES: seq<TableName> := [
    SchemaMigrations, UpdateRuns, UpdateEvents, Snoozes, DependencySnoozes, ReleaseSkips, ServicePolicy,
    AutoUpdateScheduleRuns, KnownImages, PendingUpdates, ReleaseNoteCache, ReleaseNotificationHistory,
    SecurityScanCache, TagExclusionRules, WebUsers, WebSessions, WebSettings]

  function ValidateSchemaFrom(db: Database, version: int, tables: seq<TableName>): Result<(), DatabaseError>
    requires 1 <= version <= SCHEMA_VERSION
  {
    if tables == [] then Ok(())
    else
      var expected := Expected(version, tables[0]);
      if expected.None? then ValidateSchemaFrom(db, version, tables[1..])
      else
        var _ :- ValidatePresent(db, tables[0], expected.value);
        ValidateSchemaFrom(db, version, tables[1..])
  }

  function ValidateSchema(db: Database, version: int): Result<(), DatabaseError>
    requires 1 <= version <= SCHEMA_VERSION
  {
    ValidateSchemaFrom(db, version, ALL_TABLES)
  }

  function MigrationName(version: int): string
    requires 1 <= version <= SCHEMA_VERSION
  {
    match version
    case 1 => "create update state tables"
    case 2 => "add pending update records"
    case 3 => "add tag exclusion rules"
    case 4 => "add web auth state"
    case 5 => "add release note cache"
    case 6 => "add auto update schedules"
    case 7 => "add digest tag provenance columns"
    case 8 => "add dependency snoozes"
    case 9 => "add security scan cache"
    case 10 => "add security scan findings"
    case 11 => "add release notification history"
    case 12 => "add release note body cache"
    case 13 => "schema version 13"
    case 14 => "index recent service events"
    case _ => "add release skips"
  }

  /** `INSERT OR IGNORE INTO schema_migrations` at the time `now`. */
  function RecordSchemaMigration(db: Database, version: int, now: string): Result<Database, DatabaseError>
    requires 1 <= version <= SCHEMA_VERSION
  {
    if SchemaMigrations !in db.objects || !db.objects[SchemaMigrations].Table? then Raise(SqlFailed)
    else
      var Table(columns, rows) := db.objects[SchemaMigrations];
      var key := IntCell(version);
      if key in rows then Ok(db)
      else
        var row := [key, TextCell(MigrationName(version)), TextCell(now)];
        Ok(db.(objects := db.objects[SchemaMigrations := Table(columns, rows[key := row])]))
  }

  function EnsureSchemaMigrations(db: Database): Result<Database, DatabaseError> {
    var _ :- ValidateIfPresent(db, SchemaMigrations, ExpectedSchema(SchemaMigrations));
    Ok(CreateTable(db, SchemaMigrations, CreatedColumns(SchemaMigrations)))
  }

  function RecordFrom(db: Database, first: int, last: int, now: string): Result<Database, DatabaseError>
    requires 1 <= first && last <= SCHEMA_VERSION
    decreases last - first
  {
    if first > last then Ok(db)
    else
      var next :- RecordSchemaMigration(db, first, now);
      RecordFrom(next, first + 1, last, now)
  }

  function BackfillSchemaMigrations(db: Database, version: int, now: string): Result<Database, DatabaseError>
    requires version <= SCHEMA_VERSION
  {
    var ensured :- EnsureSchemaMigrations(db);
    RecordFrom(ensured, 1, version, now)
  }

  // ---------- The migrations ----------

  /** Validate what is there, create the table if it is missing. */
  function AddTable(db: Database, t: TableName, expected: seq<Column>, created: seq<Column>)
    : Result<Database, DatabaseError>
  {
    var _ :- ValidateIfPresent(db, t, expected);
    Ok(CreateTable(db, t, created))
  }

  /** Validate the columns that are there, append one. */
  function AppendColumn(db: Database, t: TableName, expected: seq<Column>, c: Column)
    : Result<Database, DatabaseError>
  {
    var _ :- ValidateTableColumns(db, t, expected);
    AddColumn(db, t, c)
  }

  function AddWebTables(db: Database): Result<Database, DatabaseError> {
    var _ :- ValidateIfPresent(db, WebUsers, ExpectedSchema(WebUsers));
    var _ :- ValidateIfPresent(db, WebSessions, ExpectedSchema(WebSessions));
    var _ :- ValidateIfPresent(db, WebSettings, ExpectedSchema(WebSettings));
    var users := CreateTable(db, WebUsers, CreatedColumns(WebUsers));
    var sessions := CreateTable(users, WebSessions, CreatedColumns(WebSessions));
    Ok(CreateTable(sessions, WebSettings, CreatedColumns(WebSettings)))
  }

  const SCHEDULE_COLUMNS: seq<Column> :=
    [OptionalColumn(AutoUpdateTime, TextType), DefaultColumn(AutoUpdateDaysJson, TextType, EmptyArray)]

  function AddSchedules(db: Database): Result<Database, DatabaseError> {
    var _ :- ValidateTableColumns(db, ServicePolicy, Expected5(ServicePolicy).value);
    var _ :- ValidateIfPresent(db, AutoUpdateScheduleRuns, ExpectedSchema(AutoUpdateScheduleRuns));
    var altered :- AddColumns(db, ServicePolicy, SCHEDULE_COLUMNS);
    Ok(CreateTable(altered, AutoUpdateScheduleRuns, CreatedColumns(AutoUpdateScheduleRuns)))
  }

  function DeclaredDigestColumns(): seq<Column> {
    seq(|DIGEST_PROVENANCE_SQL_COLUMNS|, i requires 0 <= i < |DIGEST_PROVENANCE_SQL_COLUMNS| =>
      DefaultColumn(DIGEST_PROVENANCE_SQL_COLUMNS[i], TextType, EmptyText))
  }

  function ValidateVersion6(db: Database, t: TableName): Result<(), DatabaseError>
    requires t.PendingUpdates? || t.UpdateEvents? || t.KnownImages?
  {
    ValidateTableColumns(db, t, Expected6(t).value)
  }

  function AddProvenance(db: Database): Result<Database, DatabaseError> {
    var _ :- ValidateVersion6(db, PendingUpdates);
    var _ :- ValidateVersion6(db, UpdateEvents);
    var _ :- ValidateVersion6(db, KnownImages);
    var pending :- AddColumns(db, PendingUpdates, DeclaredDigestColumns());
    var events :- AddColumns(pending, UpdateEvents, DeclaredDigestColumns());
    AddColumns(events, KnownImages, DeclaredDigestColumns())
  }

  /** The table changes of `_MIGRATIONS_BY_TARGET_VERSION[target]`. */
  function ChangeTables(target: int, db: Database): Result<Database, DatabaseError>
    requires 2 <= target <= SCHEMA_VERSION
  {
    match target
    case 2 => AddTable(db, PendingUpdates, ExpectedSchema(PendingUpdates), PENDING_UPDATES_V2_COLUMNS)
    case 3 => AddTable(db, TagExclusionRules, ExpectedSchema(TagExclusionRules), CreatedColumns(TagExclusionRules))
    case 4 => AddWebTables(db)
    case 5 => AddTable(db, ReleaseNoteCache, Expected11(ReleaseNoteCache).value, RELEASE_NOTE_CACHE_V5_COLUMNS)
    case 6 => AddSchedules(db)
    case 7 => AddProvenance(db)
    case 8 => AddTable(db, DependencySnoozes, ExpectedSchema(DependencySnoozes), CreatedColumns(DependencySnoozes))
    case 9 => AddTable(db, SecurityScanCache, Expected9(SecurityScanCache).value, SECURITY_SCAN_CACHE_V9_COLUMNS)
    case 10 => AppendColumn(db, SecurityScanCache, Expected9(SecurityScanCache).value,
                            DefaultColumn(FindingsJson, TextType, EmptyArray))
    case 11 =>
      AddTable(db, ReleaseNotificationHistory, ExpectedSchema(ReleaseNotificationHistory),
               CreatedColumns(ReleaseNotificationHistory))
    case 12 => AppendColumn(db, ReleaseNoteCache, Expected11(ReleaseNoteCache).value,
                            DefaultColumn(Body, TextType, EmptyText))
    case 13 => AppendColumn(db, ReleaseNoteCache, Expected12(ReleaseNoteCache).value,
                            DefaultColumn(TargetDigest, TextType, EmptyText))
    case 14 => Ok(db)
    case _ => AddTable(db, ReleaseSkips, ExpectedSchema(ReleaseSkips), CreatedColumns(ReleaseSkips))
  }

  /** One migration: the table changes, the new version, and its row in `schema_migrations`. */
  function Migrate(target: int, db: Database, now: string): Result<Database, DatabaseError>
    requires 2 <= target <= SCHEMA_VERSION
  {
    var changed :- ChangeTables(target, db);
    RecordSchemaMigration(changed.(version := target), target, now)
  }

  // ---------- What a migration keeps ----------

  /** Every table is still there with its columns first; rows keep their old cells, and none is lost. */
  ghost predicate Kept(a: Database, b: Database) {
    forall t :: t in a.objects ==> t in b.objects && ObjectKept(t, a.objects[t], b.objects[t])
  }

  ghost predicate ObjectKept(t: TableName, a: SqlObject, b: SqlObject) {
    if a.OtherObject? then b == a
    else
      && b.Table? && a.columns <= b.columns
      && (forall k :: k in a.rows ==> k in b.rows && a.rows[k] <= b.rows[k])
      && (t.SchemaMigrations? || b.rows.Keys == a.rows.Keys)
  }

  lemma KeptTransitive(a: Database, b: Database, c: Database)
    requires Kept(a, b) && Kept(b, c)
    ensures Kept(a, c)
  {
    forall t | t in a.objects ensures t in c.objects && ObjectKept(t, a.objects[t], c.objects[t]) {
      assert ObjectKept(t, a.objects[t], b.objects[t]);
      assert ObjectKept(t, b.objects[t], c.objects[t]);
    }
  }

  /** The table `t` is there with these columns. */
  ghost predicate HasTable(db: Database, t: TableName, columns: seq<Column>) {
    t in db.objects && db.objects[t].Table? && db.objects[t].columns == columns
  }

  /** The columns a table may already have when the migration that introduces it runs. */
  function EarlyColumns(t: TableName): seq<Column> {
    match t
    case ReleaseNoteCache => RELEASE_NOTE_CACHE_V5_COLUMNS
    case SecurityScanCache => SECURITY_SCAN_CACHE_V9_COLUMNS
    case _ => ExpectedSchema(t)
  }

  /**
   A database of the given version whose tables have that version's columns. A table that a
   later migration introduces may be there early, with the columns that migration validates;
   only `pending_updates` may not.
   */
  ghost predicate Conforms(db: Database, version: int)
    requires 1 <= version <= SCHEMA_VERSION
  {
    db.version == version && TablesConform(db, version)
  }

  ghost predicate TablesConform(db: Database, version: int)
    requires 1 <= version <= SCHEMA_VERSION
  {
    forall t :: TableConforms(db, version, t)
  }

  ghost predicate TableConforms(db: Database, version: int, t: TableName)
    requires 1 <= version <= SCHEMA_VERSION
  {
    match Expected(version, t)
    case Some(columns) => HasTable(db, t, columns)
    case None => t !in db.objects || (!t.PendingUpdates? && HasTable(db, t, EarlyColumns(t)))
  }

  ghost predicate RowsRecorded(db: Database, last: int) {
    && HasTable(db, SchemaMigrations, ExpectedSchema(SchemaMigrations))
    && forall k :: 1 <= k <= last ==> IntCell(k) in db.objects[SchemaMigrations].rows
  }

  // ---------- The columns agree ----------

  /** A new database's `CREATE TABLE` statements declare the expected columns. */
  lemma DeclaredIsExpected(t: TableName)
    ensures CreatedColumns(t) == ExpectedSchema(t)
  {
    if t.UpdateRuns? || t.UpdateEvents? || t.Snoozes? || t.ServicePolicy? || t.KnownImages? || t.PendingUpdates? {
      DeclaredState(t);
    } else {
      DeclaredOther(t);
    }
  }

  lemma DeclaredState(t: TableName)
    requires t.UpdateRuns? || t.UpdateEvents? || t.Snoozes? || t.ServicePolicy? || t.KnownImages? || t.PendingUpdates?
    ensures CreatedColumns(t) == ExpectedSchema(t)
  {
    match t
    case _ =>
  }

  lemma DeclaredOther(t: TableName)
    requires !(t.UpdateRuns? || t.UpdateEvents? || t.Snoozes? || t.ServicePolicy? || t.KnownImages? || t.PendingUpdates?)
    ensures CreatedColumns(t) == ExpectedSchema(t)
  {
    match t
    case SecurityScanCache => assert CreatedColumns(t) == ExpectedSchema(t);
    case _ =>
  }

  lemma {:induction false} WithoutConcat(a: seq<Column>, b: seq<Column>, names: set<ColumnName>)
    ensures Without(a + b, names) == Without(a, names) + Without(b, names)
  {
    if a == [] {
      assert a + b == b;
    } else {
      WithoutConcat(a[1..], b, names);
      var head := if a[0].name in names then [] else [a[0]];
      assert (a + b)[1..] == a[1..] + b && (a + b)[0] == a[0];
      Regroup(head, Without(a[1..], names), Without(b, names));
    }
  }

  lemma Regroup(a: seq<Column>, b: seq<Column>, c: seq<Column>)
    ensures a + (b + c) == a + b + c
  {
  }

  lemma {:induction false} WithoutNone(a: seq<Column>, names: set<ColumnName>)
    requires forall i :: 0 <= i < |a| ==> a[i].name !in names
    ensures Without(a, names) == a
  {
    if a != [] { WithoutNone(a[1..], names); }
  }

  lemma {:induction false} WithoutAll(a: seq<Column>, names: set<ColumnName>)
    requires forall i :: 0 <= i < |a| ==> a[i].name in names
    ensures Without(a, names) == []
  {
    if a != [] { WithoutAll(a[1..], names); }
  }

  /** Dropping a suffix of named columns leaves the columns before it. */
  lemma WithoutSuffix(a: seq<Column>, b: seq<Column>, names: set<ColumnName>)
    requires forall i :: 0 <= i < |a| ==> a[i].name !in names
    requires forall i :: 0 <= i < |b| ==> b[i].name in names
    ensures Without(a + b, names) == a
  {
    WithoutConcat(a, b, names);
    WithoutNone(a, names);
    WithoutAll(b, names);
    assert a + [] == a;
  }

  lemma ProvenanceColumns(t: TableName) returns (base: seq<Column>)
    requires t.PendingUpdates? || t.UpdateEvents? || t.KnownImages?
    ensures Expected6(t) == Some(base) && Expected7(t) == Some(base + DeclaredDigestColumns())
    ensures t.PendingUpdates? ==> base == PENDING_UPDATES_V2_COLUMNS
    ensures forall i :: 0 <= i < |base| ==> base[i].name !in DIGEST_COLUMNS
  {
    var columns := ExpectedSchema(t);
    base := columns[..|columns| - 7];
    assert DeclaredDigestColumns() == DIGEST_PROVENANCE_COLUMN_SCHEMA;
    assert columns == base + DIGEST_PROVENANCE_COLUMN_SCHEMA;
    WithoutSuffix(base, DIGEST_PROVENANCE_COLUMN_SCHEMA, DIGEST_COLUMNS);
  }

  lemma ReleaseNoteColumns()
    ensures Expected11(ReleaseNoteCache) == Some(RELEASE_NOTE_CACHE_V5_COLUMNS)
    ensures Expected12(ReleaseNoteCache) == Some(RELEASE_NOTE_CACHE_V5_COLUMNS + [RELEASE_NOTE_BODY_COLUMN])
    ensures Expected14(ReleaseNoteCache)
         == Some(RELEASE_NOTE_CACHE_V5_COLUMNS + [RELEASE_NOTE_BODY_COLUMN] + [RELEASE_NOTE_TARGET_DIGEST_COLUMN])
  {
    var v5 := RELEASE_NOTE_CACHE_V5_COLUMNS;
    assert ExpectedSchema(ReleaseNoteCache)
        == v5 + [RELEASE_NOTE_BODY_COLUMN] + [RELEASE_NOTE_TARGET_DIGEST_COLUMN];
    WithoutSuffix(v5 + [RELEASE_NOTE_BODY_COLUMN], [RELEASE_NOTE_TARGET_DIGEST_COLUMN], {TargetDigest});
    WithoutSuffix(v5, [RELEASE_NOTE_BODY_COLUMN], {Body});
  }

  lemma ScanCacheColumns()
    ensures Expected9(SecurityScanCache) == Some(SECURITY_SCAN_CACHE_V9_COLUMNS)
    ensures Expected10(SecurityScanCache)
         == Some(SECURITY_SCAN_CACHE_V9_COLUMNS + [SECURITY_SCAN_CACHE_FINDINGS_COLUMN])
  {
    assert ExpectedSchema(SecurityScanCache)
        == SECURITY_SCAN_CACHE_V9_COLUMNS + [SECURITY_SCAN_CACHE_FINDINGS_COLUMN];
    WithoutSuffix(SECURITY_SCAN_CACHE_V9_COLUMNS, [SECURITY_SCAN_CACHE_FINDINGS_COLUMN], {FindingsJson});
  }

  lemma PolicyColumns() returns (base: seq<Column>)
    ensures Expected5(ServicePolicy) == Some(base) && Expected6(ServicePolicy) == Some(base + SCHEDULE_COLUMNS)
    ensures forall i :: 0 <= i < |base| ==> base[i].name !in {AutoUpdateTime, AutoUpdateDaysJson}
  {
    var columns := ExpectedSchema(ServicePolicy);
    base := columns[..7];
    assert columns == base + SCHEDULE_COLUMNS;
    WithoutSuffix(base, SCHEDULE_COLUMNS, {AutoUpdateTime, AutoUpdateDaysJson});
  }

  // ---------- Each migration leads to the next version's schema ----------

  ghost predicate OnlyChanges(target: int, t: TableName)
    requires 2 <= target <= SCHEMA_VERSION
  {
    forall u :: u != t ==> Expected(target - 1, u) == Expected(target, u)
  }

  /** What the table changes of a migration must establish. */
  ghost predicate Leads(target: int, db: Database, result: Result<Database, DatabaseError>)
    requires 2 <= target <= SCHEMA_VERSION
  {
    && result.Ok? && TablesConform(result.value, target) && Kept(db, result.value)
    && (SchemaMigrations in db.objects ==>
          SchemaMigrations in result.value.objects
          && result.value.objects[SchemaMigrations] == db.objects[SchemaMigrations])
  }

  lemma AddTableLeads(target: int, db: Database, t: TableName, expected: seq<Column>, created: seq<Column>)
    requires 2 <= target <= SCHEMA_VERSION && TablesConform(db, target - 1) && !t.SchemaMigrations?
    requires Expected(target - 1, t).None? && Expected(target, t) == Some(created) && OnlyChanges(target, t)
    requires t.PendingUpdates? || expected == created == EarlyColumns(t)
    ensures Leads(target, db, AddTable(db, t, expected, created))
  {
    hide ExpectedSchema, Expected, EarlyColumns;
    assert TableConforms(db, target - 1, t);
    var result := CreateTable(db, t, created);
    assert AddTable(db, t, expected, created) == Ok(result);
    hide AddTable;
    forall u ensures TableConforms(result, target, u) {
      assert TableConforms(db, target - 1, u);
    }
  }

  ghost predicate FreshNames(base: seq<Column>, columns: seq<Column>) {
    && (forall i, j :: 0 <= i < |base| && 0 <= j < |columns| ==> base[i].name != columns[j].name)
    && forall i, j :: 0 <= i < j < |columns| ==> columns[i].name != columns[j].name
  }

  /** `r` is `db` with `columns` appended to the one table. */
  ghost predicate Appended(db: Database, r: Database, t: TableName, base: seq<Column>, columns: seq<Column>) {
    && r.version == db.version && r.objects.Keys == db.objects.Keys
    && HasTable(db, t, base) && HasTable(r, t, base + columns) && ObjectKept(t, db.objects[t], r.objects[t])
    && (forall k :: k in r.objects[t].rows ==> k in db.objects[t].rows)
    && forall u :: u in db.objects && u != t ==> r.objects[u] == db.objects[u]
  }

  lemma AppendedTwice(a: Database, b: Database, c: Database, t: TableName, base: seq<Column>,
                      first: seq<Column>, second: seq<Column>)
    requires Appended(a, b, t, base, first) && Appended(b, c, t, base + first, second)
    ensures Appended(a, c, t, base, first + second)
  {
    Regroup(base, first, second);
  }

  lemma AddColumnOk(db: Database, t: TableName, base: seq<Column>, c: Column)
    requires HasTable(db, t, base) && forall i :: 0 <= i < |base| ==> base[i].name != c.name
    ensures AddColumn(db, t, c).Ok? && Appended(db, AddColumn(db, t, c).value, t, base, [c])
  {
  }

  /** `ALTER TABLE` statements succeed on new names and only append to the one table. */
  lemma {:induction false} AddColumnsOk(db: Database, t: TableName, base: seq<Column>, columns: seq<Column>)
    requires HasTable(db, t, base) && FreshNames(base, columns)
    ensures AddColumns(db, t, columns).Ok? && Appended(db, AddColumns(db, t, columns).value, t, base, columns)
    decreases |columns|
  {
    if columns == [] {
      assert base + columns == base;
    } else {
      var c := columns[0];
      AddColumnOk(db, t, base, c);
      var next := AddColumn(db, t, c).value;
      assert FreshNames(base + [c], columns[1..]);
      AddColumnsOk(next, t, base + [c], columns[1..]);
      hide AddColumn, Appended, FreshNames;
      AppendedTwice(db, next, AddColumns(next, t, columns[1..]).value, t, base, [c], columns[1..]);
      assert [c] + columns[1..] == columns;
    }
  }

  lemma AppendedKept(db: Database, r: Database, t: TableName, base: seq<Column>, columns: seq<Column>)
    requires Appended(db, r, t, base, columns)
    ensures Kept(db, r)
  {
    forall u | u in db.objects ensures u in r.objects && ObjectKept(u, db.objects[u], r.objects[u]) {
      if u != t { assert r.objects[u] == db.objects[u]; }
    }
  }

  lemma AppendedLeads(target: int, db: Database, r: Database, t: TableName, base: seq<Column>,
                      columns: seq<Column>)
    requires 2 <= target <= SCHEMA_VERSION && TablesConform(db, target - 1) && !t.SchemaMigrations?
    requires Expected(target, t) == Some(base + columns) && OnlyChanges(target, t)
    requires Appended(db, r, t, base, columns)
    ensures Leads(target, db, Ok(r))
  {
    hide Expected, Kept, ObjectKept;
    AppendedKept(db, r, t, base, columns);
    forall u ensures TableConforms(r, target, u) {
      assert TableConforms(db, target - 1, u);
    }
  }

  lemma AppendColumnLeads(target: int, db: Database, t: TableName, base: seq<Column>, c: Column)
    requires 2 <= target <= SCHEMA_VERSION && TablesConform(db, target - 1) && !t.SchemaMigrations?
    requires Expected(target - 1, t) == Some(base) && Expected(target, t) == Some(base + [c])
    requires OnlyChanges(target, t) && forall i :: 0 <= i < |base| ==> base[i].name != c.name
    ensures Leads(target, db, AppendColumn(db, t, base, c))
  {
    hide Expected;
    hide AddColumn, Appended, OnlyChanges, Leads;
    assert TableConforms(db, target - 1, t);
    AddColumnOk(db, t, base, c);
    AppendedLeads(target, db, AddColumn(db, t, c).value, t, base, [c]);
  }

  predicate IsWebTable(t: TableName) {
    t.WebUsers? || t.WebSessions? || t.WebSettings?
  }

  lemma WebExpectations(u: TableName)
    ensures IsWebTable(u) ==> Expected(3, u).None? && Expected(4, u) == Some(CreatedColumns(u))
    ensures u.SchemaMigrations? ==> Expected(3, u).None? && Expected(4, u) == Some(ExpectedSchema(u))
    ensures !IsWebTable(u) && !u.SchemaMigrations? ==> Expected(3, u) == Expected(4, u)
  {
    hide ExpectedSchema, CreatedColumns, Without;
    DeclaredIsExpected(u);
  }

  /** The three tables are added where they are missing; nothing else changes. */
  lemma WebTablesAdded(db: Database) returns (r: Database)
    requires forall u :: IsWebTable(u) && u in db.objects ==> HasTable(db, u, ExpectedSchema(u))
    ensures AddWebTables(db) == Ok(r) && r.version == db.version
    ensures forall u :: u in db.objects ==> u in r.objects && r.objects[u] == db.objects[u]
    ensures forall u :: u in r.objects && u !in db.objects ==> IsWebTable(u)
    ensures forall u :: IsWebTable(u) ==> HasTable(r, u, ExpectedSchema(u))
  {
    hide CreatedColumns, ExpectedSchema;
    DeclaredIsExpected(WebUsers);
    DeclaredIsExpected(WebSessions);
    DeclaredIsExpected(WebSettings);
    assert IsWebTable(WebUsers) && IsWebTable(WebSessions) && IsWebTable(WebSettings);
    assert AddWebTables(db).Ok?;
    r := AddWebTables(db).value;
  }

  lemma WebTablesLead(db: Database)
    requires TablesConform(db, 3) && HasTable(db, SchemaMigrations, ExpectedSchema(SchemaMigrations))
    ensures Leads(4, db, AddWebTables(db))
  {
    hide Expected, CreatedColumns, ExpectedSchema, AddWebTables;
    forall u | IsWebTable(u) && u in db.objects ensures HasTable(db, u, ExpectedSchema(u)) {
      assert TableConforms(db, 3, u);
      WebExpectations(u);
    }
    var result := WebTablesAdded(db);
    forall u ensures TableConforms(result, 4, u) {
      assert TableConforms(db, 3, u);
      WebExpectations(u);
      if IsWebTable(u) { DeclaredIsExpected(u); }
    }
  }

  lemma FreshPolicy(base: seq<Column>)
    requires forall i :: 0 <= i < |base| ==> base[i].name !in {AutoUpdateTime, AutoUpdateDaysJson}
    ensures FreshNames(base, SCHEDULE_COLUMNS)
  {
  }

  lemma DigestNames(i: nat, j: nat)
    requires i < |DIGEST_PROVENANCE_SQL_COLUMNS| && j < |DIGEST_PROVENANCE_SQL_COLUMNS|
    ensures DIGEST_PROVENANCE_SQL_COLUMNS[i] in DIGEST_COLUMNS
    ensures i != j ==> DIGEST_PROVENANCE_SQL_COLUMNS[i] != DIGEST_PROVENANCE_SQL_COLUMNS[j]
  {
  }

  lemma FreshProvenance(base: seq<Column>)
    requires forall i :: 0 <= i < |base| ==> base[i].name !in DIGEST_COLUMNS
    ensures FreshNames(base, DeclaredDigestColumns())
  {
    var columns := DeclaredDigestColumns();
    forall i, j | 0 <= i < |base| && 0 <= j < |columns| ensures base[i].name != columns[j].name {
      DigestNames(j, j);
    }
    forall i, j | 0 <= i < j < |columns| ensures columns[i].name != columns[j].name {
      DigestNames(i, j);
    }
  }

  lemma PendingUpdatesLead(db: Database)
    requires TablesConform(db, 1)
    ensures Leads(2, db, ChangeTables(2, db))
  {
    hide ExpectedSchema, CreatedColumns, Without, AddTable, Leads, TablesConform;
    var base := ProvenanceColumns(PendingUpdates);
    assert Expected(2, PendingUpdates) == Expected6(PendingUpdates);
    AddTableLeads(2, db, PendingUpdates, ExpectedSchema(PendingUpdates), PENDING_UPDATES_V2_COLUMNS);
  }

  lemma TagExclusionsLead(db: Database)
    requires TablesConform(db, 2)
    ensures Leads(3, db, ChangeTables(3, db))
  {
    hide ExpectedSchema, CreatedColumns, Without, AddTable, Leads, TablesConform;
    DeclaredIsExpected(TagExclusionRules);
    AddTableLeads(3, db, TagExclusionRules, ExpectedSchema(TagExclusionRules), CreatedColumns(TagExclusionRules));
  }

  lemma ReleaseNotesLead(db: Database)
    requires TablesConform(db, 4)
    ensures Leads(5, db, ChangeTables(5, db))
  {
    hide ExpectedSchema, CreatedColumns, Without, AddTable, Leads, TablesConform;
    ReleaseNoteColumns();
    AddTableLeads(5, db, ReleaseNoteCache, Expected11(ReleaseNoteCache).value, RELEASE_NOTE_CACHE_V5_COLUMNS);
  }

  lemma DependencySnoozesLead(db: Database)
    requires TablesConform(db, 7)
    ensures Leads(8, db, ChangeTables(8, db))
  {
    hide ExpectedSchema, CreatedColumns, Without, AddTable, Leads, TablesConform;
    DeclaredIsExpected(DependencySnoozes);
    AddTableLeads(8, db, DependencySnoozes, ExpectedSchema(DependencySnoozes), CreatedColumns(DependencySnoozes));
  }

  lemma ScanCacheLeads(db: Database)
    requires TablesConform(db, 8)
    ensures Leads(9, db, ChangeTables(9, db))
  {
    hide ExpectedSchema, CreatedColumns, Without, AddTable, Leads, TablesConform;
    ScanCacheColumns();
    AddTableLeads(9, db, SecurityScanCache, Expected9(SecurityScanCache).value, SECURITY_SCAN_CACHE_V9_COLUMNS);
  }

  lemma NotificationsLead(db: Database)
    requires TablesConform(db, 10)
    ensures Leads(11, db, ChangeTables(11, db))
  {
    hide ExpectedSchema, CreatedColumns, Without, AddTable, Leads, TablesConform;
    DeclaredIsExpected(ReleaseNotificationHistory);
    AddTableLeads(11, db, ReleaseNotificationHistory, ExpectedSchema(ReleaseNotificationHistory),
                  CreatedColumns(ReleaseNotificationHistory));
  }

  lemma IndexLeads(db: Database)
    requires TablesConform(db, 13)
    ensures Leads(14, db, ChangeTables(14, db))
  {
    forall u ensures TableConforms(db, 14, u) {
      assert TableConforms(db, 13, u);
    }
  }

  lemma ReleaseSkipsLead(db: Database)
    requires TablesConform(db, 14)
    ensures Leads(15, db, ChangeTables(15, db))
  {
    hide ExpectedSchema, CreatedColumns, Without, AddTable, Leads, TablesConform;
    DeclaredIsExpected(ReleaseSkips);
    AddTableLeads(15, db, ReleaseSkips, ExpectedSchema(ReleaseSkips), CreatedColumns(ReleaseSkips));
  }

  lemma ScheduleExpectations(u: TableName)
    ensures u.AutoUpdateScheduleRuns? ==>
              Expected(5, u).None? && Expected(6, u) == Some(CreatedColumns(u)) && CreatedColumns(u) == ExpectedSchema(u)
    ensures !u.AutoUpdateScheduleRuns? && !u.ServicePolicy? ==> Expected(5, u) == Expected(6, u)
  {
    hide ExpectedSchema, CreatedColumns, Without;
    DeclaredIsExpected(u);
  }

  lemma PolicyExpectations() returns (base: seq<Column>)
    ensures Expected5(ServicePolicy) == Some(base) && Expected(5, ServicePolicy) == Some(base)
    ensures Expected(6, ServicePolicy) == Some(base + SCHEDULE_COLUMNS)
    ensures FreshNames(base, SCHEDULE_COLUMNS)
  {
    hide ExpectedSchema, Without;
    base := PolicyColumns();
    FreshPolicy(base);
  }

  lemma SchedulesLead(db: Database)
    requires TablesConform(db, 5)
    ensures Leads(6, db, AddSchedules(db))
  {
    hide CreatedColumns, ExpectedSchema, FreshNames;
    var base := PolicyExpectations();
    ScheduleExpectations(AutoUpdateScheduleRuns);
    assert TableConforms(db, 5, ServicePolicy) && TableConforms(db, 5, AutoUpdateScheduleRuns);
    hide Expected, Expected5, AddColumns;
    AddColumnsOk(db, ServicePolicy, base, SCHEDULE_COLUMNS);
    var altered := AddColumns(db, ServicePolicy, SCHEDULE_COLUMNS).value;
    assert AddSchedules(db) == Ok(CreateTable(altered, AutoUpdateScheduleRuns,
                                              CreatedColumns(AutoUpdateScheduleRuns)));
    hide AddSchedules;
    SchedulesConform(db, altered, base);
  }

  lemma SchedulesConform(db: Database, altered: Database, base: seq<Column>)
    requires TablesConform(db, 5) && Appended(db, altered, ServicePolicy, base, SCHEDULE_COLUMNS)
    requires Expected(6, ServicePolicy) == Some(base + SCHEDULE_COLUMNS)
    ensures Leads(6, db, Ok(CreateTable(altered, AutoUpdateScheduleRuns, CreatedColumns(AutoUpdateScheduleRuns))))
  {
    hide CreatedColumns, ExpectedSchema, Expected;
    var result := CreateTable(altered, AutoUpdateScheduleRuns, CreatedColumns(AutoUpdateScheduleRuns));
    forall u ensures TableConforms(result, 6, u) {
      assert TableConforms(db, 5, u);
      ScheduleExpectations(u);
    }
  }

  predicate IsProvenanceTable(t: TableName) {
    t.PendingUpdates? || t.UpdateEvents? || t.KnownImages?
  }

  lemma ProvenanceExpectations(u: TableName)
    ensures !IsProvenanceTable(u) ==> Expected(6, u) == Expected(7, u)
  {
    hide ExpectedSchema, Without;
  }

  lemma ProvenanceTableExpectations(t: TableName) returns (base: seq<Column>)
    requires IsProvenanceTable(t)
    ensures Expected6(t) == Some(base) && Expected(6, t) == Some(base)
    ensures Expected(7, t) == Some(base + DeclaredDigestColumns())
    ensures FreshNames(base, DeclaredDigestColumns())
  {
    hide ExpectedSchema, Without;
    base := ProvenanceColumns(t);
    FreshProvenance(base);
  }

  /** One table's turn in the migration to version 7. */
  lemma ProvenanceTable(db: Database, t: TableName) returns (base: seq<Column>)
    requires IsProvenanceTable(t) && Expected6(t).Some? && HasTable(db, t, Expected6(t).value)
    ensures Expected(6, t) == Some(base) && Expected(7, t) == Some(base + DeclaredDigestColumns())
    ensures ValidateVersion6(db, t).Ok? && AddColumns(db, t, DeclaredDigestColumns()).Ok?
    ensures Appended(db, AddColumns(db, t, DeclaredDigestColumns()).value, t, base, DeclaredDigestColumns())
  {
    hide Expected, Expected6, FreshNames, AddColumns, DeclaredDigestColumns;
    base := ProvenanceTableExpectations(t);
    AddColumnsOk(db, t, base, DeclaredDigestColumns());
  }

  /** The three tables in turn; each step leaves the other two alone. */
  lemma ProvenanceSteps(db: Database) returns (a: Database, b: Database, c: Database,
                                              base1: seq<Column>, base2: seq<Column>, base3: seq<Column>)
    requires TablesConform(db, 6)
    ensures Expected(7, PendingUpdates) == Some(base1 + DeclaredDigestColumns())
    ensures Expected(7, UpdateEvents) == Some(base2 + DeclaredDigestColumns())
    ensures Expected(7, KnownImages) == Some(base3 + DeclaredDigestColumns())
    ensures Appended(db, a, PendingUpdates, base1, DeclaredDigestColumns())
    ensures Appended(a, b, UpdateEvents, base2, DeclaredDigestColumns())
    ensures Appended(b, c, KnownImages, base3, DeclaredDigestColumns())
    ensures AddProvenance(db) == Ok(c)
  {
    hide Expected, AddColumns, DeclaredDigestColumns, ExpectedSchema, Without;
    hide Expected6, FreshNames;
    assert TableConforms(db, 6, PendingUpdates) && TableConforms(db, 6, UpdateEvents)
        && TableConforms(db, 6, KnownImages);
    base1 := ProvenanceTableExpectations(PendingUpdates);
    base2 := ProvenanceTableExpectations(UpdateEvents);
    base3 := ProvenanceTableExpectations(KnownImages);
    var digest := DeclaredDigestColumns();
    base1 := ProvenanceTable(db, PendingUpdates);
    a := AddColumns(db, PendingUpdates, digest).value;
    base2 := ProvenanceTable(a, UpdateEvents);
    b := AddColumns(a, UpdateEvents, digest).value;
    base3 := ProvenanceTable(b, KnownImages);
    c := AddColumns(b, KnownImages, digest).value;
    assert TableColumns(db, UpdateEvents) == TableColumns(a, UpdateEvents);
    assert TableColumns(db, KnownImages) == TableColumns(b, KnownImages);
  }

  /** An append leaves every other table as it was, present or not. */
  lemma AppendedElsewhere(db: Database, r: Database, t: TableName, base: seq<Column>, columns: seq<Column>,
                          u: TableName)
    requires Appended(db, r, t, base, columns) && u != t
    ensures u in db.objects <==> u in r.objects
    ensures u in db.objects ==> r.objects[u] == db.objects[u]
  {
  }

  lemma ConformsElsewhere(db: Database, c: Database, u: TableName)
    requires TableConforms(db, 6, u) && !IsProvenanceTable(u)
    requires (u in db.objects <==> u in c.objects) && (u in db.objects ==> c.objects[u] == db.objects[u])
    ensures TableConforms(c, 7, u)
  {
    hide Expected;
    ProvenanceExpectations(u);
  }

  lemma AppendedHas(a: Database, b: Database, t: TableName, base: seq<Column>, columns: seq<Column>)
    requires Appended(a, b, t, base, columns)
    ensures HasTable(b, t, base + columns)
  {
  }

  lemma ProvenanceConforms(db: Database, u: TableName, a: Database, b: Database, c: Database,
                           base1: seq<Column>, base2: seq<Column>, base3: seq<Column>, digest: seq<Column>)
    requires TableConforms(db, 6, u)
    requires Expected(7, PendingUpdates) == Some(base1 + digest)
    requires Expected(7, UpdateEvents) == Some(base2 + digest)
    requires Expected(7, KnownImages) == Some(base3 + digest)
    requires Appended(db, a, PendingUpdates, base1, digest)
    requires Appended(a, b, UpdateEvents, base2, digest)
    requires Appended(b, c, KnownImages, base3, digest)
    ensures TableConforms(c, 7, u)
  {
    hide Expected, Appended;
    AppendedHas(db, a, PendingUpdates, base1, digest);
    AppendedHas(a, b, UpdateEvents, base2, digest);
    AppendedHas(b, c, KnownImages, base3, digest);
    AppendedElsewhere(b, c, KnownImages, base3, digest, PendingUpdates);
    AppendedElsewhere(a, b, UpdateEvents, base2, digest, PendingUpdates);
    AppendedElsewhere(b, c, KnownImages, base3, digest, UpdateEvents);
    if !IsProvenanceTable(u) {
      AppendedElsewhere(db, a, PendingUpdates, base1, digest, u);
      AppendedElsewhere(a, b, UpdateEvents, base2, digest, u);
      AppendedElsewhere(b, c, KnownImages, base3, digest, u);
      ConformsElsewhere(db, c, u);
    }
  }

  lemma ProvenanceLeads(db: Database)
    requires TablesConform(db, 6)
    ensures Leads(7, db, AddProvenance(db))
  {
    hide AddProvenance, ExpectedSchema, Without, DeclaredDigestColumns, Expected, Appended, TableConforms;
    hide Kept;
    var a, b, c, base1, base2, base3 := ProvenanceSteps(db);
    var digest := DeclaredDigestColumns();
    AppendedKept(db, a, PendingUpdates, base1, digest);
    AppendedKept(a, b, UpdateEvents, base2, digest);
    AppendedKept(b, c, KnownImages, base3, digest);
    AppendedElsewhere(db, a, PendingUpdates, base1, digest, SchemaMigrations);
    AppendedElsewhere(a, b, UpdateEvents, base2, digest, SchemaMigrations);
    AppendedElsewhere(b, c, KnownImages, base3, digest, SchemaMigrations);
    KeptTransitive(db, a, b);
    KeptTransitive(db, b, c);
    forall u ensures TableConforms(c, 7, u) {
      ProvenanceConforms(db, u, a, b, c, base1, base2, base3, digest);
    }
  }

  lemma OnlyFindings()
    ensures OnlyChanges(10, SecurityScanCache)
  {
    hide ExpectedSchema, Without;
  }

  lemma FindingsAreNew()
    ensures forall i :: 0 <= i < |SECURITY_SCAN_CACHE_V9_COLUMNS| ==>
              SECURITY_SCAN_CACHE_V9_COLUMNS[i].name != FindingsJson
  {
  }

  lemma FindingsExpectations() returns (base: seq<Column>)
    ensures Expected9(SecurityScanCache) == Some(base) && Expected(9, SecurityScanCache) == Some(base)
    ensures Expected(10, SecurityScanCache) == Some(base + [SECURITY_SCAN_CACHE_FINDINGS_COLUMN])
    ensures OnlyChanges(10, SecurityScanCache)
    ensures forall i :: 0 <= i < |base| ==> base[i].name != FindingsJson
  {
    hide ExpectedSchema, Without, OnlyChanges;
    ScanCacheColumns();
    FindingsAreNew();
    OnlyFindings();
    base := SECURITY_SCAN_CACHE_V9_COLUMNS;
  }

  lemma ScanFindingsLead(db: Database)
    requires TablesConform(db, 9)
    ensures Leads(10, db, AppendColumn(db, SecurityScanCache, Expected9(SecurityScanCache).value,
                                       DefaultColumn(FindingsJson, TextType, EmptyArray)))
  {
    hide Expected, Expected9, OnlyChanges;
    var base := FindingsExpectations();
    AppendColumnLeads(10, db, SecurityScanCache, base, SECURITY_SCAN_CACHE_FINDINGS_COLUMN);
  }

  lemma OnlyReleaseNotes()
    ensures OnlyChanges(12, ReleaseNoteCache) && OnlyChanges(13, ReleaseNoteCache)
  {
    hide ExpectedSchema, Without;
  }

  lemma ReleaseNotesAreNew()
    ensures forall i :: 0 <= i < |RELEASE_NOTE_CACHE_V5_COLUMNS| ==>
              RELEASE_NOTE_CACHE_V5_COLUMNS[i].name != Body
              && RELEASE_NOTE_CACHE_V5_COLUMNS[i].name != TargetDigest
  {
  }

  lemma ReleaseNoteExpectations() returns (base: seq<Column>)
    ensures Expected11(ReleaseNoteCache) == Some(base) && Expected(11, ReleaseNoteCache) == Some(base)
    ensures Expected12(ReleaseNoteCache) == Some(base + [RELEASE_NOTE_BODY_COLUMN])
    ensures Expected(12, ReleaseNoteCache) == Some(base + [RELEASE_NOTE_BODY_COLUMN])
    ensures Expected(13, ReleaseNoteCache)
         == Some(base + [RELEASE_NOTE_BODY_COLUMN] + [RELEASE_NOTE_TARGET_DIGEST_COLUMN])
    ensures OnlyChanges(12, ReleaseNoteCache) && OnlyChanges(13, ReleaseNoteCache)
    ensures forall i :: 0 <= i < |base| ==> base[i].name != Body && base[i].name != TargetDigest
  {
    hide ExpectedSchema, Without, OnlyChanges;
    ReleaseNoteColumns();
    ReleaseNotesAreNew();
    OnlyReleaseNotes();
    base := RELEASE_NOTE_CACHE_V5_COLUMNS;
  }

  lemma ReleaseBodiesLead(db: Database)
    requires TablesConform(db, 11)
    ensures Leads(12, db, AppendColumn(db, ReleaseNoteCache, Expected11(ReleaseNoteCache).value,
                                       DefaultColumn(Body, TextType, EmptyText)))
  {
    hide Expected, Expected11, OnlyChanges;
    var base := ReleaseNoteExpectations();
    AppendColumnLeads(12, db, ReleaseNoteCache, base, RELEASE_NOTE_BODY_COLUMN);
  }

  lemma ReleaseDigestsLead(db: Database)
    requires TablesConform(db, 12)
    ensures Leads(13, db, AppendColumn(db, ReleaseNoteCache, Expected12(ReleaseNoteCache).value,
                                       DefaultColumn(TargetDigest, TextType, EmptyText)))
  {
    hide Expected, Expected12, OnlyChanges;
    var base := ReleaseNoteExpectations();
    AppendColumnLeads(13, db, ReleaseNoteCache, base + [RELEASE_NOTE_BODY_COLUMN],
                      RELEASE_NOTE_TARGET_DIGEST_COLUMN);
  }

  /** Each migration, from a database holding exactly the tables of the version before. */
  lemma ChangeTablesLeads(target: int, db: Database)
    requires 2 <= target <= SCHEMA_VERSION && TablesConform(db, target - 1)
    requires HasTable(db, SchemaMigrations, ExpectedSchema(SchemaMigrations))
    ensures Leads(target, db, ChangeTables(target, db))
  {
    hide Leads, TablesConform, HasTable, AddTable, AppendColumn, AddWebTables, AddSchedules, AddProvenance;
    hide ExpectedSchema, CreatedColumns, Expected5, Expected6, Expected9, Expected11, Expected12;
    match target
    case 2 => PendingUpdatesLead(db);
    case 3 => TagExclusionsLead(db);
    case 4 => WebTablesLead(db);
    case 5 => ReleaseNotesLead(db);
    case 6 => SchedulesLead(db);
    case 7 => ProvenanceLeads(db);
    case 8 => DependencySnoozesLead(db);
    case 9 => ScanCacheLeads(db);
    case 10 => ScanFindingsLead(db);
    case 11 => NotificationsLead(db);
    case 12 => ReleaseBodiesLead(db);
    case 13 => ReleaseDigestsLead(db);
    case 14 => IndexLeads(db);
    case _ => ReleaseSkipsLead(db);
  }

  // ---------- The migration table ----------

  /** `r` differs from `db` in rows added to `schema_migrations` only. */
  ghost predicate RowsAdded(db: Database, r: Database) {
    && r.version == db.version && r.objects.Keys == db.objects.Keys
    && HasTable(db, SchemaMigrations, ExpectedSchema(SchemaMigrations))
    && HasTable(r, SchemaMigrations, ExpectedSchema(SchemaMigrations))
    && (forall t :: t in db.objects && t != SchemaMigrations ==> r.objects[t] == db.objects[t])
    && (forall k :: k in db.objects[SchemaMigrations].rows ==>
          k in r.objects[SchemaMigrations].rows
          && r.objects[SchemaMigrations].rows[k] == db.objects[SchemaMigrations].rows[k])
  }

  lemma RowsAddedKept(db: Database, r: Database)
    requires RowsAdded(db, r)
    ensures Kept(db, r)
  {
    forall t | t in db.objects ensures t in r.objects && ObjectKept(t, db.objects[t], r.objects[t]) {
      if t != SchemaMigrations { assert r.objects[t] == db.objects[t]; }
    }
  }

  lemma RowsAddedConforms(db: Database, r: Database, version: int)
    requires 1 <= version <= SCHEMA_VERSION && RowsAdded(db, r) && TablesConform(db, version)
    ensures TablesConform(r, version)
  {
    hide Expected, ExpectedSchema;
    forall t ensures TableConforms(r, version, t) {
      assert TableConforms(db, version, t);
      assert t in db.objects <==> t in r.objects;
      if t in db.objects && t != SchemaMigrations { assert r.objects[t] == db.objects[t]; }
    }
  }

  lemma RecordOk(db: Database, version: int, now: string)
    requires 1 <= version <= SCHEMA_VERSION
    requires HasTable(db, SchemaMigrations, ExpectedSchema(SchemaMigrations))
    ensures var r := RecordSchemaMigration(db, version, now);
            r.Ok? && RowsAdded(db, r.value) && IntCell(version) in r.value.objects[SchemaMigrations].rows
  {
    hide ExpectedSchema, MigrationName;
  }

  lemma {:induction false} RecordFromOk(db: Database, first: int, last: int, now: string)
    requires 1 <= first && last <= SCHEMA_VERSION && RowsRecorded(db, first - 1)
    ensures RecordFrom(db, first, last, now).Ok?
    ensures RowsAdded(db, RecordFrom(db, first, last, now).value)
    ensures RowsRecorded(RecordFrom(db, first, last, now).value, last)
    decreases last - first
  {
    hide ExpectedSchema, MigrationName;
    if first <= last {
      RecordOk(db, first, now);
      var next := RecordSchemaMigration(db, first, now).value;
      RecordFromOk(next, first + 1, last, now);
    }
  }

  lemma EnsureOk(db: Database, version: int)
    requires 1 <= version <= SCHEMA_VERSION && TablesConform(db, version)
    ensures var r := EnsureSchemaMigrations(db);
            && r.Ok? && r.value.version == db.version && TablesConform(r.value, version) && Kept(db, r.value)
            && HasTable(r.value, SchemaMigrations, ExpectedSchema(SchemaMigrations))
  {
    hide Expected, ExpectedSchema, CreatedColumns;
    assert TableConforms(db, version, SchemaMigrations);
    MigrationTableExpected(version);
    DeclaredIsExpected(SchemaMigrations);
    var r := EnsureSchemaMigrations(db).value;
    forall t ensures TableConforms(r, version, t) {
      assert TableConforms(db, version, t);
    }
  }

  lemma MigrationTableExpected(version: int)
    requires 1 <= version <= SCHEMA_VERSION
    ensures Expected(version, SchemaMigrations)
         == if version < 4 then None else Some(ExpectedSchema(SchemaMigrations))
  {
  }

  lemma BackfillOk(db: Database, version: int, now: string)
    requires 1 <= version <= SCHEMA_VERSION && TablesConform(db, version)
    ensures var r := BackfillSchemaMigrations(db, version, now);
            && r.Ok? && r.value.version == db.version && TablesConform(r.value, version)
            && Kept(db, r.value) && RowsRecorded(r.value, version)
  {
    hide Expected, ExpectedSchema, EnsureSchemaMigrations;
    EnsureOk(db, version);
    var ensured := EnsureSchemaMigrations(db).value;
    RecordFromOk(ensured, 1, version, now);
    var r := RecordFrom(ensured, 1, version, now).value;
    RowsAddedKept(ensured, r);
    RowsAddedConforms(ensured, r, version);
    KeptTransitive(db, ensured, r);
  }

  /** One whole migration, including its version and its row. */
  lemma MigrateOk(target: int, db: Database, now: string)
    requires 2 <= target <= SCHEMA_VERSION && TablesConform(db, target - 1) && RowsRecorded(db, target - 1)
    ensures var r := Migrate(target, db, now);
            && r.Ok? && Conforms(r.value, target) && RowsRecorded(r.value, target) && Kept(db, r.value)
  {
    var x := ChangedOk(target, db);
    hide Expected, ExpectedSchema, ChangeTables, RecordSchemaMigration, TablesConform, Kept, RowsAdded;
    var changed := x.(version := target);
    RecordOk(changed, target, now);
    var r := RecordSchemaMigration(changed, target, now).value;
    RowsAddedKept(changed, r);
    RowsAddedConforms(changed, r, target);
    KeptTransitive(db, changed, r);
    RecordedAfter(changed, r, target);
  }

  lemma ChangedOk(target: int, db: Database) returns (x: Database)
    requires 2 <= target <= SCHEMA_VERSION && TablesConform(db, target - 1) && RowsRecorded(db, target - 1)
    ensures ChangeTables(target, db) == Ok(x)
    ensures TablesConform(x.(version := target), target) && Kept(db, x.(version := target))
    ensures RowsRecorded(x.(version := target), target - 1)
  {
    hide ChangeTables, Expected, ExpectedSchema;
    ChangeTablesLeads(target, db);
    x := ChangeTables(target, db).value;
    SameTablesConform(x, x.(version := target), target);
  }

  lemma RecordedAfter(changed: Database, r: Database, target: int)
    requires 1 <= target && RowsRecorded(changed, target - 1) && RowsAdded(changed, r)
    requires IntCell(target) in r.objects[SchemaMigrations].rows
    ensures RowsRecorded(r, target)
  {
    hide ExpectedSchema;
  }

  lemma SameTablesConform(a: Database, b: Database, version: int)
    requires 1 <= version <= SCHEMA_VERSION && a.objects == b.objects && TablesConform(a, version)
    ensures TablesConform(b, version)
  {
    forall t ensures TableConforms(b, version, t) {
      assert TableConforms(a, version, t);
    }
  }

  // ---------- Validation ----------

  lemma {:induction false} ValidatesIff(db: Database, version: int, tables: seq<TableName>)
    requires 1 <= version <= SCHEMA_VERSION
    ensures ValidateSchemaFrom(db, version, tables).Ok? <==>
            forall i :: 0 <= i < |tables| && Expected(version, tables[i]).Some? ==>
              HasTable(db, tables[i], Expected(version, tables[i]).value)
  {
    hide Expected;
    if tables != [] {
      ValidatesIff(db, version, tables[1..]);
      assert forall i :: 1 <= i < |tables| ==> tables[i] == tables[1..][i - 1];
      assert forall i :: 0 <= i < |tables| - 1 ==> tables[1..][i] == tables[i + 1];
    }
  }

  lemma AllTables(t: TableName)
    ensures t in ALL_TABLES
  {
    var a := ALL_TABLES;
    assert a[0] == SchemaMigrations && a[1] == UpdateRuns && a[2] == UpdateEvents && a[3] == Snoozes;
    assert a[4] == DependencySnoozes && a[5] == ReleaseSkips && a[6] == ServicePolicy;
    assert a[7] == AutoUpdateScheduleRuns && a[8] == KnownImages && a[9] == PendingUpdates;
    assert a[10] == ReleaseNoteCache && a[11] == ReleaseNotificationHistory && a[12] == SecurityScanCache;
    assert a[13] == TagExclusionRules && a[14] == WebUsers && a[15] == WebSessions && a[16] == WebSettings;
  }

  /** Validation accepts exactly the databases that have every expected table. */
  lemma ValidateSchemaIff(db: Database, version: int)
    requires 1 <= version <= SCHEMA_VERSION
    ensures ValidateSchema(db, version).Ok? <==>
            forall t :: Expected(version, t).Some? ==> HasTable(db, t, Expected(version, t).value)
  {
    hide Expected;
    ValidatesIff(db, version, ALL_TABLES);
    if ValidateSchema(db, version).Ok? {
      forall t | Expected(version, t).Some? ensures HasTable(db, t, Expected(version, t).value) {
        AllTables(t);
      }
    }
  }

  lemma ConformingValidates(db: Database, version: int)
    requires 1 <= version <= SCHEMA_VERSION && TablesConform(db, version)
    ensures ValidateSchema(db, version).Ok?
  {
    hide Expected, ValidateSchema;
    ValidateSchemaIff(db, version);
    forall t | Expected(version, t).Some? ensures HasTable(db, t, Expected(version, t).value) {
      assert TableConforms(db, version, t);
    }
  }

  // ---------- A new database ----------

  function CreateTables(db: Database, tables: seq<TableName>): Database
    decreases |tables|
  {
    if tables == [] then db else CreateTables(CreateTable(db, tables[0], CreatedColumns(tables[0])), tables[1..])
  }

  /** The whole script for a database at version 0, and what follows it in the same transaction. */
  function CreateSchema(db: Database, now: string): Result<Database, DatabaseError> {
    var created := CreateTables(db, ALL_TABLES);
    var _ :- ValidateSchema(created, SCHEMA_VERSION);
    var recorded :- BackfillSchemaMigrations(created, SCHEMA_VERSION, now);
    Ok(recorded.(version := SCHEMA_VERSION))
  }

  function ValidateExistingFrom(db: Database, tables: seq<TableName>): Result<(), DatabaseError> {
    if tables == [] then Ok(())
    else
      var _ :- ValidateIfPresent(db, tables[0], ExpectedSchema(tables[0]));
      ValidateExistingFrom(db, tables[1..])
  }

  /** `_validate_existing_schema_objects` */
  function ValidateExisting(db: Database): Result<(), DatabaseError> {
    ValidateExistingFrom(db, ALL_TABLES)
  }

  /** Whatever tables are there are tables of the newest version. */
  ghost predicate Partial(db: Database) {
    forall t :: t in db.objects ==> HasTable(db, t, ExpectedSchema(t))
  }

  lemma {:induction false} PartialValidates(db: Database, tables: seq<TableName>)
    requires Partial(db)
    ensures ValidateExistingFrom(db, tables).Ok?
  {
    hide ExpectedSchema;
    if tables != [] { PartialValidates(db, tables[1..]); }
  }

  lemma {:induction false} CreateTablesOk(db: Database, tables: seq<TableName>)
    requires Partial(db)
    ensures var r := CreateTables(db, tables);
            && Partial(r) && Kept(db, r) && r.version == db.version
            && forall i :: 0 <= i < |tables| ==> tables[i] in r.objects
    decreases |tables|
  {
    hide ExpectedSchema, CreatedColumns;
    if tables != [] {
      DeclaredIsExpected(tables[0]);
      var next := CreateTable(db, tables[0], CreatedColumns(tables[0]));
      assert Partial(next) && Kept(db, next);
      CreateTablesOk(next, tables[1..]);
      var r := CreateTables(next, tables[1..]);
      KeptTransitive(db, next, r);
      assert tables[0] in next.objects && tables[0] in r.objects;
      assert forall i :: 1 <= i < |tables| ==> tables[i] == tables[1..][i - 1];
    }
  }

  lemma CreateSchemaOk(db: Database, now: string)
    requires Partial(db)
    ensures var r := CreateSchema(db, now);
            && r.Ok? && Conforms(r.value, SCHEMA_VERSION) && RowsRecorded(r.value, SCHEMA_VERSION)
            && Kept(db, r.value)
  {
    hide ExpectedSchema, CreatedColumns, CreateTables, ValidateSchema, BackfillSchemaMigrations;
    CreateTablesOk(db, ALL_TABLES);
    var created := CreateTables(db, ALL_TABLES);
    forall t ensures TableConforms(created, SCHEMA_VERSION, t) {
      AllTables(t);
    }
    hide Expected;
    ConformingValidates(created, SCHEMA_VERSION);
    BackfillOk(created, SCHEMA_VERSION, now);
    var recorded := BackfillSchemaMigrations(created, SCHEMA_VERSION, now).value;
    KeptTransitive(db, created, recorded);
    SameTablesConform(recorded, recorded.(version := SCHEMA_VERSION), SCHEMA_VERSION);
  }

  lemma NewestIsPartial(db: Database)
    requires TablesConform(db, SCHEMA_VERSION)
    ensures Partial(db)
  {
    hide ExpectedSchema;
    forall t | t in db.objects ensures HasTable(db, t, ExpectedSchema(t)) {
      assert TableConforms(db, SCHEMA_VERSION, t);
    }
  }

  // ---------- A table that came early ----------

  /**
   Migration 2 accepts a `pending_updates` table that already has the newest columns, but
   migration 7 demands the columns of version 6: such a database is never upgraded past 6.
   */
  lemma EarlyPendingUpdatesBlock(db: Database, now: string)
    requires HasTable(db, PendingUpdates, ExpectedSchema(PendingUpdates))
    ensures ChangeTables(2, db) == Ok(db)
    ensures Migrate(7, db, now) == Raise(UnexpectedColumns)
  {
    hide ChangeTables, ExpectedSchema;
    EarlyIsAccepted(db);
    EarlyIsRefused(db);
  }

  lemma EarlyIsAccepted(db: Database)
    requires HasTable(db, PendingUpdates, ExpectedSchema(PendingUpdates))
    ensures ChangeTables(2, db) == Ok(db)
  {
    hide ExpectedSchema;
  }

  lemma EarlyIsRefused(db: Database)
    requires HasTable(db, PendingUpdates, ExpectedSchema(PendingUpdates))
    ensures ChangeTables(7, db) == Raise(UnexpectedColumns)
  {
    hide ExpectedSchema, Expected6, AddColumns;
    var base := ProvenanceColumns(PendingUpdates);
    ProvenanceAdds(base);
  }

  lemma ProvenanceAdds(base: seq<Column>)
    requires Expected6(PendingUpdates) == Some(base) && Expected7(PendingUpdates) == Some(base + DeclaredDigestColumns())
    ensures ExpectedSchema(PendingUpdates) != base
  {
    hide ExpectedSchema, Without, Expected6;
    assert Expected7(PendingUpdates) == Some(ExpectedSchema(PendingUpdates));
    assert |DeclaredDigestColumns()| == 7;
  }
}
