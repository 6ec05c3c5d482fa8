/**
 One process's `init_schema` on its own connection (src/wudup/db_schema.py): the transactions
 it opens, the migration loop, and the rollback of a transaction whose body raises.
 */
module SchemaConnection {
  import opened Ordering
  import opened Schema
  import opened Migrations
  import opened MigrationRuns
  import opened MigrationPremise
  import opened MigrationCells

  /** When the row of a version is recorded by a run that starts at version `from`. */
  function RecordedAt(from: int, clock: int -> string): int -> string {
    v => clock(if v <= from then from else if from < 1 then 0 else v)
  }

  lemma RecordedLater(a: Database, b: Database, version: int, clock: int -> string)
    requires 1 <= version <= SCHEMA_VERSION && Records(a, b, version + 1, SCHEMA_VERSION, clock)
    ensures Records(a, b, version + 1, SCHEMA_VERSION, RecordedAt(version, clock))
  {
    hide MigrationRows, IsMigrationRow;
  }

  class Connection {
    var db: Database
    var before: Option<Database>    // what a rollback brings back

    constructor (stored: Database)
      ensures db == stored && before.None?
    {
      db, before := stored, None;
    }

    method BeginImmediate()
      requires before.None?
      modifies this
      ensures db == old(db) && before == Some(db)
    {
      before := Some(db);
    }

    method CommitTransaction()
      requires before.Some?
      modifies this
      ensures db == old(db) && before.None?
    {
      before := None;
    }

    method Rollback()
      requires before.Some?
      modifies this
      ensures Some(db) == old(before) && before.None?
    {
      db, before := before.value, None;
    }

    /** `_migration_transaction` around the body of `job`: all of it or nothing. */
    method Transaction(job: Job, now: string) returns (result: Result<(), DatabaseError>)
      requires before.None? && JobOk(job)
      modifies this
      ensures before.None?
      ensures match RunJob(job, old(db), now)
              case Ok(done) => result == Ok(()) && db == done
              case Raise(error) => result == Raise(error) && db == old(db)
    {
      hide RunJob;
      BeginImmediate();
      var body := RunJob(job, db, now);
      if body.Raise? {
        Rollback();
        return Raise(body.error);
      }
      db := body.value;
      CommitTransaction();
      return Ok(());
    }

    /** The migrations from one version to the newest; those done before an error stay. */
    method MigrateFrom(version: int, clock: int -> string) returns (result: Result<(), DatabaseError>)
      requires before.None? && 1 <= version == db.version
      modifies this
      ensures before.None? && Kept(old(db), db) && Carried(old(db), db) && version <= db.version
      ensures match UpgradeFrom(old(db), version + 1, clock)
              case Ok(done) => result == Ok(()) && db == done
              case Raise(error) => result == Raise(error)
      ensures result.Ok? ==>
                Records(old(db), db, version + 1, if version < SCHEMA_VERSION then SCHEMA_VERSION else version, clock)
    {
      hide Kept, RunJob, Carried, Records;
      KeptReflexive(db);
      CarriedItself(db);
      RecordsNone(db, version + 1, version, clock);
      var target := version + 1;
      while target <= SCHEMA_VERSION
        invariant before.None? && version + 1 <= target && Kept(old(db), db) && Carried(old(db), db)
        invariant db.version == target - 1 && Records(old(db), db, version + 1, target - 1, clock)
        invariant version < SCHEMA_VERSION ==> target <= SCHEMA_VERSION + 1
        invariant version >= SCHEMA_VERSION ==> target == version + 1
        invariant UpgradeFrom(db, target, clock) == UpgradeFrom(old(db), version + 1, clock)
        decreases SCHEMA_VERSION + 1 - target
      {
        ghost var previous := db;
        var step := Transaction(MigrateTo(target), clock(target));
        if step.Raise? {
          return step;
        }
        RunJobKeeps(MigrateTo(target), previous, clock(target));
        KeptTransitive(old(db), previous, db);
        MigrateToCarries(target, previous, clock(target), clock);
        CarriedTwice(old(db), previous, db);
        RecordsThen(old(db), previous, db, version + 1, target - 1, target, clock);
        target := target + 1;
      }
      return Ok(());
    }

    /**
     It succeeds on exactly the databases of the premise and loses nothing even when it fails: the old
     rows end with the cells of the migrations made. Each row it records has its name and time.
     */
    method InitSchema(clock: int -> string) returns (result: Result<(), DatabaseError>)
      requires before.None?
      modifies this
      ensures before.None? && Kept(old(db), db) && Carried(old(db), db)
      ensures result.Ok? ==> Records(old(db), db, 1, SCHEMA_VERSION, RecordedAt(old(db).version, clock))
      ensures result.Ok? <==> Initial(old(db))
      ensures result.Ok? ==> Conforms(db, SCHEMA_VERSION) && RowsRecorded(db, SCHEMA_VERSION)
    {
      hide Kept, Initial, Conforms, RowsRecorded, ValidateSchema, ValidateExistingFrom, RunJob, UpgradeFrom,
        Carried, Records;
      InitRunSucceedsIff(db, clock);
      KeptReflexive(db);
      CarriedItself(db);
      if Initial(db) { InitRunSucceeds(db, clock); }
      var version := db.version;
      if version > 0 {
        var upgraded := Transaction(Upgrade, clock(version));
        if upgraded.Raise? {
          return upgraded;
        }
        RunJobKeeps(Upgrade, old(db), clock(version));
        UpgradeCarries(old(db), clock(version), RecordedAt(version, clock));
        ghost var recorded := db;
        result := MigrateFrom(version, clock);
        KeptTransitive(old(db), recorded, db);
        CarriedTwice(old(db), recorded, db);
        if result.Raise? {
          return;
        }
        RecordedLater(recorded, db, version, clock);
        RecordsThen(old(db), recorded, db, 1, version, SCHEMA_VERSION, RecordedAt(version, clock));
        return ValidateSchema(db, SCHEMA_VERSION);
      }
      if version != 0 {
        return Raise(UnsupportedVersion);
      }
      var existing := ValidateExisting(db);
      if existing.Raise? {
        return existing;
      }
      result := Transaction(Create, clock(0));
      if result.Ok? {
        RunJobKeeps(Create, old(db), clock(0));
        CreateCarries(old(db), clock(0), RecordedAt(0, clock));
      }
    }
  }
}
