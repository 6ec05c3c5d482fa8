/**
 `init_schema` run by any number of processes over one database, any of which may die at any
 step (src/wudup/db_schema.py). A transaction holds the write lock from `BEGIN IMMEDIATE` to
 its commit or rollback and works on what was committed when it began.
 */
module MigrationRuns {
  import opened Ordering
  import opened Schema
  import opened Migrations

  /** The transactions `init_schema` runs. */
  datatype Job = Upgrade | MigrateTo(target: int) | Create

  datatype Pc =
    | Start | Checking | Wanting(job: Job) | Working(job: Job) | Committing(job: Job)
    | Validating | Done | Failed(error: DatabaseError) | Dead

  datatype Process = Process(pc: Pc, work: Database)

  datatype State = State(
    committed: Database,
    writer: Option<nat>,          // who holds the write lock
    processes: map<nat, Process>,
    log: seq<int>)                // the migrations committed so far, by target version

  datatype Action =
    | ReadVersion(p: nat)
    | CheckExisting(p: nat)
    | Begin(p: nat)
    | Work(p: nat, now: string)
    | Commit(p: nat)
    | Validate(p: nat)
    | Die(p: nat)

  predicate JobOk(job: Job) {
    job.MigrateTo? ==> 2 <= job.target <= SCHEMA_VERSION
  }

  /** The body of one transaction. */
  function RunJob(job: Job, db: Database, now: string): Result<Database, DatabaseError>
    requires JobOk(job)
  {
    match job
    case Upgrade =>
      if db.version < 1 || db.version > SCHEMA_VERSION then Raise(UnsupportedVersion)
      else
        var _ :- ValidateSchema(db, db.version);
        BackfillSchemaMigrations(db, db.version, now)
    case MigrateTo(target) => if db.version >= target then Ok(db) else Migrate(target, db, now)
    case Create => CreateSchema(db, now)
  }

  /** The loop over the target versions. */
  function NextTarget(target: int): Pc {
    if target <= SCHEMA_VERSION then Wanting(MigrateTo(target)) else Validating
  }

  function AfterCommit(job: Job, work: Database): Pc {
    match job
    case Upgrade => NextTarget(work.version + 1)
    case MigrateTo(target) => NextTarget(target + 1)
    case Create => Done
  }

  function SetProcess(s: State, p: nat, x: Process): State {
    s.(processes := s.processes[p := x])
  }

  function Apply(s: State, a: Action): Option<State> {
    if a.p !in s.processes then None
    else
      var x := s.processes[a.p];
      match a
      case ReadVersion(p) =>
        if !x.pc.Start? then None
        else
          var version := s.committed.version;
          Some(SetProcess(s, p, x.(pc := if version > 0 then Wanting(Upgrade)
                                         else if version == 0 then Checking
                                         else Failed(UnsupportedVersion))))
      case CheckExisting(p) =>
        if !x.pc.Checking? then None
        else
          var checked := ValidateExisting(s.committed);
          Some(SetProcess(s, p, x.(pc := if checked.Ok? then Wanting(Create) else Failed(checked.error))))
      case Begin(p) =>
        if x.pc.Wanting? && s.writer.None? then
          Some(SetProcess(s, p, Process(Working(x.pc.job), s.committed)).(writer := Some(p)))
        else None
      case Work(p, now) =>
        if !(x.pc.Working? && JobOk(x.pc.job)) then None
        else
          (match RunJob(x.pc.job, x.work, now)
           case Ok(done) => Some(SetProcess(s, p, Process(Committing(x.pc.job), done)))
           case Raise(error) => Some(SetProcess(s, p, x.(pc := Failed(error))).(writer := None)))
      case Commit(p) =>
        if !x.pc.Committing? then None
        else
          var job := x.pc.job;
          var migrated := job.MigrateTo? && s.committed.version < job.target;
          Some(SetProcess(s, p, x.(pc := AfterCommit(job, x.work)))
                 .(writer := None, committed := x.work,
                   log := if migrated then s.log + [job.target] else s.log))
      case Validate(p) =>
        if !x.pc.Validating? then None
        else
          var checked := ValidateSchema(s.committed, SCHEMA_VERSION);
          Some(SetProcess(s, p, x.(pc := if checked.Ok? then Done else Failed(checked.error))))
      case Die(p) =>
        if x.pc.Done? || x.pc.Failed? || x.pc.Dead? then None
        else Some(SetProcess(s, p, x.(pc := Dead)).(writer := if s.writer == Some(p) then None else s.writer))
  }

  // ---------- The invariant ----------

  /**
   A database `init_schema` is meant for: new or partly created, or of a version whose tables it
   has. These are exactly the databases on which a run alone succeeds.
   */
  ghost predicate Initial(db: Database) {
    if db.version == 0 then Partial(db)
    else 1 <= db.version <= SCHEMA_VERSION && Conforms(db, db.version)
  }

  ghost predicate Init(s: State) {
    && Initial(s.committed) && s.writer.None? && s.log == []
    && forall p :: p in s.processes ==> s.processes[p].pc.Start?
  }

  /** Every committed state conforms to the schema of its version and keeps the initial rows. */
  ghost predicate CommittedOk(initial: Database, db: Database, log: seq<int>) {
    && Kept(initial, db)
    && if db.version == 0 then db == initial && Partial(db) && log == []
       else
         && 1 <= db.version && initial.version <= db.version <= SCHEMA_VERSION && Conforms(db, db.version)
         && (initial.version == 0 ==> db.version == SCHEMA_VERSION && log == [])
         && (initial.version > 0 ==> log == Targets(initial.version, db.version))
  }

  /** `[from + 1, ..., until]` */
  function Targets(from: int, until: int): seq<int>
    decreases if until <= from then 0 else until - from
  {
    if until <= from then [] else Targets(from, until - 1) + [until]
  }

  ghost predicate Recorded(db: Database) {
    db.version >= 1 && RowsRecorded(db, db.version)
  }

  /** Past its first transaction. */
  predicate Past(pc: Pc) {
    match pc
    case Wanting(job) => job.MigrateTo?
    case Working(job) => job.MigrateTo?
    case Committing(job) => job.MigrateTo?
    case Validating => true
    case Done => true
    case _ => false
  }

  ghost predicate ProcessOk(initial: Database, s: State, p: nat, x: Process) {
    && ((x.pc.Working? || x.pc.Committing?) <==> s.writer == Some(p))
    && !x.pc.Failed?
    && (Past(x.pc) ==> Recorded(s.committed))
    && (x.pc.Validating? || x.pc.Done? ==> s.committed.version == SCHEMA_VERSION)
    && (x.pc.Checking? ==> initial.version == 0)
    && (x.pc.Wanting? ==> JobReady(initial, s.committed, x.pc.job))
    && (x.pc.Working? ==> JobReady(initial, s.committed, x.pc.job) && x.work == s.committed)
    && (x.pc.Committing? ==> JobReady(initial, s.committed, x.pc.job)
                             && JobDone(s.committed, x.pc.job, x.work))
  }

  ghost predicate JobReady(initial: Database, committed: Database, job: Job) {
    match job
    case Upgrade => committed.version >= 1
    case MigrateTo(target) => 2 <= target <= SCHEMA_VERSION && committed.version >= target - 1
    case Create => initial.version == 0
  }

  /** What the body of a transaction has made of the committed database. */
  ghost predicate JobDone(db: Database, job: Job, work: Database) {
    && Kept(db, work) && 1 <= work.version <= SCHEMA_VERSION
    && Conforms(work, work.version) && Recorded(work)
    && match job
       case Upgrade => work.version == db.version
       case MigrateTo(target) => work.version == if db.version < target then target else db.version
       case Create => work.version == SCHEMA_VERSION
  }

  ghost predicate Inv(initial: Database, s: State) {
    && 0 <= initial.version
    && CommittedOk(initial, s.committed, s.log)
    && (s.writer.Some? ==> s.writer.value in s.processes)
    && forall p :: p in s.processes ==> ProcessOk(initial, s, p, s.processes[p])
  }

  lemma KeptReflexive(db: Database)
    ensures Kept(db, db)
  {
    forall t | t in db.objects ensures ObjectKept(t, db.objects[t], db.objects[t]) {
    }
  }

  lemma InitInv(s: State)
    requires Init(s)
    ensures Inv(s.committed, s)
  {
    hide Conforms, Partial, Kept;
    KeptReflexive(s.committed);
  }

  // ---------- Steps ----------

  /** The body of every transaction succeeds on a conforming database. */
  lemma BodySucceeds(initial: Database, s: State, job: Job, now: string)
    requires CommittedOk(initial, s.committed, s.log) && JobReady(initial, s.committed, job) && JobOk(job)
    requires job.MigrateTo? ==> Recorded(s.committed)
    ensures RunJob(job, s.committed, now).Ok? && JobDone(s.committed, job, RunJob(job, s.committed, now).value)
  {
    hide Partial, Kept, ValidateSchema, BackfillSchemaMigrations, Migrate, CreateSchema, TablesConform;
    var db := s.committed;
    match job
    case Upgrade =>
      ConformingValidates(db, db.version);
      BackfillOk(db, db.version, now);
    case MigrateTo(target) =>
      if db.version >= target {
        KeptReflexive(db);
      } else {
        MigrateOk(target, db, now);
      }
    case Create =>
      if db.version != 0 { NewestIsPartial(db); }
      CreateSchemaOk(db, now);
  }

  /** A commit keeps what is claimed of the committed database. */
  lemma CommitOk(initial: Database, db: Database, log: seq<int>, job: Job, work: Database)
    requires 0 <= initial.version && CommittedOk(initial, db, log)
    requires JobReady(initial, db, job) && JobDone(db, job, work)
    ensures CommittedOk(initial, work,
                        if job.MigrateTo? && db.version < job.target then log + [job.target] else log)
    ensures work.version >= db.version
  {
    hide Kept, Conforms, Partial, Recorded;
    KeptTransitive(initial, db, work);
  }

  /** What a step must show about its own process and the shared state. */
  ghost predicate StepOk(initial: Database, s: State, a: Action) {
    match Apply(s, a)
    case None => true
    case Some(t) =>
      && CommittedOk(initial, t.committed, t.log)
      && (t.writer.Some? ==> t.writer.value in t.processes)
      && a.p in t.processes && ProcessOk(initial, t, a.p, t.processes[a.p])
      && t.processes.Keys == s.processes.Keys
      && (forall q :: q in s.processes && q != a.p ==> t.processes[q] == s.processes[q])
      && (t.committed == s.committed
          || (s.writer == Some(a.p) && s.committed.version <= t.committed.version && Recorded(t.committed)))
      && (forall q :: q != a.p ==> (t.writer == Some(q) <==> s.writer == Some(q)))
  }

  lemma PlainStep(initial: Database, s: State, a: Action)
    requires Inv(initial, s) && (a.ReadVersion? || a.Begin? || a.Die?)
    ensures StepOk(initial, s, a)
  {
    hide Kept, Conforms, Partial, Recorded;
    assert a.p in s.processes ==> ProcessOk(initial, s, a.p, s.processes[a.p]);
  }

  lemma CheckStep(initial: Database, s: State, a: Action)
    requires Inv(initial, s) && (a.CheckExisting? || a.Validate?)
    ensures StepOk(initial, s, a)
  {
    assert a.p in s.processes ==> ProcessOk(initial, s, a.p, s.processes[a.p]);
    if a.p in s.processes && s.processes[a.p].pc.Checking? {
      if s.committed.version != 0 { NewestIsPartial(s.committed); }
      PartialValidates(s.committed, ALL_TABLES);
    } else if a.p in s.processes && s.processes[a.p].pc.Validating? {
      ConformingValidates(s.committed, SCHEMA_VERSION);
    }
    hide Kept, Conforms, Partial, Recorded, ValidateExistingFrom, ValidateSchema;
  }

  lemma WorkStep(initial: Database, s: State, a: Action)
    requires Inv(initial, s) && a.Work?
    ensures StepOk(initial, s, a)
  {
    hide Kept, Conforms, Partial, Recorded, RunJob, JobDone;
    if a.p in s.processes && s.processes[a.p].pc.Working? && JobOk(s.processes[a.p].pc.job) {
      assert ProcessOk(initial, s, a.p, s.processes[a.p]);
      BodySucceeds(initial, s, s.processes[a.p].pc.job, a.now);
    }
  }

  lemma CommitStep(initial: Database, s: State, a: Action)
    requires Inv(initial, s) && a.Commit?
    ensures StepOk(initial, s, a)
  {
    hide Kept, Conforms, Partial, Recorded, CommittedOk;
    if a.p in s.processes && s.processes[a.p].pc.Committing? {
      var x := s.processes[a.p];
      assert ProcessOk(initial, s, a.p, x);
      CommitOk(initial, s.committed, s.log, x.pc.job, x.work);
    }
  }

  lemma OthersOk(initial: Database, s: State, a: Action, q: nat)
    requires Inv(initial, s) && Apply(s, a).Some? && StepOk(initial, s, a)
    requires q in s.processes && q != a.p
    ensures q in Apply(s, a).value.processes
    ensures ProcessOk(initial, Apply(s, a).value, q, Apply(s, a).value.processes[q])
  {
    hide Apply, Kept, Conforms, Partial, Recorded, CommittedOk;
    var t := Apply(s, a).value;
    assert ProcessOk(initial, s, q, s.processes[q]);
    if t.committed != s.committed {
      CommittedBound(initial, t);
    }
  }

  lemma CommittedBound(initial: Database, t: State)
    requires CommittedOk(initial, t.committed, t.log)
    ensures t.committed.version <= SCHEMA_VERSION
  {
  }

  lemma StepInv(initial: Database, s: State, a: Action)
    requires Inv(initial, s) && Apply(s, a).Some?
    ensures Inv(initial, Apply(s, a).value)
  {
    hide Apply, Kept, Conforms, Partial, Recorded, CommittedOk, ProcessOk;
    if a.Work? { WorkStep(initial, s, a); }
    else if a.Commit? { CommitStep(initial, s, a); }
    else if a.CheckExisting? || a.Validate? { CheckStep(initial, s, a); }
    else { PlainStep(initial, s, a); }
    var t := Apply(s, a).value;
    forall q | q in t.processes ensures ProcessOk(initial, t, q, t.processes[q]) {
      if q != a.p { OthersOk(initial, s, a, q); }
    }
  }

  // ---------- Runs ----------

  function Exec(s: State, actions: seq<Action>): Option<State>
    decreases |actions|
  {
    if actions == [] then Some(s)
    else
      var t := Apply(s, actions[0]);
      if t.None? then None else Exec(t.value, actions[1..])
  }

  lemma {:induction false} ExecInv(initial: Database, s: State, actions: seq<Action>)
    requires Inv(initial, s) && Exec(s, actions).Some?
    ensures Inv(initial, Exec(s, actions).value)
    decreases |actions|
  {
    hide Inv, Apply;
    if actions != [] {
      StepInv(initial, s, actions[0]);
      ExecInv(initial, Apply(s, actions[0]).value, actions[1..]);
    }
  }

  /** `s` is reached by some run that starts with the database `initial`. */
  ghost predicate ReachableFrom(initial: Database, s: State) {
    exists start, actions :: Init(start) && start.committed == initial && Exec(start, actions) == Some(s)
  }

  lemma ReachableInv(initial: Database, s: State)
    requires ReachableFrom(initial, s)
    ensures Inv(initial, s)
  {
    hide Init, Inv, Exec;
    var start, actions :| Init(start) && start.committed == initial && Exec(start, actions) == Some(s);
    InitInv(start);
    ExecInv(initial, start, actions);
  }

  /** Every committed state conforms to the schema of its version; old rows keep their columns. */
  lemma CommittedStatesConform(initial: Database, s: State)
    requires ReachableFrom(initial, s)
    ensures s.committed == initial
            || (1 <= s.committed.version <= SCHEMA_VERSION && Conforms(s.committed, s.committed.version))
    ensures Kept(initial, s.committed)
  {
    ReachableInv(initial, s);
  }

  lemma {:induction false} TargetsAscend(from: int, until: int, i: nat)
    requires from <= until
    ensures |Targets(from, until)| == until - from
    ensures i < until - from ==> Targets(from, until)[i] == from + 1 + i
    decreases until - from
  {
    if from < until { TargetsAscend(from, until - 1, i); }
  }

  /** From version n, the committed migrations are n+1, n+2, ... in order, each once. */
  lemma MigrationsRunInOrder(initial: Database, s: State)
    requires ReachableFrom(initial, s) && initial.version >= 1
    ensures |s.log| == s.committed.version - initial.version
    ensures forall i :: 0 <= i < |s.log| ==> s.log[i] == initial.version + 1 + i
  {
    hide Inv, Kept, Conforms, Partial;
    ReachableInv(initial, s);
    InvBound(initial, s);
    TargetsAscend(initial.version, s.committed.version, 0);
    forall i | 0 <= i < |s.log| ensures s.log[i] == initial.version + 1 + i {
      TargetsAscend(initial.version, s.committed.version, i);
    }
  }

  lemma InvBound(initial: Database, s: State)
    requires Inv(initial, s) && initial.version >= 1
    ensures initial.version <= s.committed.version && s.log == Targets(initial.version, s.committed.version)
  {
    hide Kept, Conforms, Partial, ProcessOk;
  }

  /** Whenever a migration's tables are changed, the database is at the version before it. */
  lemma MigrationRunsAtVersionBefore(initial: Database, s: State, p: nat)
    requires ReachableFrom(initial, s) && p in s.processes && s.processes[p].pc.Working?
    requires s.processes[p].pc.job.MigrateTo?
    ensures var x := s.processes[p];
            x.work == s.committed
            && (x.work.version >= x.pc.job.target || x.work.version == x.pc.job.target - 1)
  {
    ReachableInv(initial, s);
    assert ProcessOk(initial, s, p, s.processes[p]);
  }

  /** A completed run leaves the newest version with migration rows 1 to 15. */
  lemma CompletedRun(initial: Database, s: State, p: nat)
    requires ReachableFrom(initial, s) && p in s.processes && s.processes[p].pc.Done?
    ensures s.committed.version == SCHEMA_VERSION && Conforms(s.committed, SCHEMA_VERSION)
    ensures RowsRecorded(s.committed, SCHEMA_VERSION) && Kept(initial, s.committed)
  {
    ReachableInv(initial, s);
    assert ProcessOk(initial, s, p, s.processes[p]);
  }

  /** No process ever raises: neither interleaving nor a death elsewhere makes one fail. */
  lemma NoProcessFails(initial: Database, s: State, p: nat)
    requires ReachableFrom(initial, s) && p in s.processes
    ensures !s.processes[p].pc.Failed?
  {
    ReachableInv(initial, s);
    assert ProcessOk(initial, s, p, s.processes[p]);
  }
}
