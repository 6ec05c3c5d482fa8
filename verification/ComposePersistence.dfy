/**
 The Compose replacement protocol (src/wudup/compose_persistence.py) as the steps of any
 number of concurrent writers over one directory whose disk may lose power at any point.
 Hashing is taken to be injective, so a hash is represented by the text it is the hash of.
 */
module ComposePersistence {
  import opened Ordering

  /** One version of the Compose file. `synced`: its content has been flushed to disk. */
  datatype File = File(data: string, synced: bool)

  /**
   The entry points that end in a replacement.
   Guarded: hash the file unless the caller passed a hash, then load and edit it.
   Tracking: load the file once and compare that text with the caller's hash, if any.
   Restore: put a backup's text back over the version with the given hash.
   */
  datatype Call =
    | Guarded(given: Option<string>)
    | Tracking(given: Option<string>)
    | Restore(over: string, backup: string)

  datatype Pc =
    | Start | Hashed | Loaded | Rendered | TempMade | Written | Locked | Synced | Checked
    | Replaced | Recorded | Settled | Unlocked | Done | Killed

  datatype Outcome = Pending | Returned(durable: bool) | Raised

  datatype Writer = Writer(
    call: Call,
    tracked: bool,              // the caller passed `written_hashes`
    pc: Pc,
    expected: Option<string>,   // `expected_source_hash`
    source: string,             // the text the edit is rendered from
    rendered: string,
    temp: Option<File>,
    hashesBefore: seq<string>,
    hashes: seq<string>,        // `written_hashes`
    outcome: Outcome,
    unlinkFailed: bool,
    hashedAt: nat,              // the version that was current when the hash was read,
    loadedAt: nat,              // when the text was loaded,
    swappedAt: Option<nat>      // and the version this writer made
  )

  /**
   `files` holds every version the Compose name has referred to, the current one last.
   After a power loss the name refers to one of `files[durableFrom..]`.
   */
  datatype State = State(
    files: seq<File>,
    durableFrom: nat,
    lock: Option<nat>,
    writers: map<nat, Writer>,
    canSync: bool               // whether the file system can sync a directory
  )

  datatype Action =
    | ReadHash(p: nat)
    | Load(p: nat)
    | Render(p: nat, text: string)
    | MakeTemp(p: nat)
    | WriteTemp(p: nat)
    | AcquireLock(p: nat)
    | SyncTemp(p: nat)
    | Compare(p: nat)
    | Replace(p: nat)
    | Record(p: nat)
    | SyncDirectory(p: nat, ok: bool)
    | Unlock(p: nat)
    | Cleanup(p: nat, ok: bool)
    | Fail(p: nat)
    | Kill(p: nat)

  function Current(s: State): string
    requires s.files != []
  {
    s.files[|s.files| - 1].data
  }

  predicate HoldsLock(pc: Pc) {
    pc.Locked? || pc.Synced? || pc.Checked? || pc.Replaced? || pc.Recorded? || pc.Settled?
  }

  /** An exception leaves through the lock's `finally` and then through the cleanup. */
  function Unwind(w: Writer): Writer {
    w.(outcome := Raised,
       pc := if HoldsLock(w.pc) then Settled
             else if w.pc.TempMade? || w.pc.Written? then Unlocked
             else Done)
  }

  /** What one step does to its writer alone; `None` when the step is not enabled. */
  function Advance(s: State, a: Action, w: Writer): Option<Writer>
    requires s.files != []
  {
    var now := |s.files| - 1;
    match a
    case ReadHash(_) =>
      if w.pc.Start? && w.call.Guarded? then
        Some(w.(pc := Hashed, hashedAt := now,
                expected := if w.call.given.Some? then w.call.given else Some(Current(s))))
      else None
    case Load(_) =>
      if w.pc.Hashed? then Some(w.(pc := Loaded, source := Current(s), loadedAt := now))
      else if w.pc.Start? && w.call.Tracking? then
        var loaded := w.(pc := Loaded, source := Current(s), loadedAt := now, expected := w.call.given);
        if w.call.given.Some? && w.call.given.value != Current(s) then Some(Unwind(loaded)) else Some(loaded)
      else if w.pc.Start? && w.call.Restore? then
        Some(w.(pc := Rendered, source := w.call.backup, rendered := w.call.backup,
                expected := Some(w.call.over), loadedAt := now))
      else None
    case Render(_, text) => if w.pc.Loaded? then Some(w.(pc := Rendered, rendered := text)) else None
    case MakeTemp(_) =>
      if w.pc.Rendered? then Some(w.(pc := TempMade, temp := Some(File("", false)))) else None
    case WriteTemp(_) =>
      if w.pc.TempMade? then Some(w.(pc := Written, temp := Some(File(w.rendered, false)))) else None
    case AcquireLock(_) => if w.pc.Written? && s.lock.None? then Some(w.(pc := Locked)) else None
    case SyncTemp(_) =>
      if w.pc.Locked? && w.temp.Some? then Some(w.(pc := Synced, temp := Some(w.temp.value.(synced := true))))
      else None
    case Compare(_) =>
      if !w.pc.Synced? then None
      else if w.expected.None? || w.expected.value == Current(s) then Some(w.(pc := Checked))
      else Some(Unwind(w))
    case Replace(_) =>
      if w.pc.Checked? && w.temp.Some? then
        Some(w.(pc := Replaced, temp := None, swappedAt := Some(|s.files|)))
      else None
    case Record(_) =>
      if w.pc.Replaced? then
        Some(w.(pc := Recorded, hashes := if w.tracked then w.hashes + [w.rendered] else w.hashes))
      else None
    case SyncDirectory(_, ok) =>
      if !w.pc.Recorded? then None
      else Some(w.(pc := Settled,
                   outcome := if ok then Returned(true) else if w.tracked then Raised else Returned(false)))
    case Unlock(_) => if w.pc.Settled? then Some(w.(pc := Unlocked)) else None
    case Cleanup(_, ok) =>
      if !w.pc.Unlocked? then None
      else if w.temp.None? || ok then Some(w.(pc := Done, temp := None))
      else Some(w.(pc := Done, outcome := Raised, unlinkFailed := true))
    case Fail(_) =>
      if w.pc.Replaced? || w.pc.Recorded? || w.pc.Settled? || w.pc.Unlocked? || w.pc.Done? || w.pc.Killed?
      then None
      else Some(Unwind(w))
    case Kill(_) => if w.pc.Done? || w.pc.Killed? then None else Some(w.(pc := Killed))
  }

  /** One step of one writer. */
  function Apply(s: State, a: Action): Option<State>
    requires s.files != []
  {
    if a.p !in s.writers then None
    else
      var w := s.writers[a.p];
      var moved := Advance(s, a, w);
      if moved.None? then None
      else
        var next := s.(writers := s.writers[a.p := moved.value]);
        match a
        case AcquireLock(_) => Some(next.(lock := Some(a.p)))
        case Unlock(_) => Some(next.(lock := None))
        case Kill(_) => Some(if s.lock == Some(a.p) then next.(lock := None) else next)
        case Replace(_) =>
          // The rename is atomic: the name now refers to the whole temporary file.
          Some(if w.temp.Some? then next.(files := s.files + [w.temp.value]) else next)
        case SyncDirectory(_, ok) =>
          Some(if ok && s.canSync then next.(durableFrom := |s.files| - 1) else next)
        case _ => Some(next)
  }

  // ---------- The invariant ----------

  ghost predicate Fresh(w: Writer) {
    && w.pc.Start? && w.temp.None? && w.hashes == w.hashesBefore && w.outcome.Pending?
    && !w.unlinkFailed && w.swappedAt.None? && w.expected.None?
  }

  ghost predicate Init(s: State) {
    && s.files != [] && |s.files| == 1 && s.files[0].synced && s.durableFrom == 0 && s.lock.None?
    && forall p :: p in s.writers ==> Fresh(s.writers[p])
  }

  predicate HasLoaded(pc: Pc) {
    !(pc.Start? || pc.Hashed? || pc.Done? || pc.Killed?)
  }

  /** What the temporary file looks like at each step. */
  ghost predicate TempOk(w: Writer) {
    match w.pc
    case Start | Hashed | Loaded | Rendered | Replaced | Recorded => w.temp.None?
    case TempMade => w.temp.Some?
    case Written | Locked => w.temp == Some(File(w.rendered, false))
    case Synced | Checked => w.temp == Some(File(w.rendered, true))
    case Settled | Unlocked => w.temp.None? <==> w.swappedAt.Some?
    case Done => w.temp.None? || w.unlinkFailed
    case Killed => true
  }

  /** The hash a guarded writer compares with: the caller's, or that of the version it hashed. */
  ghost function GuardOf(files: seq<File>, w: Writer): Option<string>
    requires w.call.Guarded? && w.hashedAt < |files|
  {
    if w.call.given.Some? then w.call.given else Some(files[w.hashedAt].data)
  }

  /** The version this writer made, and the one it replaced. */
  ghost predicate SwapOk(files: seq<File>, w: Writer) {
    match w.swappedAt
    case None =>
      !(w.pc.Replaced? || w.pc.Recorded?) && !w.outcome.Returned?
    case Some(k) =>
      && 1 <= k < |files|
      && (w.pc.Replaced? || w.pc.Recorded? || w.pc.Settled? || w.pc.Unlocked? || w.pc.Done? || w.pc.Killed?)
      && files[k].data == w.rendered
      && (w.expected.Some? ==> files[k - 1].data == w.expected.value)
      && (HoldsLock(w.pc) ==> k == |files| - 1)
      && (w.call.Restore? || (w.loadedAt < k && w.source == files[w.loadedAt].data))
      && (w.call.Tracking? ==> w.expected == w.call.given && (w.expected.Some? ==> w.source == w.expected.value))
      && (w.call.Guarded? ==>
            w.hashedAt <= w.loadedAt && w.expected == GuardOf(files, w))
      && (w.call.Restore? ==> w.expected == Some(w.call.over) && w.rendered == w.call.backup)
  }

  /** The same facts on the way to the swap. */
  ghost predicate PlanOk(files: seq<File>, w: Writer) {
    && (w.pc.Hashed? ==> w.call.Guarded?)
    && (w.pc.Hashed? ==> w.hashedAt < |files| && w.expected == GuardOf(files, w))
    && (w.swappedAt.None? && HasLoaded(w.pc) && w.outcome.Pending? ==>
          && (w.call.Restore? ==> w.expected == Some(w.call.over))
          && (w.call.Restore? && !w.pc.Loaded? ==> w.rendered == w.call.backup)
          && (w.pc.Loaded? ==> !w.call.Restore?)
          && (!w.call.Restore? ==> w.loadedAt < |files| && w.source == files[w.loadedAt].data)
          && (w.call.Tracking? ==> w.expected == w.call.given
                                   && (w.expected.Some? ==> w.source == w.expected.value))
          && (w.call.Guarded? ==>
                w.hashedAt <= w.loadedAt && w.expected == GuardOf(files, w)))
  }

  ghost predicate HashesOk(w: Writer) {
    match w.pc
    case Killed => true
    case Recorded | Settled | Unlocked | Done =>
      w.hashes == w.hashesBefore + (if w.tracked && w.swappedAt.Some? then [w.rendered] else [])
    case _ => w.hashes == w.hashesBefore
  }

  ghost predicate OutcomeOk(s: State, w: Writer) {
    && (w.pc.Settled? || w.pc.Unlocked? || w.pc.Done? || w.pc.Killed? || w.outcome.Pending?)
    && (w.pc.Settled? || w.pc.Unlocked? || w.pc.Done? ==> !w.outcome.Pending?)
    && (w.unlinkFailed ==> w.pc.Done? && w.outcome.Raised? && w.swappedAt.None?)
    && (w.outcome.Raised? && w.swappedAt.Some? ==> w.tracked)
    && (w.outcome == Returned(true) && s.canSync && w.swappedAt.Some? ==>
          w.swappedAt.value <= s.durableFrom)
  }

  ghost predicate WriterOk(s: State, p: nat, w: Writer)
    requires s.files != []
  {
    && (HoldsLock(w.pc) <==> s.lock == Some(p))
    && (w.pc.Checked? && w.expected.Some? ==> w.expected.value == Current(s))
    && TempOk(w) && SwapOk(s.files, w) && PlanOk(s.files, w) && HashesOk(w) && OutcomeOk(s, w)
  }

  ghost predicate SharedOk(s: State) {
    && s.files != [] && s.durableFrom < |s.files| && (!s.canSync ==> s.durableFrom == 0)
    && (forall i :: 0 <= i < |s.files| ==> s.files[i].synced)
    && (s.lock.Some? ==> s.lock.value in s.writers)
  }

  ghost predicate Inv(s: State) {
    SharedOk(s) && forall p :: p in s.writers ==> WriterOk(s, p, s.writers[p])
  }

  lemma InitInv(s: State)
    requires Init(s)
    ensures Inv(s)
  {
  }

  /** The shared state and the part of the invariant that concerns writer `p`. */
  ghost predicate OwnOk(t: State, p: nat) {
    SharedOk(t) && p in t.writers && WriterOk(t, p, t.writers[p])
  }

  /** Only the writer itself changes. */
  predicate Local(a: Action) {
    !a.AcquireLock? && !a.Unlock? && !a.Kill? && !a.Replace? && !a.SyncDirectory?
  }

  lemma OwnNow(s: State, a: Action)
    requires Inv(s) && Apply(s, a).Some?
    ensures s.files != [] && a.p in s.writers && Advance(s, a, s.writers[a.p]).Some?
    ensures WriterOk(s, a.p, s.writers[a.p]) && SharedOk(s)
  {
    hide Advance, WriterOk;
  }

  lemma LocalOwn(s: State, a: Action)
    requires Inv(s) && Apply(s, a).Some? && Local(a)
    requires a.p in s.writers && var w := Advance(s, a, s.writers[a.p]); w.Some? && WriterOk(s, a.p, w.value)
    ensures OwnOk(Apply(s, a).value, a.p)
  {
    hide Advance, TempOk, SwapOk, PlanOk, HashesOk;
  }

  lemma HashStep(s: State, a: Action)
    requires Inv(s) && Apply(s, a).Some?
    requires a.ReadHash?
    ensures OwnOk(Apply(s, a).value, a.p)
  {
    hide Inv, Apply, OwnOk;
    OwnNow(s, a);
    LocalOwn(s, a);
  }

  lemma LoadGuardedStep(s: State, a: Action)
    requires Inv(s) && Apply(s, a).Some?
    requires a.Load? && a.p in s.writers && s.writers[a.p].call.Guarded?
    ensures OwnOk(Apply(s, a).value, a.p)
  {
    hide Inv, Apply, OwnOk;
    OwnNow(s, a);
    LocalOwn(s, a);
  }

  lemma LoadTrackingStep(s: State, a: Action)
    requires Inv(s) && Apply(s, a).Some?
    requires a.Load? && a.p in s.writers && s.writers[a.p].call.Tracking?
    ensures OwnOk(Apply(s, a).value, a.p)
  {
    hide Inv, Apply, OwnOk;
    OwnNow(s, a);
    LocalOwn(s, a);
  }

  lemma LoadRestoreStep(s: State, a: Action)
    requires Inv(s) && Apply(s, a).Some?
    requires a.Load? && a.p in s.writers && s.writers[a.p].call.Restore?
    ensures OwnOk(Apply(s, a).value, a.p)
  {
    hide Inv, Apply, OwnOk;
    OwnNow(s, a);
    LocalOwn(s, a);
  }

  lemma RenderStep(s: State, a: Action)
    requires Inv(s) && Apply(s, a).Some?
    requires a.Render?
    ensures OwnOk(Apply(s, a).value, a.p)
  {
    hide Inv, Apply, OwnOk;
    OwnNow(s, a);
    LocalOwn(s, a);
  }

  lemma WriteStep(s: State, a: Action)
    requires Inv(s) && Apply(s, a).Some?
    requires a.MakeTemp? || a.WriteTemp?
    ensures OwnOk(Apply(s, a).value, a.p)
  {
    hide Inv, Apply, OwnOk;
    OwnNow(s, a);
    LocalOwn(s, a);
  }

  lemma LockStep(s: State, a: Action)
    requires Inv(s) && Apply(s, a).Some?
    requires a.AcquireLock?
    ensures OwnOk(Apply(s, a).value, a.p)
  {
    hide Inv;
    OwnNow(s, a);
  }

  lemma SyncTempStep(s: State, a: Action)
    requires Inv(s) && Apply(s, a).Some?
    requires a.SyncTemp?
    ensures OwnOk(Apply(s, a).value, a.p)
  {
    hide Inv, Apply, OwnOk;
    OwnNow(s, a);
    LocalOwn(s, a);
  }

  lemma CompareStep(s: State, a: Action)
    requires Inv(s) && Apply(s, a).Some?
    requires a.Compare?
    ensures OwnOk(Apply(s, a).value, a.p)
  {
    hide Inv, Apply, OwnOk;
    OwnNow(s, a);
    LocalOwn(s, a);
  }

  lemma ReplaceStep(s: State, a: Action)
    requires Inv(s) && Apply(s, a).Some?
    requires a.Replace?
    ensures OwnOk(Apply(s, a).value, a.p)
  {
    hide *;
    OwnNow(s, a);
    TempNow(s, a.p, s.writers[a.p]);
    ReplaceShared(s, a, Apply(s, a).value);
    ReplacedOk(s, Apply(s, a).value, a.p, s.writers[a.p]);
    OwnFrom(Apply(s, a).value, a.p);
  }

  lemma RecordStep(s: State, a: Action)
    requires Inv(s) && Apply(s, a).Some?
    requires a.Record?
    ensures OwnOk(Apply(s, a).value, a.p)
  {
    hide Inv, Apply, OwnOk;
    OwnNow(s, a);
    LocalOwn(s, a);
  }

  lemma SyncStep(s: State, a: Action)
    requires Inv(s) && Apply(s, a).Some?
    requires a.SyncDirectory?
    ensures OwnOk(Apply(s, a).value, a.p)
  {
    hide Inv;
    OwnNow(s, a);
  }

  lemma UnlockStep(s: State, a: Action)
    requires Inv(s) && Apply(s, a).Some?
    requires a.Unlock?
    ensures OwnOk(Apply(s, a).value, a.p)
  {
    hide Inv;
    OwnNow(s, a);
  }

  lemma CleanupStep(s: State, a: Action)
    requires Inv(s) && Apply(s, a).Some?
    requires a.Cleanup?
    ensures OwnOk(Apply(s, a).value, a.p)
  {
    hide Inv, Apply, OwnOk;
    OwnNow(s, a);
    LocalOwn(s, a);
  }

  lemma FailStep(s: State, a: Action)
    requires Inv(s) && Apply(s, a).Some?
    requires a.Fail?
    ensures OwnOk(Apply(s, a).value, a.p)
  {
    hide Inv, Apply, OwnOk;
    OwnNow(s, a);
    LocalOwn(s, a);
  }

  lemma KillStep(s: State, a: Action)
    requires Inv(s) && Apply(s, a).Some?
    requires a.Kill?
    ensures OwnOk(Apply(s, a).value, a.p)
  {
    hide *;
    OwnNow(s, a);
    KillShared(s, a, Apply(s, a).value);
    KilledOk(s, Apply(s, a).value, a.p, s.writers[a.p]);
    OwnFrom(Apply(s, a).value, a.p);
  }

  lemma TempNow(s: State, p: nat, w: Writer)
    requires s.files != [] && WriterOk(s, p, w)
    ensures TempOk(w)
  {
  }

  lemma OwnFrom(t: State, p: nat)
    requires SharedOk(t) && p in t.writers && WriterOk(t, p, t.writers[p])
    ensures OwnOk(t, p)
  {
  }

  lemma KillShared(s: State, a: Action, t: State)
    requires SharedOk(s) && a.Kill? && Apply(s, a) == Some(t)
    ensures SharedOk(t) && t.files == s.files && SameDurable(s, t) && t.lock != Some(a.p)
    ensures a.p in s.writers && t.writers == s.writers[a.p := s.writers[a.p].(pc := Killed)]
    ensures !s.writers[a.p].pc.Done?
  {
  }

  lemma KilledOk(s: State, t: State, p: nat, w: Writer)
    requires s.files != [] && WriterOk(s, p, w) && !w.pc.Done?
    requires t.files == s.files && SameDurable(s, t) && t.lock != Some(p)
    ensures WriterOk(t, p, w.(pc := Killed))
  {
  }

  lemma ReplaceShared(s: State, a: Action, t: State)
    requires SharedOk(s) && a.Replace? && Apply(s, a) == Some(t) && a.p in s.writers && TempOk(s.writers[a.p])
    ensures SharedOk(t) && SameDurable(s, t) && t.lock == s.lock && s.writers[a.p].pc.Checked?
    ensures var w := s.writers[a.p];
            && t.files == s.files + [File(w.rendered, true)]
            && t.writers == s.writers[a.p := w.(pc := Replaced, temp := None, swappedAt := Some(|s.files|))]
  {
  }

  lemma ReplacedOk(s: State, t: State, p: nat, w: Writer)
    requires s.files != [] && WriterOk(s, p, w) && w.pc.Checked?
    requires t.files == s.files + [File(w.rendered, true)] && SameDurable(s, t) && t.lock == s.lock
    ensures WriterOk(t, p, w.(pc := Replaced, temp := None, swappedAt := Some(|s.files|)))
  {
  }

  /** The step of a writer keeps that writer's part of the invariant. */
  lemma StepOwn(s: State, a: Action)
    requires Inv(s) && Apply(s, a).Some?
    ensures OwnOk(Apply(s, a).value, a.p)
  {
    assert a.p in s.writers;
    hide *;
    match a
    case ReadHash(_) => HashStep(s, a);
    case Load(p) =>
      if s.writers[p].call.Guarded? { LoadGuardedStep(s, a); }
      else if s.writers[p].call.Tracking? { LoadTrackingStep(s, a); }
      else { LoadRestoreStep(s, a); }
    case Render(_, _) => RenderStep(s, a);
    case Replace(_) => ReplaceStep(s, a);
    case Record(_) => RecordStep(s, a);
    case SyncDirectory(_, _) => SyncStep(s, a);
    case Unlock(_) => UnlockStep(s, a);
    case Cleanup(_, _) => CleanupStep(s, a);
    case Fail(_) => FailStep(s, a);
    case Kill(_) => KillStep(s, a);
    case MakeTemp(_) => WriteStep(s, a);
    case WriteTemp(_) => WriteStep(s, a);
    case AcquireLock(_) => LockStep(s, a);
    case SyncTemp(_) => SyncTempStep(s, a);
    case Compare(_) => CompareStep(s, a);
  }

  /** And no step disturbs what another writer relies on. */
  lemma StepOther(s: State, a: Action, q: nat)
    requires Inv(s) && Apply(s, a).Some? && q in s.writers && q != a.p
    ensures var t := Apply(s, a).value;
            t.files != [] && q in t.writers && WriterOk(t, q, t.writers[q])
  {
    var t := Apply(s, a).value;
    OwnNow(s, a);
    assert WriterOk(s, q, s.writers[q]);
    if a.Replace? {
      AfterReplace(s, a, t);
      hide *;
      OtherReplaced(s, t, q, s.writers[q]);
    } else {
      AfterOther(s, a, t);
      hide *;
      OtherSame(s, t, q, s.writers[q]);
    }
  }

  lemma AfterReplace(s: State, a: Action, t: State)
    requires s.files != [] && Apply(s, a) == Some(t) && a.Replace? && WriterOk(s, a.p, s.writers[a.p])
    ensures t.writers == s.writers[a.p := t.writers[a.p]] && t.lock == s.lock == Some(a.p)
    ensures |t.files| > 0 && t.files[..|t.files| - 1] == s.files && SameDurable(s, t)
  {
    hide SwapOk, PlanOk, HashesOk, OutcomeOk;
  }

  lemma AfterOther(s: State, a: Action, t: State)
    requires s.files != [] && Apply(s, a) == Some(t) && !a.Replace? && WriterOk(s, a.p, s.writers[a.p])
    requires s.durableFrom < |s.files|
    ensures t.writers == s.writers[a.p := t.writers[a.p]] && t.files == s.files
    ensures t.canSync == s.canSync && s.durableFrom <= t.durableFrom
    ensures forall q :: q != a.p ==> (t.lock == Some(q) <==> s.lock == Some(q))
  {
    hide SwapOk, PlanOk, HashesOk, OutcomeOk, TempOk;
  }

  predicate SameDurable(s: State, t: State) {
    t.canSync == s.canSync && t.durableFrom == s.durableFrom
  }

  lemma OtherSame(s: State, t: State, q: nat, w: Writer)
    requires s.files != [] && WriterOk(s, q, w)
    requires t.files == s.files && t.canSync == s.canSync && s.durableFrom <= t.durableFrom
    requires t.lock == Some(q) <==> s.lock == Some(q)
    ensures WriterOk(t, q, w)
  {
    hide SwapOk, PlanOk, HashesOk, TempOk;
  }

  lemma OtherReplaced(s: State, t: State, q: nat, w: Writer)
    requires s.files != [] && WriterOk(s, q, w)
    requires |t.files| > 0 && t.files[..|t.files| - 1] == s.files && SameDurable(s, t)
    requires t.lock == s.lock && s.lock != Some(q)
    ensures WriterOk(t, q, w)
  {
    hide HashesOk, TempOk;
    var n := |s.files|;
    assert forall i :: 0 <= i < n ==> t.files[i] == s.files[i];
  }

  lemma StepInv(s: State, a: Action)
    requires Inv(s) && Apply(s, a).Some?
    ensures Inv(Apply(s, a).value)
  {
    var t := Apply(s, a).value;
    StepOwn(s, a);
    forall q | q in t.writers ensures WriterOk(t, q, t.writers[q]) {
      if q != a.p { StepOther(s, a, q); }
    }
  }

  // ---------- Who made which version ----------

  ghost predicate MadeBy(s: State, k: nat, p: nat) {
    p in s.writers && s.writers[p].swappedAt == Some(k)
  }

  ghost predicate HasAuthor(s: State, k: nat) {
    exists p :: MadeBy(s, k, p)
  }

  /** Every version but the first was made by exactly one writer. */
  ghost predicate Authored(s: State) {
    (forall k: nat :: 1 <= k < |s.files| ==> HasAuthor(s, k)) && OneVersionEach(s)
  }

  ghost predicate OneVersionEach(s: State) {
    forall p, q :: p in s.writers && q in s.writers && p != q && s.writers[p].swappedAt.Some? ==>
      s.writers[p].swappedAt != s.writers[q].swappedAt
  }

  /** What a step does to the versions and to who made them. */
  lemma StepVersions(s: State, a: Action)
    requires Inv(s) && Apply(s, a).Some?
    ensures var t := Apply(s, a).value;
            && a.p in s.writers && t.writers.Keys == s.writers.Keys
            && (forall q :: q in s.writers && q != a.p ==> t.writers[q] == s.writers[q])
            && (a.Replace? ==> s.writers[a.p].swappedAt.None? && |t.files| == |s.files| + 1
                               && t.writers[a.p].swappedAt == Some(|s.files|))
            && (!a.Replace? ==> t.files == s.files && t.writers[a.p].swappedAt == s.writers[a.p].swappedAt)
  {
    if a.Replace? {
      assert WriterOk(s, a.p, s.writers[a.p]);
    } else {
      OtherVersions(s, a);
    }
  }

  lemma OtherVersions(s: State, a: Action)
    requires s.files != [] && Apply(s, a).Some? && !a.Replace?
    ensures var t := Apply(s, a).value;
            && a.p in s.writers && t.writers.Keys == s.writers.Keys
            && (forall q :: q in s.writers && q != a.p ==> t.writers[q] == s.writers[q])
            && t.files == s.files && t.writers[a.p].swappedAt == s.writers[a.p].swappedAt
  {
    hide Advance;
    AdvanceKeepsSwap(s, a, s.writers[a.p]);
  }

  lemma AdvanceKeepsSwap(s: State, a: Action, w: Writer)
    requires s.files != [] && !a.Replace? && Advance(s, a, w).Some?
    ensures Advance(s, a, w).value.swappedAt == w.swappedAt
  {
  }

  lemma SwappedBelow(s: State)
    requires Inv(s)
    ensures forall q :: q in s.writers && s.writers[q].swappedAt.Some? ==>
              s.writers[q].swappedAt.value < |s.files|
  {
    forall q | q in s.writers && s.writers[q].swappedAt.Some?
      ensures s.writers[q].swappedAt.value < |s.files|
    {
      assert WriterOk(s, q, s.writers[q]);
    }
  }

  lemma StepAuthored(s: State, a: Action)
    requires Inv(s) && Authored(s) && Apply(s, a).Some?
    ensures Authored(Apply(s, a).value)
  {
    var t := Apply(s, a).value;
    AuthorsDiffer(s, a);
    StepVersions(s, a);
    hide Inv, Apply, HasAuthor;
    forall k: nat | 1 <= k < |t.files| ensures HasAuthor(t, k) {
      AuthorStays(s, a, k);
    }
  }

  lemma AuthorsDiffer(s: State, a: Action)
    requires Inv(s) && OneVersionEach(s) && Apply(s, a).Some?
    ensures OneVersionEach(Apply(s, a).value)
  {
    hide Inv, Apply;
    StepVersions(s, a);
    SwappedBelow(s);
  }

  lemma AuthorStays(s: State, a: Action, k: nat)
    requires Inv(s) && Apply(s, a).Some?
    requires 1 <= k < |s.files| ==> HasAuthor(s, k)
    requires 1 <= k < |Apply(s, a).value.files|
    ensures HasAuthor(Apply(s, a).value, k)
  {
    hide Inv, Apply;
    StepVersions(s, a);
    var p := a.p;
    if k < |s.files| {
      p :| MadeBy(s, k, p);
    }
    assert MadeBy(Apply(s, a).value, k, p);
  }

  // ---------- Runs ----------

  /** The state after the given steps, of any writers in any order. */
  function Exec(s: State, actions: seq<Action>): (r: Option<State>)
    requires s.files != []
    ensures r.Some? ==> r.value.files != []
    decreases |actions|
  {
    if actions == [] then Some(s)
    else
      var t := Apply(s, actions[0]);
      if t.None? then None else Exec(t.value, actions[1..])
  }

  lemma {:induction false} ExecInv(s: State, actions: seq<Action>)
    requires s.files != [] && Inv(s) && Authored(s) && Exec(s, actions).Some?
    ensures Inv(Exec(s, actions).value) && Authored(Exec(s, actions).value)
    decreases |actions|
  {
    if actions != [] {
      hide Inv, Authored, Apply;
      StepInv(s, actions[0]);
      StepAuthored(s, actions[0]);
      ExecInv(Apply(s, actions[0]).value, actions[1..]);
    }
  }

  /** A state some run of any number of writers can reach. */
  ghost predicate Reachable(s: State) {
    exists start, actions :: Init(start) && Exec(start, actions) == Some(s)
  }

  lemma ReachableInv(s: State)
    requires Reachable(s)
    ensures Inv(s) && Authored(s)
  {
    var start, actions :| Init(start) && Exec(start, actions) == Some(s);
    InitInv(start);
    ExecInv(start, actions);
  }

  // ---------- What holds in every reachable state ----------

  /** The invariant's account of a writer that has replaced the file. */
  lemma SwapFacts(s: State, p: nat)
    requires Reachable(s) && p in s.writers
    ensures SwapOk(s.files, s.writers[p])
  {
    ReachableInv(s);
    assert WriterOk(s, p, s.writers[p]);
  }

  lemma AuthorOf(s: State, k: nat) returns (p: nat)
    requires Reachable(s) && 1 <= k < |s.files|
    ensures p in s.writers && s.writers[p].swappedAt == Some(k)
  {
    ReachableInv(s);
    assert HasAuthor(s, k);
    p :| MadeBy(s, k, p);
  }

  /** What a power loss may leave under the Compose name: anything, for an unsynced file. */
  ghost predicate AfterPowerLoss(s: State, content: string) {
    exists i :: s.durableFrom <= i < |s.files| && (s.files[i].synced ==> content == s.files[i].data)
  }

  /** Whenever power is lost, the name refers to one complete version, never to a partial one. */
  lemma PowerLossLeavesACompleteVersion(s: State, content: string)
    requires Reachable(s) && AfterPowerLoss(s, content)
    ensures exists i :: s.durableFrom <= i < |s.files| && content == s.files[i].data
  {
    ReachableInv(s);
    var i :| s.durableFrom <= i < |s.files| && (s.files[i].synced ==> content == s.files[i].data);
    assert content == s.files[i].data;
  }

  /** One step adds at most the new content to what a power loss may leave. */
  lemma PowerLossLeavesOldOrNew(s: State, a: Action, content: string)
    requires Reachable(s) && s.files != [] && Apply(s, a).Some? && AfterPowerLoss(Apply(s, a).value, content)
    ensures AfterPowerLoss(s, content) || (a.Replace? && content == s.writers[a.p].rendered)
  {
    hide Inv, Reachable, SwapOk, PlanOk, HashesOk, OutcomeOk;
    ReachableInv(s);
    OwnNow(s, a);
    var t := Apply(s, a).value;
    var i :| t.durableFrom <= i < |t.files| && (t.files[i].synced ==> content == t.files[i].data);
    if i < |s.files| { assert t.files[i] == s.files[i]; }
  }

  /** A version made under a guard replaced exactly the guarded text; so does every rollback. */
  lemma GuardedReplacement(s: State, k: nat)
    requires Reachable(s) && 1 <= k < |s.files|
    ensures exists p :: p in s.writers && s.writers[p].swappedAt == Some(k)
              && s.files[k].data == s.writers[p].rendered
              && (s.writers[p].expected.Some? ==> s.files[k - 1].data == s.writers[p].expected.value)
              && (s.writers[p].call.Restore? ==> s.files[k - 1].data == s.writers[p].call.over
                                                 && s.files[k].data == s.writers[p].call.backup)
  {
    hide Reachable;
    var p := AuthorOf(s, k);
    SwapFacts(s, p);
  }

  /** A tracking-label writer given a hash replaces exactly the text it rendered from. */
  lemma TrackingReplacesItsSource(s: State, p: nat, k: nat)
    requires Reachable(s) && p in s.writers && s.writers[p].swappedAt == Some(k)
    requires s.writers[p].call.Tracking? && s.writers[p].call.given.Some?
    ensures 1 <= k < |s.files| && s.files[k - 1].data == s.writers[p].source
  {
    hide Reachable;
    SwapFacts(s, p);
  }

  /**
   The other guarded writers hash and load in two reads: they replace what they rendered
   from exactly when the version they loaded has the text they compare with.
   */
  lemma GuardedReplacesItsSourceIff(s: State, p: nat, k: nat)
    requires Reachable(s) && p in s.writers && s.writers[p].swappedAt == Some(k)
    requires s.writers[p].call.Guarded?
    ensures var w := s.writers[p];
            && 1 <= k < |s.files| && w.hashedAt <= w.loadedAt < k
            && (s.files[k - 1].data == w.source <==>
                  Some(s.files[w.loadedAt].data) == GuardOf(s.files, w))
  {
    hide Reachable;
    SwapFacts(s, p);
  }

  /** No text occurs twice among the versions from `i` to `j`. */
  ghost predicate NoRecurrence(files: seq<File>, i: nat, j: nat)
    requires j < |files|
  {
    forall a, b :: i <= a < b <= j ==> files[a].data != files[b].data
  }

  lemma GuardedReplacesItsSource(s: State, p: nat, k: nat)
    requires Reachable(s) && p in s.writers && s.writers[p].swappedAt == Some(k)
    requires s.writers[p].call == Guarded(None)
    requires 1 <= k <= |s.files| && NoRecurrence(s.files, s.writers[p].hashedAt, k - 1)
    ensures s.files[k - 1].data == s.writers[p].source && s.writers[p].hashedAt == k - 1
  {
    hide Reachable;
    SwapFacts(s, p);
  }

  /** How a call that was not killed ends, normally or with an exception. */
  lemma ExitIsAccountedFor(s: State, p: nat)
    requires Reachable(s) && p in s.writers && s.writers[p].pc.Done?
    ensures var w := s.writers[p];
            && (w.tracked ==> w.hashes == w.hashesBefore + (if w.swappedAt.Some? then [w.rendered] else []))
            && (w.temp.None? || w.unlinkFailed)
            && (w.outcome.Returned? ==> w.swappedAt.Some?)
            && (w.outcome.Raised? && w.swappedAt.Some? ==> w.tracked)
            && !w.outcome.Pending?
            && s.lock != Some(p)
  {
    ReachableInv(s);
    assert WriterOk(s, p, s.writers[p]);
  }

  /** A True result: no later power loss brings back what this writer replaced. */
  lemma TrueResultIsDurable(s: State, p: nat, k: nat, content: string)
    requires Reachable(s) && p in s.writers && s.canSync
    requires s.writers[p].outcome == Returned(true) && s.writers[p].swappedAt == Some(k)
    requires AfterPowerLoss(s, content)
    ensures exists i :: k <= i < |s.files| && content == s.files[i].data
  {
    ReachableInv(s);
    assert WriterOk(s, p, s.writers[p]);
    PowerLossLeavesACompleteVersion(s, content);
  }

  // ---------- The caller's record (src/wudup/updater_lifecycle_state.py) ----------

  datatype StackUpdateState = StackUpdateState(
    composeWrittenHashes: seq<string>,
    appliedTags: seq<string>,
    appliedDigestPins: seq<string>,
    appliedDigestUnpins: seq<string>)
  {
    predicate ComposeRewriteApplied() {
      composeWrittenHashes != [] || appliedTags != [] || appliedDigestPins != [] || appliedDigestUnpins != []
    }
  }

  /** The rewrite counts as applied whenever the tracked call replaced the file, also if it raised. */
  lemma ReplacedCountsAsApplied(s: State, p: nat, record: StackUpdateState)
    requires Reachable(s) && p in s.writers && s.writers[p].pc.Done? && s.writers[p].tracked
    requires record.composeWrittenHashes == s.writers[p].hashes
    ensures s.writers[p].swappedAt.Some? ==> record.ComposeRewriteApplied()
    ensures s.writers[p].hashesBefore == [] ==>
              (record.ComposeRewriteApplied() <==>
                s.writers[p].swappedAt.Some? || record.appliedTags != [] || record.appliedDigestPins != []
                || record.appliedDigestUnpins != [])
  {
    ExitIsAccountedFor(s, p);
  }

  // ---------- Content that recurs ----------

  lemma {:induction false} ExecConcat(s: State, a: seq<Action>, b: seq<Action>)
    requires s.files != [] && Exec(s, a).Some?
    ensures Exec(s, a + b) == Exec(Exec(s, a).value, b)
    decreases |a|
  {
    if a == [] {
      assert a + b == b;
    } else {
      assert (a + b)[1..] == a[1..] + b;
      ExecConcat(Apply(s, a[0]).value, a[1..], b);
    }
  }

  lemma ExecStep(s: State, a: Action, rest: seq<Action>)
    requires s.files != [] && Apply(s, a).Some?
    ensures Apply(s, a).value.files != []
    ensures Exec(s, [a] + rest) == Exec(Apply(s, a).value, rest)
  {
    assert ([a] + rest)[1..] == rest;
  }

  ghost predicate OthersUnchanged(s: State, t: State, p: nat) {
    && t.writers.Keys == s.writers.Keys
    && forall q :: q in s.writers && q != p ==> t.writers[q] == s.writers[q]
  }

  function With(s: State, p: nat, w: Writer): State {
    s.(writers := s.writers[p := w])
  }

  lemma WithTwice(s: State, p: nat, a: Writer, b: Writer)
    ensures With(With(s, p, a), p, b) == With(s, p, b)
  {
    assert s.writers[p := a][p := b] == s.writers[p := b];
  }

  /** A step that changes its writer only. */
  lemma LocalStep(s: State, p: nat, a: Action, w: Writer, rest: seq<Action>, t: Option<State>)
    requires s.files != [] && p in s.writers && a.p == p && Advance(s, a, s.writers[p]) == Some(w)
    requires Local(a)
    requires Exec(With(s, p, w), rest) == t
    ensures Exec(s, [a] + rest) == t
  {
    ExecStep(s, a, rest);
  }

  /** Steps of one writer that is alone with the lock, from a rendered text to the swap. */
  function SwapSteps(p: nat): seq<Action> {
    [MakeTemp(p)] + ([WriteTemp(p)] + ([AcquireLock(p)] + ([SyncTemp(p)] + ([Compare(p)] + ([Replace(p)] + [])))))
  }

  /** The state after them. */
  function Swapped(s: State, p: nat): State
    requires p in s.writers
  {
    var w := s.writers[p];
    With(s, p, w.(pc := Replaced, temp := None, swappedAt := Some(|s.files|)))
      .(files := s.files + [File(w.rendered, true)], lock := Some(p))
  }

  lemma LockedSwap(s: State, p: nat, w: Writer)
    requires s.files != [] && p in s.writers && s.lock == Some(p) && s.writers[p] == w
    requires w.pc.Locked? && w.temp == Some(File(w.rendered, false)) && w.expected == Some(Current(s))
    ensures Exec(s, [SyncTemp(p)] + ([Compare(p)] + ([Replace(p)] + []))) == Some(Swapped(s, p))
  {
    var w1 := w.(pc := Synced, temp := Some(File(w.rendered, true)));
    var w2 := w1.(pc := Checked);
    var s2 := With(s, p, w2);
    var w3 := w2.(pc := Replaced, temp := None, swappedAt := Some(|s.files|));
    ExecStep(s2, Replace(p), []);
    WithTwice(s, p, w2, w3);
    assert Exec(s2, [Replace(p)] + []) == Some(Swapped(s, p));
    hide Exec;
    WithTwice(s, p, w1, w2);
    LocalStep(With(s, p, w1), p, Compare(p), w2, [Replace(p)] + [], Some(Swapped(s, p)));
    LocalStep(s, p, SyncTemp(p), w1, [Compare(p)] + ([Replace(p)] + []), Some(Swapped(s, p)));
  }

  lemma SwapRuns(s: State, p: nat)
    requires s.files != [] && s.lock.None? && p in s.writers
    requires s.writers[p].pc.Rendered? && s.writers[p].expected == Some(Current(s))
    ensures Exec(s, SwapSteps(p)) == Some(Swapped(s, p))
  {
    var w := s.writers[p];
    var w1 := w.(pc := TempMade, temp := Some(File("", false)));
    var w2 := w1.(pc := Written, temp := Some(File(w.rendered, false)));
    var w3 := w2.(pc := Locked);
    var s2 := With(s, p, w2);
    var s3 := With(s, p, w3).(lock := Some(p));
    WithTwice(s, p, w2, w3);
    assert Apply(s2, AcquireLock(p)) == Some(s3);
    LockedSwap(s3, p, w3);
    WithTwice(s, p, w3, w3.(pc := Replaced, temp := None, swappedAt := Some(|s.files|)));
    assert Swapped(s3, p) == Swapped(s, p);
    var rest := [SyncTemp(p)] + ([Compare(p)] + ([Replace(p)] + []));
    ExecStep(s2, AcquireLock(p), rest);
    hide Exec, Swapped;
    WithTwice(s, p, w1, w2);
    LocalStep(With(s, p, w1), p, WriteTemp(p), w2, [AcquireLock(p)] + rest, Some(Swapped(s, p)));
    LocalStep(s, p, MakeTemp(p), w1, [WriteTemp(p)] + ([AcquireLock(p)] + rest), Some(Swapped(s, p)));
  }

  function LeaveSteps(p: nat): seq<Action> {
    [Record(p)] + ([SyncDirectory(p, true)] + ([Unlock(p)] + ([Cleanup(p, true)] + [])))
  }

  /** From the swap to a normal return. */
  lemma LeaveRuns(s: State, p: nat) returns (t: State)
    requires s.files != [] && s.lock == Some(p) && p in s.writers
    requires s.writers[p].pc.Replaced? && s.writers[p].temp.None?
    ensures Exec(s, LeaveSteps(p)) == Some(t) && t.files == s.files && t.lock.None?
    ensures OthersUnchanged(s, t, p)
  {
    var s1 := Apply(s, Record(p)).value;
    var s2 := Apply(s1, SyncDirectory(p, true)).value;
    var s3 := Apply(s2, Unlock(p)).value;
    t := Apply(s3, Cleanup(p, true)).value;
    LeavesOthers(s, s1, s2, s3, t, p);
    hide Apply, OthersUnchanged;
    ExecNone(t);
    hide Exec;
    ExecStep(s3, Cleanup(p, true), []);
    ExecStep(s2, Unlock(p), [Cleanup(p, true)] + []);
    ExecStep(s1, SyncDirectory(p, true), [Unlock(p)] + ([Cleanup(p, true)] + []));
    ExecStep(s, Record(p), [SyncDirectory(p, true)] + ([Unlock(p)] + ([Cleanup(p, true)] + [])));
  }

  lemma ExecNone(s: State)
    requires s.files != []
    ensures Exec(s, []) == Some(s)
  {
  }

  lemma LeavesOthers(s: State, s1: State, s2: State, s3: State, t: State, p: nat)
    requires s.files != [] && s.lock == Some(p) && p in s.writers
    requires s.writers[p].pc.Replaced? && s.writers[p].temp.None?
    requires Apply(s, Record(p)) == Some(s1) && s1.files != [] && Apply(s1, SyncDirectory(p, true)) == Some(s2)
    requires s2.files != [] && Apply(s2, Unlock(p)) == Some(s3)
    requires s3.files != [] && Apply(s3, Cleanup(p, true)) == Some(t)
    ensures t.files == s.files && t.lock.None? && OthersUnchanged(s, t, p)
  {
  }

  /** An undisturbed rollback over the current version succeeds. */
  lemma RestoreRuns(s: State, p: nat) returns (actions: seq<Action>, t: State)
    requires s.files != [] && s.lock.None? && p in s.writers
    requires s.writers[p].pc.Start? && s.writers[p].call.Restore? && s.writers[p].call.over == Current(s)
    ensures Exec(s, actions) == Some(t) && t.lock.None?
    ensures t.files == s.files + [File(s.writers[p].call.backup, true)]
    ensures OthersUnchanged(s, t, p)
  {
    hide Exec;
    var s1 := Apply(s, Load(p)).value;
    SwapRuns(s1, p);
    t := LeaveRuns(Swapped(s1, p), p);
    ExecConcat(s1, SwapSteps(p), LeaveSteps(p));
    actions := [Load(p)] + (SwapSteps(p) + LeaveSteps(p));
    ExecStep(s, Load(p), SwapSteps(p) + LeaveSteps(p));
  }

  /** The start of the run below: one editing writer and two rollbacks. */
  function RecurrenceStart(): State {
    var idle := Writer(Guarded(None), false, Start, None, "", "", None, [], [], Pending, false, 0, 0, None);
    State([File("a", true)], 0, None,
          map[0 := idle, 1 := idle.(call := Restore("a", "b")), 2 := idle.(call := Restore("b", "a"))], true)
  }

  /** The first half: hash "a", let a rollback write "b", load "b". */
  lemma HashThenLoad() returns (actions: seq<Action>, s: State)
    ensures Exec(RecurrenceStart(), actions) == Some(s) && s.lock.None?
    ensures s.files == [File("a", true), File("b", true)] && s.writers.Keys == {0, 1, 2}
    ensures s.writers[2] == RecurrenceStart().writers[2]
    ensures var w := s.writers[0];
            w.pc.Loaded? && w.call == Guarded(None) && w.source == "b" && w.expected == Some("a")
  {
    var s0 := RecurrenceStart();
    var s1 := Apply(s0, ReadHash(0)).value;
    var restore, s2 := RestoreRuns(s1, 1);
    s := Apply(s2, Load(0)).value;
    ExecStep(s2, Load(0), []);
    assert Exec(s, []) == Some(s);
    hide Exec;
    ExecConcat(s1, restore, [Load(0)] + []);
    ExecStep(s0, ReadHash(0), restore + ([Load(0)] + []));
    actions := [ReadHash(0)] + (restore + ([Load(0)] + []));
  }

  /** The second half: another rollback brings "a" back, and the edit of "b" replaces it. */
  lemma RestoreThenSwap(s: State) returns (actions: seq<Action>, t: State)
    requires s.files == [File("a", true), File("b", true)] && s.writers.Keys == {0, 1, 2} && s.lock.None?
    requires s.writers[2] == RecurrenceStart().writers[2]
    requires var w := s.writers[0];
             w.pc.Loaded? && w.call == Guarded(None) && w.source == "b" && w.expected == Some("a")
    ensures Exec(s, actions) == Some(t) && |t.files| == 4 && t.files[2].data == "a" && 0 in t.writers
    ensures var w := t.writers[0];
            w.call == Guarded(None) && w.source == "b" && w.swappedAt == Some(3)
  {
    hide Exec, SwapSteps;
    var restore, s1 := RestoreRuns(s, 2);
    var s2 := Apply(s1, Render(0, "edited b")).value;
    SwapRuns(s2, 0);
    t := Swapped(s2, 0);
    ExecStep(s1, Render(0, "edited b"), SwapSteps(0));
    ExecConcat(s, restore, [Render(0, "edited b")] + SwapSteps(0));
    actions := restore + ([Render(0, "edited b")] + SwapSteps(0));
  }

  /** A run after which some guarded writer has replaced text it did not render from. */
  ghost predicate ReplacedOtherText(s: State, p: nat, k: nat) {
    && Reachable(s) && p in s.writers && s.writers[p].call == Guarded(None)
    && s.writers[p].swappedAt == Some(k) && 1 <= k < |s.files|
    && s.files[k - 1].data != s.writers[p].source
  }

  /**
   A guarded writer hashes "a", loads "b" after one rollback, and swaps after another one has
   brought "a" back: the check passes although the edit was rendered from other text.
   */
  lemma RecurrenceDefeatsTheGuard()
    ensures exists s, p, k :: ReplacedOtherText(s, p, k)
  {
    hide Exec;
    var first, s := HashThenLoad();
    var second, t := RestoreThenSwap(s);
    ExecConcat(RecurrenceStart(), first, second);
    assert Init(RecurrenceStart());
    assert Reachable(t);
    assert ReplacedOtherText(t, 0, 3);
  }
}
