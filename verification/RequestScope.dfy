/**
 Request scopes under any interleaving of threads: registry checks that a recent success stands
 for, and reads that are shared inside one request. Each section under a lock is one step.
 */
module RequestScope {
  import opened Ordering
  import opened RegistryChecks

  type ThreadId = nat
  type ScopeId = nat

  datatype Scope = Scope(reuseReads: bool, reuseRegistryChecks: bool, active: bool, reused: nat,
                         results: map<string, string>)

  /** Where a thread stands inside a call. */
  datatype Pc =
    | Idle
    | LookingUp(key: string, now: real)      // the clock is read, the registry lock not yet taken
    | Checking(key: string, store: bool)
    | Storing(key: string)                   // the check succeeded
    | LookingForRead(key: string)
    | Computing(key: string, share: bool)
    | Sharing(key: string, value: string)

  datatype Thread = Thread(scope: Option<ScopeId>, pc: Pc)

  /** What happened, in order. */
  datatype Event =
    | Succeeded(key: string, at: real)
    | Failed(key: string)
    | Recorded(key: string, at: real)
    | Begun(scope: ScopeId, optedIn: bool)
    | Started(scope: ScopeId, key: string, now: real)     // a check is asked for in the scope
    | Skipped(scope: ScopeId, key: string, now: real)
    | Computed(scope: ScopeId, key: string, value: string)
    | Reused(scope: ScopeId, key: string, value: string)
    | Ended(scope: ScopeId)

  datatype State = State(clock: real, table: seq<Entry>, scopes: seq<Scope>, threads: map<ThreadId, Thread>,
                         log: seq<Event>)

  datatype Action =
    | Tick(seconds: real)
    | Spawn(t: ThreadId, parent: ThreadId)   // a new thread with a copied context
    | Begin(t: ThreadId, reuseReads: bool, reuseRegistryChecks: bool)
    | End(t: ThreadId, restored: Option<ScopeId>)
    | StartCheck(t: ThreadId, key: string)
    | LookUp(t: ThreadId)
    | CheckReturns(t: ThreadId, ok: bool)
    | Store(t: ThreadId)
    | ClearChecks
    | StartRead(t: ThreadId, key: string)
    | FindRead(t: ThreadId)
    | ComputeReturns(t: ThreadId, result: Option<string>)
    | Share(t: ThreadId)

  // ---------- Steps ----------

  predicate At(s: State, t: ThreadId) {
    t in s.threads && (s.threads[t].scope.Some? ==> s.threads[t].scope.value < |s.scopes|)
  }

  predicate InScope(s: State, t: ThreadId) {
    At(s, t) && s.threads[t].scope.Some?
  }

  predicate Enabled(s: State, a: Action) {
    match a
    case Tick(seconds) => seconds >= 0.0
    case Spawn(t, parent) => t !in s.threads && At(s, parent)
    case Begin(t, _, _) => At(s, t) && s.threads[t].pc.Idle?
    case End(t, restored) =>
      At(s, t) && s.threads[t].pc.Idle? && (restored.Some? ==> restored.value < |s.scopes|)
    case StartCheck(t, _) => At(s, t) && s.threads[t].pc.Idle?
    case LookUp(t) => InScope(s, t) && s.threads[t].pc.LookingUp?
    case CheckReturns(t, _) => At(s, t) && s.threads[t].pc.Checking?
    case Store(t) => At(s, t) && s.threads[t].pc.Storing?
    case ClearChecks => true
    case StartRead(t, _) => At(s, t) && s.threads[t].pc.Idle?
    case FindRead(t) => InScope(s, t) && s.threads[t].pc.LookingForRead?
    case ComputeReturns(t, _) =>
      At(s, t) && s.threads[t].pc.Computing? && (s.threads[t].pc.share ==> InScope(s, t))
    case Share(t) => InScope(s, t) && s.threads[t].pc.Sharing?
  }

  function Goto(s: State, t: ThreadId, pc: Pc): State
    requires At(s, t)
  {
    s.(threads := s.threads[t := s.threads[t].(pc := pc)])
  }

  function Log(s: State, e: Event): State {
    s.(log := s.log + [e])
  }

  function ScopeOf(s: State, t: ThreadId): ScopeId
    requires InScope(s, t)
  {
    s.threads[t].scope.value
  }

  function CountReuse(s: State, i: ScopeId): State
    requires i < |s.scopes|
  {
    s.(scopes := s.scopes[i := s.scopes[i].(reused := s.scopes[i].reused + 1)])
  }

  function EndScope(s: State, t: ThreadId): State
    requires At(s, t)
  {
    if s.threads[t].scope.None? then s
    else
      var i := s.threads[t].scope.value;
      Log(s.(scopes := s.scopes[i := s.scopes[i].(active := false, reuseReads := false, results := map[])]), Ended(i))
  }

  function Apply(s: State, a: Action): State
    requires Enabled(s, a)
  {
    match a
    case Tick(seconds) => s.(clock := s.clock + seconds)
    case Spawn(t, parent) => s.(threads := s.threads[t := Thread(s.threads[parent].scope, Idle)])
    case Begin(t, share, checks) =>
      Log(s.(scopes := s.scopes + [Scope(share, checks, true, 0, map[])],
             threads := s.threads[t := Thread(Some(|s.scopes|), Idle)]), Begun(|s.scopes|, checks))
    case End(t, restored) =>
      EndScope(s, t).(threads := s.threads[t := Thread(restored, Idle)])
    case StartCheck(t, key) =>
      if !InScope(s, t) then Goto(s, t, Checking(key, false))
      else
        var i := ScopeOf(s, t);
        var reuse := s.scopes[i].active && s.scopes[i].reuseRegistryChecks;
        Log(Goto(s, t, if reuse then LookingUp(key, s.clock) else Checking(key, false)), Started(i, key, s.clock))
    case LookUp(t) =>
      var key, now := s.threads[t].pc.key, s.threads[t].pc.now;
      var i := ScopeOf(s, t);
      if Fresh(s.table, key, now) then Log(Goto(CountReuse(s, i), t, Idle), Skipped(i, key, now))
      else Goto(s, t, Checking(key, true)).(table := Remove(s.table, key))
    case CheckReturns(t, ok) =>
      var pc := s.threads[t].pc;
      if ok then Log(Goto(s, t, if pc.store then Storing(pc.key) else Idle), Succeeded(pc.key, s.clock))
      else Log(Goto(s, t, Idle), Failed(pc.key))
    case Store(t) =>
      var key := s.threads[t].pc.key;
      Log(Goto(s, t, Idle).(table := Stored(s.table, key, s.clock)), Recorded(key, s.clock))
    case ClearChecks => s.(table := [])
    case StartRead(t, key) =>
      if InScope(s, t) && s.scopes[ScopeOf(s, t)].reuseReads then Goto(s, t, LookingForRead(key))
      else Goto(s, t, Computing(key, false))
    case FindRead(t) =>
      var key, i := s.threads[t].pc.key, ScopeOf(s, t);
      if key in s.scopes[i].results then
        Log(Goto(CountReuse(s, i), t, Idle), Reused(i, key, s.scopes[i].results[key]))
      else Goto(s, t, Computing(key, true))
    case ComputeReturns(t, result) =>
      var pc := s.threads[t].pc;
      if result.None? || !pc.share then Goto(s, t, Idle)
      else Log(Goto(s, t, Sharing(pc.key, result.value)), Computed(ScopeOf(s, t), pc.key, result.value))
    case Share(t) =>
      var key, value, i := s.threads[t].pc.key, s.threads[t].pc.value, ScopeOf(s, t);
      var scope := s.scopes[i];
      var shared := if scope.reuseReads && key !in scope.results then scope.(results := scope.results[key := value]) else scope;
      Goto(s, t, Idle).(scopes := s.scopes[i := shared])
  }

  const START := State(0.0, [], [], map[0 := Thread(None, Idle)], [])

  /** A state that some run of enabled actions from the start leads to. */
  ghost predicate Run(actions: seq<Action>, s: State) {
    if actions == [] then s == START
    else
      var last := |actions| - 1;
      exists before :: Run(actions[..last], before) && Enabled(before, actions[last]) && s == Apply(before, actions[last])
  }

  // ---------- What the history says ----------

  ghost predicate HappenedBefore(log: seq<Event>, e: Event, n: nat) {
    n <= |log| && e in log[..n]
  }

  /** A recorded success of the key, less than the time to live before `now`. */
  ghost predicate RecentSuccess(log: seq<Event>, key: string, now: real, n: nat) {
    exists at :: HappenedBefore(log, Recorded(key, at), n) && now - at < TTL_SECONDS
  }

  /** A check of the key that returned, at or before the time. */
  ghost predicate CheckedBefore(log: seq<Event>, key: string, at: real, n: nat) {
    exists checked :: HappenedBefore(log, Succeeded(key, checked), n) && checked <= at
  }

  /** The check was asked for in a scope that had opted in and had not ended. */
  ghost predicate StartedToReuse(log: seq<Event>, i: ScopeId, key: string, now: real, n: nat) {
    exists m: nat :: m < n <= |log| && StartedAt(log, i, key, now, m)
  }

  ghost predicate StartedAt(log: seq<Event>, i: ScopeId, key: string, now: real, m: nat)
    requires m < |log|
  {
    log[m] == Started(i, key, now) && HappenedBefore(log, Begun(i, true), m) && !HappenedBefore(log, Ended(i), m)
  }

  /** What every event needs to have happened before it. */
  ghost predicate Justified(log: seq<Event>, n: nat)
    requires n < |log|
  {
    match log[n]
    case Skipped(i, key, now) => RecentSuccess(log, key, now, n) && StartedToReuse(log, i, key, now, n)
    case Recorded(key, at) => CheckedBefore(log, key, at, n)
    case Reused(i, key, value) =>
      HappenedBefore(log, Computed(i, key, value), n) && !HappenedBefore(log, Ended(i), n)
    case _ => true
  }

  ghost predicate HistoryOk(log: seq<Event>) {
    forall n :: 0 <= n < |log| ==> Justified(log, n)
  }

  // ---------- The invariant ----------

  ghost predicate ScopeOk(s: State, i: ScopeId)
    requires i < |s.scopes|
  {
    var scope := s.scopes[i];
    && (scope.active <==> Ended(i) !in s.log)
    && (forall b :: Begun(i, b) in s.log <==> b == scope.reuseRegistryChecks)
    && (!scope.active ==> scope.results == map[] && !scope.reuseReads)
    && forall key :: key in scope.results ==> Computed(i, key, scope.results[key]) in s.log
  }

  ghost predicate ThreadOk(s: State, t: ThreadId)
    requires t in s.threads
  {
    && At(s, t)
    && (s.threads[t].pc.Storing? ==> CheckedBefore(s.log, s.threads[t].pc.key, s.clock, |s.log|))
    && (s.threads[t].pc.LookingUp? ==>
          InScope(s, t) && StartedToReuse(s.log, ScopeOf(s, t), s.threads[t].pc.key, s.threads[t].pc.now, |s.log|))
    && (s.threads[t].pc.Sharing? ==>
          InScope(s, t) && Computed(ScopeOf(s, t), s.threads[t].pc.key, s.threads[t].pc.value) in s.log)
  }

  ghost predicate EntriesRecorded(table: seq<Entry>, log: seq<Event>) {
    forall e :: e in table ==> Recorded(e.key, e.at) in log
  }

  ghost predicate NoLaterScopes(s: State) {
    && (forall i: ScopeId :: Ended(i) in s.log ==> i < |s.scopes|)
    && forall i: ScopeId, b :: Begun(i, b) in s.log ==> i < |s.scopes|
  }

  ghost predicate Inv(s: State) {
    && TableOk(s.table, s.clock)
    && EntriesRecorded(s.table, s.log)
    && NoLaterScopes(s)
    && (forall i: ScopeId :: i < |s.scopes| ==> ScopeOk(s, i))
    && (forall t :: t in s.threads ==> ThreadOk(s, t))
    && HistoryOk(s.log)
  }

  lemma LogKeeps(log: seq<Event>, e: Event)
    requires HistoryOk(log) && Justified(log + [e], |log|)
    ensures HistoryOk(log + [e])
  {
    var more := log + [e];
    forall n | 0 <= n < |more| ensures Justified(more, n) {
      if n < |log| {
        assert Justified(log, n);
        assert more[..n] == log[..n];
        match log[n]
        case Skipped(i, key, now) =>
          StartedStays(log, more, i, key, now, n);
          var at :| HappenedBefore(log, Recorded(key, at), n) && now - at < TTL_SECONDS;
          assert HappenedBefore(more, Recorded(key, at), n);
        case Recorded(key, at) =>
          var checked :| HappenedBefore(log, Succeeded(key, checked), n) && checked <= at;
          assert HappenedBefore(more, Succeeded(key, checked), n);
        case _ =>
      }
    }
  }

  lemma StartedStays(log: seq<Event>, more: seq<Event>, i: ScopeId, key: string, now: real, n: nat)
    requires log <= more && StartedToReuse(log, i, key, now, n)
    ensures forall k: nat :: n <= k <= |more| ==> StartedToReuse(more, i, key, now, k)
  {
    var m: nat :| m < n <= |log| && StartedAt(log, i, key, now, m);
    assert more[..m] == log[..m];
    assert StartedAt(more, i, key, now, m);
  }

  /** Later events keep what the earlier ones justify. */
  lemma ThreadKeeps(s: State, t: ThreadId, s': State)
    requires t in s.threads && ThreadOk(s, t) && t in s'.threads && s'.threads[t] == s.threads[t]
    requires s.log <= s'.log && s.clock <= s'.clock && |s.scopes| <= |s'.scopes|
    ensures ThreadOk(s', t)
  {
    if s.threads[t].pc.Storing? {
      var key := s.threads[t].pc.key;
      var checked :| HappenedBefore(s.log, Succeeded(key, checked), |s.log|) && checked <= s.clock;
      assert Succeeded(key, checked) in s'.log;
      assert s'.log[..|s'.log|] == s'.log;
      assert HappenedBefore(s'.log, Succeeded(key, checked), |s'.log|);
    } else if s.threads[t].pc.LookingUp? {
      StartedStays(s.log, s'.log, ScopeOf(s, t), s.threads[t].pc.key, s.threads[t].pc.now, |s.log|);
    }
  }

  lemma ScopeKeeps(s: State, i: ScopeId, s': State)
    requires i < |s.scopes| <= |s'.scopes| && ScopeOk(s, i)
    requires s'.scopes[i].(reused := 0) == s.scopes[i].(reused := 0)
    requires s.log <= s'.log && (Ended(i) in s'.log ==> Ended(i) in s.log)
    requires forall b :: Begun(i, b) in s'.log ==> Begun(i, b) in s.log
    ensures ScopeOk(s', i)
  {
  }

  // ---------- Every step keeps it ----------

  lemma TickKeeps(s: State, a: Action)
    requires Inv(s) && Enabled(s, a) && a.Tick?
    ensures Inv(Apply(s, a))
  {
    var s' := Apply(s, a);
    forall t | t in s'.threads ensures ThreadOk(s', t) {
      ThreadKeeps(s, t, s');
    }
    forall i: ScopeId | i < |s'.scopes| ensures ScopeOk(s', i) {
      ScopeKeeps(s, i, s');
    }
  }

  /** Steps that only move one thread: no event, table, clock or scope changes. */
  lemma MoveKeeps(s: State, t: ThreadId, thread: Thread, s': State)
    requires Inv(s) && s' == s.(threads := s.threads[t := thread]) && ThreadOk(s', t)
    ensures Inv(s')
  {
    forall u | u in s'.threads ensures ThreadOk(s', u) {
      if u != t {
        ThreadKeeps(s, u, s');
      }
    }
    forall i: ScopeId | i < |s'.scopes| ensures ScopeOk(s', i) {
      ScopeKeeps(s, i, s');
    }
  }

  lemma BeginKeeps(s: State, a: Action)
    requires Inv(s) && Enabled(s, a) && a.Begin?
    ensures Inv(Apply(s, a))
  {
    var s' := Apply(s, a);
    var e := Begun(|s.scopes|, a.reuseRegistryChecks);
    LogKeeps(s.log, e);
    assert s'.log == s.log + [e] && s'.log[|s.log|] == e;
    forall u | u in s'.threads ensures ThreadOk(s', u) {
      if u != a.t {
        ThreadKeeps(s, u, s');
      }
    }
    forall i: ScopeId | i < |s'.scopes| ensures ScopeOk(s', i) {
      if i < |s.scopes| {
        ScopeKeeps(s, i, s');
      }
    }
    forall x | x in s'.table ensures Recorded(x.key, x.at) in s'.log {
      assert Recorded(x.key, x.at) in s.log;
    }
  }

  lemma EndKeeps(s: State, a: Action)
    requires Inv(s) && Enabled(s, a) && a.End?
    ensures Inv(Apply(s, a))
  {
    var s' := Apply(s, a);
    forall u | u in s'.threads ensures ThreadOk(s', u) {
      if u != a.t {
        ThreadKeeps(s, u, s');
      }
    }
    var ended := s.threads[a.t].scope;
    if ended.Some? {
      LogKeeps(s.log, Ended(ended.value));
      assert s'.log[|s.log|] == Ended(ended.value);
    }
    forall i: ScopeId | i < |s'.scopes| ensures ScopeOk(s', i) {
      if ended != Some(i) {
        ScopeKeeps(s, i, s');
      } else {
        assert ScopeOk(s, i);
        forall b ensures Begun(i, b) in s'.log <==> Begun(i, b) in s.log {}
      }
    }
    forall e | e in s'.table ensures Recorded(e.key, e.at) in s'.log {
      assert Recorded(e.key, e.at) in s.log;
    }
  }

  /** Steps that log one event and move one thread, with scopes and clock as they were. */
  lemma EventKeeps(s: State, t: ThreadId, pc: Pc, e: Event, s': State)
    requires Inv(s) && At(s, t) && !e.Ended? && !e.Begun?
    requires s'.threads == s.threads[t := s.threads[t].(pc := pc)] && s'.log == s.log + [e]
    requires s'.clock == s.clock && |s'.scopes| == |s.scopes|
    requires forall i :: 0 <= i < |s.scopes| ==> s'.scopes[i].(reused := 0) == s.scopes[i].(reused := 0)
    requires TableOk(s'.table, s'.clock)
    requires forall x :: x in s'.table ==> x in s.table || e == Recorded(x.key, x.at)
    requires Justified(s'.log, |s.log|) && ThreadOk(s', t)
    ensures Inv(s')
  {
    LogKeeps(s.log, e);
    forall u | u in s'.threads ensures ThreadOk(s', u) {
      if u != t {
        ThreadKeeps(s, u, s');
      }
    }
    forall i: ScopeId | i < |s'.scopes| ensures ScopeOk(s', i) {
      ScopeKeeps(s, i, s');
    }
    assert s'.log[|s.log|] == e;
    forall x | x in s'.table ensures Recorded(x.key, x.at) in s'.log {
      if x in s.table {
        assert Recorded(x.key, x.at) in s.log;
      }
    }
  }

  lemma LookUpKeeps(s: State, a: Action)
    requires Inv(s) && Enabled(s, a) && a.LookUp?
    ensures Inv(Apply(s, a))
  {
    var s' := Apply(s, a);
    var key, now := s.threads[a.t].pc.key, s.threads[a.t].pc.now;
    if Fresh(s.table, key, now) {
      var i :| 0 <= i < |s.table| && s.table[i].key == key && now - s.table[i].at < TTL_SECONDS;
      assert s.table[i] in s.table;
      assert s'.log[..|s.log|] == s.log;
      assert HappenedBefore(s'.log, Recorded(key, s.table[i].at), |s.log|);
      assert ThreadOk(s, a.t);
      StartedStays(s.log, s'.log, ScopeOf(s, a.t), key, now, |s.log|);
      EventKeeps(s, a.t, Idle, Skipped(ScopeOf(s, a.t), key, now), s');
    } else {
      var moved := Goto(s, a.t, Checking(key, true));
      MoveKeeps(s, a.t, moved.threads[a.t], moved);
      RemoveOk(s.table, key, s.clock);
      RemoveKeeps(s.table, key);
      TableChangeKeeps(moved, s');
    }
  }

  lemma TableChangeKeeps(s: State, s': State)
    requires Inv(s) && s' == s.(table := s'.table) && TableOk(s'.table, s.clock)
    requires forall e :: e in s'.table ==> e in s.table
    ensures Inv(s')
  {
    forall u | u in s'.threads ensures ThreadOk(s', u) {
      ThreadKeeps(s, u, s');
    }
    forall i: ScopeId | i < |s'.scopes| ensures ScopeOk(s', i) {
      ScopeKeeps(s, i, s');
    }
  }

  lemma CheckReturnsKeeps(s: State, a: Action)
    requires Inv(s) && Enabled(s, a) && a.CheckReturns?
    ensures Inv(Apply(s, a))
  {
    var s' := Apply(s, a);
    var pc := s.threads[a.t].pc;
    if a.ok {
      assert s'.log[..|s'.log|] == s'.log && s'.log[|s.log|] == Succeeded(pc.key, s.clock);
      assert HappenedBefore(s'.log, Succeeded(pc.key, s.clock), |s'.log|);
      EventKeeps(s, a.t, if pc.store then Storing(pc.key) else Idle, Succeeded(pc.key, s.clock), s');
    } else {
      EventKeeps(s, a.t, Idle, Failed(pc.key), s');
    }
  }

  lemma StoreKeeps(s: State, a: Action)
    requires Inv(s) && Enabled(s, a) && a.Store?
    ensures Inv(Apply(s, a))
  {
    var s' := Apply(s, a);
    var key := s.threads[a.t].pc.key;
    assert ThreadOk(s, a.t);
    StoredOk(s.table, key, s.clock);
    var checked :| HappenedBefore(s.log, Succeeded(key, checked), |s.log|) && checked <= s.clock;
    assert s'.log[..|s.log|] == s.log == s.log[..|s.log|];
    assert HappenedBefore(s'.log, Succeeded(key, checked), |s.log|);
    EventKeeps(s, a.t, Idle, Recorded(key, s.clock), s');
  }

  lemma FindReadKeeps(s: State, a: Action)
    requires Inv(s) && Enabled(s, a) && a.FindRead?
    ensures Inv(Apply(s, a))
  {
    var s' := Apply(s, a);
    var key, i := s.threads[a.t].pc.key, ScopeOf(s, a.t);
    if key in s.scopes[i].results {
      assert ScopeOk(s, i);
      assert s.scopes[i].active;
      assert s'.log[..|s.log|] == s.log;
      EventKeeps(s, a.t, Idle, Reused(i, key, s.scopes[i].results[key]), s');
    } else {
      MoveKeeps(s, a.t, s'.threads[a.t], s');
    }
  }

  lemma ComputeReturnsKeeps(s: State, a: Action)
    requires Inv(s) && Enabled(s, a) && a.ComputeReturns?
    ensures Inv(Apply(s, a))
  {
    var s' := Apply(s, a);
    var pc := s.threads[a.t].pc;
    if a.result.None? || !pc.share {
      MoveKeeps(s, a.t, s'.threads[a.t], s');
    } else {
      var e := Computed(ScopeOf(s, a.t), pc.key, a.result.value);
      assert s'.log[|s.log|] == e;
      EventKeeps(s, a.t, Sharing(pc.key, a.result.value), e, s');
    }
  }

  lemma ShareKeeps(s: State, a: Action)
    requires Inv(s) && Enabled(s, a) && a.Share?
    ensures Inv(Apply(s, a))
  {
    var s' := Apply(s, a);
    var i := ScopeOf(s, a.t);
    assert ThreadOk(s, a.t) && ScopeOk(s, i);
    forall u | u in s'.threads ensures ThreadOk(s', u) {
      if u != a.t {
        ThreadKeeps(s, u, s');
      }
    }
    forall j: ScopeId | j < |s'.scopes| ensures ScopeOk(s', j) {
      if j != i {
        ScopeKeeps(s, j, s');
      }
    }
  }

  lemma StepKeeps(s: State, a: Action)
    requires Inv(s) && Enabled(s, a)
    ensures Inv(Apply(s, a))
  {
    match a
    case Tick(_) => TickKeeps(s, a);
    case Spawn(t, parent) => SpawnKeeps(s, a);
    case Begin(_, _, _) => BeginKeeps(s, a);
    case End(_, _) => EndKeeps(s, a);
    case LookUp(_) => LookUpKeeps(s, a);
    case CheckReturns(_, _) => CheckReturnsKeeps(s, a);
    case Store(_) => StoreKeeps(s, a);
    case ClearChecks => TableChangeKeeps(s, Apply(s, a));
    case StartCheck(_, _) => StartCheckKeeps(s, a);
    case StartRead(_, _) => StartReadKeeps(s, a);
    case FindRead(_) => FindReadKeeps(s, a);
    case ComputeReturns(_, _) => ComputeReturnsKeeps(s, a);
    case Share(_) => ShareKeeps(s, a);
  }

  lemma SpawnKeeps(s: State, a: Action)
    requires Inv(s) && Enabled(s, a) && a.Spawn?
    ensures Inv(Apply(s, a))
  {
    MoveKeeps(s, a.t, Apply(s, a).threads[a.t], Apply(s, a));
  }

  lemma StartReadKeeps(s: State, a: Action)
    requires Inv(s) && Enabled(s, a) && a.StartRead?
    ensures Inv(Apply(s, a))
  {
    MoveKeeps(s, a.t, Apply(s, a).threads[a.t], Apply(s, a));
  }

  lemma StartCheckKeeps(s: State, a: Action)
    requires Inv(s) && Enabled(s, a) && a.StartCheck?
    ensures Inv(Apply(s, a))
  {
    var s' := Apply(s, a);
    if !InScope(s, a.t) {
      MoveKeeps(s, a.t, s'.threads[a.t], s');
    } else {
      var i := ScopeOf(s, a.t);
      var e := Started(i, a.key, s.clock);
      assert ScopeOk(s, i);
      assert s'.log[|s.log|] == e && s'.log[..|s.log|] == s.log;
      if s.scopes[i].active && s.scopes[i].reuseRegistryChecks {
        assert Begun(i, true) in s.log && Ended(i) !in s.log;
        assert StartedAt(s'.log, i, a.key, s.clock, |s.log|);
      }
      EventKeeps(s, a.t, s'.threads[a.t].pc, e, s');
    }
  }

  lemma {:induction false} RunKeeps(actions: seq<Action>, s: State)
    requires Run(actions, s)
    ensures Inv(s)
    decreases |actions|
  {
    if actions != [] {
      var last := |actions| - 1;
      var before :| Run(actions[..last], before) && Enabled(before, actions[last]) && s == Apply(before, actions[last]);
      RunKeeps(actions[..last], before);
      StepKeeps(before, actions[last]);
    }
  }

  // ---------- What runs guarantee ----------

  /**
   A check is skipped only if the same key was recorded less than 300 seconds before the clock
   reading used, and it was recorded only after a check of that key had returned; and only if the
   call that read the clock was made in a scope that had opted in and had not ended.
   */
  lemma SkippedOnlyAfterSuccess(actions: seq<Action>, s: State, n: nat)
    requires Run(actions, s) && n < |s.log| && s.log[n].Skipped?
    ensures exists at, m: nat ::
              && m < n && s.log[m] == Recorded(s.log[n].key, at) && s.log[n].now - at < 300.0
              && CheckedBefore(s.log, s.log[n].key, at, m)
    ensures exists m: nat ::
              && m < n && s.log[m] == Started(s.log[n].scope, s.log[n].key, s.log[n].now)
              && Begun(s.log[n].scope, true) in s.log[..m] && Ended(s.log[n].scope) !in s.log[..m]
    ensures Begun(s.log[n].scope, false) !in s.log
  {
    RunKeeps(actions, s);
    var key := s.log[n].key;
    assert Justified(s.log, n);
    var start: nat :| start < n && StartedAt(s.log, s.log[n].scope, key, s.log[n].now, start);
    assert Begun(s.log[n].scope, true) in s.log;
    assert ScopeOk(s, s.log[n].scope);
    var at :| HappenedBefore(s.log, Recorded(key, at), n) && s.log[n].now - at < TTL_SECONDS;
    var m: nat :| m < n && s.log[..n][m] == Recorded(key, at);
    assert s.log[m] == Recorded(key, at);
    assert Justified(s.log, m);
  }

  /**
   Whenever the lock is free the table is bounded and oldest first, and every entry was recorded
   after a check of its key had succeeded; failures never add one.
   */
  lemma TableAlwaysOk(actions: seq<Action>, s: State)
    requires Run(actions, s)
    ensures TableOk(s.table, s.clock)
    ensures forall e :: e in s.table ==> StoredAfterSuccess(s.log, e)
  {
    RunKeeps(actions, s);
    forall e | e in s.table ensures StoredAfterSuccess(s.log, e) {
      var m: nat :| m < |s.log| && s.log[m] == Recorded(e.key, e.at);
      assert Justified(s.log, m);
    }
  }

  ghost predicate StoredAfterSuccess(log: seq<Event>, e: Entry) {
    exists m: nat :: m < |log| && log[m] == Recorded(e.key, e.at) && CheckedBefore(log, e.key, e.at, m)
  }

  /** A reused read was computed earlier in the same scope, and that scope had not ended. */
  lemma ReusedOnlyInScope(actions: seq<Action>, s: State, n: nat)
    requires Run(actions, s) && n < |s.log| && s.log[n].Reused?
    ensures Computed(s.log[n].scope, s.log[n].key, s.log[n].value) in s.log[..n]
    ensures Ended(s.log[n].scope) !in s.log[..n]
  {
    RunKeeps(actions, s);
    assert Justified(s.log, n);
  }

  /** An ended scope shares nothing, whatever threads still hold it. */
  lemma EndedScopeHoldsNothing(actions: seq<Action>, s: State, i: ScopeId)
    requires Run(actions, s) && Ended(i) in s.log
    ensures i < |s.scopes| && s.scopes[i].results == map[] && !s.scopes[i].reuseReads
  {
    RunKeeps(actions, s);
    assert ScopeOk(s, i);
  }
}
