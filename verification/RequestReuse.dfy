/**
 That a recent success and a shared read are in fact reused: which call skips its work, and what
 alone can take a success or a read away before the next call (src/wudup/request_scope.py).
 */
module RequestReuse {
  import opened Ordering
  import opened RegistryChecks
  import opened RequestScope

  // ---------- One call ----------

  ghost predicate HasRecent(table: seq<Entry>, key: string, now: real) {
    exists e :: e in table && e.key == key && now - e.at < 300.0
  }

  lemma FreshIff(table: seq<Entry>, key: string, now: real)
    ensures Fresh(table, key, now) <==> HasRecent(table, key, now)
  {
    if i :| 0 <= i < |table| && table[i].key == key && now - table[i].at < TTL_SECONDS {
      assert table[i] in table;
    }
  }

  /** A call asks the table exactly in a scope that has opted in and has not ended. */
  lemma CheckAsksIff(s: State, t: ThreadId, key: string)
    requires Enabled(s, StartCheck(t, key))
    ensures var pc := Apply(s, StartCheck(t, key)).threads[t].pc;
            if s.threads[t].scope.Some? && s.scopes[s.threads[t].scope.value].active
               && s.scopes[s.threads[t].scope.value].reuseRegistryChecks
            then pc == LookingUp(key, s.clock)
            else pc == Checking(key, false)
  {
  }

  /** The check is skipped if the table has a success younger than 300 seconds, and made and stored otherwise. */
  lemma CheckSkippedIff(s: State, t: ThreadId)
    requires Enabled(s, LookUp(t))
    ensures var key, now, i := s.threads[t].pc.key, s.threads[t].pc.now, s.threads[t].scope.value;
            var after := Apply(s, LookUp(t));
            if HasRecent(s.table, key, now) then
              && after.log == s.log + [Skipped(i, key, now)] && after.table == s.table
              && after.threads[t].pc == Idle && after.scopes[i].reused == s.scopes[i].reused + 1
            else
              && after.log == s.log && after.threads[t].pc == Checking(key, true)
              && forall e :: e in after.table <==> e in s.table && e.key != key
  {
    FreshIff(s.table, s.threads[t].pc.key, s.threads[t].pc.now);
    RemoveMembers(s.table, s.threads[t].pc.key);
    hide Fresh, HasRecent, Remove;
  }

  /** A check that returned is stored at the time of the step, as the newest entry. */
  lemma SuccessIsStored(s: State, t: ThreadId)
    requires Enabled(s, Store(t)) && TableOk(s.table, s.clock)
    ensures Entry(s.threads[t].pc.key, s.clock) in Apply(s, Store(t)).table
  {
    StoredOk(s.table, s.threads[t].pc.key, s.clock);
    hide Stored, TableOk;
  }

  /** The read is taken from the scope if it is there, and computed to be shared otherwise. */
  lemma ReadReusedIff(s: State, t: ThreadId)
    requires Enabled(s, FindRead(t))
    ensures var key, i := s.threads[t].pc.key, s.threads[t].scope.value;
            var after := Apply(s, FindRead(t));
            && after.threads[t].pc == (if key in s.scopes[i].results then Idle else Computing(key, true))
            && after.log == s.log + (if key in s.scopes[i].results then [Reused(i, key, s.scopes[i].results[key])] else [])
            && after.scopes[i].results == s.scopes[i].results
  {
  }

  /** The first computed value is kept; a later one of the same key is dropped. */
  lemma ReadIsShared(s: State, t: ThreadId)
    requires Enabled(s, Share(t))
    ensures var key, value, i := s.threads[t].pc.key, s.threads[t].pc.value, s.threads[t].scope.value;
            var before, after := s.scopes[i].results, Apply(s, Share(t)).scopes[i].results;
            after == if s.scopes[i].reuseReads && key !in before then before[key := value] else before
  {
  }

  // ---------- Until the next call ----------

  /** The steps that can take an entry out of the table. */
  ghost predicate Disturbs(s: State, a: Action, e: Entry)
    requires Enabled(s, a)
  {
    || a.ClearChecks?
    || (a.LookUp? && s.threads[a.t].pc.key == e.key && !HasRecent(s.table, e.key, s.threads[a.t].pc.now))
    || (a.Store? && (s.threads[a.t].pc.key == e.key || |s.table| == 256))
  }

  lemma EntryStays(s: State, a: Action, e: Entry)
    requires Enabled(s, a) && e in s.table && |s.table| <= 256 && !Disturbs(s, a, e)
    ensures e in Apply(s, a).table && |Apply(s, a).table| <= 256
  {
    if a.LookUp? {
      CheckSkippedIff(s, a.t);
      RemoveMembers(s.table, s.threads[a.t].pc.key);
    } else if a.Store? {
      StoredStays(s.table, s.threads[a.t].pc.key, s.clock, e);
    }
  }

  lemma StoredStays(table: seq<Entry>, key: string, now: real, e: Entry)
    requires e in table && |table| < 256 && e.key != key
    ensures e in Stored(table, key, now) && |Stored(table, key, now)| <= 256
  {
    RemoveMembers(table, key);
    hide Remove;
    assert |Remove(table, key) + [Entry(key, now)]| <= LIMIT;
  }

  /** `t` follows from `s` by these steps. */
  ghost predicate Steps(s: State, actions: seq<Action>, t: State)
    decreases |actions|
  {
    if actions == [] then t == s else Enabled(s, actions[0]) && Steps(Apply(s, actions[0]), actions[1..], t)
  }

  ghost predicate Undisturbed(s: State, actions: seq<Action>, e: Entry)
    decreases |actions|
  {
    actions == [] || (Enabled(s, actions[0]) && !Disturbs(s, actions[0], e)
                      && Undisturbed(Apply(s, actions[0]), actions[1..], e))
  }

  lemma {:induction false} EntryStaysOver(s: State, actions: seq<Action>, t: State, e: Entry)
    requires Steps(s, actions, t) && Undisturbed(s, actions, e) && e in s.table && |s.table| <= 256
    ensures e in t.table
    decreases |actions|
  {
    hide Disturbs, Apply, Enabled;
    if actions != [] {
      EntryStays(s, actions[0], e);
      EntryStaysOver(Apply(s, actions[0]), actions[1..], t, e);
    }
  }

  /**
   After a success is stored, whatever other threads do but clearing, storing the key again, looking it
   up when it is too old, or storing into a full table: a look-up of the key within 300 seconds skips its check.
   */
  lemma StoredSuccessIsReused(s: State, store: ThreadId, actions: seq<Action>, later: State, t: ThreadId)
    requires Enabled(s, Store(store)) && TableOk(s.table, s.clock)
    requires var stored := Apply(s, Store(store));
             && Steps(stored, actions, later)
             && Undisturbed(stored, actions, Entry(s.threads[store].pc.key, s.clock))
    requires Enabled(later, LookUp(t)) && later.threads[t].pc.key == s.threads[store].pc.key
    requires later.threads[t].pc.now - s.clock < 300.0
    ensures Apply(later, LookUp(t)).threads[t].pc == Idle
    ensures Apply(later, LookUp(t)).log
         == later.log + [Skipped(later.threads[t].scope.value, later.threads[t].pc.key, later.threads[t].pc.now)]
  {
    hide Apply, TableOk, Undisturbed, Steps;
    var e := Entry(s.threads[store].pc.key, s.clock);
    SuccessIsStored(s, store);
    StoredBounded(s, store);
    EntryStaysOver(Apply(s, Store(store)), actions, later, e);
    CheckSkippedIff(later, t);
  }

  lemma StoredBounded(s: State, store: ThreadId)
    requires Enabled(s, Store(store))
    ensures |Apply(s, Store(store)).table| <= 256
  {
    hide Newest;
  }

  /** A read stays in its scope until the scope ends. */
  lemma ReadStays(s: State, a: Action, i: ScopeId, key: string)
    requires Enabled(s, a) && i < |s.scopes| && key in s.scopes[i].results
    requires !(a.End? && s.threads[a.t].scope == Some(i))
    ensures i < |Apply(s, a).scopes| && key in Apply(s, a).scopes[i].results
    ensures Apply(s, a).scopes[i].results[key] == s.scopes[i].results[key]
  {
  }

  ghost predicate StaysOpen(s: State, actions: seq<Action>, i: ScopeId)
    decreases |actions|
  {
    actions == [] || (Enabled(s, actions[0]) && !(actions[0].End? && s.threads[actions[0].t].scope == Some(i))
                      && StaysOpen(Apply(s, actions[0]), actions[1..], i))
  }

  lemma {:induction false} ReadStaysOver(s: State, actions: seq<Action>, t: State, i: ScopeId, key: string)
    requires Steps(s, actions, t) && StaysOpen(s, actions, i) && i < |s.scopes| && key in s.scopes[i].results
    ensures i < |t.scopes| && key in t.scopes[i].results && t.scopes[i].results[key] == s.scopes[i].results[key]
    decreases |actions|
  {
    hide Apply, Enabled;
    if actions != [] {
      ReadStays(s, actions[0], i, key);
      ReadStaysOver(Apply(s, actions[0]), actions[1..], t, i, key);
    }
  }

  /** Once a read is shared, every later look for it in the scope, until the scope ends, is served the same value. */
  lemma SharedReadIsReused(s: State, share: ThreadId, actions: seq<Action>, later: State, t: ThreadId)
    requires Enabled(s, Share(share)) && var i := s.threads[share].scope.value;
               && s.scopes[i].reuseReads
               && Steps(Apply(s, Share(share)), actions, later) && StaysOpen(Apply(s, Share(share)), actions, i)
    requires Enabled(later, FindRead(t)) && later.threads[t].scope == s.threads[share].scope
    requires later.threads[t].pc.key == s.threads[share].pc.key
    ensures var i, key := s.threads[share].scope.value, s.threads[share].pc.key;
            var shared := Apply(s, Share(share)).scopes[i].results;
            && key in shared && Apply(later, FindRead(t)).threads[t].pc == Idle
            && Apply(later, FindRead(t)).log == later.log + [Reused(i, key, shared[key])]
  {
    ReadIsShared(s, share);
    ReadReusedIff(later, t);
    hide Apply, Steps, StaysOpen;
    ReadStaysOver(Apply(s, Share(share)), actions, later, s.threads[share].scope.value, s.threads[share].pc.key);
  }

  // ---------- The count of reuses ----------

  function ReuseEvents(log: seq<Event>, i: ScopeId): nat {
    if log == [] then 0
    else
      var e := log[|log| - 1];
      ReuseEvents(log[..|log| - 1], i) + if (e.Skipped? || e.Reused?) && e.scope == i then 1 else 0
  }

  /** What a scope counts is how often its calls were spared work, and nothing is counted for a later scope. */
  ghost predicate Counted(s: State) {
    && (forall i: ScopeId :: i < |s.scopes| ==> s.scopes[i].reused == ReuseEvents(s.log, i))
    && forall i: ScopeId :: |s.scopes| <= i ==> ReuseEvents(s.log, i) == 0
  }

  lemma OneMoreEvent(log: seq<Event>, e: Event, i: ScopeId)
    ensures ReuseEvents(log + [e], i)
         == ReuseEvents(log, i) + if (e.Skipped? || e.Reused?) && e.scope == i then 1 else 0
  {
    assert (log + [e])[..|log|] == log;
  }

  lemma StepCounts(s: State, a: Action)
    requires Counted(s) && Enabled(s, a)
    ensures Counted(Apply(s, a))
  {
    hide ReuseEvents, Fresh, Stored, Remove;
    var after := Apply(s, a);
    if after.log != s.log {
      var e := after.log[|s.log|];
      assert after.log == s.log + [e];
      forall i: ScopeId
        ensures ReuseEvents(after.log, i)
             == ReuseEvents(s.log, i) + if (e.Skipped? || e.Reused?) && e.scope == i then 1 else 0
      {
        OneMoreEvent(s.log, e, i);
      }
    }
  }

  lemma {:induction false} ReusesAreCounted(actions: seq<Action>, s: State, i: ScopeId)
    requires Run(actions, s) && i < |s.scopes|
    ensures s.scopes[i].reused == ReuseEvents(s.log, i)
  {
    RunCounts(actions, s);
  }

  lemma {:induction false} RunCounts(actions: seq<Action>, s: State)
    requires Run(actions, s)
    ensures Counted(s)
    decreases |actions|
  {
    hide Apply, Enabled;
    if actions != [] {
      var last := |actions| - 1;
      var before :| Run(actions[..last], before) && Enabled(before, actions[last]) && s == Apply(before, actions[last]);
      RunCounts(actions[..last], before);
      StepCounts(before, actions[last]);
    }
  }
}
