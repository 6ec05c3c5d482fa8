/**
 One undisturbed call of `_atomic_replace_compose` (src/wudup/compose_persistence.py), as the
 sequence of steps its `try`/`finally` blocks take when given steps raise.
 */
module ComposeDirectory {
  import opened Ordering
  import opened ComposePersistence

  class Directory {
    var state: State

    constructor (initial: State)
      ensures state == initial
    {
      state := initial;
    }

    /** The writer `p` as it is now. */
    function Of(p: nat): Writer
      requires p in state.writers
      reads this
    {
      state.writers[p]
    }

    /** The part between taking the directory lock and closing its descriptor. */
    method WithLock(p: nat, faults: set<Pc>, syncOk: bool)
      requires state.files != [] && p in state.writers
      requires var w := Of(p); w.pc.Locked? && w.temp == Some(File(w.rendered, false)) && w.swappedAt.None?
      modifies this
      ensures p in state.writers && Of(p).pc.Settled? && state.lock == old(state).lock
      ensures AfterLock(old(state), old(Of(p)), faults, syncOk, state, Of(p))
      ensures OthersUnchanged(old(state), state, p)
    {
      hide Apply, Advance;
      if Locked in faults {
        FailEffect(state, p);
        state := Apply(state, Fail(p)).value;
        return;
      }
      SyncTempEffect(state, p);
      state := Apply(state, SyncTemp(p)).value;
      if Synced in faults {
        FailEffect(state, p);
        state := Apply(state, Fail(p)).value;
        return;
      }
      CompareAndSwap(p, faults, syncOk);
    }

    /** The hash check and, if it passes, the rename and what follows it. */
    method CompareAndSwap(p: nat, faults: set<Pc>, syncOk: bool)
      requires state.files != [] && p in state.writers && Locked !in faults && Synced !in faults
      requires var w := Of(p); w.pc.Synced? && w.temp == Some(File(w.rendered, true)) && w.swappedAt.None?
      modifies this
      ensures p in state.writers && Of(p).pc.Settled? && state.lock == old(state).lock
      ensures AfterLock(old(state), old(Of(p)), faults, syncOk, state, Of(p))
      ensures OthersUnchanged(old(state), state, p)
    {
      hide Apply, Advance;
      CompareEffect(state, p);
      state := Apply(state, Compare(p)).value;
      if Of(p).pc.Settled? {
        return;
      }
      if Checked in faults {
        FailEffect(state, p);
        state := Apply(state, Fail(p)).value;
        return;
      }
      Swap(p, syncOk);
    }

    method Swap(p: nat, syncOk: bool)
      requires p in state.writers && state.files != [] && Of(p).pc.Checked? && Of(p).temp.Some?
      modifies this
      ensures p in state.writers && OthersUnchanged(old(state), state, p) && state.lock == old(state).lock
      ensures var w, v := old(Of(p)), Of(p);
              && state.files == old(state).files + [w.temp.value] && v.temp.None? && v.pc.Settled?
              && v.swappedAt == Some(|old(state).files|) && v.outcome == SyncOutcome(w, syncOk)
              && v.hashes == HashesAfter(w)
    {
      hide Apply, Advance;
      ReplaceEffect(state, p);
      state := Apply(state, Replace(p)).value;
      RecordEffect(state, p);
      state := Apply(state, Record(p)).value;
      SyncDirectoryEffect(state, p, syncOk);
      state := Apply(state, SyncDirectory(p, syncOk)).value;
    }

    /** The body of the outer `try`. */
    method Try(p: nat, faults: set<Pc>, syncOk: bool)
      requires state.files != [] && p in state.writers && state.lock.None?
      requires Of(p).pc.TempMade? && Of(p).temp.Some? && Of(p).swappedAt.None?
      modifies this
      ensures p in state.writers && Of(p).pc.Unlocked? && state.lock.None? && state.files != []
      ensures AfterTry(old(state), old(Of(p)), faults, syncOk, state, Of(p))
      ensures OthersUnchanged(old(state), state, p)
    {
      hide Apply, Advance;
      if TempMade in faults {
        FailEffect(state, p);
        state := Apply(state, Fail(p)).value;
        return;
      }
      WriteTempEffect(state, p);
      state := Apply(state, WriteTemp(p)).value;
      if Written in faults {
        FailEffect(state, p);
        state := Apply(state, Fail(p)).value;
        return;
      }
      UnderLock(p, faults, syncOk);
    }

    /** The `with _compose_write_lock` block. */
    method UnderLock(p: nat, faults: set<Pc>, syncOk: bool)
      requires state.files != [] && p in state.writers && state.lock.None?
      requires var w := Of(p); w.pc.Written? && w.temp == Some(File(w.rendered, false)) && w.swappedAt.None?
      modifies this
      ensures p in state.writers && Of(p).pc.Unlocked? && state.lock.None?
      ensures AfterLock(old(state), old(Of(p)), faults, syncOk, state, Of(p))
      ensures OthersUnchanged(old(state), state, p)
    {
      hide Apply, Advance;
      AcquireLockEffect(state, p);
      state := Apply(state, AcquireLock(p)).value;
      WithLock(p, faults, syncOk);
      UnlockEffect(state, p);
      state := Apply(state, Unlock(p)).value;
    }

    /** The whole call; `faults` are the points at which an operation raises. */
    method AtomicReplaceCompose(p: nat, faults: set<Pc>, syncOk: bool, unlinkOk: bool) returns (result: Outcome)
      requires state.files != [] && p in state.writers && state.lock.None?
      requires Of(p).pc.Rendered? && Of(p).temp.None? && Of(p).swappedAt.None?
      modifies this
      ensures p in state.writers && Of(p).pc.Done? && state.lock.None? && result == Of(p).outcome
      ensures AfterCall(old(state), old(Of(p)), faults, syncOk, unlinkOk, state, Of(p))
      ensures OthersUnchanged(old(state), state, p)
    {
      hide Apply, Advance, AfterTry, AfterCall;
      ghost var before := state;
      if Rendered in faults {
        FailEffect(state, p);
        state := Apply(state, Fail(p)).value;
        RaisedAtOnce(before, p, faults, syncOk, unlinkOk, state);
        return Of(p).outcome;
      }
      MakeTempEffect(state, p);
      state := Apply(state, MakeTemp(p)).value;
      ghost var made := state;
      Try(p, faults, syncOk);
      ghost var tried := state;
      CleanupEffect(state, p, unlinkOk);
      state := Apply(state, Cleanup(p, unlinkOk)).value;
      CallOfTry(before, made, tried, state, p, faults, syncOk, unlinkOk);
      return Of(p).outcome;
    }
  }

  lemma RaisedAtOnce(s: State, p: nat, faults: set<Pc>, syncOk: bool, unlinkOk: bool, t: State)
    requires s.files != [] && p in s.writers && p in t.writers && Rendered in faults && t.files == s.files
    requires var w := s.writers[p]; w.pc.Rendered? && w.temp.None? && w.swappedAt.None? && t.writers[p] == Unwind(w)
    ensures AfterCall(s, s.writers[p], faults, syncOk, unlinkOk, t, t.writers[p])
  {
  }

  lemma CallOfTry(s: State, made: State, tried: State, t: State, p: nat, faults: set<Pc>, syncOk: bool, unlinkOk: bool)
    requires s.files != [] && p in s.writers && p in made.writers && p in tried.writers && p in t.writers
    requires Rendered !in faults && made.files == s.files && t.files == tried.files
    requires made.writers[p] == s.writers[p].(pc := TempMade, temp := Some(File("", false)))
    requires AfterTry(made, made.writers[p], faults, syncOk, tried, tried.writers[p])
    requires t.writers[p] == CleanedUp(tried.writers[p], unlinkOk)
    ensures AfterCall(s, s.writers[p], faults, syncOk, unlinkOk, t, t.writers[p])
  {
  }

  // ---------- What each step does ----------

  /** An empty temporary file beside the Compose file. */
  lemma MakeTempEffect(s: State, p: nat)
    requires p in s.writers && s.files != [] && s.writers[p].pc.Rendered?
    ensures Apply(s, MakeTemp(p)).Some?
    ensures var t := Apply(s, MakeTemp(p)).value;
            && OthersUnchanged(s, t, p) && SameShared(s, t)
            && t.writers[p] == s.writers[p].(pc := TempMade, temp := Some(File("", false)))
  {
  }

  /** The rendered text, in full. */
  lemma WriteTempEffect(s: State, p: nat)
    requires p in s.writers && s.files != [] && s.writers[p].pc.TempMade?
    ensures Apply(s, WriteTemp(p)).Some?
    ensures var t := Apply(s, WriteTemp(p)).value;
            && OthersUnchanged(s, t, p) && SameShared(s, t)
            && t.writers[p] == s.writers[p].(pc := Written, temp := Some(File(s.writers[p].rendered, false)))
  {
  }

  /** Owner, mode and content are flushed to disk. */
  lemma SyncTempEffect(s: State, p: nat)
    requires p in s.writers && s.files != [] && s.writers[p].pc.Locked? && s.writers[p].temp.Some?
    ensures Apply(s, SyncTemp(p)).Some?
    ensures var t := Apply(s, SyncTemp(p)).value;
            && OthersUnchanged(s, t, p) && SameShared(s, t)
            && t.writers[p] == s.writers[p].(pc := Synced, temp := Some(s.writers[p].temp.value.(synced := true)))
  {
  }

  /** The guard, if there is one. */
  lemma CompareEffect(s: State, p: nat)
    requires p in s.writers && s.files != [] && s.writers[p].pc.Synced?
    ensures Apply(s, Compare(p)).Some?
    ensures var t := Apply(s, Compare(p)).value;
            && OthersUnchanged(s, t, p) && SameShared(s, t)
            && t.writers[p] == (if GuardHolds(s, s.writers[p]) then s.writers[p].(pc := Checked)
                      else Unwind(s.writers[p]))
  {
  }

  /** `written_hashes.append` */
  lemma RecordEffect(s: State, p: nat)
    requires p in s.writers && s.files != [] && s.writers[p].pc.Replaced?
    ensures Apply(s, Record(p)).Some?
    ensures var t := Apply(s, Record(p)).value;
            && OthersUnchanged(s, t, p) && SameShared(s, t)
            && t.writers[p] == s.writers[p].(pc := Recorded, hashes := HashesAfter(s.writers[p]))
  {
  }

  /** An operation raises. */
  lemma FailEffect(s: State, p: nat)
    requires p in s.writers && s.files != [] && FailsAt(s.writers[p].pc)
    ensures Apply(s, Fail(p)).Some?
    ensures var t := Apply(s, Fail(p)).value;
            && OthersUnchanged(s, t, p) && SameShared(s, t)
            && t.writers[p] == Unwind(s.writers[p])
  {
  }

  /** The `finally` block that removes the temporary file. */
  lemma CleanupEffect(s: State, p: nat, ok: bool)
    requires p in s.writers && s.files != [] && s.writers[p].pc.Unlocked?
    ensures Apply(s, Cleanup(p, ok)).Some?
    ensures var t := Apply(s, Cleanup(p, ok)).value;
            && OthersUnchanged(s, t, p) && SameShared(s, t)
            && t.writers[p] == CleanedUp(s.writers[p], ok)
  {
  }

  lemma AcquireLockEffect(s: State, p: nat)
    requires p in s.writers && s.files != [] && s.writers[p].pc.Written? && s.lock.None?
    ensures Apply(s, AcquireLock(p)).Some?
    ensures var t := Apply(s, AcquireLock(p)).value;
            && OthersUnchanged(s, t, p) && t.writers[p] == s.writers[p].(pc := Locked)
            && SameShared(s.(lock := Some(p)), t)
  {
  }

  lemma ReplaceEffect(s: State, p: nat)
    requires p in s.writers && s.files != [] && s.writers[p].pc.Checked? && s.writers[p].temp.Some?
    ensures Apply(s, Replace(p)).Some?
    ensures var t := Apply(s, Replace(p)).value;
            && OthersUnchanged(s, t, p)
            && t.writers[p] == s.writers[p].(pc := Replaced, temp := None, swappedAt := Some(|s.files|))
            && SameShared(s.(files := s.files + [s.writers[p].temp.value]), t)
  {
  }

  lemma SyncDirectoryEffect(s: State, p: nat, ok: bool)
    requires p in s.writers && s.files != [] && s.writers[p].pc.Recorded?
    ensures Apply(s, SyncDirectory(p, ok)).Some?
    ensures var t := Apply(s, SyncDirectory(p, ok)).value;
            && OthersUnchanged(s, t, p)
            && t.writers[p] == s.writers[p].(pc := Settled, outcome := SyncOutcome(s.writers[p], ok))
            && SameShared(s.(durableFrom := t.durableFrom), t)
  {
  }

  lemma UnlockEffect(s: State, p: nat)
    requires p in s.writers && s.files != [] && s.writers[p].pc.Settled?
    ensures Apply(s, Unlock(p)).Some?
    ensures var t := Apply(s, Unlock(p)).value;
            && OthersUnchanged(s, t, p) && t.writers[p] == s.writers[p].(pc := Unlocked)
            && SameShared(s.(lock := None), t)
  {
  }

  function CleanedUp(w: Writer, ok: bool): Writer {
    if w.temp.None? || ok then w.(pc := Done, temp := None)
    else w.(pc := Done, outcome := Outcome.Raised, unlinkFailed := true)
  }

  predicate FailsAt(pc: Pc) {
    pc.Rendered? || pc.TempMade? || pc.Written? || pc.Locked? || pc.Synced? || pc.Checked?
  }

  predicate GuardHolds(s: State, w: Writer)
    requires s.files != []
  {
    w.expected.None? || w.expected.value == Current(s)
  }

  function HashesAfter(w: Writer): seq<string> {
    if w.tracked then w.hashes + [w.rendered] else w.hashes
  }

  predicate SameShared(s: State, t: State) {
    t.files == s.files && t.durableFrom == s.durableFrom && t.lock == s.lock && t.canSync == s.canSync
  }

  /** What the locked part did, to the state and to its writer `v`. */
  ghost predicate AfterLock(s: State, w: Writer, faults: set<Pc>, syncOk: bool, t: State, v: Writer)
    requires s.files != []
  {
    var swapped := Swaps(s, w, faults);
    && v.swappedAt == (if swapped then Some(|s.files|) else None)
    && t.files == s.files + (if swapped then [File(w.rendered, true)] else [])
    && v.hashes == (if swapped then HashesAfter(w) else w.hashes)
    && v.outcome == (if swapped then SyncOutcome(w, syncOk) else Raised)
    && (v.temp.None? <==> swapped)
  }

  ghost predicate AfterTry(s: State, w: Writer, faults: set<Pc>, syncOk: bool, t: State, v: Writer)
    requires s.files != []
  {
    if TempMade in faults || Written in faults then
      t.files == s.files && v.swappedAt.None? && v.hashes == w.hashes && v.outcome.Raised? && v.temp.Some?
    else AfterLock(s, w, faults, syncOk, t, v)
  }

  /**
   What the whole call did: a new version exactly when nothing raised before the rename and the guard,
   if there is one, is the current text. A failed folder sync is an error for a tracked call alone.
   */
  ghost predicate AfterCall(s: State, w: Writer, faults: set<Pc>, syncOk: bool, unlinkOk: bool,
                            t: State, v: Writer)
    requires s.files != []
  {
    if Rendered !in faults && TempMade !in faults && Written !in faults
       && Locked !in faults && Synced !in faults && Checked !in faults
       && (w.expected.None? || w.expected.value == s.files[|s.files| - 1].data)
    then
      && t.files == s.files + [File(w.rendered, true)] && v.swappedAt == Some(|s.files|) && v.temp.None?
      && v.hashes == (if w.tracked then w.hashes + [w.rendered] else w.hashes)
      && v.outcome == (if syncOk then Returned(true) else if w.tracked then Raised else Returned(false))
    else
      && t.files == s.files && v.swappedAt.None? && v.hashes == w.hashes && v.outcome == Raised
      && (v.temp.None? || !unlinkOk)
  }

  /** Nothing raises under the lock, and the file is the expected version. */
  predicate Swaps(s: State, w: Writer, faults: set<Pc>)
    requires s.files != []
  {
    && Locked !in faults && Synced !in faults && Checked !in faults
    && GuardHolds(s, w)
  }

  /** A failed folder sync is an error only for a caller that can roll back. */
  function SyncOutcome(w: Writer, syncOk: bool): Outcome {
    if syncOk then Returned(true) else if w.tracked then Raised else Returned(false)
  }
}
