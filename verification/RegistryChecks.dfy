/**
 The table of recent successful registry checks: an ordered dictionary that is looked up and
 stored into under one lock.
 */
module RegistryChecks {
  const TTL_SECONDS := 300.0
  const LIMIT := 256

  datatype Entry = Entry(key: string, at: real)

  // ---------- The ordered dictionary ----------

  function Remove(table: seq<Entry>, key: string): seq<Entry> {
    if table == [] then []
    else if table[0].key == key then Remove(table[1..], key)
    else [table[0]] + Remove(table[1..], key)
  }

  predicate HasKey(table: seq<Entry>, key: string) {
    exists i :: 0 <= i < |table| && table[i].key == key
  }

  /** A success young enough to stand for a new check at `now`. */
  predicate Fresh(table: seq<Entry>, key: string, now: real) {
    exists i :: 0 <= i < |table| && table[i].key == key && now - table[i].at < TTL_SECONDS
  }

  function Newest(table: seq<Entry>): (r: seq<Entry>)
    ensures |r| <= LIMIT
    decreases |table|
  {
    if |table| > LIMIT then Newest(table[1..]) else table
  }

  function Stored(table: seq<Entry>, key: string, now: real): seq<Entry> {
    Newest(Remove(table, key) + [Entry(key, now)])
  }

  // ---------- What holds while the lock is free ----------

  ghost predicate DistinctKeys(table: seq<Entry>) {
    forall i, j :: 0 <= i < j < |table| ==> table[i].key != table[j].key
  }

  ghost predicate OldestFirst(table: seq<Entry>) {
    forall i, j :: 0 <= i < j < |table| ==> table[i].at <= table[j].at
  }

  ghost predicate NotAfter(table: seq<Entry>, now: real) {
    forall i :: 0 <= i < |table| ==> table[i].at <= now
  }

  ghost predicate TableOk(table: seq<Entry>, now: real) {
    |table| <= LIMIT && DistinctKeys(table) && OldestFirst(table) && NotAfter(table, now)
  }

  lemma {:induction false} RemoveMembers(table: seq<Entry>, key: string)
    ensures forall e :: e in Remove(table, key) <==> e in table && e.key != key
    ensures |Remove(table, key)| <= |table|
  {
    if table != [] {
      RemoveMembers(table[1..], key);
      assert table == [table[0]] + table[1..];
    }
  }

  /** What is left has no entry of the key, and keeps the order of the others. */
  lemma {:induction false} RemoveKeeps(table: seq<Entry>, key: string)
    ensures forall e :: e in Remove(table, key) <==> e in table && e.key != key
    ensures |Remove(table, key)| <= |table|
    ensures DistinctKeys(table) ==> DistinctKeys(Remove(table, key))
    ensures OldestFirst(table) ==> OldestFirst(Remove(table, key))
  {
    RemoveMembers(table, key);
    if table != [] {
      var first, rest := table[0], Remove(table[1..], key);
      RemoveKeeps(table[1..], key);
      forall j | 0 <= j < |rest|
        ensures DistinctKeys(table) ==> first.key != rest[j].key
        ensures OldestFirst(table) ==> first.at <= rest[j].at
      {
        assert rest[j] in rest;
        var i :| 0 <= i < |table[1..]| && table[1..][i] == rest[j];
        assert table[i + 1] == rest[j];
      }
      TailOrdered(table);
      if first.key != key {
        ConsOrdered(first, rest);
      }
    }
  }

  lemma TailOrdered(table: seq<Entry>)
    requires table != []
    ensures DistinctKeys(table) ==> DistinctKeys(table[1..])
    ensures OldestFirst(table) ==> OldestFirst(table[1..])
  {
  }

  lemma ConsOrdered(first: Entry, rest: seq<Entry>)
    ensures DistinctKeys(rest) && (forall j :: 0 <= j < |rest| ==> first.key != rest[j].key)
            ==> DistinctKeys([first] + rest)
    ensures OldestFirst(rest) && (forall j :: 0 <= j < |rest| ==> first.at <= rest[j].at)
            ==> OldestFirst([first] + rest)
  {
  }

  lemma {:induction false} RemoveAbsent(table: seq<Entry>, key: string)
    requires !HasKey(table, key)
    ensures Remove(table, key) == table
  {
    if table != [] {
      assert table[0].key != key;
      forall i | 0 <= i < |table[1..]| ensures table[1..][i].key != key {
        assert table[i + 1].key != key;
      }
      RemoveAbsent(table[1..], key);
    }
  }

  lemma {:induction false} NewestIsTail(table: seq<Entry>)
    ensures Newest(table) == table[|table| - |Newest(table)|..]
    ensures |Newest(table)| == if |table| > LIMIT then LIMIT else |table|
    decreases |table|
  {
    if |table| > LIMIT {
      NewestIsTail(table[1..]);
    }
  }

  lemma RemoveOk(table: seq<Entry>, key: string, now: real)
    requires TableOk(table, now)
    ensures TableOk(Remove(table, key), now)
  {
    RemoveKeeps(table, key);
    forall i | 0 <= i < |Remove(table, key)| ensures Remove(table, key)[i].at <= now {
      assert Remove(table, key)[i] in Remove(table, key);
    }
  }

  /** Storing keeps the table in order, with the new success last and at most the limit in all. */
  lemma StoredOk(table: seq<Entry>, key: string, now: real)
    requires TableOk(table, now)
    ensures TableOk(Stored(table, key, now), now) && Stored(table, key, now) != []
    ensures Stored(table, key, now)[|Stored(table, key, now)| - 1] == Entry(key, now)
    ensures forall e :: e in Stored(table, key, now) ==> e == Entry(key, now) || (e in table && e.key != key)
  {
    hide *;
    var kept := Remove(table, key);
    RemoveOk(table, key, now);
    RemoveKeeps(table, key);
    var all := kept + [Entry(key, now)];
    AppendedOk(kept, key, now);
    NewestIsTail(all);
    StoredIs(table, key, now);
    TailOk(all, |all| - |Newest(all)|, now);
  }

  lemma StoredIs(table: seq<Entry>, key: string, now: real)
    ensures Stored(table, key, now) == Newest(Remove(table, key) + [Entry(key, now)])
    ensures LIMIT > 0
  {
  }

  /** The entries are in order and of different keys, however many there are. */
  ghost predicate InOrder(table: seq<Entry>, now: real) {
    DistinctKeys(table) && OldestFirst(table) && NotAfter(table, now)
  }

  lemma AppendedOk(kept: seq<Entry>, key: string, now: real)
    requires TableOk(kept, now) && forall e :: e in kept ==> e.key != key
    ensures InOrder(kept + [Entry(key, now)], now)
  {
    forall i | 0 <= i < |kept| ensures kept[i].key != key {
      assert kept[i] in kept;
    }
  }

  lemma TailOk(all: seq<Entry>, n: nat, now: real)
    requires InOrder(all, now) && n < |all| && |all| - n <= LIMIT
    ensures TableOk(all[n..], now) && all[n..] != [] && all[n..][|all| - n - 1] == all[|all| - 1]
    ensures forall e :: e in all[n..] ==> e in all
  {
  }

  /** An entry in front of the newest ones is no younger than any of them. */
  lemma FrontIsOlder(all: seq<Entry>, dropped: Entry, kept: Entry)
    requires OldestFirst(all) && dropped in all && dropped !in Newest(all) && kept in Newest(all)
    ensures dropped.at <= kept.at && |Newest(all)| == 256
  {
    NewestIsTail(all);
    var n := |all| - |Newest(all)|;
    hide Newest, OldestFirst;
    InFront(all, n, dropped, kept);
  }

  lemma InFront(all: seq<Entry>, n: nat, dropped: Entry, kept: Entry)
    requires n <= |all| && OldestFirst(all) && dropped in all && dropped !in all[n..] && kept in all[n..]
    ensures dropped.at <= kept.at && n > 0
  {
    assert all == all[..n] + all[n..];
    assert dropped in all[..n];
    var i :| 0 <= i < n && all[i] == dropped;
    var k :| n <= k < |all| && all[k] == kept;
  }

  /** What storing drops is no younger than anything it keeps. */
  lemma EvictsOldest(table: seq<Entry>, key: string, now: real, dropped: Entry, kept: Entry)
    requires TableOk(table, now)
    requires dropped in table && dropped.key != key && dropped !in Stored(table, key, now)
    requires kept in Stored(table, key, now)
    ensures dropped.at <= kept.at
    ensures |Stored(table, key, now)| == 256
  {
    hide *;
    var rest := Remove(table, key);
    RemoveOk(table, key, now);
    RemoveKeeps(table, key);
    AppendedOk(rest, key, now);
    StoredIs(table, key, now);
    AppendedOrder(rest, key, now);
    FrontIsOlder(rest + [Entry(key, now)], dropped, kept);
  }

  lemma AppendedOrder(rest: seq<Entry>, key: string, now: real)
    requires InOrder(rest + [Entry(key, now)], now)
    ensures OldestFirst(rest + [Entry(key, now)])
  {
    hide DistinctKeys, OldestFirst, NotAfter;
  }

  // ---------- The table ----------

  class Table {
    var entries: seq<Entry>

    constructor ()
      ensures entries == []
    {
      entries := [];
    }

    /** `get` and `pop`: whether the check may be skipped; a stale entry goes. */
    method LookUp(key: string, now: real) returns (skip: bool)
      requires DistinctKeys(entries)
      modifies this
      ensures skip <==> exists e :: e in old(entries) && e.key == key && now - e.at < 300.0
      ensures entries == if skip then old(entries) else Remove(old(entries), key)
    {
      skip := false;
      var i := 0;
      while i < |entries|
        invariant 0 <= i <= |entries| && !skip
        invariant forall j :: 0 <= j < i ==> entries[j].key != key
        invariant entries == old(entries)
      {
        if entries[i].key == key {
          if now - entries[i].at < TTL_SECONDS {
            return true;
          }
          entries := Remove(entries, key);
          return false;
        }
        i := i + 1;
      }
      RemoveAbsent(entries, key);
    }

    /** `move_to_end` after the assignment, then `popitem(last=False)` down to the limit. */
    method Store(key: string, now: real)
      requires TableOk(entries, now)
      modifies this
      ensures entries == Stored(old(entries), key, now) && TableOk(entries, now)
    {
      StoredOk(entries, key, now);
      entries := Remove(entries, key) + [Entry(key, now)];
      while |entries| > LIMIT
        invariant Newest(entries) == Stored(old(entries), key, now)
        decreases |entries|
      {
        entries := entries[1..];
      }
    }
  }
}
