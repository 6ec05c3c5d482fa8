/**
 Recovering unmatched digest lines: services pinned by digest whose tag is known turn a skipped
 line into matches, and the updates of a stack are merged.
 */
module DigestUnpin {
  import opened Ordering
  import opened PlanMatching

  // ---------- Image references ----------

  /** The text before `@sha256:`. */
  function StripDigest(image: string): string {
    if image == "" || "@sha256:" <= image then "" else [image[0]] + StripDigest(image[1..])
  }

  /** The length of the text up to and with the last `c`; zero without one. */
  function AfterLast(c: char, s: string): (n: nat)
    ensures n <= |s|
  {
    if s == "" then 0 else if s[|s| - 1] == c then |s| else AfterLast(c, s[..|s| - 1])
  }

  function ImageRepoRef(image: string): string {
    var s := StripDigest(image);
    var n := AfterLast('/', s);
    var last := s[n..];
    var k := AfterLast(':', last);
    s[..n] + if k == 0 then last else last[..k - 1]
  }

  function ImageWithTag(image: string, tag: string): string {
    ImageRepoRef(image) + ":" + tag
  }

  lemma ImageWithTagInjective(image: string, a: string, b: string)
    requires ImageWithTag(image, a) == ImageWithTag(image, b)
    ensures a == b
  {
    var n := |ImageRepoRef(image)| + 1;
    assert ImageWithTag(image, a)[n..] == a && ImageWithTag(image, b)[n..] == b;
  }

  /** The text after the first `@`, or all of it. */
  function AfterAt(s: string): string {
    if '@' !in s then s else if s[0] == '@' then s[1..] else AfterAt(s[1..])
  }

  function NormalizeDigest(digest: string): string {
    if digest == "" then ""
    else if "sha256:" <= AfterAt(digest) then AfterAt(digest)
    else "sha256:" + AfterAt(digest)
  }

  /** The `sha256:` form of a text without `@`. */
  function Prefixed(s: string): string {
    if "sha256:" <= s then s else "sha256:" + s
  }

  /** What normalising again and again ends at: the text after the last `@` in the `sha256:` form. */
  function Core(digest: string): string {
    if digest == "" then "" else Prefixed(digest[AfterLast('@', digest)..])
  }

  lemma {:induction false} AfterLastAppended(c: char, a: string, b: string)
    ensures AfterLast(c, a + b) == if c in b then |a| + AfterLast(c, b) else AfterLast(c, a)
    ensures c in b <==> AfterLast(c, b) > 0
  {
    if b == "" {
      assert a + b == a;
    } else {
      var front := b[..|b| - 1];
      assert b == front + [b[|b| - 1]];
      assert (a + b)[|a + b| - 1] == b[|b| - 1] && (a + b)[..|a + b| - 1] == a + front;
      AfterLastAppended(c, a, front);
    }
  }

  /** The text after the first `@` is a suffix, and so is what follows its last. */
  lemma {:induction false} AfterAtSplits(s: string) returns (front: string)
    ensures s == front + AfterAt(s) && ('@' in s ==> '@' in front)
    ensures '@' !in s ==> front == ""
  {
    if '@' !in s {
      front := "";
    } else if s[0] == '@' {
      front := "@";
    } else {
      assert s == [s[0]] + s[1..];
      var more := AfterAtSplits(s[1..]);
      var rest := AfterAt(s[1..]);
      assert AfterAt(s) == rest;
      hide AfterAt;
      front := [s[0]] + more;
      assert [s[0]] + (more + rest) == front + rest;
      assert '@' in s[1..] ==> '@' in more;
    }
  }

  lemma PrefixedKeepsAt(s: string)
    ensures '@' in Prefixed(s) <==> '@' in s
    ensures Prefixed(Prefixed(s)) == Prefixed(s)
    ensures Prefixed(s) == Prefixed("") + s || Prefixed(s) == s
  {
    var p := "sha256:";
    assert '@' !in p;
    assert p <= p + s;
  }

  /** Normalising changes neither the last segment nor what it ends at. */
  lemma CoreOfNormalized(digest: string)
    ensures Core(NormalizeDigest(digest)) == Core(digest)
  {
    if digest != "" {
      assert NormalizeDigest(digest) == Prefixed(AfterAt(digest));
      if '@' in AfterAt(digest) {
        CoreWithMore(digest);
      } else {
        FirstIsLast(digest);
        CoreOfPlain(AfterAt(digest));
      }
    }
  }

  lemma CoreOfPlain(rest: string)
    requires '@' !in rest
    ensures Core(Prefixed(rest)) == Prefixed(rest)
  {
    hide AfterLast, Prefixed;
    var normalized := Prefixed(rest);
    PrefixedKeepsAt(rest);
    AfterLastAppended('@', "", normalized);
    assert "" + normalized == normalized && normalized[0..] == normalized;
    assert normalized != "" by { NotEmpty(rest); }
  }

  lemma NotEmpty(rest: string)
    ensures Prefixed(rest) != ""
  {
  }

  lemma CoreWithMore(digest: string)
    requires digest != "" && '@' in AfterAt(digest)
    ensures Core(Prefixed(AfterAt(digest))) == Core(digest)
  {
    hide AfterLast, AfterAt, Prefixed;
    var rest := AfterAt(digest);
    var front := AfterAtSplits(digest);
    AfterLastAppended('@', front, rest);
    NormalizedLastAt(rest);
    NotEmpty(rest);
    assert digest[AfterLast('@', digest)..] == rest[AfterLast('@', rest)..];
  }

  lemma NormalizedLastAt(rest: string)
    requires '@' in rest
    ensures Prefixed(rest)[AfterLast('@', Prefixed(rest))..] == rest[AfterLast('@', rest)..]
  {
    hide AfterLast;
    AfterLastAppended('@', "sha256:", rest);
    var p := "sha256:" + rest;
    assert p[7 + AfterLast('@', rest)..] == rest[AfterLast('@', rest)..];
  }

  /** Without a second `@` the first one is the last. */
  lemma {:induction false} FirstIsLast(s: string)
    requires '@' !in AfterAt(s)
    ensures s[AfterLast('@', s)..] == AfterAt(s)
  {
    if '@' !in s {
      AfterLastAppended('@', "", s);
      assert "" + s == s;
    } else {
      assert s == [s[0]] + s[1..];
      AfterLastAppended('@', [s[0]], s[1..]);
      if s[0] == '@' {
        assert AfterLast('@', [s[0]]) == 1;
      } else {
        FirstIsLast(s[1..]);
      }
    }
  }

  lemma CoreOfStable(digest: string)
    requires NormalizeDigest(digest) == digest
    ensures Core(digest) == digest
  {
    if digest != "" {
      AfterAtShorter(digest);
      AfterLastAppended('@', "", digest);
      assert "" + digest == digest;
    }
  }

  lemma {:induction false} AfterAtShorter(s: string)
    ensures '@' in s ==> |AfterAt(s)| < |s|
    ensures '@' in s && "sha256:" <= s ==> |AfterAt(s)| + 8 <= |s|
  {
    var front := AfterAtSplits(s);
    if '@' in s && "sha256:" <= s {
      var i :| 0 <= i < |front| && front[i] == '@';
      assert s[i] == '@';
      forall n | 0 <= n < 7 ensures s[n] != '@' {
        NoAtInPrefix(n);
      }
    }
  }

  lemma NoAtInPrefix(n: nat)
    requires n < 7
    ensures "sha256:"[n] != '@'
  {
  }

  /** Normalising a digest again keeps it exactly when the digest has at most one `@`. */
  lemma NormalizeStableIff(digest: string)
    ensures NormalizeDigest(NormalizeDigest(digest)) == NormalizeDigest(digest) <==> '@' !in AfterAt(digest)
  {
    PrefixedKeepsAt(AfterAt(digest));
    AfterAtShorter(NormalizeDigest(digest));
  }

  // ---------- Updates ----------

  datatype Update = Update(oldImage: string, resolvedTag: string, tagImage: string, digest: string,
                           services: seq<string>)

  /** `digest_unpin_update_from_values` */
  function UpdateFromValues(oldImage: string, tag: string, digest: string, services: seq<string>): Update {
    Update(oldImage, tag, ImageWithTag(oldImage, tag), NormalizeDigest(digest), SortedUnique(services))
  }

  datatype UpdateKey = UpdateKey(oldImage: string, tag: string, digest: string)

  function UpdateKeyOf(u: Update): UpdateKey {
    UpdateKey(u.oldImage, u.resolvedTag, u.digest)
  }

  /** The key with the digest that normalising ends at. */
  function CoreOf(k: UpdateKey): UpdateKey {
    k.(digest := Core(k.digest))
  }

  function CoreKeyOf(u: Update): UpdateKey {
    CoreOf(UpdateKeyOf(u))
  }

  ghost predicate UpdateOk(u: Update) {
    u.tagImage == ImageWithTag(u.oldImage, u.resolvedTag)
  }

  ghost predicate UpdatesOk(updates: seq<Update>) {
    forall u :: u in updates ==> UpdateOk(u)
  }

  /** `a < b` for the tuples that the source sorts by. */
  predicate KeyLess(a: UpdateKey, b: UpdateKey) {
    || Less(a.oldImage, b.oldImage)
    || (a.oldImage == b.oldImage && (Less(a.tag, b.tag) || (a.tag == b.tag && Less(a.digest, b.digest))))
  }

  lemma KeyLessTransitive(a: UpdateKey, b: UpdateKey, c: UpdateKey)
    requires KeyLess(a, b) && KeyLess(b, c)
    ensures KeyLess(a, c)
  {
    hide Less;
    if Less(a.oldImage, b.oldImage) && Less(b.oldImage, c.oldImage) {
      LessTransitive(a.oldImage, b.oldImage, c.oldImage);
    } else if a.oldImage == b.oldImage == c.oldImage {
      if Less(a.tag, b.tag) && Less(b.tag, c.tag) {
        LessTransitive(a.tag, b.tag, c.tag);
      } else if a.tag == b.tag == c.tag {
        LessTransitive(a.digest, b.digest, c.digest);
      }
    }
  }

  lemma KeyLessTotal(a: UpdateKey, b: UpdateKey)
    ensures KeyLess(a, b) || a == b || KeyLess(b, a)
    ensures !KeyLess(a, a)
  {
    hide Less;
    LessTotal(a.oldImage, b.oldImage);
    LessTotal(a.tag, b.tag);
    LessTotal(a.digest, b.digest);
    LessTotal(a.oldImage, a.oldImage);
    LessTotal(a.tag, a.tag);
    LessTotal(a.digest, a.digest);
  }

  /** One update of each key, by key, and no digest that another normalisation would change. */
  ghost predicate Unmixed(updates: seq<Update>) {
    && (forall i, j :: 0 <= i < j < |updates| ==> KeyLess(UpdateKeyOf(updates[i]), UpdateKeyOf(updates[j])))
    && AllStable(updates)
  }

  /** By old image and tag. */
  ghost predicate ByImageAndTag(updates: seq<Update>) {
    forall i, j :: 0 <= i < j < |updates| ==> NotAfter(updates[i], updates[j])
  }

  predicate NotAfter(a: Update, b: Update) {
    Less(a.oldImage, b.oldImage) || (a.oldImage == b.oldImage && AtMost(a.resolvedTag, b.resolvedTag))
  }

  ghost predicate AllStable(updates: seq<Update>) {
    forall u :: u in updates ==> NormalizeDigest(u.digest) == u.digest
  }

  /** Some update of the key lists the service. */
  ghost predicate Listed(updates: seq<Update>, k: UpdateKey, service: string) {
    exists u :: u in updates && CoreKeyOf(u) == k && service in u.services
  }

  ghost predicate SameListing(a: seq<Update>, b: seq<Update>) {
    forall k, service :: Listed(a, k, service) <==> Listed(b, k, service)
  }

  lemma ListedMore(updates: seq<Update>, u: Update, k: UpdateKey, service: string)
    ensures Listed(updates + [u], k, service) <==>
            Listed(updates, k, service) || (CoreKeyOf(u) == k && service in u.services)
  {
    if x :| x in updates && CoreKeyOf(x) == k && service in x.services {
      assert x in updates + [u];
    }
    if CoreKeyOf(u) == k && service in u.services {
      assert u in updates + [u];
    }
  }

  // ---------- Merging updates ----------

  /** One item of the dictionary that merges updates: its key stays, its update may be replaced. */
  datatype Entry = Entry(key: UpdateKey, update: Update)

  function IndexOfKey(entries: seq<Entry>, k: UpdateKey): (i: nat)
    ensures i <= |entries| && (i < |entries| ==> entries[i].key == k)
    ensures forall j :: 0 <= j < i ==> entries[j].key != k
  {
    if entries == [] || entries[0].key == k then 0 else 1 + IndexOfKey(entries[1..], k)
  }

  function Merged(existing: Update, u: Update): Update {
    UpdateFromValues(u.oldImage, u.resolvedTag, u.digest, existing.services + u.services)
  }

  function PlaceUpdate(entries: seq<Entry>, u: Update): seq<Entry> {
    var k := UpdateKeyOf(u);
    var i := IndexOfKey(entries, k);
    if i == |entries| then entries + [Entry(k, u)] else entries[i := Entry(k, Merged(entries[i].update, u))]
  }

  function MergeAll(updates: seq<Update>): seq<Entry> {
    if updates == [] then []
    else PlaceUpdate(MergeAll(updates[..|updates| - 1]), updates[|updates| - 1])
  }

  function UpdatesOf(entries: seq<Entry>): (updates: seq<Update>)
    ensures |updates| == |entries| && forall i :: 0 <= i < |entries| ==> updates[i] == entries[i].update
  {
    seq(|entries|, i requires 0 <= i < |entries| => entries[i].update)
  }

  // ---------- Sorting the dictionary by its keys ----------

  ghost predicate KeysAscend(entries: seq<Entry>) {
    forall i, j :: 0 <= i < j < |entries| ==> KeyLess(entries[i].key, entries[j].key)
  }

  ghost predicate KeysDiffer(entries: seq<Entry>) {
    forall i, j :: 0 <= i < j < |entries| ==> entries[i].key != entries[j].key
  }

  function InsertEntry(e: Entry, entries: seq<Entry>): seq<Entry> {
    if entries == [] then [e]
    else if KeyLess(e.key, entries[0].key) then [e] + entries
    else [entries[0]] + InsertEntry(e, entries[1..])
  }

  function SortEntries(entries: seq<Entry>): seq<Entry> {
    if entries == [] then [] else InsertEntry(entries[0], SortEntries(entries[1..]))
  }

  lemma LeastFirst(e: Entry, entries: seq<Entry>)
    requires KeysAscend(entries) && forall x :: x in entries ==> KeyLess(e.key, x.key)
    ensures KeysAscend([e] + entries)
  {
    hide KeyLess;
  }

  lemma AllAfter(e: Entry, entries: seq<Entry>)
    requires KeysAscend(entries) && entries != [] && KeyLess(e.key, entries[0].key)
    ensures forall x :: x in entries ==> KeyLess(e.key, x.key)
  {
    hide KeyLess;
    forall x | x in entries ensures KeyLess(e.key, x.key) {
      if x != entries[0] {
        KeyLessTransitive(e.key, entries[0].key, x.key);
      }
    }
  }

  lemma {:induction false} InsertEntryOk(e: Entry, entries: seq<Entry>)
    requires KeysAscend(entries) && forall x :: x in entries ==> x.key != e.key
    ensures KeysAscend(InsertEntry(e, entries))
    ensures forall x :: x in InsertEntry(e, entries) <==> x in entries || x == e
  {
    hide KeyLess;
    if entries != [] {
      var first, rest := entries[0], entries[1..];
      assert entries == [first] + rest && first in entries;
      if KeyLess(e.key, first.key) {
        AllAfter(e, entries);
        LeastFirst(e, entries);
      } else {
        InsertEntryOk(e, rest);
        KeyLessTotal(e.key, first.key);
        LeastFirst(first, InsertEntry(e, rest));
      }
    }
  }

  /** The sorted dictionary has the same items, by strictly ascending keys. */
  lemma {:induction false} SortEntriesOk(entries: seq<Entry>)
    requires KeysDiffer(entries)
    ensures KeysAscend(SortEntries(entries))
    ensures forall e :: e in SortEntries(entries) <==> e in entries
  {
    if entries != [] {
      var first, rest := entries[0], entries[1..];
      assert entries == [first] + rest;
      SortEntriesOk(rest);
      hide KeyLess, InsertEntry;
      InsertEntryOk(first, SortEntries(rest));
    }
  }

  lemma PlacedAt(entries: seq<Entry>, u: Update, i: nat)
    requires i <= |entries| && forall j :: 0 <= j < i ==> entries[j].key != UpdateKeyOf(u)
    requires i < |entries| ==> entries[i].key == UpdateKeyOf(u)
    ensures PlaceUpdate(entries, u) ==
            if i == |entries| then entries + [Entry(UpdateKeyOf(u), u)]
            else entries[i := Entry(UpdateKeyOf(u), UpdateFromValues(u.oldImage, u.resolvedTag, u.digest,
                                                                     entries[i].update.services + u.services))]
  {
    hide UpdateKeyOf, UpdateFromValues;
    assert i == IndexOfKey(entries, UpdateKeyOf(u));
  }

  /** Updates with one old image, tag and digest become one that lists the services of them all. */
  method UniqueDigestUnpinUpdates(updates: seq<Update>) returns (unique: seq<Update>)
    requires UpdatesOk(updates)
    ensures unique == UpdatesOf(SortEntries(MergeAll(updates)))
    ensures UpdatesOk(unique) && ByImageAndTag(unique) && SameListing(unique, updates)
    ensures AllStable(updates) ==> Unmixed(unique)
  {
    hide *;
    MergeLast([]);
    var entries: seq<Entry> := [];
    for n := 0 to |updates|
      invariant entries == MergeAll(updates[..n])
    {
      var u := updates[n];
      assert updates[..n + 1][..n] == updates[..n];
      MergeLast(updates[..n + 1]);
      var i := 0;
      while i < |entries| && entries[i].key != UpdateKeyOf(u)
        invariant i <= |entries| && forall j :: 0 <= j < i ==> entries[j].key != UpdateKeyOf(u)
      {
        i := i + 1;
      }
      PlacedAt(entries, u, i);
      if i == |entries| {
        entries := entries + [Entry(UpdateKeyOf(u), u)];
      } else {
        var services := entries[i].update.services + u.services;
        var merged := UpdateFromValues(u.oldImage, u.resolvedTag, u.digest, services);
        entries := entries[i := Entry(UpdateKeyOf(u), merged)];
      }
    }
    assert updates[..|updates|] == updates;
    unique := UpdatesOf(SortEntries(entries));
    MergeKeepsListing(updates);
  }

  /** Each entry is the one of its key, and lists the services of the updates with that key. */
  ghost predicate EntriesOk(entries: seq<Entry>, updates: seq<Update>) {
    && KeysDiffer(entries)
    && (forall u :: u in updates ==> HasEntry(entries, UpdateKeyOf(u)))
    && forall e :: e in entries ==> EntryOk(e, updates)
  }

  ghost predicate HasEntry(entries: seq<Entry>, k: UpdateKey) {
    exists e :: e in entries && e.key == k
  }

  ghost predicate EntryOk(e: Entry, updates: seq<Update>) {
    && e.update.oldImage == e.key.oldImage && e.update.resolvedTag == e.key.tag
    && (e.update.digest == e.key.digest || e.update.digest == NormalizeDigest(e.key.digest))
    && (UpdatesOk(updates) ==> UpdateOk(e.update))
    && (exists u :: u in updates && UpdateKeyOf(u) == e.key)
    && forall s :: s in e.update.services <==> RawListed(updates, e.key, s)
  }

  ghost predicate RawListed(updates: seq<Update>, k: UpdateKey, service: string) {
    exists u :: u in updates && UpdateKeyOf(u) == k && service in u.services
  }

  lemma RawListedMore(updates: seq<Update>, u: Update, k: UpdateKey, service: string)
    ensures RawListed(updates + [u], k, service) <==>
            RawListed(updates, k, service) || (UpdateKeyOf(u) == k && service in u.services)
  {
    if x :| x in updates && UpdateKeyOf(x) == k && service in x.services {
      assert x in updates + [u];
    }
    if UpdateKeyOf(u) == k && service in u.services {
      assert u in updates + [u];
    }
  }

  lemma OtherEntryOk(e: Entry, updates: seq<Update>, u: Update)
    requires EntryOk(e, updates) && e.key != UpdateKeyOf(u)
    ensures EntryOk(e, updates + [u])
  {
    forall s ensures s in e.update.services <==> RawListed(updates + [u], e.key, s) {
      RawListedMore(updates, u, e.key, s);
    }
    var x :| x in updates && UpdateKeyOf(x) == e.key;
    assert x in updates + [u];
  }

  lemma FirstEntryOk(updates: seq<Update>, u: Update)
    requires forall x :: x in updates ==> UpdateKeyOf(x) != UpdateKeyOf(u)
    ensures EntryOk(Entry(UpdateKeyOf(u), u), updates + [u])
  {
    forall s ensures s in u.services <==> RawListed(updates + [u], UpdateKeyOf(u), s) {
      RawListedMore(updates, u, UpdateKeyOf(u), s);
    }
    assert u in updates + [u];
  }

  lemma MergedEntryOk(e: Entry, updates: seq<Update>, u: Update)
    requires EntryOk(e, updates) && e.key == UpdateKeyOf(u)
    ensures EntryOk(Entry(e.key, Merged(e.update, u)), updates + [u])
  {
    var merged := Merged(e.update, u);
    MergedServices(e.update.services + u.services, e.update.services, u.services);
    forall s ensures s in merged.services <==> RawListed(updates + [u], e.key, s) {
      RawListedMore(updates, u, e.key, s);
    }
    assert u in updates + [u];
  }

  lemma PlaceKeepsEntries(entries: seq<Entry>, updates: seq<Update>, u: Update)
    requires EntriesOk(entries, updates)
    ensures EntriesOk(PlaceUpdate(entries, u), updates + [u])
  {
    hide EntryOk, Merged;
    var k := UpdateKeyOf(u);
    var i := IndexOfKey(entries, k);
    var after := PlaceUpdate(entries, u);
    forall e | e in after ensures EntryOk(e, updates + [u]) {
      var n :| 0 <= n < |after| && after[n] == e;
      if n != i {
        assert entries[n] == e && e in entries;
        OtherEntryOk(e, updates, u);
      } else if i == |entries| {
        FirstEntryOk(updates, u);
      } else {
        assert entries[i] in entries;
        MergedEntryOk(entries[i], updates, u);
      }
    }
    assert after[i] in after;
    forall x | x in updates + [u] ensures HasEntry(after, UpdateKeyOf(x)) {
      if x in updates {
        assert HasEntry(entries, UpdateKeyOf(x));
        var e :| e in entries && e.key == UpdateKeyOf(x);
        var n :| 0 <= n < |entries| && entries[n] == e;
        assert after[n] in after && after[n].key == e.key;
      }
    }
  }

  /** The dictionary after any updates. */
  lemma {:induction false} MergeEntries(updates: seq<Update>)
    ensures EntriesOk(MergeAll(updates), updates)
  {
    hide *;
    MergeLast(updates);
    NoEntries();
    if updates != [] {
      var front, last := updates[..|updates| - 1], updates[|updates| - 1];
      MergeEntries(front);
      assert updates == front + [last];
      PlaceKeepsEntries(MergeAll(front), front, last);
    }
  }

  lemma MergeLast(updates: seq<Update>)
    ensures MergeAll(updates) ==
              if updates == [] then []
              else PlaceUpdate(MergeAll(updates[..|updates| - 1]), updates[|updates| - 1])
  {
  }

  lemma NoEntries()
    ensures EntriesOk([], [])
  {
  }

  /** A second normalisation does not change what a digest ends at. */
  lemma EntryCore(e: Entry, updates: seq<Update>)
    requires EntryOk(e, updates)
    ensures CoreKeyOf(e.update) == CoreOf(e.key)
  {
    CoreOfNormalized(e.key.digest);
  }

  /** The sorted dictionary after any updates. */
  lemma SortedEntries(updates: seq<Update>)
    ensures EntriesOk(SortEntries(MergeAll(updates)), updates) && KeysAscend(SortEntries(MergeAll(updates)))
  {
    MergeEntries(updates);
    var entries := MergeAll(updates);
    SortEntriesOk(entries);
    SortedStay(entries, SortEntries(entries), updates);
  }

  lemma SortedStay(entries: seq<Entry>, s: seq<Entry>, updates: seq<Update>)
    requires EntriesOk(entries, updates) && KeysAscend(s) && forall e :: e in s <==> e in entries
    ensures EntriesOk(s, updates)
  {
    hide KeyLess, EntryOk;
    forall i, j | 0 <= i < j < |s| ensures s[i].key != s[j].key {
      KeyLessTotal(s[i].key, s[j].key);
    }
    forall u | u in updates ensures HasEntry(s, UpdateKeyOf(u)) {
      assert HasEntry(entries, UpdateKeyOf(u));
    }
  }

  lemma MergeKeepsListing(updates: seq<Update>)
    requires UpdatesOk(updates)
    ensures var unique := UpdatesOf(SortEntries(MergeAll(updates)));
            && UpdatesOk(unique) && ByImageAndTag(unique) && SameListing(unique, updates)
            && (AllStable(updates) ==> Unmixed(unique))
  {
    hide MergeAll, SortEntries, EntriesOk, Listed, Unmixed, AllStable, UpdatesOk, KeysAscend, ByImageAndTag;
    var entries := SortEntries(MergeAll(updates));
    SortedEntries(updates);
    EntriesAreOk(entries, updates);
    EntriesInOrder(entries, updates);
    forall k, service ensures Listed(UpdatesOf(entries), k, service) <==> Listed(updates, k, service) {
      EntriesListed(entries, updates, k, service);
    }
    if AllStable(updates) { EntriesUnmixed(entries, updates); }
  }

  lemma EntriesInOrder(entries: seq<Entry>, updates: seq<Update>)
    requires EntriesOk(entries, updates) && KeysAscend(entries)
    ensures ByImageAndTag(UpdatesOf(entries))
  {
    hide Less, NormalizeDigest, ImageWithTag, RawListed;
    var unique := UpdatesOf(entries);
    forall i, j | 0 <= i < j < |unique| ensures NotAfter(unique[i], unique[j]) {
      assert EntryOk(entries[i], updates) && EntryOk(entries[j], updates);
      assert KeyLess(entries[i].key, entries[j].key);
    }
  }

  lemma EntriesAreOk(entries: seq<Entry>, updates: seq<Update>)
    requires EntriesOk(entries, updates) && UpdatesOk(updates)
    ensures UpdatesOk(UpdatesOf(entries))
  {
    var unique := UpdatesOf(entries);
    forall u | u in unique ensures UpdateOk(u) {
      var i :| 0 <= i < |unique| && unique[i] == u;
      assert EntryOk(entries[i], updates);
    }
  }

  lemma EntriesListed(entries: seq<Entry>, updates: seq<Update>, k: UpdateKey, service: string)
    requires EntriesOk(entries, updates)
    ensures Listed(UpdatesOf(entries), k, service) <==> Listed(updates, k, service)
  {
    hide Core, NormalizeDigest, ImageWithTag;
    var unique := UpdatesOf(entries);
    if x :| x in unique && CoreKeyOf(x) == k && service in x.services {
      var i :| 0 <= i < |unique| && unique[i] == x;
      assert EntryOk(entries[i], updates);
      EntryCore(entries[i], updates);
      assert RawListed(updates, entries[i].key, service);
    }
    if u :| u in updates && CoreKeyOf(u) == k && service in u.services {
      assert HasEntry(entries, UpdateKeyOf(u));
      var e :| e in entries && e.key == UpdateKeyOf(u);
      assert EntryOk(e, updates);
      EntryCore(e, updates);
      assert RawListed(updates, e.key, service);
      var i :| 0 <= i < |entries| && entries[i] == e;
      assert unique[i] in unique;
    }
  }

  lemma EntriesUnmixed(entries: seq<Entry>, updates: seq<Update>)
    requires EntriesOk(entries, updates) && KeysAscend(entries) && AllStable(updates)
    ensures Unmixed(UpdatesOf(entries))
  {
    hide NormalizeDigest, ImageWithTag, RawListed, KeyLess;
    var unique := UpdatesOf(entries);
    forall i | 0 <= i < |entries|
      ensures UpdateKeyOf(unique[i]) == entries[i].key
      ensures NormalizeDigest(unique[i].digest) == unique[i].digest
    {
      assert EntryOk(entries[i], updates);
      var u :| u in updates && UpdateKeyOf(u) == entries[i].key;
    }
  }

  lemma MergedServices(services: seq<string>, a: seq<string>, b: seq<string>)
    requires services == a + b
    ensures forall s :: s in SortedUnique(services) <==> s in a || s in b
  {
    forall s ensures s in SortedUnique(services) <==> s in a || s in b {
      assert s in SortedUnique(services) <==> s in Elements(SortedUnique(services));
      assert s in services <==> s in Elements(services);
    }
  }

  // ---------- When merging changes a digest ----------

  /** A digest that another normalisation keeps. */
  predicate Stable(digest: string) {
    digest == "" || ("sha256:" <= digest && '@' !in digest)
  }

  lemma StableIff(digest: string)
    ensures NormalizeDigest(digest) == digest <==> Stable(digest)
  {
    AfterAtShorter(digest);
  }

  ghost predicate Once(updates: seq<Update>, k: UpdateKey) {
    forall i, j :: 0 <= i < j < |updates| && UpdateKeyOf(updates[i]) == k ==> UpdateKeyOf(updates[j]) != k
  }

  lemma OnceMore(updates: seq<Update>, u: Update, k: UpdateKey)
    ensures Once(updates + [u], k) <==>
            Once(updates, k) && (UpdateKeyOf(u) == k ==> forall x :: x in updates ==> UpdateKeyOf(x) != k)
  {
    var more := updates + [u];
    assert more[|updates|] == u;
    assert forall i :: 0 <= i < |updates| ==> more[i] == updates[i];
    if Once(more, k) && UpdateKeyOf(u) == k {
      forall x | x in updates ensures UpdateKeyOf(x) != k {
        var i :| 0 <= i < |updates| && updates[i] == x;
        assert more[i] == x;
      }
    }
  }

  ghost predicate DigestAsMerged(e: Entry, updates: seq<Update>) {
    e.update.digest == if Once(updates, e.key) then e.key.digest else NormalizeDigest(e.key.digest)
  }

  lemma PlacedDigest(entries: seq<Entry>, updates: seq<Update>, u: Update, e: Entry)
    requires EntriesOk(entries, updates) && forall x :: x in entries ==> DigestAsMerged(x, updates)
    requires e in PlaceUpdate(entries, u)
    ensures DigestAsMerged(e, updates + [u])
  {
    hide NormalizeDigest, ImageWithTag, EntryOk, Once;
    var k := UpdateKeyOf(u);
    var i := IndexOfKey(entries, k);
    OnceMore(updates, u, e.key);
    if e.key == k {
      if i == |entries| {
        NewKey(entries, updates, k);
        NewKeyOnce(updates, k);
      } else {
        assert entries[i] in entries && EntryOk(entries[i], updates);
        KeyOccurs(entries[i], updates);
        OnlyReplaced(entries, k, e, Entry(k, Merged(entries[i].update, u)));
      }
    } else {
      assert e in entries;
    }
  }

  lemma KeyOccurs(e: Entry, updates: seq<Update>)
    requires EntryOk(e, updates)
    ensures exists u :: u in updates && UpdateKeyOf(u) == e.key
  {
  }

  lemma OnlyReplaced(entries: seq<Entry>, k: UpdateKey, e: Entry, placed: Entry)
    requires KeysDiffer(entries) && IndexOfKey(entries, k) < |entries| && e.key == k
    requires e in entries[IndexOfKey(entries, k) := placed]
    ensures e == placed
  {
    var i := IndexOfKey(entries, k);
    var after := entries[i := placed];
    forall j | 0 <= j < |after| && j != i ensures after[j].key != k {
      assert after[j] == entries[j];
    }
  }

  lemma NewKey(entries: seq<Entry>, updates: seq<Update>, k: UpdateKey)
    requires EntriesOk(entries, updates) && IndexOfKey(entries, k) == |entries|
    ensures forall u :: u in updates ==> UpdateKeyOf(u) != k
  {
    hide EntryOk;
    forall u | u in updates ensures UpdateKeyOf(u) != k {
      assert HasEntry(entries, UpdateKeyOf(u));
    }
  }

  lemma NewKeyOnce(updates: seq<Update>, k: UpdateKey)
    requires forall u :: u in updates ==> UpdateKeyOf(u) != k
    ensures Once(updates, k)
  {
  }

  lemma {:induction false} MergedDigests(updates: seq<Update>)
    ensures forall e :: e in MergeAll(updates) ==> DigestAsMerged(e, updates)
  {
    hide *;
    MergeLast(updates);
    if updates != [] {
      var front, last := updates[..|updates| - 1], updates[|updates| - 1];
      MergedDigests(front);
      MergeEntries(front);
      assert updates == front + [last];
      forall e | e in PlaceUpdate(MergeAll(front), last) ensures DigestAsMerged(e, updates) {
        PlacedDigest(MergeAll(front), front, last, e);
      }
    }
  }

  /** Merging changes the key of an update exactly when another of its key comes and its digest is not stable. */
  lemma MergedKeyDiffersIff(updates: seq<Update>, e: Entry)
    requires e in SortEntries(MergeAll(updates))
    ensures UpdateKeyOf(e.update) != e.key <==> !Once(updates, e.key) && !Stable(e.key.digest)
    ensures CoreKeyOf(e.update) == CoreOf(e.key)
  {
    MergeEntries(updates);
    SortEntriesOk(MergeAll(updates));
    assert e in MergeAll(updates) && EntryOk(e, updates);
    hide MergeAll, SortEntries, EntriesOk, Once;
    EntryCore(e, updates);
    MergedDigests(updates);
    StableIff(e.key.digest);
  }

  // ---------- The digests that lines carry ----------

  /** The digest of a line with that image and those further tokens. */
  function LineDigest(first: string, tokens: seq<string>): string {
    if tokens == [] then NormalizeDigest(if StripDigest(first) == first then "" else AfterAt(first))
    else
      var last := tokens[|tokens| - 1];
      if "sha256=" <= last && |last| > 7 then NormalizeDigest(last[7..])
      else LineDigest(first, tokens[..|tokens| - 1])
  }

  lemma NormalizedForm(digest: string)
    ensures NormalizeDigest(digest) == "" || "sha256:" <= NormalizeDigest(digest)
  {
  }

  lemma {:induction false} LineDigestForm(first: string, tokens: seq<string>)
    ensures LineDigest(first, tokens) == "" || "sha256:" <= LineDigest(first, tokens)
  {
    hide NormalizeDigest, AfterAt, StripDigest;
    if tokens == [] {
      NormalizedForm(if StripDigest(first) == first then "" else AfterAt(first));
    } else {
      var last := tokens[|tokens| - 1];
      if "sha256=" <= last && |last| > 7 {
        NormalizedForm(last[7..]);
      } else {
        LineDigestForm(first, tokens[..|tokens| - 1]);
      }
    }
  }

  lemma LineDigestCarries(first: string, digest: string)
    requires "sha256:" <= digest
    ensures LineDigest(first, ["sha256=@" + digest]) == digest
  {
    var text := "@" + digest;
    TokenValue(text);
    assert text[0] == '@' && text[1..] == digest;
    assert AfterAt(text) == digest;
    assert "sha256=" + text == "sha256=@" + digest;
  }

  ghost predicate Carried(digest: string) {
    exists first, tokens :: LineDigest(first, tokens) == digest
  }

  /** Lines carry exactly the digests in `sha256:` form, with any number of further `@`, and none. */
  lemma LineDigestIff(digest: string)
    ensures Carried(digest) <==> digest == "" || "sha256:" <= digest
  {
    hide LineDigest;
    if first, tokens :| LineDigest(first, tokens) == digest {
      LineDigestForm(first, tokens);
    }
    if "sha256:" <= digest {
      LineDigestCarries("", digest);
    } else if digest == "" {
      NoDigest();
    }
  }

  lemma NoDigest()
    ensures LineDigest("", []) == ""
  {
  }

  lemma TokenValue(text: string)
    ensures "sha256=" <= "sha256=" + text && ("sha256=" + text)[7..] == text
  {
  }

  /** The same update twice becomes one update of the same key, whose digest is normalised again. */
  lemma MergedTwice(u: Update)
    ensures SortEntries(MergeAll([u, u])) == [Entry(UpdateKeyOf(u), Merged(u, u))]
  {
    var one := [Entry(UpdateKeyOf(u), u)];
    assert [u][..0] == [] && [u][0] == u;
    assert MergeAll([u]) == PlaceUpdate([], u) == one;
    assert [u, u][..1] == [u] && [u, u][1] == u;
    assert MergeAll([u, u]) == PlaceUpdate(one, u);
    hide MergeAll, Merged;
    assert IndexOfKey(one, UpdateKeyOf(u)) == 0;
    SortsAlone(Entry(UpdateKeyOf(u), Merged(u, u)));
  }

  lemma SortsAlone(e: Entry)
    ensures SortEntries([e]) == [e]
  {
    assert [e][1..] == [];
  }

  /** Lines with such a digest: recovered from two of them, an update no longer has their digest. */
  lemma SecondAtIsLost(first: string, image: string, tag: string, service: string)
    ensures var digest := LineDigest(first, ["sha256=@sha256:a@b@c"]);
            var u := UpdateFromValues(image, tag, digest, [service]);
            && digest == "sha256:a@b@c" && u.digest == NormalizeDigest(digest) == "sha256:b@c"
            && var unique := UpdatesOf(SortEntries(MergeAll([u, u])));
               |unique| == 1 && unique[0].digest == "sha256:c"
  {
    hide MergeAll, SortEntries, NormalizeDigest, LineDigest;
    LineDigestCarries(first, "sha256:a@b@c");
    assert "sha256=@" + "sha256:a@b@c" == "sha256=@sha256:a@b@c";
    NormalizesExamples();
    MergedTwice(UpdateFromValues(image, tag, "sha256:a@b@c", [service]));
  }

  lemma NormalizesExamples()
    ensures NormalizeDigest("sha256:a@b@c") == "sha256:b@c" && NormalizeDigest("sha256:b@c") == "sha256:c"
  {
    NormalizesPrefixed("a", "b@c");
    NormalizesPrefixed("b", "c");
    assert "sha256:" + "a" + "@" + "b@c" == "sha256:a@b@c" && "sha256:" + "b@c" == "sha256:b@c";
    assert "sha256:" + "b" + "@" + "c" == "sha256:b@c" && "sha256:" + "c" == "sha256:c";
  }

  lemma NormalizesPrefixed(a: string, b: string)
    requires '@' !in a && !("sha256:" <= b)
    ensures NormalizeDigest("sha256:" + a + "@" + b) == "sha256:" + b
  {
    forall n | 0 <= n < 7 ensures "sha256:"[n] != '@' {
      NoAtInPrefix(n);
    }
    FirstAt("sha256:" + a, b);
  }

  lemma {:induction false} FirstAt(a: string, b: string)
    requires '@' !in a
    ensures AfterAt(a + "@" + b) == b
  {
    var s := a + "@" + b;
    assert s[|a|] == '@';
    if a == "" {
      assert s[1..] == b;
    } else {
      assert s[0] == a[0] && s[1..] == a[1..] + "@" + b;
      FirstAt(a[1..], b);
    }
  }

  // ---------- Updates for one target ----------

  /** The stacks, and the tag that the provenance of a pinned service gives for a target. */
  datatype Recovery = Recovery(stacks: seq<Stack>, candidate: Target -> bool,
                               tag: (Target, Stack, ServiceImage) -> Option<string>)

  /** A service of the stack with that index whose tag is recovered for the target. */
  ghost predicate RecoveredAt(r: Recovery, t: Target, stack: Stack, si: ServiceImage, index: int, u: UpdateKey,
                              service: string) {
    && stack.index == index && si.service == service && service != "" && si.image == u.oldImage
    && r.tag(t, stack, si) == Some(u.tag) && u.digest == Core(t.digest)
  }

  ghost predicate Recovered(r: Recovery, t: Target, index: int, u: UpdateKey, service: string) {
    exists stack, si :: stack in r.stacks && si in stack.serviceImages && RecoveredAt(r, t, stack, si, index, u, service)
  }

  type Updates = map<int, seq<Update>>

  function At(updates: Updates, index: int): seq<Update> {
    if index in updates then updates[index] else []
  }

  ghost predicate AllOk(updates: Updates) {
    forall index :: index in updates ==> UpdatesOk(updates[index]) && ByImageAndTag(updates[index])
  }

  ghost predicate AllUnmixed(updates: Updates) {
    forall index :: index in updates ==> Unmixed(updates[index])
  }

  /** At most one `@`, so that normalising again changes nothing. */
  predicate OneAt(digest: string) {
    '@' !in AfterAt(digest)
  }

  /** The services found for one target, grouped by stack, image and tag. */
  method RecoveredServices(r: Recovery, t: Target) returns (found: seq<(int, Update)>)
    ensures GroupsOk(found) && (OneAt(t.digest) ==> GroupsStable(found))
    ensures forall index, u, service :: FoundHas(found, index, u, service) <==> Recovered(r, t, index, u, service)
  {
    found := [];
    for i := 0 to |r.stacks|
      invariant GroupsOk(found) && (OneAt(t.digest) ==> GroupsStable(found))
      invariant forall index, u, service ::
                  FoundHas(found, index, u, service) <==> RecoveredUpTo(r, t, i, 0, index, u, service)
    {
      var stack := r.stacks[i];
      for j := 0 to |stack.serviceImages|
        invariant GroupsOk(found) && (OneAt(t.digest) ==> GroupsStable(found))
        invariant forall index, u, service ::
                    FoundHas(found, index, u, service) <==> RecoveredUpTo(r, t, i, j, index, u, service)
      {
        var si := stack.serviceImages[j];
        var tag := if si.service == "" then None else r.tag(t, stack, si);
        ghost var before := found;
        if tag.Some? {
          found := AddToGroup(found, stack.index, si.image, tag.value, t.digest, si.service);
        }
        forall index, u, service
          ensures FoundHas(found, index, u, service) <==> RecoveredUpTo(r, t, i, j + 1, index, u, service)
        {
          RecoveredNext(r, t, i, j, index, u, service);
        }
      }
      forall index, u, service
        ensures FoundHas(found, index, u, service) <==> RecoveredUpTo(r, t, i + 1, 0, index, u, service)
      {
        RecoveredStack(r, t, i, index, u, service);
      }
    }
    forall index, u, service
      ensures RecoveredUpTo(r, t, |r.stacks|, 0, index, u, service) <==> Recovered(r, t, index, u, service)
    {
      RecoveredAll(r, t, index, u, service);
    }
  }

  ghost predicate FoundHas(found: seq<(int, Update)>, index: int, u: UpdateKey, service: string) {
    exists f :: f in found && f.0 == index && CoreKeyOf(f.1) == u && service in f.1.services
  }

  ghost predicate GroupsOk(found: seq<(int, Update)>) {
    forall f :: f in found ==> UpdateOk(f.1) && f.1.services != []
  }

  ghost predicate GroupsStable(found: seq<(int, Update)>) {
    forall f :: f in found ==> NormalizeDigest(f.1.digest) == f.1.digest
  }

  /** `grouped.setdefault(key, set()).add(service)` */
  method AddToGroup(found: seq<(int, Update)>, index: int, image: string, tag: string, digest: string, service: string)
    returns (after: seq<(int, Update)>)
    requires GroupsOk(found)
    ensures GroupsOk(after) && (OneAt(digest) && GroupsStable(found) ==> GroupsStable(after))
    ensures forall i, u, s :: FoundHas(after, i, u, s) <==>
              FoundHas(found, i, u, s)
              || (i == index && u == UpdateKey(image, tag, Core(digest)) && s == service)
  {
    hide Core, NormalizeDigest, ImageWithTag;
    CoreOfNormalized(digest);
    NormalizeStableIff(digest);
    var one := UpdateFromValues(image, tag, digest, [service]);
    var key := UpdateKeyOf(one);
    assert SortedUnique([service]) == [service];
    var n := 0;
    while n < |found| && !(found[n].0 == index && UpdateKeyOf(found[n].1) == key)
      invariant n <= |found|
    {
      n := n + 1;
    }
    if n == |found| {
      after := found + [(index, one)];
      forall i, u, s ensures FoundHas(after, i, u, s) <==>
                             FoundHas(found, i, u, s) || (i == index && u == CoreOf(key) && s == service)
      {
        FoundMore(found, (index, one), i, u, s);
      }
    } else {
      var services := found[n].1.services + [service];
      var grown := UpdateFromValues(image, tag, digest, services);
      MergedServices(services, found[n].1.services, [service]);
      assert service in grown.services;
      after := found[n := (index, grown)];
      GroupsReplaced(found, n, (index, grown));
      forall i, u, s ensures FoundHas(after, i, u, s) <==>
                             FoundHas(found, i, u, s) || (i == index && u == CoreOf(key) && s == service)
      {
        FoundReplaced(found, n, (index, grown), service, i, u, s);
      }
    }
  }

  lemma GroupsReplaced(found: seq<(int, Update)>, n: nat, f: (int, Update))
    requires n < |found| && GroupsOk(found) && UpdateOk(f.1) && f.1.services != []
    ensures GroupsOk(found[n := f])
  {
  }

  lemma FoundReplaced(found: seq<(int, Update)>, n: nat, f: (int, Update), service: string,
                      index: int, u: UpdateKey, s: string)
    requires n < |found| && f.0 == found[n].0 && UpdateKeyOf(f.1) == UpdateKeyOf(found[n].1)
    requires forall x :: x in f.1.services <==> x in found[n].1.services || x == service
    ensures FoundHas(found[n := f], index, u, s) <==>
            FoundHas(found, index, u, s) || (index == f.0 && u == CoreKeyOf(f.1) && s == service)
  {
    var after := found[n := f];
    if x :| x in after && x.0 == index && CoreKeyOf(x.1) == u && s in x.1.services {
      if x == f {
        assert found[n] in found;
      } else {
        assert x in found;
      }
    }
    if x :| x in found && x.0 == index && CoreKeyOf(x.1) == u && s in x.1.services {
      var i :| 0 <= i < |found| && found[i] == x;
      assert after[i] in after;
    }
    assert after[n] in after;
  }

  lemma FoundMore(found: seq<(int, Update)>, f: (int, Update), index: int, u: UpdateKey, service: string)
    ensures FoundHas(found + [f], index, u, service) <==>
            FoundHas(found, index, u, service) || (f.0 == index && CoreKeyOf(f.1) == u && service in f.1.services)
  {
    var more := found + [f];
    if x :| x in found && x.0 == index && CoreKeyOf(x.1) == u && service in x.1.services {
      assert x in more;
    }
    assert f in more;
  }

  /** Found among the first `i` stacks and the first `j` services of the next. */
  ghost predicate RecoveredUpTo(r: Recovery, t: Target, i: nat, j: nat, index: int, u: UpdateKey, service: string)
    requires i <= |r.stacks| && (j > 0 ==> i < |r.stacks| && j <= |r.stacks[i].serviceImages|)
  {
    || (exists a :: 0 <= a < i && RecoveredIn(r, t, r.stacks[a], |r.stacks[a].serviceImages|, index, u, service))
    || (j > 0 && RecoveredIn(r, t, r.stacks[i], j, index, u, service))
  }

  ghost predicate RecoveredIn(r: Recovery, t: Target, stack: Stack, j: nat, index: int, u: UpdateKey, service: string)
    requires j <= |stack.serviceImages|
  {
    exists b :: 0 <= b < j && RecoveredAt(r, t, stack, stack.serviceImages[b], index, u, service)
  }

  lemma RecoveredNext(r: Recovery, t: Target, i: nat, j: nat, index: int, u: UpdateKey, service: string)
    requires i < |r.stacks| && j < |r.stacks[i].serviceImages|
    ensures RecoveredUpTo(r, t, i, j + 1, index, u, service) <==>
            RecoveredUpTo(r, t, i, j, index, u, service)
            || RecoveredAt(r, t, r.stacks[i], r.stacks[i].serviceImages[j], index, u, service)
  {
    hide RecoveredAt;
  }

  lemma RecoveredStack(r: Recovery, t: Target, i: nat, index: int, u: UpdateKey, service: string)
    requires i < |r.stacks|
    ensures RecoveredUpTo(r, t, i, |r.stacks[i].serviceImages|, index, u, service) <==>
            RecoveredUpTo(r, t, i + 1, 0, index, u, service)
  {
    hide RecoveredAt;
  }

  lemma RecoveredAll(r: Recovery, t: Target, index: int, u: UpdateKey, service: string)
    ensures RecoveredUpTo(r, t, |r.stacks|, 0, index, u, service) <==> Recovered(r, t, index, u, service)
  {
    hide RecoveredAt;
    if Recovered(r, t, index, u, service) {
      var stack, si :| stack in r.stacks && si in stack.serviceImages && RecoveredAt(r, t, stack, si, index, u, service);
      var a :| 0 <= a < |r.stacks| && r.stacks[a] == stack;
      var b :| 0 <= b < |stack.serviceImages| && stack.serviceImages[b] == si;
      assert RecoveredIn(r, t, r.stacks[a], |r.stacks[a].serviceImages|, index, u, service);
    }
  }

  lemma SomeIndex(s: set<int>)
    ensures s == {} || exists index :: index in s
  {
    if forall index :: index !in s {
      assert s == {};
    }
  }

  /** The updates of one target by stack, and all updates with them merged in. */
  method UpdatesForTarget(r: Recovery, t: Target, updates: Updates) returns (byStack: Updates, all: Updates)
    requires AllOk(updates)
    ensures AllOk(all) && (OneAt(t.digest) && AllUnmixed(updates) ==> AllUnmixed(all))
    ensures forall index, u :: index in byStack && u in byStack[index] ==> UpdateOk(u)
    ensures forall index, k, service :: Listed(At(byStack, index), k, service) <==> Recovered(r, t, index, k, service)
    ensures byStack == map[] <==> forall index, k, service :: !Recovered(r, t, index, k, service)
    ensures forall index, k, service ::
              Listed(At(all, index), k, service) <==>
              Listed(At(updates, index), k, service) || Recovered(r, t, index, k, service)
  {
    hide FoundHas, GroupsOk, GroupsStable, Core, NormalizeDigest, Recovered, OneAt, Listed, Unmixed, UpdateOk, AllStable,
      AllOk, AllUnmixed, UpdatesOk, SameListing, ListsBoth;
    var found := RecoveredServices(r, t);
    byStack := GroupByStack(found);
    ListingStarts(updates, byStack);
    all := updates;
    var rest: set<int> := byStack.Keys;
    while rest != {}
      invariant rest <= byStack.Keys && AllOk(all)
      invariant OneAt(t.digest) && AllUnmixed(updates) ==> AllUnmixed(all)
      invariant ListsBoth(updates, byStack, all, rest)
      decreases |rest|
    {
      SomeIndex(rest);
      var index :| index in rest;
      GroupOk(byStack, index);
      ghost var before := all;
      all := MergeStack(all, index, byStack[index]);
      ListingGrows(updates, byStack, before, all, rest, index);
      rest := rest - {index};
    }
    ListingEnds(r, t, updates, byStack, all);
  }

  /** `all` lists what `updates` lists and what the groups outside `rest` list. */
  ghost predicate ListsBoth(updates: Updates, byStack: Updates, all: Updates, rest: set<int>) {
    forall index, k, service ::
      Listed(At(all, index), k, service) <==>
      Listed(At(updates, index), k, service) || (index !in rest && Listed(At(byStack, index), k, service))
  }

  lemma ListingGrows(updates: Updates, byStack: Updates, before: Updates, all: Updates, rest: set<int>, index: int)
    requires ListsBoth(updates, byStack, before, rest) && index in rest && index in byStack
    requires forall i :: i != index ==> At(all, i) == At(before, i)
    requires forall k, service ::
               Listed(At(all, index), k, service) <==>
               Listed(At(before, index), k, service) || Listed(byStack[index], k, service)
    ensures ListsBoth(updates, byStack, all, rest - {index})
  {
    hide Listed;
    assert At(byStack, index) == byStack[index];
    hide At;
  }

  lemma ListingStarts(updates: Updates, byStack: Updates)
    ensures ListsBoth(updates, byStack, updates, byStack.Keys)
  {
    hide Listed;
    NothingListed();
  }

  lemma ListingEnds(r: Recovery, t: Target, updates: Updates, byStack: Updates, all: Updates)
    requires ListsBoth(updates, byStack, all, {})
    requires forall index, k, service :: Listed(At(byStack, index), k, service) <==> Recovered(r, t, index, k, service)
    ensures forall index, k, service ::
              Listed(At(all, index), k, service) <==>
              Listed(At(updates, index), k, service) || Recovered(r, t, index, k, service)
  {
    hide Listed, Recovered;
  }

  lemma GroupOk(byStack: Updates, index: int)
    requires index in byStack && forall i, u :: i in byStack && u in byStack[i] ==> UpdateOk(u)
    ensures UpdatesOk(byStack[index])
  {
    hide UpdateOk;
  }

  lemma MergedIn(all: Updates, index: int, unique: seq<Update>)
    ensures AllOk(all) && UpdatesOk(unique) && ByImageAndTag(unique) ==> AllOk(all[index := unique])
    ensures AllUnmixed(all) && Unmixed(unique) ==> AllUnmixed(all[index := unique])
  {
    hide UpdatesOk, Unmixed, ByImageAndTag;
  }

  /** One stack's updates, with more of them merged in. */
  method MergeStack(all: Updates, index: int, more: seq<Update>) returns (after: Updates)
    requires AllOk(all) && UpdatesOk(more)
    ensures AllOk(after) && (AllUnmixed(all) && AllStable(more) ==> AllUnmixed(after))
    ensures forall i :: i != index ==> At(after, i) == At(all, i)
    ensures forall k, service ::
              Listed(At(after, index), k, service) <==> Listed(At(all, index), k, service) || Listed(more, k, service)
  {
    hide Listed, Unmixed, AllStable, AllOk, AllUnmixed, UpdatesOk, SameListing, ByImageAndTag, SortEntries, MergeAll;
    var joined := At(all, index) + more;
    JoinedStable(all, index, more);
    var unique := UniqueDigestUnpinUpdates(joined);
    MergedIn(all, index, unique);
    after := all[index := unique];
    forall k, service ensures Listed(joined, k, service) <==>
                              Listed(At(all, index), k, service) || Listed(more, k, service)
    {
      ListedJoined(At(all, index), more, k, service);
    }
    SameListed(unique, joined);
  }

  lemma SameListed(a: seq<Update>, b: seq<Update>)
    requires SameListing(a, b)
    ensures forall k, service :: Listed(a, k, service) <==> Listed(b, k, service)
  {
    hide Listed;
  }

  lemma JoinedStable(all: Updates, index: int, more: seq<Update>)
    ensures AllOk(all) && UpdatesOk(more) ==> UpdatesOk(At(all, index) + more)
    ensures AllUnmixed(all) && AllStable(more) ==> AllStable(At(all, index) + more)
  {
    hide UpdateOk, KeyLess, ByImageAndTag;
  }

  lemma ListedJoined(a: seq<Update>, b: seq<Update>, k: UpdateKey, service: string)
    ensures Listed(a + b, k, service) <==> Listed(a, k, service) || Listed(b, k, service)
  {
    if x :| x in a && CoreKeyOf(x) == k && service in x.services {
      assert x in a + b;
    }
    if x :| x in b && CoreKeyOf(x) == k && service in x.services {
      assert x in a + b;
    }
  }

  method GroupByStack(found: seq<(int, Update)>) returns (byStack: Updates)
    requires GroupsOk(found)
    ensures forall index, u :: index in byStack && u in byStack[index] ==> UpdateOk(u)
    ensures GroupsStable(found) ==> forall index :: index in byStack ==> AllStable(byStack[index])
    ensures forall index, k, service :: Listed(At(byStack, index), k, service) <==> FoundHas(found, index, k, service)
    ensures byStack == map[] <==> forall index, k, service :: !FoundHas(found, index, k, service)
  {
    hide UpdateOk, NormalizeDigest, Core, Listed, FoundHas;
    byStack := map[];
    NothingListed();
    for n := 0 to |found|
      invariant forall index, u :: index in byStack && u in byStack[index] ==> UpdateOk(u)
      invariant GroupsStable(found) ==> forall index :: index in byStack ==> AllStable(byStack[index])
      invariant forall index, k, service ::
                  Listed(At(byStack, index), k, service) <==> FoundHas(found[..n], index, k, service)
      invariant byStack == map[] <==> n == 0
    {
      var f := found[n];
      assert found[..n + 1] == found[..n] + [f];
      ghost var before := byStack;
      byStack := byStack[f.0 := At(byStack, f.0) + [f.1]];
      assert f in found;
      forall index, k, service
        ensures Listed(At(byStack, index), k, service) <==> FoundHas(found[..n + 1], index, k, service)
      {
        FoundMore(found[..n], f, index, k, service);
        ListedMore(At(before, f.0), f.1, k, service);
      }
    }
    assert found[..|found|] == found;
    if found != [] {
      FoundSome(found);
    }
  }

  lemma NothingListed()
    ensures forall k, service :: !Listed([], k, service)
    ensures forall index, k, service :: !FoundHas([], index, k, service)
  {
  }

  lemma FoundSome(found: seq<(int, Update)>)
    requires GroupsOk(found) && found != []
    ensures exists index, k, service :: FoundHas(found, index, k, service)
  {
    var f := found[0];
    assert f in found;
    assert FoundHas(found, f.0, CoreKeyOf(f.1), f.1.services[0]);
  }

  // ---------- Matches for the recovered services ----------

  /** The key of the match that an update makes for one of its services. */
  ghost predicate KeyFrom(k: Key, index: int, u: Update, t: Target) {
    k.service in u.services && k == Key(index, t.line, u.tagImage, u.oldImage, k.service)
  }

  ghost predicate MatchFrom(m: Match, index: int, u: Update, t: Target) {
    m.target == t && KeyFrom(KeyOf(m), index, u, t)
  }

  method AppendUpdateMatches(u: Update, index: int, t: Target, matches: seq<Match>, seen: set<Key>)
    returns (more: seq<Match>, after: set<Key>)
    requires DistinctKeys(matches) && seen == Keys(matches)
    ensures matches <= more && DistinctKeys(more) && after == Keys(more)
    ensures forall k :: k in after <==> k in seen || KeyFrom(k, index, u, t)
    ensures forall m :: m in more ==> m in matches || MatchFrom(m, index, u, t)
  {
    more, after := matches, seen;
    for n := 0 to |u.services|
      invariant matches <= more && DistinctKeys(more) && after == Keys(more)
      invariant forall k :: k in after <==> k in seen || (k.service in u.services[..n] && KeyFrom(k, index, u, t))
      invariant forall m :: m in more ==> m in matches || MatchFrom(m, index, u, t)
    {
      var key := Key(index, t.line, u.tagImage, u.oldImage, u.services[n]);
      assert u.services[..n + 1] == u.services[..n] + [u.services[n]];
      if key !in after {
        var m := Match(index, t, u.tagImage, u.oldImage, u.services[n]);
        OneMatch(m);
        KeysConcat(more, [m]);
        more := more + [m];
        after := after + {key};
      }
    }
    assert u.services[..|u.services|] == u.services;
  }

  ghost predicate KeyFromAny(k: Key, byStack: Updates, t: Target) {
    exists index, u :: index in byStack && u in byStack[index] && KeyFrom(k, index, u, t)
  }

  ghost predicate MatchFromAny(m: Match, byStack: Updates, t: Target) {
    exists index, u :: index in byStack && u in byStack[index] && MatchFrom(m, index, u, t)
  }

  method AppendStackMatches(index: int, updates: seq<Update>, t: Target, matches: seq<Match>, seen: set<Key>)
    returns (more: seq<Match>, after: set<Key>)
    requires DistinctKeys(matches) && seen == Keys(matches)
    ensures matches <= more && DistinctKeys(more) && after == Keys(more)
    ensures forall k :: k in after <==> k in seen || exists u :: u in updates && KeyFrom(k, index, u, t)
    ensures forall m :: m in more ==> m in matches || exists u :: u in updates && MatchFrom(m, index, u, t)
  {
    more, after := matches, seen;
    for n := 0 to |updates|
      invariant matches <= more && DistinctKeys(more) && after == Keys(more)
      invariant forall k :: k in after <==> k in seen || exists u :: u in updates[..n] && KeyFrom(k, index, u, t)
      invariant forall m :: m in more ==> m in matches || exists u :: u in updates[..n] && MatchFrom(m, index, u, t)
    {
      assert updates[..n + 1] == updates[..n] + [updates[n]];
      hide KeyFrom, MatchFrom;
      more, after := AppendUpdateMatches(updates[n], index, t, more, after);
    }
    assert updates[..|updates|] == updates;
  }

  method AppendAllMatches(byStack: Updates, t: Target, matches: seq<Match>, seen: set<Key>)
    returns (more: seq<Match>, after: set<Key>)
    requires DistinctKeys(matches) && seen == Keys(matches)
    ensures matches <= more && DistinctKeys(more) && after == Keys(more)
    ensures forall k :: k in after <==> k in seen || KeyFromAny(k, byStack, t)
    ensures forall m :: m in more ==> m in matches || MatchFromAny(m, byStack, t)
  {
    more, after := matches, seen;
    var rest: set<int> := byStack.Keys;
    while rest != {}
      invariant rest <= byStack.Keys && matches <= more && DistinctKeys(more) && after == Keys(more)
      invariant forall k :: k in after <==> (k in seen || KeyFromAny(k, byStack - rest, t))
      invariant forall m :: m in more ==> (m in matches || MatchFromAny(m, byStack, t))
      decreases |rest|
    {
      hide KeyFrom, MatchFrom;
      SomeIndex(rest);
      var index :| index in rest;
      more, after := AppendStackMatches(index, byStack[index], t, more, after);
      rest := rest - {index};
      assert (byStack - rest).Keys == byStack.Keys - rest;
    }
  }

  // ---------- The recovery ----------

  /** Some service is recovered for the target. */
  ghost predicate Recoverable(r: Recovery, t: Target) {
    r.candidate(t) && exists index, k, service :: Recovered(r, t, index, k, service)
  }

  /** The match comes from a service recovered for its target. */
  ghost predicate RecoveredMatch(r: Recovery, m: Match) {
    exists tag ::
      && m.resolved == ImageWithTag(m.image, tag)
      && Recovered(r, m.target, m.stack, UpdateKey(m.image, tag, Core(m.target.digest)), m.service)
  }

  /** The update makes the match, for a digest with the same end. */
  ghost predicate Covers(u: Update, m: Match) {
    && u.oldImage == m.image && u.tagImage == m.resolved && m.service in u.services
    && Core(u.digest) == Core(m.target.digest)
  }

  ghost predicate Covered(updates: seq<Update>, m: Match) {
    exists u :: u in updates && Covers(u, m)
  }

  /** One update of the match's stack covers it, with the very digest of the line, and no other covers it. */
  ghost predicate CoveredOnce(updates: seq<Update>, m: Match) {
    exists i :: 0 <= i < |updates| && Covers(updates[i], m)
                && updates[i].digest == NormalizeDigest(m.target.digest)
                && forall j :: 0 <= j < |updates| && Covers(updates[j], m) ==> j == i
  }

  ghost predicate AllOneAt(targets: seq<Target>) {
    forall t :: t in targets ==> OneAt(t.digest)
  }

  /** What the loop has done after the recovered targets `used`. */
  ghost predicate Progress(r: Recovery, matches: seq<Match>, used: seq<Target>, now: seq<Match>, updates: Updates) {
    && matches <= now && DistinctKeys(now) && AllOk(updates) && (AllOneAt(used) ==> AllUnmixed(updates))
    && (forall index, k, service ::
          Listed(At(updates, index), k, service) <==> exists t :: t in used && Recovered(r, t, index, k, service))
    && (forall m :: m in now ==> m in matches || (m.target in used && RecoveredMatch(r, m)))
    && (forall t, index, k, service :: t in used && Recovered(r, t, index, k, service) ==>
          Key(index, t.line, ImageWithTag(k.oldImage, k.tag), k.oldImage, service) in Keys(now))
  }

  lemma MatchIsRecovered(r: Recovery, t: Target, byStack: Updates, m: Match)
    requires MatchFromAny(m, byStack, t)
    requires forall index, u :: index in byStack && u in byStack[index] ==> UpdateOk(u)
    requires forall index, k, service :: Listed(At(byStack, index), k, service) ==> Recovered(r, t, index, k, service)
    ensures m.target == t && RecoveredMatch(r, m)
  {
    var index, u :| index in byStack && u in byStack[index] && MatchFrom(m, index, u, t);
    assert Listed(At(byStack, index), CoreKeyOf(u), m.service);
    RecoveredDigest(r, t, index, CoreKeyOf(u), m.service);
    assert UpdateOk(u) && m.resolved == ImageWithTag(m.image, u.resolvedTag);
    assert CoreKeyOf(u) == UpdateKey(m.image, u.resolvedTag, Core(t.digest));
  }

  lemma RecoveredDigest(r: Recovery, t: Target, index: int, k: UpdateKey, service: string)
    requires Recovered(r, t, index, k, service)
    ensures k.digest == Core(t.digest)
  {
  }

  lemma RecoveredKeySeen(r: Recovery, t: Target, byStack: Updates, index: int, k: UpdateKey, service: string)
    requires Recovered(r, t, index, k, service)
    requires forall i, u :: i in byStack && u in byStack[i] ==> UpdateOk(u)
    requires forall i, q, s :: Recovered(r, t, i, q, s) ==> Listed(At(byStack, i), q, s)
    ensures KeyFromAny(Key(index, t.line, ImageWithTag(k.oldImage, k.tag), k.oldImage, service), byStack, t)
  {
    var updates := At(byStack, index);
    assert Listed(updates, k, service);
    var u :| u in updates && CoreKeyOf(u) == k && service in u.services;
    assert index in byStack && UpdateOk(u);
    assert KeyFrom(Key(index, t.line, ImageWithTag(k.oldImage, k.tag), k.oldImage, service), index, u, t);
  }

  lemma ProgressStep(r: Recovery, matches: seq<Match>, used: seq<Target>, t: Target, now: seq<Match>, updates: Updates,
                     byStack: Updates, more: seq<Match>, all: Updates)
    requires Progress(r, matches, used, now, updates) && AllOk(all)
    requires OneAt(t.digest) && AllUnmixed(updates) ==> AllUnmixed(all)
    requires forall index, u :: index in byStack && u in byStack[index] ==> UpdateOk(u)
    requires forall index, k, service :: Listed(At(byStack, index), k, service) <==> Recovered(r, t, index, k, service)
    requires forall index, k, service ::
               Listed(At(all, index), k, service) <==>
               Listed(At(updates, index), k, service) || Recovered(r, t, index, k, service)
    requires now <= more && DistinctKeys(more)
    requires forall k :: k in Keys(more) <==> k in Keys(now) || KeyFromAny(k, byStack, t)
    requires forall m :: m in more ==> m in now || MatchFromAny(m, byStack, t)
    ensures Progress(r, matches, used + [t], more, all)
  {
    hide Recovered, Listed, RecoveredMatch, KeyFromAny, MatchFromAny, UpdateOk, DistinctKeys, AllOk, AllUnmixed, OneAt;
    assert t in used + [t] && forall x :: x in used ==> x in used + [t];
    forall m | m in more ensures m in matches || (m.target in used + [t] && RecoveredMatch(r, m)) {
      if m !in now {
        MatchIsRecovered(r, t, byStack, m);
      }
    }
    forall x, index, k, service | x in used + [t] && Recovered(r, x, index, k, service)
      ensures Key(index, x.line, ImageWithTag(k.oldImage, k.tag), k.oldImage, service) in Keys(more)
    {
      if x == t {
        RecoveredKeySeen(r, t, byStack, index, k, service);
      }
    }
    forall index, k, service
      ensures Listed(At(all, index), k, service) <==> exists x :: x in used + [t] && Recovered(r, x, index, k, service)
    {
      if x :| x in used && Recovered(r, x, index, k, service) {
        assert x in used + [t];
      }
      assert t in used + [t];
    }
  }

  method SeenKeys(matches: seq<Match>) returns (seen: set<Key>)
    ensures seen == Keys(matches)
  {
    seen := {};
    for n := 0 to |matches|
      invariant seen == Keys(matches[..n])
    {
      assert matches[..n + 1] == matches[..n] + [matches[n]];
      OneMatch(matches[n]);
      KeysConcat(matches[..n], [matches[n]]);
      seen := seen + {KeyOf(matches[n])};
    }
    assert matches[..|matches|] == matches;
  }

  lemma ProgressStart(r: Recovery, matches: seq<Match>)
    requires DistinctKeys(matches)
    ensures Progress(r, matches, [], matches, map[])
  {
    hide Recovered, Listed, DistinctKeys;
    NothingListed();
  }

  /** The loop over the skipped lines; `used` are the targets that were recovered. */
  method RecoverLines(r: Recovery, targets: seq<Target>, matches: seq<Match>, skipped: seq<Skipped>)
    returns (now: seq<Match>, kept: seq<Skipped>, updates: Updates, ghost used: seq<Target>)
    requires DistinctLines(targets) && Partition(targets, matches, skipped) && DistinctKeys(matches)
    ensures Progress(r, matches, used, now, updates)
    ensures OncePerLine(kept)
    ensures forall t :: t in used <==>
              t in targets && Recoverable(r, t) && Skipped(t.line, Unmatched) in skipped
    ensures forall s :: s in kept <==> s in skipped && !UsedLine(used, s.line)
  {
    ProgressStart(r, matches);
    hide Progress, Recoverable;
    now, kept, updates, used := matches, [], map[], [];
    var seen := SeenKeys(matches);
    for i := 0 to |skipped|
      invariant Progress(r, matches, used, now, updates) && seen == Keys(now)
      invariant OncePerLine(kept)
      invariant forall t :: t in used <==>
                  t in targets && Recoverable(r, t) && Skipped(t.line, Unmatched) in skipped[..i]
      invariant forall s :: s in kept <==> s in skipped[..i] && !UsedLine(used, s.line)
    {
      var item := skipped[i];
      assert skipped[..i + 1] == skipped[..i] + [item];
      assert item in skipped;
      assert forall s :: s in skipped[..i] ==> s.line != item.line;
      var t := FindTarget(targets, item.line);
      var matched := HasMatch(matches, item.line);
      PartitionLine(targets, matches, skipped, item);
      ghost var before, had := used, kept;
      var recovered := false;
      hide Partition, UsedLine;
      if item.reason.Unmatched? && !matched && r.candidate(t) {
        recovered, now, seen, updates := RecoverTarget(r, t, matches, used, now, seen, updates);
      }
      if recovered {
        used := used + [t];
      } else {
        kept := kept + [item];
      }
      UsedStep(r, targets, skipped[..i], item, t, before, used, recovered);
      KeptStep(skipped[..i], item, t, before, used, had, kept);
    }
    assert skipped[..|skipped|] == skipped;
  }

  /** One candidate target: its updates are merged and its matches appended if any service is recovered. */
  method RecoverTarget(r: Recovery, t: Target, ghost matches: seq<Match>, ghost used: seq<Target>,
                       now: seq<Match>, seen: set<Key>, updates: Updates)
    returns (recovered: bool, more: seq<Match>, after: set<Key>, all: Updates)
    requires r.candidate(t)
    requires Progress(r, matches, used, now, updates) && seen == Keys(now)
    ensures recovered <==> Recoverable(r, t)
    ensures Progress(r, matches, if recovered then used + [t] else used, more, all) && after == Keys(more)
  {
    var byStack;
    byStack, all := UpdatesForTarget(r, t, updates);
    recovered := byStack != map[];
    if recovered {
      more, after := AppendAllMatches(byStack, t, now, seen);
      ProgressStep(r, matches, used, t, now, updates, byStack, more, all);
    } else {
      more, after, all := now, seen, updates;
    }
  }

  ghost predicate UsedLine(used: seq<Target>, line: int) {
    exists t :: t in used && t.line == line
  }

  method FindTarget(targets: seq<Target>, line: int) returns (t: Target)
    requires exists x :: x in targets && x.line == line
    ensures t in targets && t.line == line
  {
    t :| t in targets && t.line == line;
  }

  lemma PartitionLine(targets: seq<Target>, matches: seq<Match>, skipped: seq<Skipped>, s: Skipped)
    requires Partition(targets, matches, skipped) && s in skipped
    ensures s.line !in MatchedLines(matches)
  {
    var t :| t in targets && t.line == s.line;
    assert SkippedLine(skipped, t.line);
    assert !MatchedLine(matches, t.line);
  }

  lemma UsedStep(r: Recovery, targets: seq<Target>, done: seq<Skipped>, item: Skipped, t: Target,
                 before: seq<Target>, used: seq<Target>, recovered: bool)
    requires DistinctLines(targets) && t in targets && t.line == item.line
    requires used == if recovered then before + [t] else before
    requires recovered <==> item.reason.Unmatched? && Recoverable(r, t)
    requires forall x :: x in before <==> x in targets && Recoverable(r, x) && Skipped(x.line, Unmatched) in done
    ensures forall x :: x in used <==> x in targets && Recoverable(r, x) && Skipped(x.line, Unmatched) in done + [item]
  {
    hide Recoverable;
  }

  lemma KeptStep(done: seq<Skipped>, item: Skipped, t: Target, before: seq<Target>, used: seq<Target>,
                 had: seq<Skipped>, kept: seq<Skipped>)
    requires t.line == item.line && forall s :: s in done ==> s.line != item.line
    requires forall x :: x in before ==> exists s :: s in done && s.line == x.line
    requires (used == before + [t] && kept == had) || (used == before && kept == had + [item])
    requires OncePerLine(had)
    requires forall s :: s in had <==> s in done && !UsedLine(before, s.line)
    ensures OncePerLine(kept)
    ensures forall s :: s in kept <==> s in done + [item] && !UsedLine(used, s.line)
  {
    assert !UsedLine(before, item.line);
    forall line ensures UsedLine(before + [t], line) <==> UsedLine(before, line) || line == t.line {
      if x :| x in before && x.line == line {
        assert x in before + [t];
      }
      assert t in before + [t];
    }
  }

  ghost predicate LinesAscend(skipped: seq<Skipped>) {
    forall i, j :: 0 <= i < j < |skipped| ==> skipped[i].line < skipped[j].line
  }

  function InsertSkipped(s: Skipped, others: seq<Skipped>): seq<Skipped> {
    if others == [] then [s]
    else if s.line < others[0].line then [s] + others
    else [others[0]] + InsertSkipped(s, others[1..])
  }

  lemma {:induction false} InsertSkippedOk(s: Skipped, others: seq<Skipped>)
    requires LinesAscend(others) && forall x :: x in others ==> x.line != s.line
    ensures LinesAscend(InsertSkipped(s, others))
    ensures forall x :: x in InsertSkipped(s, others) <==> x in others || x == s
  {
    if others != [] {
      assert others == [others[0]] + others[1..] && others[0] in others;
      if s.line < others[0].line {
        assert forall x :: x in others ==> s.line < x.line;
        FirstLine(s, others);
      } else {
        InsertSkippedOk(s, others[1..]);
        var t := InsertSkipped(s, others[1..]);
        hide InsertSkipped;
        FirstLine(others[0], t);
      }
    }
  }

  lemma FirstLine(s: Skipped, others: seq<Skipped>)
    requires LinesAscend(others) && forall x :: x in others ==> s.line < x.line
    ensures LinesAscend([s] + others)
  {
  }

  /** The skipped lines by line number. */
  method SortSkipped(skipped: seq<Skipped>) returns (s: seq<Skipped>)
    requires OncePerLine(skipped)
    ensures LinesAscend(s) && forall x :: x in s <==> x in skipped
  {
    s := [];
    for i := 0 to |skipped|
      invariant LinesAscend(s) && forall x :: x in s <==> x in skipped[..i]
    {
      assert skipped[..i + 1] == skipped[..i] + [skipped[i]];
      InsertSkippedOk(skipped[i], s);
      hide InsertSkipped;
      s := InsertSkipped(skipped[i], s);
    }
    assert skipped[..|skipped|] == skipped;
  }

  lemma SortedPartition(targets: seq<Target>, a: seq<Match>, b: seq<Match>, x: seq<Skipped>, y: seq<Skipped>)
    requires Partition(targets, a, x) && (forall m :: m in b <==> m in a)
    requires (forall s :: s in y <==> s in x) && LinesAscend(y)
    ensures Partition(targets, b, y)
  {
    forall t | t in targets ensures MatchedLine(b, t.line) <==> !SkippedLine(y, t.line) {
      assert MatchedLine(a, t.line) <==> !SkippedLine(x, t.line);
    }
  }

  lemma PartitionOnce(targets: seq<Target>, a: seq<Match>, x: seq<Skipped>)
    requires Partition(targets, a, x)
    ensures OncePerLine(x)
  {
  }

  lemma SameMatchFor(a: seq<Match>, b: seq<Match>, index: int, k: UpdateKey, service: string)
    requires (forall m :: m in b <==> m in a) && HasMatchFor(a, index, k, service)
    ensures HasMatchFor(b, index, k, service)
  {
  }

  /** `recover_digest_unpin_matches` */
  method RecoverDigestUnpinMatches(r: Recovery, targets: seq<Target>, matches: seq<Match>, skipped: seq<Skipped>)
    returns (now: seq<Match>, kept: seq<Skipped>, updates: Updates)
    requires DistinctLines(targets) && Partition(targets, matches, skipped) && DistinctKeys(matches)
    ensures Partition(targets, now, kept) && DistinctKeys(now) && forall m :: m in matches ==> m in now
    ensures InOrder(now) && LinesAscend(kept)
    ensures forall s :: s in kept <==>
              s in skipped && !(s.reason.Unmatched? && exists t :: t in targets && t.line == s.line && Recoverable(r, t))
    ensures forall m :: m in now ==> m in matches || (RecoveredMatch(r, m) && Covered(At(updates, m.stack), m))
    ensures AllOneAt(targets) ==> forall m :: m in now ==> m in matches || CoveredOnce(At(updates, m.stack), m)
    ensures AllOk(updates) && (AllOneAt(targets) ==> AllUnmixed(updates))
    ensures forall index, k, service :: Listed(At(updates, index), k, service) ==>
              HasMatchFor(now, index, k, service)
  {
    hide Partition, Recoverable, RecoveredMatch, Covered, CoveredOnce, Listed, Recovered, OneAt, Progress, InOrder,
      AllOk, AllUnmixed, LinesAscend, DistinctKeys, HasMatchFor, Keys, OncePerLine;
    var found, rest;
    ghost var used;
    found, rest, updates, used := RecoverLines(r, targets, matches, skipped);
    RecoveryKeepsPartition(r, targets, matches, skipped, used, found, rest, updates);
    RecoveryCovers(r, matches, used, found, updates);
    PartitionOnce(targets, found, rest);
    now := SortMatches(found);
    kept := SortSkipped(rest);
    SortedPartition(targets, found, now, rest, kept);
    forall index, k, service | Listed(At(updates, index), k, service) ensures HasMatchFor(now, index, k, service) {
      SameMatchFor(found, now, index, k, service);
    }
  }

  lemma RecoveryCovers(r: Recovery, matches: seq<Match>, used: seq<Target>, now: seq<Match>, updates: Updates)
    requires Progress(r, matches, used, now, updates)
    ensures DistinctKeys(now) && matches <= now
    ensures forall m :: m in now ==> m in matches || (RecoveredMatch(r, m) && Covered(At(updates, m.stack), m))
    ensures AllOneAt(used) ==> forall m :: m in now ==> m in matches || CoveredOnce(At(updates, m.stack), m)
    ensures AllOk(updates) && (AllOneAt(used) ==> AllUnmixed(updates))
    ensures forall index, k, service :: Listed(At(updates, index), k, service) ==>
              HasMatchFor(now, index, k, service)
  {
    hide Recovered, RecoveredMatch, Covered, CoveredOnce, Listed, AllOneAt, AllUnmixed;
    forall m | m in now && m !in matches
      ensures RecoveredMatch(r, m) && Covered(At(updates, m.stack), m)
      ensures AllOneAt(used) ==> CoveredOnce(At(updates, m.stack), m)
    {
      RecoveredIsCovered(r, matches, used, now, updates, m);
    }
    forall index, k, service | Listed(At(updates, index), k, service)
      ensures HasMatchFor(now, index, k, service)
    {
      var t :| t in used && Recovered(r, t, index, k, service);
      var m :| m in now && KeyOf(m) == Key(index, t.line, ImageWithTag(k.oldImage, k.tag), k.oldImage, service);
    }
  }

  /** A match makes the update of this key for the service. */
  ghost predicate HasMatchFor(matches: seq<Match>, index: int, k: UpdateKey, service: string) {
    exists m :: m in matches && m.stack == index && m.service == service && m.image == k.oldImage
                && m.resolved == ImageWithTag(k.oldImage, k.tag)
  }

  lemma RecoveredIsCovered(r: Recovery, matches: seq<Match>, used: seq<Target>, now: seq<Match>, updates: Updates, m: Match)
    requires Progress(r, matches, used, now, updates) && m in now && m !in matches
    ensures RecoveredMatch(r, m) && Covered(At(updates, m.stack), m)
    ensures AllOneAt(used) ==> CoveredOnce(At(updates, m.stack), m)
  {
    hide Recovered, Core, NormalizeDigest, ImageWithTag;
    var tag :| m.resolved == ImageWithTag(m.image, tag)
            && Recovered(r, m.target, m.stack, UpdateKey(m.image, tag, Core(m.target.digest)), m.service);
    var k := UpdateKey(m.image, tag, Core(m.target.digest));
    var us := At(updates, m.stack);
    assert Listed(us, k, m.service);
    var u :| u in us && CoreKeyOf(u) == k && m.service in u.services;
    assert UpdateOk(u) && Covers(u, m);
    if AllOneAt(used) {
      assert Unmixed(us) && OneAt(m.target.digest);
      ExactlyOne(us, m, u);
    }
  }

  lemma ExactlyOne(us: seq<Update>, m: Match, u: Update)
    requires UpdatesOk(us) && Unmixed(us) && OneAt(m.target.digest) && u in us && Covers(u, m)
    ensures CoveredOnce(us, m)
  {
    hide Core, NormalizeDigest, ImageWithTag;
    var i :| 0 <= i < |us| && us[i] == u;
    var digest := m.target.digest;
    CoreOfOneAt(digest);
    CoreOfStable(u.digest);
    forall j | 0 <= j < |us| && Covers(us[j], m) ensures j == i {
      CoreOfStable(us[j].digest);
      assert UpdateOk(us[j]) && UpdateOk(u);
      ImageWithTagInjective(m.image, us[j].resolvedTag, u.resolvedTag);
      assert UpdateKeyOf(us[j]) == UpdateKeyOf(u);
      KeyLessTotal(UpdateKeyOf(u), UpdateKeyOf(u));
      hide KeyLess;
    }
  }

  lemma CoreOfOneAt(digest: string)
    requires OneAt(digest)
    ensures Core(digest) == NormalizeDigest(digest)
  {
    CoreOfNormalized(digest);
    NormalizeStableIff(digest);
    CoreOfStable(NormalizeDigest(digest));
  }

  lemma RecoveryKeepsPartition(r: Recovery, targets: seq<Target>, matches: seq<Match>, skipped: seq<Skipped>,
                               used: seq<Target>, now: seq<Match>, kept: seq<Skipped>, updates: Updates)
    requires DistinctLines(targets) && Partition(targets, matches, skipped)
    requires Progress(r, matches, used, now, updates) && OncePerLine(kept)
    requires forall t :: t in used <==> t in targets && Recoverable(r, t) && Skipped(t.line, Unmatched) in skipped
    requires forall s :: s in kept <==> s in skipped && !UsedLine(used, s.line)
    ensures Partition(targets, now, kept)
    ensures forall s :: s in kept <==>
              s in skipped && !(s.reason.Unmatched? && exists t :: t in targets && t.line == s.line && Recoverable(r, t))
  {
    hide Recovered, RecoveredMatch;
    forall t | t in targets ensures MatchedLine(now, t.line) <==> !SkippedLine(kept, t.line) {
      LineStays(r, targets, matches, skipped, used, now, kept, updates, t);
    }
    forall s | s in skipped
      ensures UsedLine(used, s.line) <==>
              s.reason.Unmatched? && exists t :: t in targets && t.line == s.line && Recoverable(r, t)
    {
      hide Recoverable;
      if t :| t in used && t.line == s.line {
        SameLineSameSkip(skipped, s, Skipped(t.line, Unmatched));
      }
      if s.reason.Unmatched? {
        if t :| t in targets && t.line == s.line && Recoverable(r, t) {
          assert s == Skipped(t.line, Unmatched);
          assert t in used;
        }
      }
    }
  }

  lemma LineStays(r: Recovery, targets: seq<Target>, matches: seq<Match>, skipped: seq<Skipped>,
                  used: seq<Target>, now: seq<Match>, kept: seq<Skipped>, updates: Updates, t: Target)
    requires DistinctLines(targets) && Partition(targets, matches, skipped) && t in targets
    requires Progress(r, matches, used, now, updates)
    requires forall x :: x in used <==> x in targets && Recoverable(r, x) && Skipped(x.line, Unmatched) in skipped
    requires forall s :: s in kept <==> s in skipped && !UsedLine(used, s.line)
    ensures MatchedLine(now, t.line) <==> !SkippedLine(kept, t.line)
  {
    hide Recovered, RecoveredMatch, DistinctKeys, AllOk, Listed;
    if t in used {
      assert UsedLine(used, t.line);
      UsedIsMatched(r, matches, used, now, updates, t);
    } else {
      UnusedStays(targets, matches, skipped, used, now, kept, t);
    }
  }

  lemma UnusedStays(targets: seq<Target>, matches: seq<Match>, skipped: seq<Skipped>,
                    used: seq<Target>, now: seq<Match>, kept: seq<Skipped>, t: Target)
    requires DistinctLines(targets) && Partition(targets, matches, skipped) && t in targets && t !in used
    requires matches <= now && forall m :: m in now ==> m in matches || m.target in used
    requires forall x :: x in used ==> x in targets
    requires forall s :: s in kept <==> s in skipped && !UsedLine(used, s.line)
    ensures MatchedLine(now, t.line) <==> !SkippedLine(kept, t.line)
  {
    assert forall x :: x in used && x.line == t.line ==> x == t;
    assert !UsedLine(used, t.line);
    if m :| m in matches && m.target.line == t.line {
      assert m in now;
    }
    if m :| m in now && m.target.line == t.line {
      assert m in matches;
    }
    if s :| s in skipped && s.line == t.line {
      assert s in kept;
    }
  }

  lemma UsedIsMatched(r: Recovery, matches: seq<Match>, used: seq<Target>, now: seq<Match>, updates: Updates, t: Target)
    requires Progress(r, matches, used, now, updates) && t in used && Recoverable(r, t)
    ensures MatchedLine(now, t.line)
  {
    hide Recovered, RecoveredMatch, DistinctKeys, AllOk, Listed;
    var index, k, service :| Recovered(r, t, index, k, service);
    var m :| m in now && KeyOf(m) == Key(index, t.line, ImageWithTag(k.oldImage, k.tag), k.oldImage, service);
    assert m.target.line == t.line;
  }
}
