/**
 Span edits spliced into the source text in descending order (src/wudup/compose_rewrite.py),
 against simultaneous substitution.
 */
module Splice {
  import opened Ordering

  /** Replace `source[start..end]` by `text`; an insertion has `start == end`. */
  datatype Rewrite = Rewrite(start: nat, end: nat, text: string)

  ghost predicate Disjoint(a: Rewrite, b: Rewrite) {
    a.end <= b.start || b.end <= a.start
  }

  /** The edits lie in a text of this length and no two of them overlap. */
  ghost predicate Spans(rewrites: multiset<Rewrite>, length: nat) {
    && (forall r :: r in rewrites ==> r.start <= r.end <= length)
    && forall a, b :: a in rewrites && b in rewrites && (a != b || rewrites[a] > 1) ==> Disjoint(a, b)
  }

  ghost predicate DistinctStarts(rewrites: multiset<Rewrite>) {
    forall a, b :: a in rewrites && b in rewrites && (a != b || rewrites[a] > 1) ==> a.start != b.start
  }

  lemma TwiceInMultiset(s: seq<Rewrite>, i: nat, j: nat)
    requires i < j < |s|
    ensures s[i] == s[j] ==> multiset(s)[s[i]] > 1
  {
    assert s == s[..j] + s[j..];
    assert s[i] in s[..j] && s[j] in s[j..];
  }

  /** Ascending edits from `from` on, each starting where the one before has ended. */
  predicate Chained(rewrites: seq<Rewrite>, from: nat, length: nat) {
    if rewrites == [] then from <= length
    else
      && from <= rewrites[0].start <= rewrites[0].end
      && Chained(rewrites[1..], rewrites[0].end, length)
  }

  /** All edits made at once: the text between the spans is kept, in order. */
  function Substitute(source: string, from: nat, rewrites: seq<Rewrite>): string
    requires Chained(rewrites, from, |source|)
    decreases |rewrites|
  {
    if rewrites == [] then source[from..]
    else
      var r := rewrites[0];
      ChainedBound(rewrites, from, |source|);
      source[from..r.start] + r.text + Substitute(source, r.end, rewrites[1..])
  }

  lemma {:induction false} ChainedBound(rewrites: seq<Rewrite>, from: nat, length: nat)
    requires Chained(rewrites, from, length)
    ensures from <= length
    ensures rewrites != [] ==> rewrites[0].end <= length
    decreases |rewrites|
  {
    if rewrites != [] { ChainedBound(rewrites[1..], rewrites[0].end, length); }
  }

  lemma {:induction false} SubstitutePrefix(source: string, from: nat, to: nat, rewrites: seq<Rewrite>)
    requires from <= to && Chained(rewrites, to, |source|)
    decreases |rewrites|
    ensures Chained(rewrites, from, |source|)
    ensures to <= |source|
    ensures Substitute(source, from, rewrites) == source[from..to] + Substitute(source, to, rewrites)
  {
    ChainedBound(rewrites, to, |source|);
    if rewrites == [] {
      assert source[from..] == source[from..to] + source[to..];
    } else {
      var r := rewrites[0];
      var tail := r.text + Substitute(source, r.end, rewrites[1..]);
      assert source[from..r.start] == source[from..to] + source[to..r.start];
      assert Substitute(source, to, rewrites) == source[to..r.start] + tail;
      assert Substitute(source, from, rewrites) == source[from..r.start] + tail;
      assert source[from..to] + source[to..r.start] + tail == source[from..to] + (source[to..r.start] + tail);
    }
  }

  // ---------- The two splice loops ----------

  function ApplyOne(text: string, r: Rewrite): string
    requires r.start <= r.end <= |text|
  {
    text[..r.start] + r.text + text[r.end..]
  }

  lemma {:induction false} ChainedSuffix(rewrites: seq<Rewrite>, k: nat, from: nat, length: nat)
    requires k <= |rewrites| && Chained(rewrites, from, length)
    ensures Chained(rewrites[k..], 0, length)
    decreases |rewrites|
  {
    ChainedBound(rewrites, from, length);
    if k > 0 {
      ChainedSuffix(rewrites[1..], k - 1, rewrites[0].end, length);
      assert rewrites[1..][k - 1..] == rewrites[k..];
    } else {
      assert rewrites[0..] == rewrites;
    }
  }

  /** `ascending` edits are applied from the last one back to the first. */
  lemma ApplyStep(source: string, ascending: seq<Rewrite>, k: nat)
    requires k < |ascending| && Chained(ascending, 0, |source|)
    ensures Chained(ascending[k..], 0, |source|) && Chained(ascending[k + 1..], 0, |source|)
    ensures ascending[k].start <= ascending[k].end <= |Substitute(source, 0, ascending[k + 1..])|
    ensures ApplyOne(Substitute(source, 0, ascending[k + 1..]), ascending[k])
         == Substitute(source, 0, ascending[k..])
  {
    ChainedSuffix(ascending, k, 0, |source|);
    ChainedSuffix(ascending, k + 1, 0, |source|);
    var r, rest := ascending[k], ascending[k + 1..];
    assert ascending[k..][0] == r && ascending[k..][1..] == rest;
    SubstitutePrefix(source, 0, r.end, rest);
    var tail := Substitute(source, r.end, rest);
    assert Substitute(source, 0, rest) == source[..r.end] + tail;
    assert (source[..r.end] + tail)[..r.start] == source[..r.start];
    assert (source[..r.end] + tail)[r.end..] == tail;
  }

  /** Python's tuple comparison of two edits, or of their start offsets only. */
  predicate Earlier(a: Rewrite, b: Rewrite, byStart: bool) {
    a.start < b.start
    || (!byStart && a.start == b.start && (a.end < b.end || (a.end == b.end && Less(a.text, b.text))))
  }

  /** Sorted in reverse: no edit stands behind one that is earlier than it. */
  ghost predicate Descending(s: seq<Rewrite>, byStart: bool) {
    forall i, j :: 0 <= i < j < |s| ==> !Earlier(s[i], s[j], byStart)
  }

  /** The edits at one start offset, in their order. */
  function WithStart(s: seq<Rewrite>, start: nat): seq<Rewrite> {
    if s == [] then [] else (if s[0].start == start then [s[0]] else []) + WithStart(s[1..], start)
  }

  lemma EarlierTransitive(a: Rewrite, b: Rewrite, c: Rewrite, byStart: bool)
    requires Earlier(a, b, byStart) && Earlier(b, c, byStart)
    ensures Earlier(a, c, byStart)
  {
    if a.start == b.start == c.start && a.end == b.end == c.end {
      LessTransitive(a.text, b.text, c.text);
    }
  }

  /** Puts `x` behind everything that is not earlier than it, so equal edits keep their order. */
  function InsertDescending(x: Rewrite, s: seq<Rewrite>, byStart: bool): seq<Rewrite> {
    if s == [] then [x]
    else if Earlier(s[0], x, byStart) then [x] + s
    else [s[0]] + InsertDescending(x, s[1..], byStart)
  }

  lemma {:induction false} InsertDescendingOk(x: Rewrite, s: seq<Rewrite>, byStart: bool)
    requires Descending(s, byStart)
    ensures Descending(InsertDescending(x, s, byStart), byStart)
    ensures multiset(InsertDescending(x, s, byStart)) == multiset(s) + multiset{x}
  {
    hide Earlier;
    if s != [] {
      assert s == [s[0]] + s[1..];
      if Earlier(s[0], x, byStart) {
        NoneLater(x, s, byStart);
        DescendingCons(x, s, byStart);
      } else {
        InsertDescendingOk(x, s[1..], byStart);
        var t := InsertDescending(x, s[1..], byStart);
        NoneEarlier(x, s, t, byStart);
        DescendingCons(s[0], t, byStart);
      }
    }
  }

  lemma NoneLater(x: Rewrite, s: seq<Rewrite>, byStart: bool)
    requires s != [] && Descending(s, byStart) && Earlier(s[0], x, byStart)
    ensures forall j :: 0 <= j < |s| ==> !Earlier(x, s[j], byStart)
  {
    hide Earlier;
    forall j | 0 <= j < |s| ensures !Earlier(x, s[j], byStart) {
      if Earlier(x, s[j], byStart) {
        EarlierTransitive(s[0], x, s[j], byStart);
        if j == 0 { NotEarlierItself(s[0], byStart); }
      }
    }
  }

  lemma NoneEarlier(x: Rewrite, s: seq<Rewrite>, t: seq<Rewrite>, byStart: bool)
    requires s != [] && Descending(s, byStart) && !Earlier(s[0], x, byStart)
    requires multiset(t) == multiset(s[1..]) + multiset{x}
    ensures forall j :: 0 <= j < |t| ==> !Earlier(s[0], t[j], byStart)
  {
    hide Earlier;
    forall j | 0 <= j < |t| ensures !Earlier(s[0], t[j], byStart) {
      assert t[j] in multiset(t);
      if t[j] != x { assert t[j] in s[1..]; }
    }
  }

  lemma NotEarlierItself(a: Rewrite, byStart: bool)
    ensures !Earlier(a, a, byStart)
  {
    LessTotal(a.text, a.text);
  }

  lemma DescendingCons(a: Rewrite, t: seq<Rewrite>, byStart: bool)
    requires Descending(t, byStart) && forall j :: 0 <= j < |t| ==> !Earlier(a, t[j], byStart)
    ensures Descending([a] + t, byStart)
  {
    hide Earlier;
  }

  /** Edits at one offset keep their order when only the offsets are compared. */
  lemma {:induction false} InsertIsStable(x: Rewrite, s: seq<Rewrite>, start: nat)
    requires Descending(s, true)
    ensures WithStart(InsertDescending(x, s, true), start)
         == WithStart(s, start) + if x.start == start then [x] else []
  {
    if s == [] {
      assert [x][1..] == [];
    } else if Earlier(s[0], x, true) {
      assert ([x] + s)[1..] == s;
      if x.start == start { NoneAtStart(s, start); }
    } else {
      InsertIsStable(x, s[1..], start);
      var t := InsertDescending(x, s[1..], true);
      assert ([s[0]] + t)[1..] == t;
    }
  }

  lemma {:induction false} NoneAtStart(s: seq<Rewrite>, start: nat)
    requires forall j :: 0 <= j < |s| ==> s[j].start < start
    ensures WithStart(s, start) == []
  {
    if s != [] { NoneAtStart(s[1..], start); }
  }

  lemma {:induction false} WithStartAppend(s: seq<Rewrite>, x: Rewrite, start: nat)
    ensures WithStart(s + [x], start) == WithStart(s, start) + if x.start == start then [x] else []
  {
    if s == [] {
      assert s + [x] == [x] && [x][1..] == [];
    } else {
      WithStartAppend(s[1..], x, start);
      assert (s + [x])[1..] == s[1..] + [x];
    }
  }

  /**
   `sorted(rewrites, reverse=True)` by the whole tuple, or with the start offset as key; with the
   key, edits at one offset keep the order they came in.
   */
  method SortedDescending(rewrites: seq<Rewrite>, byStart: bool) returns (s: seq<Rewrite>)
    ensures Descending(s, byStart) && multiset(s) == multiset(rewrites)
    ensures byStart ==> forall start: nat :: WithStart(s, start) == WithStart(rewrites, start)
  {
    hide *;
    NothingYet(byStart);
    s := [];
    for i := 0 to |rewrites|
      invariant Descending(s, byStart) && multiset(s) == multiset(rewrites[..i])
      invariant byStart ==> forall start: nat :: WithStart(s, start) == WithStart(rewrites[..i], start)
    {
      InsertDescendingOk(rewrites[i], s, byStart);
      assert rewrites[..i + 1] == rewrites[..i] + [rewrites[i]];
      if byStart {
        forall start: nat
          ensures WithStart(InsertDescending(rewrites[i], s, true), start) == WithStart(rewrites[..i + 1], start)
        {
          InsertIsStable(rewrites[i], s, start);
          WithStartAppend(rewrites[..i], rewrites[i], start);
        }
      }
      s := InsertDescending(rewrites[i], s, byStart);
    }
    assert rewrites[..|rewrites|] == rewrites;
  }

  lemma NothingYet(byStart: bool)
    ensures Descending([], byStart)
  {
  }

  ghost function Reversed(s: seq<Rewrite>): (r: seq<Rewrite>)
    ensures |r| == |s| && forall k :: 0 <= k < |s| ==> r[k] == s[|s| - 1 - k]
  {
    seq(|s|, k requires 0 <= k < |s| => s[|s| - 1 - k])
  }

  /** Sorted disjoint spans are chained, whether sorted by the whole tuple or by distinct starts. */
  lemma {:induction false} DescendingChained(s: seq<Rewrite>, byStart: bool, k: nat, from: nat, length: nat)
    requires Spans(multiset(s), length) && Descending(s, byStart)
    requires byStart ==> DistinctStarts(multiset(s))
    requires k <= |s| && from <= length
    requires k < |s| ==> from <= s[|s| - 1 - k].start
    ensures Chained(Reversed(s)[k..], from, length)
    decreases |s| - k
  {
    ChainedCons(Reversed(s), k, from, length);
    if k < |s| {
      var r := s[|s| - 1 - k];
      SpanInside(s, |s| - 1 - k, length);
      if k + 1 < |s| { NextBehind(s, byStart, |s| - 2 - k, length); }
      hide *;
      DescendingChained(s, byStart, k + 1, r.end, length);
    }
  }

  lemma ChainedCons(s: seq<Rewrite>, k: nat, from: nat, length: nat)
    requires k <= |s|
    ensures Chained(s[k..], from, length) <==>
              if k == |s| then from <= length
              else from <= s[k].start <= s[k].end && Chained(s[k + 1..], s[k].end, length)
  {
    if k < |s| { assert s[k..][1..] == s[k + 1..]; }
  }

  lemma SpanInside(s: seq<Rewrite>, i: nat, length: nat)
    requires Spans(multiset(s), length) && i < |s|
    ensures s[i].start <= s[i].end <= length
  {
    assert s[i] in multiset(s);
  }

  /** The span behind in a descending list starts where the one in front has ended. */
  lemma NextBehind(s: seq<Rewrite>, byStart: bool, i: nat, length: nat)
    requires Spans(multiset(s), length) && Descending(s, byStart) && i + 1 < |s|
    requires byStart ==> DistinctStarts(multiset(s))
    ensures s[i + 1].end <= s[i].start
  {
    hide Less;
    TwiceInMultiset(s, i, i + 1);
    assert s[i] in multiset(s) && s[i + 1] in multiset(s);
    assert Disjoint(s[i], s[i + 1]);
    assert !Earlier(s[i], s[i + 1], byStart);
  }

  lemma {:induction false} ReversedMultiset(s: seq<Rewrite>)
    ensures multiset(Reversed(s)) == multiset(s)
  {
    if s != [] {
      var n := |s| - 1;
      ReversedMultiset(s[..n]);
      assert s == s[..n] + [s[n]];
      assert Reversed(s) == [s[n]] + Reversed(s[..n]);
    } else {
      assert Reversed(s) == s;
    }
  }

  /** In the order of the tuples. */
  ghost predicate Ascending(s: seq<Rewrite>) {
    forall i, j :: 0 <= i < j < |s| ==> !Earlier(s[j], s[i], false)
  }

  /** Reversing a descending list gives an ascending one; by start alone if the starts differ. */
  lemma ReversedAscends(s: seq<Rewrite>, byStart: bool)
    requires Descending(s, byStart) && (byStart ==> DistinctStarts(multiset(s)))
    ensures Ascending(Reversed(s))
  {
    var r := Reversed(s);
    forall i, j | 0 <= i < j < |r| ensures !Earlier(r[j], r[i], false) {
      var m, n := |s| - 1 - j, |s| - 1 - i;
      assert !Earlier(s[m], s[n], byStart);
      TwiceInMultiset(s, m, n);
    }
  }

  /** `rendered` is `source` with exactly these edits made, all at once and in the order of the tuples. */
  ghost predicate AllAtOnce(source: string, rewrites: multiset<Rewrite>, rendered: string) {
    exists ascending ::
      && multiset(ascending) == rewrites && Ascending(ascending) && Chained(ascending, 0, |source|)
      && rendered == Substitute(source, 0, ascending)
  }

  /** Splicing in descending order is simultaneous substitution. */
  method SpliceRewrites(source: string, rewrites: seq<Rewrite>, byStart: bool) returns (rendered: string)
    requires Spans(multiset(rewrites), |source|)
    requires byStart ==> DistinctStarts(multiset(rewrites))
    ensures AllAtOnce(source, multiset(rewrites), rendered)
  {
    hide WithStart, Earlier;
    var descending := SortedDescending(rewrites, byStart);
    ghost var ascending := Reversed(descending);
    ReversedMultiset(descending);
    ReversedAscends(descending, byStart);
    DescendingChained(descending, byStart, 0, 0, |source|);
    assert ascending[0..] == ascending;
    rendered := SpliceDescending(source, descending, ascending);
  }

  method SpliceDescending(source: string, descending: seq<Rewrite>, ghost ascending: seq<Rewrite>)
    returns (rendered: string)
    requires ascending == Reversed(descending) && Chained(ascending, 0, |source|)
    ensures rendered == Substitute(source, 0, ascending)
  {
    ghost var n := |descending|;
    rendered := source;
    assert ascending[n..] == [];
    for i := 0 to |descending|
      invariant Chained(ascending[n - i..], 0, |source|)
      invariant rendered == Substitute(source, 0, ascending[n - i..])
    {
      hide Substitute, Chained;
      ApplyStep(source, ascending, n - i - 1);
      var r := descending[i];
      assert r == ascending[n - i - 1];
      rendered := rendered[..r.start] + r.text + rendered[r.end..];
    }
    assert ascending[0..] == ascending;
  }

  // ---------- The order of selection does not matter ----------

  lemma {:induction false} ChainedFirst(rewrites: seq<Rewrite>, from: nat, length: nat, r: Rewrite)
    requires Chained(rewrites, from, length) && r in rewrites
    ensures from <= r.start && rewrites[0].start <= r.start
    decreases |rewrites|
  {
    if r != rewrites[0] {
      ChainedFirst(rewrites[1..], rewrites[0].end, length, r);
    }
  }

  /** With distinct start offsets there is only one way to order the same edits. */
  lemma {:induction false} ChainedUnique(a: seq<Rewrite>, b: seq<Rewrite>, from: nat, length: nat)
    requires multiset(a) == multiset(b) && DistinctStarts(multiset(a))
    requires Chained(a, from, length) && Chained(b, from, length)
    ensures a == b
    decreases |a|
  {
    assert |a| == |multiset(a)| == |multiset(b)| == |b|;
    if a != [] {
      SameFirst(a, b, from, length);
      DropFirst(a);
      DropFirst(b);
      hide DistinctStarts;
      ChainedUnique(a[1..], b[1..], a[0].end, length);
      hide Chained;
      assert a == [a[0]] + a[1..] && b == [b[0]] + b[1..];
    }
  }

  /** The ascending order of the same edits is unique. */
  lemma {:induction false} AscendingUnique(a: seq<Rewrite>, b: seq<Rewrite>)
    requires multiset(a) == multiset(b) && Ascending(a) && Ascending(b)
    ensures a == b
    decreases |a|
  {
    hide *;
    assert |a| == |multiset(a)| == |multiset(b)| == |b|;
    if a != [] {
      LeastFirst(a, b);
      DropFirst(a);
      DropFirst(b);
      AscendingRest(a);
      AscendingRest(b);
      AscendingUnique(a[1..], b[1..]);
      assert a == [a[0]] + a[1..] && b == [b[0]] + b[1..];
    }
  }

  lemma AscendingRest(s: seq<Rewrite>)
    requires s != [] && Ascending(s)
    ensures Ascending(s[1..])
  {
    hide Earlier;
  }

  lemma LeastFirst(a: seq<Rewrite>, b: seq<Rewrite>)
    requires a != [] && b != [] && multiset(a) == multiset(b) && Ascending(a) && Ascending(b)
    ensures a[0] == b[0]
  {
    assert a[0] in multiset(b) && b[0] in multiset(a);
    var i :| 0 <= i < |a| && a[i] == b[0];
    var j :| 0 <= j < |b| && b[j] == a[0];
    LessTotal(a[0].text, b[0].text);
  }

  /** So the rendered text does not depend on the order of selection, with equal starts either. */
  lemma AllAtOnceUnique(source: string, rewrites: multiset<Rewrite>, x: string, y: string)
    requires AllAtOnce(source, rewrites, x) && AllAtOnce(source, rewrites, y)
    ensures x == y
  {
    hide Ascending;
    var a :| multiset(a) == rewrites && Ascending(a) && Chained(a, 0, |source|) && x == Substitute(source, 0, a);
    var b :| multiset(b) == rewrites && Ascending(b) && Chained(b, 0, |source|) && y == Substitute(source, 0, b);
    AscendingUnique(a, b);
  }

  lemma SameFirst(a: seq<Rewrite>, b: seq<Rewrite>, from: nat, length: nat)
    requires a != [] && b != [] && multiset(a) == multiset(b) && DistinctStarts(multiset(a))
    requires Chained(a, from, length) && Chained(b, from, length)
    ensures a[0] == b[0]
  {
    assert a[0] in multiset(b) && b[0] in multiset(a);
    ChainedFirst(a, from, length, b[0]);
    ChainedFirst(b, from, length, a[0]);
  }

  lemma DropFirst(a: seq<Rewrite>)
    requires a != []
    ensures multiset(a[1..]) == multiset(a) - multiset{a[0]}
    ensures DistinctStarts(multiset(a)) ==> DistinctStarts(multiset(a[1..]))
  {
    assert a == [a[0]] + a[1..];
  }

  // ---------- Splicing can be undone ----------

  /** The edits that restore the replaced text; `at` is where `from` has moved to. */
  function Undo(source: string, from: nat, at: nat, rewrites: seq<Rewrite>): seq<Rewrite>
    requires Chained(rewrites, from, |source|)
    decreases |rewrites|
  {
    if rewrites == [] then []
    else
      var r := rewrites[0];
      ChainedBound(rewrites, from, |source|);
      var start := at + (r.start - from);
      [Rewrite(start, start + |r.text|, source[r.start..r.end])]
      + Undo(source, r.end, start + |r.text|, rewrites[1..])
  }

  /** Undoing the edits in the spliced text gives the source back. */
  lemma {:induction false} UndoRestores(source: string, from: nat, rewrites: seq<Rewrite>, before: string)
    requires Chained(rewrites, from, |source|)
    ensures from <= |source|
    ensures var text := before + Substitute(source, from, rewrites);
            && Chained(Undo(source, from, |before|, rewrites), |before|, |text|)
            && Substitute(text, |before|, Undo(source, from, |before|, rewrites)) == source[from..]
    decreases |rewrites|
  {
    hide *;
    ChainedBound(rewrites, from, |source|);
    UndoFirst(source, from, rewrites, before);
    if rewrites != [] {
      var text := before + Substitute(source, from, rewrites);
      var r := rewrites[0];
      var kept := source[from..r.start];
      var rest := Substitute(source, r.end, rewrites[1..]);
      var before' := before + kept + r.text;
      var undo := Undo(source, r.end, |before'|, rewrites[1..]);
      var first := Rewrite(|before| + |kept|, |before'|, source[r.start..r.end]);
      UndoRestores(source, r.end, rewrites[1..], before');
      RegroupUndo(before, kept, r.text, rest);
      SubstituteCons(text, |before|, first, undo);
      KeptPart(before, kept, r.text + rest);
      assert kept + source[r.start..r.end] + source[r.end..] == source[from..];
    }
  }

  lemma UndoFirst(source: string, from: nat, rewrites: seq<Rewrite>, before: string)
    requires Chained(rewrites, from, |source|) && from <= |source|
    ensures rewrites == [] ==>
              var text := before + Substitute(source, from, rewrites);
              && Chained(Undo(source, from, |before|, rewrites), |before|, |text|)
              && Substitute(text, |before|, Undo(source, from, |before|, rewrites)) == source[from..]
    ensures rewrites != [] ==>
              var r := rewrites[0];
              && from <= r.start <= r.end <= |source| && Chained(rewrites[1..], r.end, |source|)
              && var kept := source[from..r.start];
                 && Substitute(source, from, rewrites) == kept + r.text + Substitute(source, r.end, rewrites[1..])
                 && var after := |before + kept + r.text|;
                    Undo(source, from, |before|, rewrites)
                    == [Rewrite(|before| + |kept|, after, source[r.start..r.end])]
                       + Undo(source, r.end, after, rewrites[1..])
  {
    if rewrites == [] {
      assert (before + source[from..])[|before|..] == source[from..];
    } else {
      ChainedBound(rewrites[1..], rewrites[0].end, |source|);
    }
  }

  lemma SubstituteCons(text: string, from: nat, first: Rewrite, others: seq<Rewrite>)
    requires from <= first.start <= first.end && Chained(others, first.end, |text|)
    ensures Chained([first] + others, from, |text|) && first.end <= |text|
    ensures Substitute(text, from, [first] + others)
         == text[from..first.start] + first.text + Substitute(text, first.end, others)
  {
    ChainedBound(others, first.end, |text|);
    assert ([first] + others)[1..] == others;
  }

  lemma RegroupUndo(before: string, kept: string, text: string, rest: string)
    ensures before + (kept + text + rest) == before + kept + text + rest
    ensures before + (kept + text + rest) == before + kept + (text + rest)
  {
  }

  lemma KeptPart(before: string, kept: string, rest: string)
    ensures (before + kept + rest)[|before|..|before| + |kept|] == kept
  {
  }
}
