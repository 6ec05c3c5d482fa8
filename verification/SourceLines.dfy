/** Lines of a source text by start offset (src/wudup/compose_source.py). */
module SourceLines {

  /** Offsets just past each line feed at or after `from`. */
  function OffsetsFrom(source: string, from: nat): seq<nat>
    decreases |source| - from
  {
    if from >= |source| then []
    else if source[from] == '\n' then [from + 1] + OffsetsFrom(source, from + 1)
    else OffsetsFrom(source, from + 1)
  }

  function LineStartOffsets(source: string): seq<nat> {
    [0] + OffsetsFrom(source, 0)
  }

  function LineEnd(source: string, from: nat): (end: nat)
    requires from <= |source|
    ensures from <= end <= |source|
    ensures '\n' !in source[from..end]
    ensures end < |source| ==> source[end] == '\n'
    decreases |source| - from
  {
    if from == |source| || source[from] == '\n' then from
    else
      var end := LineEnd(source, from + 1);
      assert source[from..end] == [source[from]] + source[from + 1..end];
      end
  }

  /** The line that starts at `start`, without its line break. */
  function LineBody(source: string, start: nat): (body: string)
    requires start <= |source|
    ensures var end := LineEnd(source, start);
            start + |body| == if start < end && source[end - 1] == '\r' then end - 1 else end
    ensures body == source[start..start + |body|]
    ensures '\n' !in body
  {
    var end := LineEnd(source, start);
    var line := source[start..end];
    if line != [] && line[|line| - 1] == '\r' then
      assert line[|line| - 1] == source[end - 1] && line[..|line| - 1] == source[start..end - 1];
      assert forall i :: start <= i < end - 1 ==> source[i] == line[i - start];
      line[..|line| - 1]
    else
      assert line != [] ==> line[|line| - 1] == source[end - 1];
      line
  }

  /** Increasing offsets beyond `from`, each just past a line feed. */
  ghost predicate Starts(source: string, from: nat, offsets: seq<nat>) {
    && (forall i :: 0 <= i < |offsets| ==> from < offsets[i] <= |source| && source[offsets[i] - 1] == '\n')
    && forall i, j :: 0 <= i < j < |offsets| ==> offsets[i] < offsets[j]
  }

  lemma {:induction false} OffsetsOrdered(source: string, from: nat)
    ensures Starts(source, from, OffsetsFrom(source, from))
    decreases |source| - from
  {
    if from < |source| {
      OffsetsOrdered(source, from + 1);
      var rest := OffsetsFrom(source, from + 1);
      assert Starts(source, from, rest);
      if source[from] == '\n' {
        assert Starts(source, from, [from + 1] + rest);
      }
    }
  }

  /** Line starts increase, and each line ends before the next one starts. */
  lemma LinesInOrder(source: string, i: nat, j: nat)
    requires i < j < |LineStartOffsets(source)|
    ensures LineStartOffsets(source)[i] < LineStartOffsets(source)[j] <= |source|
    ensures LineStartOffsets(source)[i] + |LineBody(source, LineStartOffsets(source)[i])|
            < LineStartOffsets(source)[j]
  {
    OffsetsOrdered(source, 0);
    var o := LineStartOffsets(source);
    var rest := OffsetsFrom(source, 0);
    assert o[j] == rest[j - 1];
    assert i > 0 ==> o[i] == rest[i - 1];
    var end := LineEnd(source, o[i]);
    assert forall k :: o[i] <= k < end ==> source[k] == source[o[i]..end][k - o[i]];
  }

  lemma OffsetBound(source: string, i: nat)
    requires i < |LineStartOffsets(source)|
    ensures LineStartOffsets(source)[i] <= |source|
  {
    OffsetsOrdered(source, 0);
  }

  /** Lines start at the beginning and behind every line feed, and nowhere else. */
  lemma {:induction false} OffsetsIff(source: string, from: nat, n: nat)
    ensures n in OffsetsFrom(source, from) <==> from < n <= |source| && source[n - 1] == '\n'
    decreases |source| - from
  {
    if from < |source| { OffsetsIff(source, from + 1, n); }
  }

  lemma LineStartsIff(source: string, n: nat)
    ensures n in LineStartOffsets(source) <==> n == 0 || (n <= |source| && source[n - 1] == '\n')
  {
    OffsetsIff(source, 0, n);
  }

  lemma {:induction false} OffsetsUpTo(source: string, from: nat, n: nat)
    requires from <= n <= |source|
    ensures var before, all := CountLineFeeds(source[from..n]), OffsetsFrom(source, from);
            && before <= |all| && (before > 0 ==> all[before - 1] <= n) && (before < |all| ==> n < all[before])
    decreases n - from
  {
    if from == n {
      OffsetsOrdered(source, from);
    } else {
      OffsetsUpTo(source, from + 1, n);
      assert source[from..n][1..] == source[from + 1..n];
    }
  }

  /** Counting line feeds gives the number of the line that an offset stands on. */
  lemma LineOfOffset(source: string, n: nat)
    requires n <= |source|
    ensures var starts, line := LineStartOffsets(source), CountLineFeeds(source[..n]);
            line < |starts| && starts[line] <= n && (line + 1 < |starts| ==> n < starts[line + 1])
  {
    OffsetsUpTo(source, 0, n);
    assert source[0..n] == source[..n];
  }

  function CountLineFeeds(text: string): nat {
    if text == [] then 0 else (if text[0] == '\n' then 1 else 0) + CountLineFeeds(text[1..])
  }

  /** `source.rfind("\n", from, until)`: the last line feed in the range, or `None` as -1. */
  function LastLineFeed(source: string, from: nat, until: nat): (i: int)
    requires from <= until <= |source|
    ensures i == -1 ==> '\n' !in source[from..until]
    ensures i != -1 ==> from <= i < until && source[i] == '\n' && '\n' !in source[i + 1..until]
    decreases until - from
  {
    if from == until then -1
    else if source[until - 1] == '\n' then until - 1
    else
      var i := LastLineFeed(source, from, until - 1);
      assert source[from..until] == source[from..until - 1] + [source[until - 1]];
      assert i != -1 ==> source[i + 1..until] == source[i + 1..until - 1] + [source[until - 1]];
      i
  }
}
