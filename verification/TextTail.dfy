/**
 The bounded tail of streamed output: a small mutable buffer fed chunk by chunk, against the
 lines of the whole text.
 */
module TextTail {
  const PARTIAL_LIMIT := 8192

  // ---------- Lines of a text ----------

  /** The characters that end a line, as Python's `str.splitlines` counts them. */
  predicate IsLineBreak(c: char) {
    || c == '\n' || c == '\r' || c == '\U{B}' || c == '\U{C}'
    || c == '\U{1C}' || c == '\U{1D}' || c == '\U{1E}'
    || c == '\U{85}' || c == '\U{2028}' || c == '\U{2029}'
  }

  /** The length of the first line with its line break; CR and LF together are one line break. */
  function LineLength(s: string): (n: nat)
    ensures n <= |s| && (s != "" ==> n > 0)
  {
    if s == "" then 0
    else if s[0] == '\r' && |s| > 1 && s[1] == '\n' then 2
    else if IsLineBreak(s[0]) then 1
    else 1 + LineLength(s[1..])
  }

  /** `str.splitlines(keepends=True)` */
  function SplitLines(s: string): (lines: seq<string>)
    ensures s != "" ==> lines != []
    decreases |s|
  {
    if s == "" then [] else [s[..LineLength(s)]] + SplitLines(s[LineLength(s)..])
  }

  function Concat(lines: seq<string>): string {
    if lines == [] then "" else lines[0] + Concat(lines[1..])
  }

  lemma {:induction false} ConcatAppend(a: seq<string>, b: seq<string>)
    ensures Concat(a + b) == Concat(a) + Concat(b)
  {
    if a == [] {
      assert a + b == b;
    } else {
      ConcatAppend(a[1..], b);
      assert (a + b)[1..] == a[1..] + b && (a + b)[0] == a[0];
      assert a[0] + (Concat(a[1..]) + Concat(b)) == a[0] + Concat(a[1..]) + Concat(b);
    }
  }

  lemma ConcatOne(s: string)
    ensures Concat([s]) == s
  {
    assert [s][1..] == [];
    assert s + "" == s;
  }

  lemma {:induction false} SplitConcat(s: string)
    ensures Concat(SplitLines(s)) == s
    decreases |s|
  {
    if s != "" {
      var n := LineLength(s);
      SplitConcat(s[n..]);
      assert SplitLines(s)[1..] == SplitLines(s[n..]);
      assert s == s[..n] + s[n..];
    }
  }

  predicate EndsLine(s: string) {
    s != "" && (s[|s| - 1] == '\n' || s[|s| - 1] == '\r')
  }

  /** The place between two texts would separate a CR from its LF. */
  predicate SeparatesCrLf(a: string, b: string) {
    a != "" && b != "" && a[|a| - 1] == '\r' && b[0] == '\n'
  }

  // ---------- Splitting a text that grows ----------

  lemma {:induction false} LineLengthExtends(s: string, t: string)
    ensures LineLength(s) < |s| ==> LineLength(s + t) == LineLength(s)
    ensures LineLength(s + t) >= LineLength(s)
    ensures EndsLine(s) && !SeparatesCrLf(s, t) && LineLength(s) == |s| ==> LineLength(s + t) == |s|
  {
    if s != "" {
      assert (s + t)[1..] == s[1..] + t;
      if !IsLineBreak(s[0]) {
        LineLengthExtends(s[1..], t);
      }
    } else {
      assert s + t == t;
    }
  }

  lemma SplitFirst(s: string)
    requires s != ""
    ensures 0 < LineLength(s) <= |s|
    ensures SplitLines(s) == [s[..LineLength(s)]] + SplitLines(s[LineLength(s)..])
  {
  }

  lemma SplitOne(s: string)
    requires s != "" && LineLength(s) == |s|
    ensures SplitLines(s) == [s]
  {
    assert s[..|s|] == s && s[|s|..] == "";
  }

  /** The last of the lines `[head] + more`, and those before it. */
  lemma FirstAndLast(head: string, more: seq<string>, others: seq<string>)
    requires more != []
    ensures var lines := [head] + more;
            && lines[|lines| - 1] == more[|more| - 1]
            && lines[..|lines| - 1] + others == [head] + (more[..|more| - 1] + others)
  {
  }

  lemma PrefixOfLonger(x: string, t: string, n: nat)
    requires n <= |x|
    ensures (x + t)[..n] == x[..n] && (x + t)[n..] == x[n..] + t
  {
  }

  /** All lines but the last are final when more text arrives. */
  lemma {:induction false} SplitGrowing(x: string, t: string)
    requires x != ""
    ensures var lines := SplitLines(x);
            var last := |lines| - 1;
            SplitLines(x + t) == lines[..last] + SplitLines(lines[last] + t)
    decreases |x|
  {
    var n := LineLength(x);
    var lines := SplitLines(x);
    SplitFirst(x);
    if n == |x| {
      SplitOne(x);
      hide SplitLines, LineLength;
      assert lines[..0] + SplitLines(x + t) == SplitLines(x + t);
    } else {
      LineLengthExtends(x, t);
      SplitFirst(x + t);
      assert SplitLines(x[n..]) != [];
      hide SplitLines, LineLength;
      SplitGrowing(x[n..], t);
      PrefixOfLonger(x, t, n);
      var more := SplitLines(x[n..]);
      FirstAndLast(x[..n], more, SplitLines(more[|more| - 1] + t));
    }
  }

  lemma {:induction false} LastLine(x: string)
    requires x != ""
    ensures var lines := SplitLines(x);
            var last := lines[|lines| - 1];
            last != "" && LineLength(last) == |last| && last[|last| - 1] == x[|x| - 1]
    decreases |x|
  {
    var n := LineLength(x);
    var lines := SplitLines(x);
    if n == |x| {
      assert x[..n] == x && lines == [x];
    } else {
      LastLine(x[n..]);
      assert lines[|lines| - 1] == SplitLines(x[n..])[|lines| - 2];
    }
  }

  /** A text that ends a line is split like the parts before and after that place. */
  lemma SplitAtLineEnd(x: string, t: string)
    requires EndsLine(x) && !SeparatesCrLf(x, t)
    ensures SplitLines(x + t) == SplitLines(x) + SplitLines(t)
  {
    hide SplitLines, LineLength;
    var lines := SplitLines(x);
    var last := lines[|lines| - 1];
    SplitGrowing(x, t);
    LastLine(x);
    LineLengthExtends(last, t);
    SplitFirst(last + t);
    PrefixOfLonger(last, t, |last|);
    BackInPlace(lines, SplitLines(t));
  }

  lemma BackInPlace(lines: seq<string>, others: seq<string>)
    requires lines != []
    ensures var k := |lines| - 1; lines[..k] + ([lines[k]] + others) == lines + others
  {
  }

  // ---------- The buffer as a value ----------

  /** Every line appended so far, and the unfinished rest. */
  datatype Tail = Tail(appended: seq<string>, partial: string)

  function FlushLong(t: Tail): (r: Tail)
    ensures |r.partial| <= PARTIAL_LIMIT
    decreases |t.partial|
  {
    if |t.partial| > PARTIAL_LIMIT then
      FlushLong(Tail(t.appended + [t.partial[..PARTIAL_LIMIT]], t.partial[PARTIAL_LIMIT..]))
    else t
  }

  function FeedTail(t: Tail, text: string): Tail {
    if text == "" then t
    else
      var parts := SplitLines(t.partial + text);
      if EndsLine(t.partial + text) then Tail(t.appended + parts, "")
      else FlushLong(Tail(t.appended + parts[..|parts| - 1], parts[|parts| - 1]))
  }

  function CloseTail(t: Tail): Tail {
    if t.partial == "" then t else Tail(t.appended + [t.partial], "")
  }

  function FeedAll(t: Tail, chunks: seq<string>): Tail
    decreases |chunks|
  {
    if chunks == [] then t else FeedAll(FeedTail(t, chunks[0]), chunks[1..])
  }

  const EMPTY_TAIL := Tail([], "")

  function Whole(t: Tail): string {
    Concat(t.appended) + t.partial
  }

  // ---------- Nothing is lost ----------

  lemma {:induction false} FlushKeepsText(t: Tail)
    ensures Whole(FlushLong(t)) == Whole(t) && t.appended <= FlushLong(t).appended
    decreases |t.partial|
  {
    if |t.partial| > PARTIAL_LIMIT {
      var head, rest := t.partial[..PARTIAL_LIMIT], t.partial[PARTIAL_LIMIT..];
      var u := Tail(t.appended + [head], rest);
      FlushKeepsText(u);
      ConcatAppend(t.appended, [head]);
      ConcatOne(head);
      assert t.partial == head + rest;
      assert Concat(t.appended) + head + rest == Concat(t.appended) + (head + rest);
    }
  }

  lemma FeedKeepsText(t: Tail, text: string)
    ensures Whole(FeedTail(t, text)) == Whole(t) + text
    ensures t.appended <= FeedTail(t, text).appended
    ensures |t.partial| <= PARTIAL_LIMIT ==> |FeedTail(t, text).partial| <= PARTIAL_LIMIT
  {
    if text == "" {
      assert Whole(t) + text == Whole(t);
    } else {
      var combined := t.partial + text;
      var parts := SplitLines(combined);
      SplitConcat(combined);
      assert Concat(t.appended) + combined == Whole(t) + text;
      JoinParts(t.appended, parts);
      hide Concat, SplitLines;
      if !EndsLine(combined) {
        var last := |parts| - 1;
        FlushKeepsText(Tail(t.appended + parts[..last], parts[last]));
      }
    }
  }

  lemma JoinParts(a: seq<string>, parts: seq<string>)
    ensures Concat(a + parts) == Concat(a) + Concat(parts)
    ensures parts != [] ==> Concat(a + parts[..|parts| - 1]) + parts[|parts| - 1] == Concat(a) + Concat(parts)
  {
    ConcatAppend(a, parts);
    if parts != [] {
      var head, last := parts[..|parts| - 1], parts[|parts| - 1];
      ConcatAppend(a, head);
      ConcatAppend(head, [last]);
      ConcatOne(last);
      assert parts == head + [last];
      SameText(Concat(a), Concat(head), last);
    }
  }

  lemma SameText(a: string, b: string, c: string)
    ensures a + b + c == a + (b + c)
  {
  }

  /** Whatever the chunks, the appended lines and the rest are together all the text fed. */
  lemma {:induction false} NothingIsLost(t: Tail, chunks: seq<string>)
    requires |t.partial| <= PARTIAL_LIMIT
    ensures Whole(FeedAll(t, chunks)) == Whole(t) + Concat(chunks)
    ensures t.appended <= FeedAll(t, chunks).appended && |FeedAll(t, chunks).partial| <= PARTIAL_LIMIT
    decreases |chunks|
  {
    if chunks == [] {
      assert Whole(t) + "" == Whole(t);
    } else {
      FeedKeepsText(t, chunks[0]);
      NothingIsLost(FeedTail(t, chunks[0]), chunks[1..]);
      assert Whole(t) + chunks[0] + Concat(chunks[1..]) == Whole(t) + (chunks[0] + Concat(chunks[1..]));
    }
  }

  // ---------- Whole lines ----------

  /** The last line of the text if no LF or CR ends it. */
  function Unfinished(text: string): string {
    if text == "" || EndsLine(text) then "" else SplitLines(text)[|SplitLines(text)| - 1]
  }

  /** The lines that no further text can change, if no CR is separated from its LF. */
  function Finished(text: string): seq<string> {
    if Unfinished(text) == "" then SplitLines(text) else SplitLines(text)[..|SplitLines(text)| - 1]
  }

  /** No chunk boundary separates a CR from its LF or leaves an unfinished line over the limit. */
  predicate ChunksKeepLines(fed: string, chunks: seq<string>)
    decreases |chunks|
  {
    chunks == [] ||
    (&& !SeparatesCrLf(fed, chunks[0])
     && (chunks[0] != "" ==> |Unfinished(fed + chunks[0])| <= PARTIAL_LIMIT)
     && ChunksKeepLines(fed + chunks[0], chunks[1..]))
  }

  /** The buffer holds the lines of the text fed so far. */
  predicate InStep(t: Tail, fed: string) {
    t.appended == Finished(fed) && t.partial == Unfinished(fed)
  }

  lemma UnfinishedIsLast(text: string)
    ensures text != "" && !EndsLine(text) ==> Unfinished(text) != ""
    ensures Unfinished(text) != "" ==>
              Finished(text) + [Unfinished(text)] == SplitLines(text) && !EndsLine(Unfinished(text))
  {
    if text != "" {
      LastLine(text);
      var lines := SplitLines(text);
      assert lines == lines[..|lines| - 1] + [lines[|lines| - 1]];
    }
  }

  /** What the buffer splits is the rest of the text after its finished lines. */
  lemma SplitFromRest(fed: string, text: string)
    requires !SeparatesCrLf(fed, text)
    ensures SplitLines(fed + text) == Finished(fed) + SplitLines(Unfinished(fed) + text)
  {
    UnfinishedIsLast(fed);
    if fed == "" {
      assert fed + text == text;
    } else if EndsLine(fed) {
      SplitAtLineEnd(fed, text);
      assert "" + text == text;
    } else {
      SplitGrowing(fed, text);
    }
  }

  lemma RestEnds(fed: string, text: string)
    requires text != ""
    ensures EndsLine(Unfinished(fed) + text) <==> EndsLine(fed + text)
  {
    assert (Unfinished(fed) + text)[|Unfinished(fed) + text| - 1] == text[|text| - 1];
    assert (fed + text)[|fed + text| - 1] == text[|text| - 1];
  }

  /** One feed: what is appended and kept before the long rest is cut. */
  lemma FeedBeforeFlush(t: Tail, fed: string, text: string)
    requires InStep(t, fed) && text != "" && !SeparatesCrLf(fed, text)
    ensures FeedTail(t, text) == FlushLong(Tail(Finished(fed + text), Unfinished(fed + text)))
  {
    SplitFromRest(fed, text);
    RestEnds(fed, text);
    var parts := SplitLines(t.partial + text);
    var lines := SplitLines(fed + text);
    assert lines == t.appended + parts;
    if !EndsLine(fed + text) {
      UnfinishedIsLast(fed + text);
      assert lines[..|lines| - 1] == t.appended + parts[..|parts| - 1];
      assert lines[|lines| - 1] == parts[|parts| - 1];
    }
  }

  lemma FeedKeepsStep(t: Tail, fed: string, text: string)
    requires InStep(t, fed) && !SeparatesCrLf(fed, text)
    requires text != "" ==> |Unfinished(fed + text)| <= PARTIAL_LIMIT
    ensures InStep(FeedTail(t, text), fed + text)
  {
    if text == "" {
      assert fed + text == fed;
    } else {
      FeedBeforeFlush(t, fed, text);
    }
  }

  lemma CloseInStep(t: Tail, fed: string)
    requires InStep(t, fed)
    ensures CloseTail(t).appended == SplitLines(fed)
  {
    UnfinishedIsLast(fed);
  }

  // ---------- Boundaries ----------

  /** `SplitLines` puts a line boundary after the first `n` characters. */
  predicate Boundary(text: string, n: nat)
    decreases |text|
  {
    n == 0 || (text != "" && LineLength(text) <= n && Boundary(text[LineLength(text)..], n - LineLength(text)))
  }

  lemma {:induction false} PrefixIsBoundary(text: string, lines: seq<string>)
    requires lines <= SplitLines(text)
    ensures Boundary(text, |Concat(lines)|)
    decreases |text|
  {
    if lines != [] {
      var n := LineLength(text);
      assert lines[0] == SplitLines(text)[0] == text[..n];
      assert SplitLines(text)[1..] == SplitLines(text[n..]);
      assert lines[1..] <= SplitLines(text)[1..];
      PrefixIsBoundary(text[n..], lines[1..]);
    }
  }

  lemma {:induction false} NoBoundaryInCrLf(text: string, n: nat)
    requires 0 < n < |text| && text[n - 1] == '\r' && text[n] == '\n'
    ensures !Boundary(text, n)
    decreases |text|
  {
    var k := LineLength(text);
    if k <= n {
      LineLengthSkipsLf(text, n);
      assert text[k..][n - k] == text[n];
      assert text[k..][n - k - 1] == text[n - 1];
      NoBoundaryInCrLf(text[k..], n - k);
    }
  }

  lemma {:induction false} LineLengthSkipsLf(text: string, n: nat)
    requires 0 < n < |text| && text[n - 1] == '\r' && text[n] == '\n'
    ensures LineLength(text) != n
  {
    if !IsLineBreak(text[0]) {
      LineLengthSkipsLf(text[1..], n - 1);
    }
  }

  /** No boundary lies inside the last line of a text, however the text goes on. */
  lemma {:induction false} NoBoundaryInLast(x: string, t: string, n: nat)
    requires x != ""
    requires var lines := SplitLines(x); |Concat(lines[..|lines| - 1])| < n < |x|
    ensures !Boundary(x + t, n)
    decreases |x|
  {
    hide *;
    var k := LineLength(x);
    LineLengthExtends(x, t);
    BoundaryStep(x + t, n);
    SplitFirst(x);
    TailOfSum(x, t, k);
    if k < |x| {
      LengthWithoutLast(x[..k], SplitLines(x[k..]));
      NoBoundaryInLast(x[k..], t, n - k);
    }
  }

  lemma TailOfSum(x: string, t: string, k: nat)
    requires k <= |x|
    ensures (x + t)[k..] == x[k..] + t
  {
  }

  lemma BoundaryStep(text: string, n: nat)
    ensures var k := LineLength(text);
            Boundary(text, n) <==> n == 0 || (text != "" && k <= n && Boundary(text[k..], n - k))
  {
  }

  lemma LengthWithoutLast(line: string, more: seq<string>)
    requires more != []
    ensures var lines := [line] + more;
            |Concat(lines[..|lines| - 1])| == |line| + |Concat(more[..|more| - 1])|
  {
    var lines := [line] + more;
    assert lines[..|lines| - 1] == [line] + more[..|more| - 1];
    assert lines[..|lines| - 1][1..] == more[..|more| - 1];
  }

  // ---------- The exact condition ----------

  lemma FlushAppendsHead(t: Tail)
    requires |t.partial| > PARTIAL_LIMIT
    ensures t.appended + [t.partial[..PARTIAL_LIMIT]] <= FlushLong(t).appended
  {
    FlushKeepsText(Tail(t.appended + [t.partial[..PARTIAL_LIMIT]], t.partial[PARTIAL_LIMIT..]));
  }

  lemma WholeOfStep(t: Tail, fed: string)
    requires InStep(t, fed)
    ensures Whole(t) == fed
  {
    SplitConcat(fed);
    UnfinishedIsLast(fed);
    if t.partial != "" {
      ConcatAppend(t.appended, [t.partial]);
      ConcatOne(t.partial);
    } else {
      assert Concat(t.appended) + "" == Concat(t.appended);
    }
  }

  /** A chunk that separates a CR from its LF leaves lines that `SplitLines` does not have. */
  lemma SeparationMisses(t: Tail, fed: string, chunks: seq<string>)
    requires InStep(t, fed) && chunks != [] && SeparatesCrLf(fed, chunks[0]) && |t.partial| <= PARTIAL_LIMIT
    ensures !(t.appended <= SplitLines(fed + Concat(chunks)))
  {
    var text := fed + Concat(chunks);
    WholeOfStep(t, fed);
    assert t.partial == "" && Concat(t.appended) == fed;
    assert text[|fed| - 1] == fed[|fed| - 1] && text[|fed|] == chunks[0][0];
    NoBoundaryInCrLf(text, |fed|);
    if t.appended <= SplitLines(text) {
      PrefixIsBoundary(text, t.appended);
    }
  }

  /** A rest that is cut leaves lines that `SplitLines` does not have. */
  lemma FlushMisses(t: Tail, fed: string, chunk: string, others: string)
    requires InStep(t, fed) && chunk != "" && !SeparatesCrLf(fed, chunk)
    requires |Unfinished(fed + chunk)| > PARTIAL_LIMIT
    ensures !(FeedTail(t, chunk).appended <= SplitLines(fed + chunk + others))
  {
    var now := fed + chunk;
    var u := Tail(Finished(now), Unfinished(now));
    FeedBeforeFlush(t, fed, chunk);
    FlushAppendsHead(u);
    UnfinishedIsLast(now);
    WholeOfStep(u, now);
    var head := u.partial[..PARTIAL_LIMIT];
    var lines := u.appended + [head];
    ConcatAppend(u.appended, [head]);
    ConcatOne(head);
    NoBoundaryInLast(now, others, |Concat(lines)|);
    if FeedTail(t, chunk).appended <= SplitLines(now + others) {
      assert lines <= SplitLines(now + others);
      PrefixIsBoundary(now + others, lines);
    }
  }

  lemma GrowsToEnd(t: Tail, chunks: seq<string>)
    requires |t.partial| <= PARTIAL_LIMIT
    ensures t.appended <= CloseTail(FeedAll(t, chunks)).appended
  {
    NothingIsLost(t, chunks);
  }

  /**
   After all chunks and the final close the appended lines are the lines of the whole text if and
   only if no chunk separates a CR from its LF and none leaves an unfinished line over the limit.
   */
  lemma {:induction false} LinesOfWholeTextIff(t: Tail, fed: string, chunks: seq<string>)
    requires InStep(t, fed) && |t.partial| <= PARTIAL_LIMIT
    ensures CloseTail(FeedAll(t, chunks)).appended == SplitLines(fed + Concat(chunks)) <==>
            ChunksKeepLines(fed, chunks)
    decreases |chunks|
  {
    if chunks == [] {
      assert fed + Concat(chunks) == fed;
      CloseInStep(t, fed);
    } else {
      var chunk := chunks[0];
      var next := FeedTail(t, chunk);
      FeedKeepsText(t, chunk);
      assert fed + chunk + Concat(chunks[1..]) == fed + Concat(chunks);
      if SeparatesCrLf(fed, chunk) {
        SeparationMisses(t, fed, chunks);
        GrowsToEnd(t, chunks);
      } else if chunk != "" && |Unfinished(fed + chunk)| > PARTIAL_LIMIT {
        FlushMisses(t, fed, chunk, Concat(chunks[1..]));
        GrowsToEnd(next, chunks[1..]);
      } else {
        FeedKeepsStep(t, fed, chunk);
        LinesOfWholeTextIff(next, fed + chunk, chunks[1..]);
      }
    }
  }

  // ---------- Short lines ----------

  predicate ShortLines(text: string) {
    forall line :: line in SplitLines(text) ==> |line| <= PARTIAL_LIMIT
  }

  predicate ChunksKeepCrLf(fed: string, chunks: seq<string>)
    decreases |chunks|
  {
    chunks == [] || (!SeparatesCrLf(fed, chunks[0]) && ChunksKeepCrLf(fed + chunks[0], chunks[1..]))
  }

  /** An unfinished line is the start of a line of the longer text. */
  lemma UnfinishedIsShort(fed: string, others: string)
    requires ShortLines(fed + others)
    ensures |Unfinished(fed)| <= PARTIAL_LIMIT
  {
    UnfinishedIsLast(fed);
    if Unfinished(fed) != "" {
      var p := Unfinished(fed);
      SplitGrowing(fed, others);
      LastLine(fed);
      LineLengthExtends(p, others);
      var line := (p + others)[..LineLength(p + others)];
      assert line == SplitLines(p + others)[0];
      assert line in SplitLines(fed + others);
    }
  }

  lemma {:induction false} ShortLinesSuffice(fed: string, chunks: seq<string>)
    requires ShortLines(fed + Concat(chunks)) && ChunksKeepCrLf(fed, chunks)
    ensures ChunksKeepLines(fed, chunks)
    decreases |chunks|
  {
    if chunks != [] {
      assert fed + chunks[0] + Concat(chunks[1..]) == fed + Concat(chunks);
      UnfinishedIsShort(fed + chunks[0], Concat(chunks[1..]));
      ShortLinesSuffice(fed + chunks[0], chunks[1..]);
    }
  }

  /** Lines within the limit, in chunks that keep CR and LF together: exactly the text's lines. */
  lemma LinesOfWholeText(chunks: seq<string>)
    requires ShortLines(Concat(chunks)) && ChunksKeepCrLf("", chunks)
    ensures CloseTail(FeedAll(EMPTY_TAIL, chunks)).appended == SplitLines(Concat(chunks))
  {
    assert "" + Concat(chunks) == Concat(chunks);
    ShortLinesSuffice("", chunks);
    LinesOfWholeTextIff(EMPTY_TAIL, "", chunks);
  }

  // ---------- The kept tail ----------

  function LastOf(lines: seq<string>, n: nat): seq<string> {
    if |lines| <= n then lines else lines[|lines| - n..]
  }

  /** The offset at which the last `n` lines of a text start. */
  function LastStart(text: string, n: nat): nat {
    var lines := SplitLines(text);
    |Concat(if |lines| <= n then [] else lines[..|lines| - n])|
  }

  /** As `ChunksKeepLines`, but only for chunks that end after the given offset. */
  predicate ChunksKeepLinesFrom(fed: string, chunks: seq<string>, offset: nat)
    decreases |chunks|
  {
    chunks == [] ||
    (&& (|fed| > offset ==> !SeparatesCrLf(fed, chunks[0]))
     && (chunks[0] != "" && |fed + chunks[0]| > offset ==> |Unfinished(fed + chunks[0])| <= PARTIAL_LIMIT)
     && ChunksKeepLinesFrom(fed + chunks[0], chunks[1..], offset))
  }

  function Flatten(groups: seq<seq<string>>): seq<string> {
    if groups == [] then [] else groups[0] + Flatten(groups[1..])
  }

  lemma {:induction false} FlattenAppend(a: seq<seq<string>>, b: seq<seq<string>>)
    ensures Flatten(a + b) == Flatten(a) + Flatten(b)
  {
    if a == [] {
      assert a + b == b;
    } else {
      FlattenAppend(a[1..], b);
      assert (a + b)[1..] == a[1..] + b && (a + b)[0] == a[0];
      assert a[0] + (Flatten(a[1..]) + Flatten(b)) == a[0] + Flatten(a[1..]) + Flatten(b);
    }
  }

  lemma FlattenOne(group: seq<string>)
    ensures Flatten([group]) == group
  {
    assert [group][1..] == [];
    assert group + [] == group;
  }

  function Singles(lines: seq<string>): (groups: seq<seq<string>>)
    ensures |groups| == |lines| && forall i :: 0 <= i < |lines| ==> groups[i] == [lines[i]]
  {
    if lines == [] then [] else [[lines[0]]] + Singles(lines[1..])
  }

  lemma {:induction false} FlattenSingles(lines: seq<string>)
    ensures Flatten(Singles(lines)) == lines
  {
    if lines != [] { FlattenSingles(lines[1..]); }
  }

  /** The pieces that one line was appended in. */
  ghost predicate PiecesOf(group: seq<string>, line: string) {
    group != [] && Concat(group) == line && forall i :: 0 <= i < |group| ==> group[i] != ""
  }

  /** Each line of the text with its pieces. */
  ghost predicate Refines(groups: seq<seq<string>>, lines: seq<string>) {
    |groups| == |lines| && forall i :: 0 <= i < |lines| ==> PiecesOf(groups[i], lines[i])
  }

  /** What the buffer would have appended if closed now is the text's lines in pieces. */
  ghost predicate Grouped(t: Tail, fed: string, groups: seq<seq<string>>) {
    && Refines(groups, SplitLines(fed)) && Flatten(groups) == CloseTail(t).appended
    && (t.partial != "" <==> Unfinished(fed) != "")
  }

  /** No line from number `j` on came in more than one piece. */
  ghost predicate WholeFrom(groups: seq<seq<string>>, j: nat) {
    forall i :: j <= i < |groups| ==> |groups[i]| == 1
  }

  lemma {:induction false} SplitNonEmpty(s: string)
    ensures forall i :: 0 <= i < |SplitLines(s)| ==> SplitLines(s)[i] != ""
    decreases |s|
  {
    if s != "" { SplitNonEmpty(s[LineLength(s)..]); }
  }

  lemma SinglesRefine(lines: seq<string>)
    requires forall i :: 0 <= i < |lines| ==> lines[i] != ""
    ensures Refines(Singles(lines), lines)
  {
    forall i | 0 <= i < |lines| ensures PiecesOf(Singles(lines)[i], lines[i]) {
      ConcatOne(lines[i]);
    }
  }

  lemma RefinesAppend(a: seq<seq<string>>, x: seq<string>, b: seq<seq<string>>, y: seq<string>)
    requires Refines(a, x) && Refines(b, y)
    ensures Refines(a + b, x + y)
  {
    hide PiecesOf;
  }

  lemma PieceAdded(group: seq<string>, line: string, piece: string)
    requires PiecesOf(group, line) && piece != ""
    ensures PiecesOf(group + [piece], line + piece)
  {
    ConcatAppend(group, [piece]);
    ConcatOne(piece);
  }

  /** A group's last piece, and the text before it. */
  lemma LastPiece(group: seq<string>, line: string) returns (front: seq<string>, piece: string)
    requires PiecesOf(group, line)
    ensures group == front + [piece] && line == Concat(front) + piece && piece != ""
    ensures front == [] || PiecesOf(front, Concat(front))
    ensures |group| == 1 ==> front == [] && piece == line
    ensures |group| > 1 ==> |piece| < |line|
  {
    var n := |group| - 1;
    front, piece := group[..n], group[n];
    assert group == front + [piece];
    ConcatAppend(front, [piece]);
    ConcatOne(piece);
    if front != [] { assert Concat(front) != "" by { assert Concat(front) == front[0] + Concat(front[1..]); } }
  }

  /** The last group with other text put in the place of its last piece. */
  lemma PiecesReplaced(front: seq<string>, group: seq<string>, text: string)
    requires front == [] || PiecesOf(front, Concat(front))
    requires PiecesOf(group, text)
    ensures PiecesOf(front + group, Concat(front) + text)
  {
    ConcatAppend(front, group);
    assert front == [] ==> Concat(front) + text == text;
  }

  // ---------- One chunk ----------

  /** The pieces that a rest is cut into. */
  lemma {:induction false} FlushPieces(t: Tail) returns (pieces: seq<string>)
    requires t.partial != ""
    ensures CloseTail(FlushLong(t)).appended == t.appended + pieces
    ensures FlushLong(t).partial != "" && PiecesOf(pieces, t.partial)
    ensures |pieces| == 1 <==> |t.partial| <= PARTIAL_LIMIT
    decreases |t.partial|
  {
    if |t.partial| > PARTIAL_LIMIT {
      var head, rest := t.partial[..PARTIAL_LIMIT], t.partial[PARTIAL_LIMIT..];
      var more := FlushPieces(Tail(t.appended + [head], rest));
      pieces := [head] + more;
      assert pieces[1..] == more;
      assert t.partial == head + rest;
      assert t.appended + [head] + more == t.appended + pieces;
    } else {
      pieces := [t.partial];
      ConcatOne(t.partial);
    }
  }

  /** What is claimed of a feed before the long rest is cut. */
  ghost predicate Fed(groups: seq<seq<string>>, after: seq<seq<string>>, separated: bool) {
    && |groups| <= |after|
    && (forall i :: 0 <= i < |groups| - 1 ==> after[i] == groups[i])
    && (groups != [] ==>
          var i := |groups| - 1;
          |after[i]| == if separated then |groups[i]| + 1 else |groups[i]|)
    && forall i :: |groups| <= i < |after| ==> |after[i]| == 1
  }

  lemma FedAfterLine(t: Tail, fed: string, groups: seq<seq<string>>, chunk: string)
    returns (after: seq<seq<string>>)
    requires Grouped(t, fed, groups) && chunk != "" && !SeparatesCrLf(fed, chunk) && Unfinished(fed) == ""
    ensures Refines(after, SplitLines(fed + chunk)) && Fed(groups, after, false)
    ensures Flatten(after) == t.appended + SplitLines(t.partial + chunk)
  {
    var parts := SplitLines(chunk);
    UnfinishedIsLast(fed);
    SplitFromRest(fed, chunk);
    assert t.partial + chunk == chunk && "" + chunk == chunk;
    after := groups + Singles(parts);
    SplitNonEmpty(chunk);
    SinglesRefine(parts);
    RefinesAppend(groups, SplitLines(fed), Singles(parts), parts);
    FlattenAppend(groups, Singles(parts));
    FlattenSingles(parts);
  }

  lemma {:induction false} LfJoins(last: string, chunk: string)
    requires last != "" && LineLength(last) == |last| && SeparatesCrLf(last, chunk)
    ensures LineLength(last + chunk) == |last| + 1
  {
    assert (last + chunk)[0] == last[0];
    if |last| == 1 {
      assert (last + chunk)[1] == chunk[0];
    } else {
      assert (last + chunk)[1..] == last[1..] + chunk && last[1..][|last| - 2] == last[|last| - 1];
      LfJoins(last[1..], chunk);
    }
  }

  /** The text side of a separated CR LF: the LF ends the last line, the rest is split on its own. */
  lemma CrLfText(fed: string, chunk: string) returns (others: seq<string>)
    requires SeparatesCrLf(fed, chunk)
    ensures var lines := SplitLines(fed);
            var k := |lines| - 1;
            && SplitLines(fed + chunk) == lines[..k] + ([lines[k] + "\n"] + others)
            && SplitLines(chunk) == ["\n"] + others && forall i :: 0 <= i < |others| ==> others[i] != ""
  {
    var lines, rest := SplitLines(fed), chunk[1..];
    var last := lines[|lines| - 1];
    others := SplitLines(rest);
    assert LineLength(chunk) == 1;
    hide SplitLines, LineLength;
    LastLine(fed);
    SplitGrowing(fed, chunk);
    LfJoins(last, chunk);
    SplitFirst(last + chunk);
    SplitFirst(chunk);
    LfBehind(last, chunk);
    SplitNonEmpty(rest);
  }

  lemma LfBehind(last: string, chunk: string)
    requires chunk != "" && chunk[0] == '\n'
    ensures (last + chunk)[..|last| + 1] == last + "\n" && (last + chunk)[|last| + 1..] == chunk[1..]
    ensures chunk[..1] == "\n"
  {
  }

  lemma FedInCrLf(t: Tail, fed: string, groups: seq<seq<string>>, chunk: string)
    returns (after: seq<seq<string>>)
    requires Grouped(t, fed, groups) && SeparatesCrLf(fed, chunk)
    ensures Refines(after, SplitLines(fed + chunk)) && Fed(groups, after, true)
    ensures Flatten(after) == t.appended + SplitLines(t.partial + chunk)
  {
    var others := CrLfText(fed, chunk);
    var k := |groups| - 1;
    var lines := SplitLines(fed);
    assert t.partial + chunk == chunk && t.appended == Flatten(groups);
    hide SplitLines, LineLength, Concat, Flatten, Singles, Grouped, EndsLine, Unfinished;
    PieceAdded(groups[k], lines[k], "\n");
    after := ReplaceLast(groups, lines, groups[k] + ["\n"], lines[k] + "\n", others, true);
    LastGroupFlattens(groups, []);
    Regrouped(Flatten(groups[..k]), groups[k], ["\n"], others);
  }

  lemma Regrouped(a: seq<string>, b: seq<string>, c: seq<string>, d: seq<string>)
    ensures a + (b + c + d) == (a + b) + (c + d)
  {
  }

  /** The last line's group replaced, and a group of one for each line after it. */
  lemma ReplaceLast(groups: seq<seq<string>>, lines: seq<string>, group: seq<string>, first: string,
                    others: seq<string>, longer: bool) returns (after: seq<seq<string>>)
    requires groups != [] && Refines(groups, lines) && PiecesOf(group, first)
    requires forall i :: 0 <= i < |others| ==> others[i] != ""
    requires var n := |groups[|groups| - 1]|; |group| == if longer then n + 1 else n
    ensures Refines(after, lines[..|groups| - 1] + ([first] + others)) && Fed(groups, after, longer)
    ensures Flatten(after) == Flatten(groups[..|groups| - 1]) + (group + others)
  {
    hide Flatten, PiecesOf, Singles;
    var k := |groups| - 1;
    SinglesRefine(others);
    FlattenSingles(others);
    FlattenAppend([group], Singles(others));
    FlattenOne(group);
    after := groups[..k] + ([group] + Singles(others));
    RefinesAppend([group], [first], Singles(others), others);
    RefinesAppend(groups[..k], lines[..k], [group] + Singles(others), [first] + others);
    LastGroupFlattens(groups, [group] + Singles(others));
  }

  lemma LastGroupFlattens(groups: seq<seq<string>>, others: seq<seq<string>>)
    requires groups != []
    ensures var k := |groups| - 1;
            && Flatten(groups) == Flatten(groups[..k]) + groups[k]
            && Flatten(groups[..k] + others) == Flatten(groups[..k]) + Flatten(others)
  {
    var k := |groups| - 1;
    assert groups == groups[..k] + [groups[k]];
    FlattenAppend(groups[..k], [groups[k]]);
    FlattenOne(groups[k]);
    FlattenAppend(groups[..k], others);
  }

  lemma {:induction false} LineLengthBehind(front: string, piece: string, chunk: string)
    requires piece != "" && LineLength(front + piece) == |front + piece| && !EndsLine(front + piece)
    ensures LineLength(front + (piece + chunk)) == |front| + LineLength(piece + chunk)
  {
    if front == "" {
      assert front + (piece + chunk) == piece + chunk;
    } else {
      Behind(front, piece);
      Behind(front, piece + chunk);
      OneMore(front + piece);
      hide EndsLine, LineLength;
      LineLengthBehind(front[1..], piece, chunk);
      LongerBehind(front, piece, chunk);
    }
  }

  lemma Behind(front: string, others: string)
    requires front != ""
    ensures (front + others)[0] == front[0] && (front + others)[1..] == front[1..] + others
  {
  }

  /** A whole line of several characters without its first. */
  lemma OneMore(s: string)
    requires LineLength(s) == |s| > 1 && !EndsLine(s)
    ensures LineLength(s[1..]) == |s| - 1 && !EndsLine(s[1..]) && !IsLineBreak(s[0])
  {
    assert s[|s| - 1] == s[1..][|s| - 2];
  }

  lemma LongerBehind(front: string, piece: string, chunk: string)
    requires front != "" && !IsLineBreak(front[0])
    ensures LineLength(front + (piece + chunk)) == 1 + LineLength(front[1..] + (piece + chunk))
  {
    Behind(front, piece + chunk);
  }

  lemma LastIsUnfinished(fed: string)
    requires Unfinished(fed) != ""
    ensures var lines := SplitLines(fed);
            fed != "" && lines != [] && lines[|lines| - 1] == Unfinished(fed)
    ensures LineLength(Unfinished(fed)) == |Unfinished(fed)| && !EndsLine(Unfinished(fed))
  {
    UnfinishedIsLast(fed);
    LastLine(fed);
  }

  /** Text cut off the front of a line stays in front of its first part. */
  lemma SplitBehind(front: string, piece: string, chunk: string)
    requires piece != "" && LineLength(front + piece) == |front + piece| && !EndsLine(front + piece)
    ensures var parts := SplitLines(piece + chunk);
            SplitLines(front + piece + chunk) == [front + parts[0]] + parts[1..]
  {
    hide SplitLines, LineLength, EndsLine;
    LineLengthBehind(front, piece, chunk);
    assert front + piece + chunk == front + (piece + chunk);
    FirstLineBehind(front, piece + chunk);
  }

  /** The text side inside a line: what the buffer splits is the line without the pieces cut before. */
  lemma InLineText(fed: string, chunk: string, front: string, piece: string)
    requires Unfinished(fed) != "" && piece != "" && chunk != "" && front + piece == Unfinished(fed)
    ensures var lines, parts := SplitLines(fed), SplitLines(piece + chunk);
            var k := |lines| - 1;
            && lines != [] && lines[k] == front + piece && parts != []
            && SplitLines(fed + chunk) == lines[..k] + ([front + parts[0]] + parts[1..])
            && forall i :: 0 <= i < |parts| ==> parts[i] != ""
  {
    hide *;
    LastIsUnfinished(fed);
    SplitGrowing(fed, chunk);
    SplitBehind(front, piece, chunk);
    SplitNonEmpty(piece + chunk);
  }

  lemma FedInLine(t: Tail, fed: string, groups: seq<seq<string>>, chunk: string)
    returns (after: seq<seq<string>>)
    requires Grouped(t, fed, groups) && chunk != "" && Unfinished(fed) != ""
    ensures Refines(after, SplitLines(fed + chunk)) && Fed(groups, after, false)
    ensures Flatten(after) == t.appended + SplitLines(t.partial + chunk)
  {
    hide *;
    var k := |groups| - 1;
    var lines, parts := SplitLines(fed), SplitLines(t.partial + chunk);
    GroupedParts(t, fed, groups);
    LastIsUnfinished(fed);
    var front := LastIsPartial(t, groups, lines[k]);
    InLineText(fed, chunk, Concat(front), t.partial);
    FrontAgain(front, parts[0]);
    after := ReplaceLast(groups, lines, front + [parts[0]], Concat(front) + parts[0], parts[1..], false);
    Regrouped(Flatten(groups[..k]), front, [parts[0]], parts[1..]);
    assert parts == [parts[0]] + parts[1..];
  }

  lemma FrontAgain(front: seq<string>, text: string)
    requires (front == [] || PiecesOf(front, Concat(front))) && text != ""
    ensures PiecesOf(front + [text], Concat(front) + text)
  {
    ConcatOne(text);
    PiecesReplaced(front, [text], text);
  }

  /** The rest in the buffer is the last piece of the last line. */
  lemma LastIsPartial(t: Tail, groups: seq<seq<string>>, line: string) returns (front: seq<string>)
    requires groups != [] && PiecesOf(groups[|groups| - 1], line)
    requires t.partial != "" && Flatten(groups) == CloseTail(t).appended
    ensures groups[|groups| - 1] == front + [t.partial] && line == Concat(front) + t.partial
    ensures front == [] || PiecesOf(front, Concat(front))
    ensures |front| == 0 ==> line == t.partial
    ensures |front| > 0 ==> |t.partial| < |line|
    ensures t.appended == Flatten(groups[..|groups| - 1]) + front
  {
    hide Flatten, Concat, PiecesOf;
    var k := |groups| - 1;
    var piece;
    front, piece := LastPiece(groups[k], line);
    LastGroupFlattens(groups, []);
    assert Flatten(groups)[|Flatten(groups)| - 1] == piece;
    AppendedBefore(t, Flatten(groups[..k]), front, groups);
  }

  lemma AppendedBefore(t: Tail, before: seq<string>, front: seq<string>, groups: seq<seq<string>>)
    requires t.partial != "" && Flatten(groups) == CloseTail(t).appended
    requires Flatten(groups) == before + (front + [t.partial])
    ensures t.appended == before + front
  {
    hide Flatten;
    assert t.appended + [t.partial] == before + front + [t.partial];
    assert (t.appended + [t.partial])[..|t.appended|] == t.appended;
    assert (before + front + [t.partial])[..|before + front|] == before + front;
  }

  lemma SlicesBehind(front: string, text: string, n: nat)
    requires n <= |text|
    ensures (front + text)[..|front| + n] == front + text[..n]
    ensures (front + text)[|front| + n..] == text[n..]
  {
  }

  lemma FirstLineBehind(front: string, text: string)
    requires text != "" && LineLength(front + text) == |front| + LineLength(text)
    ensures SplitLines(front + text) == [front + SplitLines(text)[0]] + SplitLines(text)[1..]
  {
    hide SplitLines, LineLength;
    var n := LineLength(text);
    var s := front + text;
    SplitFirst(s);
    SplitFirst(text);
    SlicesBehind(front, text, n);
  }

  lemma FedBeforeCut(t: Tail, fed: string, groups: seq<seq<string>>, chunk: string)
    returns (after: seq<seq<string>>)
    requires Grouped(t, fed, groups) && chunk != ""
    ensures Refines(after, SplitLines(fed + chunk)) && Fed(groups, after, SeparatesCrLf(fed, chunk))
    ensures Flatten(after) == t.appended + SplitLines(t.partial + chunk)
  {
    if SeparatesCrLf(fed, chunk) {
      after := FedInCrLf(t, fed, groups, chunk);
    } else if Unfinished(fed) == "" {
      after := FedAfterLine(t, fed, groups, chunk);
    } else {
      after := FedInLine(t, fed, groups, chunk);
    }
  }

  /** Cutting a long rest puts pieces in the place of the last one. */
  lemma CutPartial(u: Tail, line: string, groups: seq<seq<string>>) returns (group: seq<string>)
    requires groups != [] && PiecesOf(groups[|groups| - 1], line)
    requires u.partial != "" && Flatten(groups) == CloseTail(u).appended
    ensures PiecesOf(group, line) && FlushLong(u).partial != ""
    ensures Flatten(groups[..|groups| - 1] + [group]) == CloseTail(FlushLong(u)).appended
    ensures |group| == 1 <==> |groups[|groups| - 1]| == 1 && |line| <= PARTIAL_LIMIT
  {
    hide Flatten, Concat, PiecesOf, FlushLong, CloseTail;
    var k := |groups| - 1;
    var front := LastIsPartial(u, groups, line);
    var pieces := FlushPieces(u);
    PiecesReplaced(front, pieces, u.partial);
    group := front + pieces;
    LastGroupFlattens(groups, [group]);
    FlattenOne(group);
    assert Flatten(groups[..k]) + (front + pieces) == (Flatten(groups[..k]) + front) + pieces;
    SomePiece(pieces, u.partial);
  }

  lemma SomePiece(group: seq<string>, line: string)
    requires PiecesOf(group, line)
    ensures |group| > 0
  {
  }

  lemma LastRefined(groups: seq<seq<string>>, lines: seq<string>, group: seq<string>)
    requires groups != [] && Refines(groups, lines) && PiecesOf(group, lines[|groups| - 1])
    ensures Refines(groups[..|groups| - 1] + [group], lines)
  {
    hide PiecesOf;
  }

  lemma GroupedParts(u: Tail, now: string, groups: seq<seq<string>>)
    requires Grouped(u, now, groups)
    ensures |groups| == |SplitLines(now)| && Refines(groups, SplitLines(now))
    ensures Flatten(groups) == CloseTail(u).appended && (u.partial != "" <==> Unfinished(now) != "")
    ensures groups != [] ==> PiecesOf(groups[|groups| - 1], SplitLines(now)[|groups| - 1])
  {
    hide SplitLines, Flatten, PiecesOf, CloseTail, Unfinished;
  }

  lemma GroupedFrom(u: Tail, now: string, groups: seq<seq<string>>)
    requires Refines(groups, SplitLines(now)) && Flatten(groups) == CloseTail(u).appended
    requires u.partial != "" <==> Unfinished(now) != ""
    ensures Grouped(u, now, groups)
  {
  }

  lemma CutLast(u: Tail, now: string, groups: seq<seq<string>>) returns (after: seq<seq<string>>)
    requires Grouped(u, now, groups)
    ensures Grouped(FlushLong(u), now, after) && |after| == |groups|
    ensures forall i :: 0 <= i < |groups| - 1 ==> after[i] == groups[i]
    ensures groups != [] ==>
              var i := |groups| - 1;
              |after[i]| == 1 <==> |groups[i]| == 1 && |Unfinished(now)| <= PARTIAL_LIMIT
  {
    GroupedParts(u, now, groups);
    if u.partial == "" {
      assert FlushLong(u) == u;
      hide *;
      after := groups;
    } else {
      hide *;
      LastIsUnfinished(now);
      var k := |groups| - 1;
      var group := CutPartial(u, SplitLines(now)[k], groups);
      after := groups[..k] + [group];
      LastRefined(groups, SplitLines(now), group);
      GroupedFrom(FlushLong(u), now, after);
    }
  }

  /** One chunk: a line is in one piece afterwards unless the chunk, or one before it, cut it. */
  lemma ChunkFed(t: Tail, fed: string, groups: seq<seq<string>>, chunk: string) returns (after: seq<seq<string>>)
    requires Grouped(t, fed, groups) && chunk != ""
    ensures Grouped(FeedTail(t, chunk), fed + chunk, after) && |after| >= |groups|
    ensures forall j :: WholeFrom(after, j) <==>
              && WholeFrom(groups, j) && (|groups| > j ==> !SeparatesCrLf(fed, chunk))
              && (|after| > j ==> |Unfinished(fed + chunk)| <= PARTIAL_LIMIT)
  {
    var now := fed + chunk;
    var fedGroups := FedBeforeCut(t, fed, groups, chunk);
    var u := BeforeFlush(t, fed, chunk, fedGroups);
    after := CutLast(u, now, fedGroups);
    hide SplitLines, LineLength, Concat, Flatten, FlushLong, Grouped, Refines, Unfinished;
    forall j ensures WholeFrom(after, j) <==>
        && WholeFrom(groups, j) && (|groups| > j ==> !SeparatesCrLf(fed, chunk))
        && (|after| > j ==> |Unfinished(fed + chunk)| <= PARTIAL_LIMIT)
    {
      WholeAfter(groups, fedGroups, after, SeparatesCrLf(fed, chunk), |Unfinished(now)| <= PARTIAL_LIMIT, j);
    }
  }

  lemma WholeAfter(groups: seq<seq<string>>, fed: seq<seq<string>>, after: seq<seq<string>>, separated: bool,
                   short: bool, j: nat)
    requires Fed(groups, fed, separated) && fed != [] && |after| == |fed|
    requires forall i :: 0 <= i < |groups| ==> groups[i] != []
    requires forall i :: 0 <= i < |fed| - 1 ==> after[i] == fed[i]
    requires var i := |fed| - 1; |after[i]| == 1 <==> |fed[i]| == 1 && short
    ensures WholeFrom(after, j) <==>
            WholeFrom(groups, j) && (|groups| > j ==> !separated) && (|after| > j ==> short)
  {
    if WholeFrom(after, j) {
      if |after| > j { assert |after[|after| - 1]| == 1; }
      forall i | j <= i < |groups| ensures |groups[i]| == 1 && (i == |groups| - 1 ==> !separated) {
        assert |after[i]| == 1;
      }
    }
  }

  /** The feed in the terms of the value before the cut. */
  lemma FeedIsFlush(t: Tail, chunk: string) returns (u: Tail)
    requires chunk != ""
    ensures FeedTail(t, chunk) == FlushLong(u)
    ensures CloseTail(u).appended == t.appended + SplitLines(t.partial + chunk)
    ensures u.partial != "" <==> !EndsLine(t.partial + chunk)
  {
    hide SplitLines, EndsLine;
    var combined := t.partial + chunk;
    var parts := SplitLines(combined);
    var last := |parts| - 1;
    LastLine(combined);
    if EndsLine(combined) {
      u := Tail(t.appended + parts, "");
    } else {
      u := Tail(t.appended + parts[..last], parts[last]);
      assert t.appended + parts[..last] + [parts[last]] == t.appended + parts;
    }
  }

  lemma SameEnd(a: string, b: string, chunk: string)
    requires chunk != ""
    ensures EndsLine(a + chunk) <==> EndsLine(b + chunk)
  {
    assert (a + chunk)[|a + chunk| - 1] == chunk[|chunk| - 1] == (b + chunk)[|b + chunk| - 1];
  }

  lemma UnfinishedOrNot(text: string)
    requires text != ""
    ensures SplitLines(text) != [] && (Unfinished(text) == "" <==> EndsLine(text))
  {
    UnfinishedIsLast(text);
  }

  lemma BeforeFlush(t: Tail, fed: string, chunk: string, groups: seq<seq<string>>) returns (u: Tail)
    requires chunk != "" && (t.partial != "" <==> Unfinished(fed) != "")
    requires Refines(groups, SplitLines(fed + chunk))
    requires Flatten(groups) == t.appended + SplitLines(t.partial + chunk)
    ensures Grouped(u, fed + chunk, groups) && FeedTail(t, chunk) == FlushLong(u) && groups != []
  {
    hide SplitLines, Flatten, FeedTail, Refines, EndsLine, Unfinished, FlushLong, CloseTail;
    var combined := t.partial + chunk;
    SameEnd(t.partial, fed, chunk);
    UnfinishedOrNot(fed + chunk);
    u := FeedIsFlush(t, chunk);
    assert |groups| == |SplitLines(fed + chunk)| by { RefinesLength(groups, SplitLines(fed + chunk)); }
  }

  lemma RefinesLength(groups: seq<seq<string>>, lines: seq<string>)
    requires Refines(groups, lines)
    ensures |groups| == |lines|
  {
  }

  // ---------- All chunks ----------

  lemma ConcatGrows(lines: seq<string>, i: nat, k: nat)
    requires i <= k <= |lines|
    ensures |Concat(lines[..i])| <= |Concat(lines[..k])|
  {
    assert lines[..k] == lines[..i] + lines[i..k];
    ConcatAppend(lines[..i], lines[i..k]);
  }

  /** The lines of a longer text: those of the shorter one, but its last line may have become longer. */
  lemma LinesOfLonger(fed: string, rest: string) returns (first: string)
    requires fed != ""
    ensures var lines, all := SplitLines(fed), SplitLines(fed + rest);
            var k := |lines| - 1;
            && lines != [] && Concat(lines) == fed && lines[k] != ""
            && |all| > k && all[..k + 1] == lines[..k] + [first] && |first| >= |lines[k]|
  {
    hide SplitLines, LineLength, Concat;
    var lines := SplitLines(fed);
    var last := lines[|lines| - 1];
    SplitConcat(fed);
    LastLine(fed);
    SplitGrowing(fed, rest);
    LineLengthExtends(last, rest);
    SplitFirst(last + rest);
    first := (last + rest)[..LineLength(last + rest)];
  }

  /** How far a text reaches into the lines of a longer one. */
  lemma LinesReached(fed: string, rest: string, j: nat)
    requires fed != "" && j <= |SplitLines(fed + rest)|
    ensures |fed| > |Concat(SplitLines(fed + rest)[..j])| <==> |SplitLines(fed)| > j
  {
    hide *;
    var first := LinesOfLonger(fed, rest);
    LengthReached(SplitLines(fed), SplitLines(fed + rest), first, j);
  }

  lemma LengthReached(lines: seq<string>, all: seq<string>, first: string, j: nat)
    requires lines != [] && j <= |all| && |lines| <= |all|
    requires var k := |lines| - 1;
             lines[k] != "" && all[..k + 1] == lines[..k] + [first] && |first| >= |lines[k]|
    ensures |Concat(lines)| > |Concat(all[..j])| <==> |lines| > j
  {
    hide Concat;
    var k := |lines| - 1;
    assert lines == lines[..k] + [lines[k]];
    ConcatAppend(lines[..k], [lines[k]]);
    ConcatOne(lines[k]);
    ConcatAppend(lines[..k], [first]);
    ConcatOne(first);
    if j <= k {
      assert all[..j] == all[..k + 1][..j] == lines[..j];
      ConcatGrows(lines, j, k);
    } else {
      ConcatGrows(all, k + 1, j);
    }
  }

  lemma WholeStep(t: Tail, fed: string, groups: seq<seq<string>>, chunk: string, rest: string, j: nat)
    returns (next: seq<seq<string>>)
    requires Grouped(t, fed, groups) && chunk != "" && j <= |SplitLines(fed + chunk + rest)|
    ensures Grouped(FeedTail(t, chunk), fed + chunk, next)
    ensures var offset := |Concat(SplitLines(fed + chunk + rest)[..j])|;
            WholeFrom(next, j) <==>
              && WholeFrom(groups, j) && (|fed| > offset ==> !SeparatesCrLf(fed, chunk))
              && (|fed + chunk| > offset ==> |Unfinished(fed + chunk)| <= PARTIAL_LIMIT)
  {
    hide *;
    NothingSeparated(chunk);
    var now := fed + chunk;
    next := ChunkFed(t, fed, groups, chunk);
    GroupedParts(t, fed, groups);
    GroupedParts(FeedTail(t, chunk), now, next);
    LinesReached(now, rest, j);
    if fed != "" {
      assert fed + (chunk + rest) == fed + chunk + rest;
      LinesReached(fed, chunk + rest, j);
    }
  }

  lemma NothingSeparated(chunk: string)
    ensures !SeparatesCrLf("", chunk) && SplitLines("") == []
  {
  }

  /** Over all chunks: the lines from number `j` on are whole exactly if no chunk after their start cuts one. */
  lemma {:induction false} WholeFromIff(t: Tail, fed: string, groups: seq<seq<string>>, chunks: seq<string>, j: nat)
    returns (after: seq<seq<string>>)
    requires Grouped(t, fed, groups) && j <= |SplitLines(fed + Concat(chunks))|
    ensures Grouped(FeedAll(t, chunks), fed + Concat(chunks), after)
    ensures WholeFrom(after, j) <==>
            WholeFrom(groups, j)
            && ChunksKeepLinesFrom(fed, chunks, |Concat(SplitLines(fed + Concat(chunks))[..j])|)
    decreases |chunks|
  {
    hide *;
    FeedStep(t, fed, chunks);
    var offset := |Concat(SplitLines(fed + Concat(chunks))[..j])|;
    KeepStep(fed, chunks, offset);
    if chunks == [] {
      after := groups;
    } else if chunks[0] == "" {
      assert fed + chunks[0] == fed;
      after := WholeFromIff(t, fed, groups, chunks[1..], j);
    } else {
      var next := WholeStep(t, fed, groups, chunks[0], Concat(chunks[1..]), j);
      after := WholeFromIff(FeedTail(t, chunks[0]), fed + chunks[0], next, chunks[1..], j);
    }
  }

  lemma FeedStep(t: Tail, fed: string, chunks: seq<string>)
    ensures chunks == [] ==> FeedAll(t, chunks) == t && fed + Concat(chunks) == fed
    ensures chunks != [] ==>
              && FeedAll(t, chunks) == FeedAll(FeedTail(t, chunks[0]), chunks[1..])
              && (chunks[0] == "" ==> FeedTail(t, chunks[0]) == t)
              && fed + Concat(chunks) == fed + chunks[0] + Concat(chunks[1..])
  {
    if chunks != [] {
      assert fed + (chunks[0] + Concat(chunks[1..])) == fed + chunks[0] + Concat(chunks[1..]);
    }
  }

  lemma KeepStep(fed: string, chunks: seq<string>, offset: nat)
    ensures chunks == [] ==> ChunksKeepLinesFrom(fed, chunks, offset)
    ensures chunks != [] && chunks[0] == "" ==>
              (ChunksKeepLinesFrom(fed, chunks, offset) <==> ChunksKeepLinesFrom(fed, chunks[1..], offset))
    ensures chunks != [] && chunks[0] != "" ==>
              (ChunksKeepLinesFrom(fed, chunks, offset) <==>
                && (|fed| > offset ==> !SeparatesCrLf(fed, chunks[0]))
                && (|fed + chunks[0]| > offset ==> |Unfinished(fed + chunks[0])| <= PARTIAL_LIMIT)
                && ChunksKeepLinesFrom(fed + chunks[0], chunks[1..], offset))
  {
    hide SplitLines, Unfinished, LineLength;
    if chunks != [] && chunks[0] == "" {
      assert fed + chunks[0] == fed;
    }
  }

  // ---------- The exact condition for the kept lines ----------

  lemma {:induction false} WholeFlattens(groups: seq<seq<string>>, lines: seq<string>)
    requires Refines(groups, lines) && WholeFrom(groups, 0)
    ensures Flatten(groups) == lines
  {
    if groups != [] {
      assert PiecesOf(groups[0], lines[0]) && |groups[0]| == 1;
      ConcatOne(groups[0][0]);
      assert groups[0] == [groups[0][0]];
      RefinesRest(groups, lines, 1);
      assert WholeFrom(groups[1..], 0);
      WholeFlattens(groups[1..], lines[1..]);
      assert lines == [lines[0]] + lines[1..];
    }
  }

  lemma RefinesRest(groups: seq<seq<string>>, lines: seq<string>, j: nat)
    requires Refines(groups, lines) && j <= |lines|
    ensures Refines(groups[..j], lines[..j]) && Refines(groups[j..], lines[j..])
    ensures Flatten(groups) == Flatten(groups[..j]) + Flatten(groups[j..])
  {
    hide PiecesOf;
    assert groups == groups[..j] + groups[j..];
    FlattenAppend(groups[..j], groups[j..]);
  }

  /** The number of the first of the last `n` lines. */
  function FirstKept(lines: seq<string>, n: nat): (j: nat)
    ensures j <= |lines|
  {
    if |lines| <= n then 0 else |lines| - n
  }

  lemma WholeFromRest(groups: seq<seq<string>>, lines: seq<string>, j: nat)
    requires Refines(groups, lines) && j <= |lines| && WholeFrom(groups, j)
    ensures Flatten(groups) == Flatten(groups[..j]) + lines[j..]
  {
    RefinesRest(groups, lines, j);
    assert WholeFrom(groups[j..], 0);
    WholeFlattens(groups[j..], lines[j..]);
  }

  lemma {:induction false} LastOfForces(groups: seq<seq<string>>, lines: seq<string>, n: nat, i: nat)
    requires Refines(groups, lines) && LastOf(Flatten(groups), n) == LastOf(lines, n)
    requires FirstKept(lines, n) <= i <= |lines| && WholeFrom(groups, i)
    ensures WholeFrom(groups, FirstKept(lines, n))
    decreases i
  {
    if i > FirstKept(lines, n) {
      LastCutLine(groups, lines, n, i);
      hide Flatten, Refines, PiecesOf, LastOf;
      assert WholeFrom(groups, i - 1);
      LastOfForces(groups, lines, n, i - 1);
    }
  }

  lemma LastCutLine(groups: seq<seq<string>>, lines: seq<string>, n: nat, i: nat)
    requires Refines(groups, lines) && LastOf(Flatten(groups), n) == LastOf(lines, n)
    requires FirstKept(lines, n) < i <= |lines| && WholeFrom(groups, i)
    ensures |groups[i - 1]| == 1
  {
    var m := i - 1;
    assert PiecesOf(groups[m], lines[m]);
    hide Flatten, Refines, PiecesOf, LastOf, WholeFrom, Concat;
    WholeFromRest(groups, lines, i);
    var front, piece := LastPiece(groups[m], lines[m]);
    assert groups[..i] == groups[..m] + [groups[m]];
    FlattenAppend(groups[..m], [groups[m]]);
    FlattenOne(groups[m]);
    Regrouped3(Flatten(groups[..m]), front, [piece], lines[i..]);
    LastBehind(Flatten(groups[..m]) + front, piece, lines, i, n);
  }

  lemma Regrouped3(a: seq<string>, b: seq<string>, c: seq<string>, d: seq<string>)
    ensures a + (b + c) + d == a + b + c + d
  {
  }

  lemma LastBehind(before: seq<string>, piece: string, lines: seq<string>, i: nat, n: nat)
    requires FirstKept(lines, n) < i <= |lines|
    requires LastOf(before + [piece] + lines[i..], n) == LastOf(lines, n)
    ensures piece == lines[i - 1]
  {
    var all := before + [piece] + lines[i..];
    var kept := LastOf(lines, n);
    var d := |lines| - i;
    assert all[|all| - 1 - d] == piece && kept[|kept| - 1 - d] == lines[i - 1];
    assert LastOf(all, n)[|LastOf(all, n)| - 1 - d] == all[|all| - 1 - d];
  }

  lemma LastOfGroups(groups: seq<seq<string>>, lines: seq<string>, n: nat)
    requires Refines(groups, lines)
    ensures LastOf(Flatten(groups), n) == LastOf(lines, n) <==> WholeFrom(groups, FirstKept(lines, n))
  {
    var j := FirstKept(lines, n);
    if WholeFrom(groups, j) {
      WholeFromRest(groups, lines, j);
      if j == 0 {
        assert groups[..0] == [] && Flatten(groups) == lines;
      }
    }
    if LastOf(Flatten(groups), n) == LastOf(lines, n) {
      LastOfForces(groups, lines, n, |lines|);
    }
  }

  lemma LastStartIs(text: string, n: nat)
    ensures LastStart(text, n) == |Concat(SplitLines(text)[..FirstKept(SplitLines(text), n)])|
  {
  }

  lemma ClosedGroups(chunks: seq<string>, n: nat) returns (groups: seq<seq<string>>)
    ensures Refines(groups, SplitLines(Concat(chunks)))
    ensures Flatten(groups) == CloseTail(FeedAll(EMPTY_TAIL, chunks)).appended
    ensures WholeFrom(groups, FirstKept(SplitLines(Concat(chunks)), n)) <==>
            ChunksKeepLinesFrom("", chunks, LastStart(Concat(chunks), n))
  {
    var lines := SplitLines(Concat(chunks));
    assert "" + Concat(chunks) == Concat(chunks);
    assert Grouped(EMPTY_TAIL, "", []);
    LastStartIs(Concat(chunks), n);
    groups := WholeFromIff(EMPTY_TAIL, "", [], chunks, FirstKept(lines, n));
    GroupedParts(FeedAll(EMPTY_TAIL, chunks), Concat(chunks), groups);
  }

  /**
   The kept lines are the last lines of the whole text if and only if no chunk that ends after
   the start of those lines separates a CR from its LF or leaves an unfinished line over the limit.
   */
  lemma KeptLinesIff(chunks: seq<string>, n: nat)
    ensures LastOf(CloseTail(FeedAll(EMPTY_TAIL, chunks)).appended, n) == LastOf(SplitLines(Concat(chunks)), n) <==>
            ChunksKeepLinesFrom("", chunks, LastStart(Concat(chunks), n))
  {
    var groups := ClosedGroups(chunks, n);
    LastOfGroups(groups, SplitLines(Concat(chunks)), n);
  }

  // ---------- The exact condition for the kept text ----------

  lemma {:induction false} FlattenLonger(groups: seq<seq<string>>, lines: seq<string>)
    requires Refines(groups, lines)
    ensures |Flatten(groups)| >= |groups| && Concat(Flatten(groups)) == Concat(lines)
    ensures !WholeFrom(groups, 0) ==> |Flatten(groups)| > |groups|
    ensures forall i :: 0 <= i < |Flatten(groups)| ==> Flatten(groups)[i] != ""
  {
    if groups != [] {
      RefinesRest(groups, lines, 1);
      FlattenLonger(groups[1..], lines[1..]);
      assert PiecesOf(groups[0], lines[0]);
      ConcatAppend(groups[0], Flatten(groups[1..]));
      assert lines == [lines[0]] + lines[1..];
      if |groups[0]| == 1 && WholeFrom(groups[1..], 0) {
        forall i | 0 <= i < |groups| ensures |groups[i]| == 1 {
          if i > 0 { assert |groups[1..][i - 1]| == 1; }
        }
      }
    }
  }

  lemma ShorterText(pieces: seq<string>, n: nat)
    requires |pieces| > n && forall i :: 0 <= i < |pieces| ==> pieces[i] != ""
    ensures Concat(LastOf(pieces, n)) != Concat(pieces)
  {
    var k := |pieces| - n;
    assert pieces == pieces[..k] + pieces[k..];
    ConcatAppend(pieces[..k], pieces[k..]);
    assert Concat(pieces[..k]) == pieces[0] + Concat(pieces[..k][1..]);
  }

  lemma WholeRest(groups: seq<seq<string>>, j: nat)
    requires j <= |groups|
    ensures WholeFrom(groups[j..], 0) ==> WholeFrom(groups, j)
  {
    if WholeFrom(groups[j..], 0) {
      forall i | j <= i < |groups| ensures |groups[i]| == 1 {
        assert groups[i] == groups[j..][i - j];
      }
    }
  }

  lemma TextOfGroups(groups: seq<seq<string>>, lines: seq<string>, n: nat)
    requires Refines(groups, lines) && |Flatten(groups)| > n && !WholeFrom(groups, FirstKept(lines, n))
    ensures Concat(LastOf(Flatten(groups), n)) != Concat(LastOf(lines, n))
  {
    var j := FirstKept(lines, n);
    var others := groups[j..];
    RefinesRest(groups, lines, j);
    WholeRest(groups, j);
    FlattenLonger(others, lines[j..]);
    assert lines[j..] == LastOf(lines, n);
    assert j == 0 ==> groups[j..] == groups;
    var pieces := Flatten(others);
    hide Flatten, Concat, Refines, WholeFrom;
    ShorterText(pieces, n);
    assert LastOf(Flatten(groups), n) == LastOf(pieces, n);
  }

  // ---------- How many lines are appended ----------

  /** How often an unfinished line of that length is cut. */
  function Cuts(length: nat): nat {
    if length == 0 then 0 else (length - 1) / PARTIAL_LIMIT
  }

  /** The cuts that a chunk makes in the line that it leaves unfinished, without those made there before. */
  function NewCuts(fed: string, chunk: string): int {
    var now := fed + chunk;
    if Unfinished(now) == "" then 0
    else if |SplitLines(now)| == |SplitLines(fed)| then Cuts(|Unfinished(now)|) - Cuts(|Unfinished(fed)|)
    else Cuts(|Unfinished(now)|)
  }

  /** What the chunks add to the number of lines: one for each CR parted from its LF, one for each cut. */
  function Added(fed: string, chunks: seq<string>): int
    decreases |chunks|
  {
    if chunks == [] then 0
    else
      (if SeparatesCrLf(fed, chunks[0]) then 1 else 0) + NewCuts(fed, chunks[0]) + Added(fed + chunks[0], chunks[1..])
  }

  /** The rest is what the cuts leave of the unfinished line. */
  ghost predicate RestIs(t: Tail, fed: string, front: string) {
    Unfinished(fed) == front + t.partial && |front| == PARTIAL_LIMIT * Cuts(|Unfinished(fed)|)
  }

  lemma {:induction false} FlushCuts(t: Tail) returns (front: string)
    ensures |CloseTail(FlushLong(t)).appended| == |CloseTail(t).appended| + Cuts(|t.partial|)
    ensures t.partial == front + FlushLong(t).partial && |front| == PARTIAL_LIMIT * Cuts(|t.partial|)
    decreases |t.partial|
  {
    if |t.partial| > PARTIAL_LIMIT {
      var head, rest := t.partial[..PARTIAL_LIMIT], t.partial[PARTIAL_LIMIT..];
      var more := FlushCuts(Tail(t.appended + [head], rest));
      CutsAfter(PARTIAL_LIMIT, |rest|);
      front := head + more;
      assert t.partial == head + rest;
      SameText(head, more, FlushLong(t).partial);
    } else {
      front := "";
    }
  }

  lemma CutsAfter(front: nat, length: nat)
    requires front % PARTIAL_LIMIT == 0 && length > 0
    ensures Cuts(front + length) == front / PARTIAL_LIMIT + Cuts(length)
  {
  }

  /** What a feed splits, and how the lines of the text grow with it. */
  lemma FeedLines(t: Tail, fed: string, chunk: string, front: string)
    requires RestIs(t, fed, front) && chunk != "" && (t.partial != "" <==> Unfinished(fed) != "")
    ensures var parts, lines, now := SplitLines(t.partial + chunk), SplitLines(fed), SplitLines(fed + chunk);
            && parts != [] && now != []
            && |now| == |lines| + |parts| - (if SeparatesCrLf(fed, chunk) || t.partial != "" then 1 else 0)
            && (!SeparatesCrLf(fed, chunk) || |parts| > 1 ==>
                  now[|now| - 1] == if t.partial != "" && |parts| == 1 then front + parts[0] else parts[|parts| - 1])
            && (SeparatesCrLf(fed, chunk) && |parts| == 1 ==> EndsLine(fed + chunk))
    ensures SeparatesCrLf(fed, chunk) ==> t.partial == ""
  {
    hide SplitLines, Unfinished, EndsLine, SeparatesCrLf;
    if t.partial != "" {
      LinesInLine(t, fed, chunk, front);
    } else {
      assert t.partial + chunk == chunk;
      if SeparatesCrLf(fed, chunk) {
        LinesInCrLf(fed, chunk);
      } else {
        LinesAfterLine(fed, chunk);
      }
    }
  }

  lemma LinesInLine(t: Tail, fed: string, chunk: string, front: string)
    requires RestIs(t, fed, front) && chunk != "" && t.partial != "" && Unfinished(fed) != ""
    ensures var parts, lines, now := SplitLines(t.partial + chunk), SplitLines(fed), SplitLines(fed + chunk);
            && parts != [] && now != [] && |now| == |lines| + |parts| - 1
            && now[|now| - 1] == if |parts| == 1 then front + parts[0] else parts[|parts| - 1]
    ensures !SeparatesCrLf(fed, chunk)
  {
    hide *;
    NoCrLfIn(fed, chunk);
    RestInFront(t, fed, front);
    InLineText(fed, chunk, front, t.partial);
    var lines, parts := SplitLines(fed), SplitLines(t.partial + chunk);
    var k := |lines| - 1;
    LastOfJoined(lines[..k], [front + parts[0]] + parts[1..]);
  }

  lemma NoCrLfIn(fed: string, chunk: string)
    requires Unfinished(fed) != ""
    ensures !SeparatesCrLf(fed, chunk)
  {
  }

  lemma RestInFront(t: Tail, fed: string, front: string)
    requires RestIs(t, fed, front)
    ensures front + t.partial == Unfinished(fed)
  {
  }

  lemma LastOfJoined(a: seq<string>, b: seq<string>)
    requires b != []
    ensures (a + b)[|a + b| - 1] == b[|b| - 1]
  {
  }

  lemma LinesInCrLf(fed: string, chunk: string)
    requires SeparatesCrLf(fed, chunk)
    ensures var parts, lines, now := SplitLines(chunk), SplitLines(fed), SplitLines(fed + chunk);
            && parts != [] && now != [] && |now| == |lines| + |parts| - 1
            && (|parts| > 1 ==> now[|now| - 1] == parts[|parts| - 1])
            && (|parts| == 1 ==> EndsLine(fed + chunk))
  {
    hide SplitLines;
    var others := CrLfText(fed, chunk);
    if |SplitLines(chunk)| == 1 { LineBreakAlone(fed, chunk); }
  }

  lemma LinesAfterLine(fed: string, chunk: string)
    requires chunk != "" && Unfinished(fed) == "" && !SeparatesCrLf(fed, chunk)
    ensures var parts, lines, now := SplitLines(chunk), SplitLines(fed), SplitLines(fed + chunk);
            && parts != [] && now != [] && |now| == |lines| + |parts| && now[|now| - 1] == parts[|parts| - 1]
  {
    hide SplitLines, SeparatesCrLf;
    SplitFromRest(fed, chunk);
    assert "" + chunk == chunk;
    assert SplitLines(chunk) != [];
  }

  lemma LineBreakAlone(fed: string, chunk: string)
    requires SeparatesCrLf(fed, chunk) && |SplitLines(chunk)| == 1
    ensures EndsLine(fed + chunk)
  {
    LineLengthOfLf(chunk);
    SplitFirst(chunk);
    assert SplitLines(chunk[1..]) == [];
    assert (fed + chunk)[|fed + chunk| - 1] == chunk[0];
  }

  lemma LineLengthOfLf(chunk: string)
    requires chunk != "" && chunk[0] == '\n'
    ensures LineLength(chunk) == 1
  {
  }

  /** The cuts of one chunk, from the rest before them. */
  lemma CutsOfChunk(t: Tail, fed: string, chunk: string, front: string, partial: string) returns (before: string)
    requires RestIs(t, fed, front) && chunk != "" && (t.partial != "" <==> Unfinished(fed) != "")
    requires var parts := SplitLines(t.partial + chunk);
             partial == if EndsLine(fed + chunk) || parts == [] then "" else parts[|parts| - 1]
    ensures Unfinished(fed + chunk) == before + partial && |before| % PARTIAL_LIMIT == 0
    ensures partial != "" <==> Unfinished(fed + chunk) != ""
    ensures NewCuts(fed, chunk) == Cuts(|partial|)
    ensures partial != "" ==> Cuts(|Unfinished(fed + chunk)|) == |before| / PARTIAL_LIMIT + Cuts(|partial|)
  {
    hide *;
    var now := fed + chunk;
    var parts, lines := SplitLines(t.partial + chunk), SplitLines(now);
    FeedLines(t, fed, chunk, front);
    UnfinishedIs(now);
    NewCutsAre(fed, chunk);
    CutsBefore(t, fed, front);
    SplitNonEmpty(t.partial + chunk);
    before := if EndsLine(now) then "" else if t.partial != "" && |parts| == 1 then front else "";
    if partial != "" { CutsAfter(|before|, |partial|); }
  }

  lemma UnfinishedIs(text: string)
    ensures Unfinished(text) ==
              if text == "" || EndsLine(text) then "" else SplitLines(text)[|SplitLines(text)| - 1]
    ensures text != "" ==> (Unfinished(text) == "" <==> EndsLine(text))
  {
    if text != "" { UnfinishedOrNot(text); }
  }

  lemma NewCutsAre(fed: string, chunk: string)
    ensures NewCuts(fed, chunk) ==
            if Unfinished(fed + chunk) == "" then 0
            else if |SplitLines(fed + chunk)| == |SplitLines(fed)|
              then Cuts(|Unfinished(fed + chunk)|) - Cuts(|Unfinished(fed)|)
            else Cuts(|Unfinished(fed + chunk)|)
    ensures Cuts(0) == 0 && 0 % PARTIAL_LIMIT == 0 && 0 / PARTIAL_LIMIT == 0
  {
  }

  lemma CutsBefore(t: Tail, fed: string, front: string)
    requires RestIs(t, fed, front)
    ensures Unfinished(fed) == front + t.partial && Cuts(|Unfinished(fed)|) == |front| / PARTIAL_LIMIT
    ensures |front| % PARTIAL_LIMIT == 0
  {
    hide Unfinished, Cuts;
  }

  /** One chunk: the number of lines appended when closed, and the rest. */
  lemma ChunkCounts(t: Tail, fed: string, chunk: string, front: string) returns (after: string)
    requires RestIs(t, fed, front) && chunk != "" && (t.partial != "" <==> Unfinished(fed) != "")
    ensures var next := FeedTail(t, chunk);
            && RestIs(next, fed + chunk, after) && (next.partial != "" <==> Unfinished(fed + chunk) != "")
            && |CloseTail(next).appended| - |SplitLines(fed + chunk)| ==
               |CloseTail(t).appended| - |SplitLines(fed)|
               + (if SeparatesCrLf(fed, chunk) then 1 else 0) + NewCuts(fed, chunk)
  {
    hide *;
    var u := FeedIsFlush(t, chunk);
    FeedLines(t, fed, chunk, front);
    var parts := SplitLines(t.partial + chunk);
    FeedEnds(t, fed, chunk, u);
    var before := CutsOfChunk(t, fed, chunk, front, u.partial);
    var more := FlushCuts(u);
    after := before + more;
    RestAfterFlush(u, fed + chunk, before, more);
    ClosedLength(t);
  }

  lemma ClosedLength(t: Tail)
    ensures |CloseTail(t).appended| == |t.appended| + (if t.partial == "" then 0 else 1)
  {
  }

  lemma FeedEnds(t: Tail, fed: string, chunk: string, u: Tail)
    requires CloseTail(u).appended == t.appended + SplitLines(t.partial + chunk) && chunk != ""
    requires u.partial != "" <==> !EndsLine(t.partial + chunk)
    ensures var parts := SplitLines(t.partial + chunk);
            u.partial == if EndsLine(fed + chunk) || parts == [] then "" else parts[|parts| - 1]
  {
    hide SplitLines, EndsLine;
    SameEnd(t.partial, fed, chunk);
    var parts := SplitLines(t.partial + chunk);
    RestOfFeed(u, t.appended, parts);
  }

  lemma RestAfterFlush(u: Tail, now: string, before: string, more: string)
    requires Unfinished(now) == before + u.partial && (u.partial != "" <==> Unfinished(now) != "")
    requires u.partial == more + FlushLong(u).partial && |more| == PARTIAL_LIMIT * Cuts(|u.partial|)
    requires |before| % PARTIAL_LIMIT == 0
    requires u.partial != "" ==> Cuts(|Unfinished(now)|) == |before| / PARTIAL_LIMIT + Cuts(|u.partial|)
    ensures RestIs(FlushLong(u), now, before + more) && (FlushLong(u).partial != "" <==> Unfinished(now) != "")
  {
    hide FlushLong, Unfinished, Cuts;
    var rest := FlushLong(u).partial;
    assert before + (more + rest) == before + more + rest;
    CutsLeave(|u.partial|);
    if u.partial == "" {
      NoCuts();
    }
  }

  lemma NoCuts()
    ensures Cuts(0) == 0
  {
  }

  lemma CutsLeave(length: nat)
    ensures length > 0 ==> PARTIAL_LIMIT * Cuts(length) < length
  {
  }

  lemma RestOfFeed(u: Tail, appended: seq<string>, parts: seq<string>)
    requires CloseTail(u).appended == appended + parts && parts != []
    ensures u.partial != "" ==> u.partial == parts[|parts| - 1]
  {
    assert (appended + parts)[|appended + parts| - 1] == parts[|parts| - 1];
  }

  /** Whatever the chunks, the lines appended are those of the text and what the chunks add. */
  lemma {:induction false} AppendedCount(t: Tail, fed: string, chunks: seq<string>, front: string)
    requires RestIs(t, fed, front) && (t.partial != "" <==> Unfinished(fed) != "")
    ensures |CloseTail(FeedAll(t, chunks)).appended| - |SplitLines(fed + Concat(chunks))| ==
            |CloseTail(t).appended| - |SplitLines(fed)| + Added(fed, chunks)
    decreases |chunks|
  {
    if chunks == [] {
      assert fed + Concat(chunks) == fed;
    } else {
      var chunk := chunks[0];
      assert fed + chunk + Concat(chunks[1..]) == fed + Concat(chunks);
      if chunk == "" {
        assert fed + chunk == fed;
        AppendedCount(t, fed, chunks[1..], front);
      } else {
        var after := ChunkCounts(t, fed, chunk, front);
        AppendedCount(FeedTail(t, chunk), fed + chunk, chunks[1..], after);
      }
    }
  }

  /** The number of lines appended for any chunks. */
  lemma LinesAppended(chunks: seq<string>)
    ensures |CloseTail(FeedAll(EMPTY_TAIL, chunks)).appended| == |SplitLines(Concat(chunks))| + Added("", chunks)
  {
    assert "" + Concat(chunks) == Concat(chunks);
    assert "" == "" + "" && Unfinished("") == "";
    AppendedCount(EMPTY_TAIL, "", chunks, "");
  }

  /**
   The text the buffer gives is that of the last lines of the whole text if and only if the lines
   and what the chunks add are no more than the limit or no chunk that ends in those lines cuts one.
   */
  lemma KeptTextIff(chunks: seq<string>, n: nat)
    ensures var appended := CloseTail(FeedAll(EMPTY_TAIL, chunks)).appended;
            Concat(LastOf(appended, n)) == Concat(LastOf(SplitLines(Concat(chunks)), n)) <==>
            || |SplitLines(Concat(chunks))| + Added("", chunks) <= n
            || ChunksKeepLinesFrom("", chunks, LastStart(Concat(chunks), n))
  {
    hide Added, ChunksKeepLinesFrom, FeedAll, CloseTail, LastStart, SplitLines, Concat, Flatten, WholeFrom;
    var groups := ClosedGroups(chunks, n);
    var lines := SplitLines(Concat(chunks));
    FlattenLonger(groups, lines);
    LinesAppended(chunks);
    if WholeFrom(groups, FirstKept(lines, n)) {
      LastOfGroups(groups, lines, n);
    } else if |Flatten(groups)| > n {
      TextOfGroups(groups, lines, n);
    }
  }

  /** Two lines in two chunks, of which the first ends inside a CR LF: the kept text misses a line. */
  lemma SeparatedCrLfLosesALine()
    ensures CloseTail(FeedAll(EMPTY_TAIL, ["a\r", "\nb"])).appended == ["a\r", "\n", "b"]
    ensures Concat(LastOf(CloseTail(FeedAll(EMPTY_TAIL, ["a\r", "\nb"])).appended, 2)) == "\nb"
    ensures Concat(LastOf(SplitLines("a\r\nb"), 2)) == "a\r\nb"
  {
    hide SplitLines, FeedTail, FeedAll;
    SplitsExample();
    TwoFeeds();
    assert ["a\r"] + ["\n"] + ["b"] == ["a\r", "\n", "b"];
    assert LastOf(["a\r", "\n", "b"], 2) == ["\n"] + ["b"];
    assert ["a\r\n", "b"] == ["a\r\n"] + ["b"];
    ConcatAppend(["\n"], ["b"]);
    ConcatAppend(["a\r\n"], ["b"]);
    ConcatOne("\n");
    ConcatOne("b");
    ConcatOne("a\r\n");
  }

  lemma TwoFeeds()
    ensures FeedAll(EMPTY_TAIL, ["a\r", "\nb"]) == Tail(["a\r"] + ["\n"], "b")
  {
    SplitsExample();
    var chunks := ["a\r", "\nb"];
    var one := FeedTail(EMPTY_TAIL, "a\r");
    assert "" + "a\r" == "a\r" && "" + "\nb" == "\nb";
    assert one == Tail(["a\r"], "");
    assert FeedTail(one, "\nb") == Tail(["a\r"] + ["\n"], "b");
    assert chunks[1..] == ["\nb"] && chunks[1..][1..] == [];
    assert FeedAll(EMPTY_TAIL, chunks) == FeedAll(one, chunks[1..]) == FeedTail(one, "\nb");
  }

  lemma SplitsExample()
    ensures SplitLines("a\r") == ["a\r"] && SplitLines("\nb") == ["\n", "b"]
    ensures SplitLines("a\r\nb") == ["a\r\n", "b"]
  {
    assert "a\r"[1..] == "\r" && LineLength("\r") == 1 && LineLength("a\r") == 2;
    assert LineLength("\nb") == 1 && "\nb"[..1] == "\n" && "\nb"[1..] == "b";
    assert "b"[1..] == "" && LineLength("b") == 1;
    SplitOne("a\r");
    SplitOne("b");
    assert "a\r\nb"[1..] == "\r\nb" && LineLength("\r\nb") == 2 && LineLength("a\r\nb") == 3;
    assert "a\r\nb"[..3] == "a\r\n" && "a\r\nb"[3..] == "b";
    SplitFirst("a\r\nb");
    SplitFirst("\nb");
  }

  // ---------- The buffer ----------

  lemma FeedFlushes(t: Tail, text: string, u: Tail)
    requires text != ""
    requires var parts := SplitLines(t.partial + text);
             u == if EndsLine(t.partial + text) then Tail(t.appended + parts, "")
                  else Tail(t.appended + parts[..|parts| - 1], parts[|parts| - 1])
    ensures FeedTail(t, text) == FlushLong(u)
  {
    hide SplitLines, EndsLine;
  }

  lemma AppendNext(first: seq<string>, parts: seq<string>, i: nat)
    requires i < |parts|
    ensures first + parts[..i + 1] == first + parts[..i] + [parts[i]]
  {
  }

  class Buffer {
    const maxLines: nat
    var lines: seq<string>
    var lineCount: nat
    var partial: string
    /** Every line ever appended, dropped ones included. */
    ghost var appended: seq<string>

    ghost predicate Valid()
      reads this
    {
      lines == LastOf(appended, maxLines) && lineCount == |appended| && |partial| <= PARTIAL_LIMIT
    }

    ghost function Value(): Tail
      reads this
    {
      Tail(appended, partial)
    }

    constructor (maxLines: nat)
      ensures Valid() && this.maxLines == maxLines && Value() == EMPTY_TAIL
    {
      this.maxLines := maxLines;
      lines, lineCount, partial := [], 0, "";
      appended := [];
    }

    method Feed(text: string)
      requires Valid()
      modifies this
      ensures Valid() && Value() == FeedTail(old(Value()), text)
    {
      if text == "" {
        return;
      }
      hide LineLength, LastOf, FlushLong;
      var combined := partial + text;
      var parts := SplitLines(combined);
      if !EndsLine(combined) {
        partial := parts[|parts| - 1];
        parts := parts[..|parts| - 1];
      } else {
        partial := "";
      }
      ghost var first, rest := appended, partial;
      FeedFlushes(old(Value()), text, Tail(appended + parts, partial));
      hide *;
      for i := 0 to |parts|
        invariant lines == LastOf(appended, maxLines) && lineCount == |appended|
        invariant appended == first + parts[..i] && partial == rest
      {
        AppendNext(first, parts, i);
        Append(parts[i]);
      }
      assert parts[..|parts|] == parts;
      assert Value() == Tail(first + parts, rest) by { ValueIs(); }
      FlushLongPartial();
    }

    method Close()
      requires Valid()
      modifies this
      ensures Valid() && Value() == CloseTail(old(Value()))
    {
      if partial != "" {
        Append(partial);
        partial := "";
      }
    }

    method Text() returns (text: string)
      requires Valid()
      ensures text == Concat(LastOf(appended, maxLines))
    {
      text := "";
      for i := 0 to |lines|
        invariant text == Concat(lines[..i])
      {
        ConcatAppend(lines[..i], [lines[i]]);
        ConcatOne(lines[i]);
        assert lines[..i + 1] == lines[..i] + [lines[i]];
        text := text + lines[i];
      }
      assert lines[..|lines|] == lines;
    }

    /** A line was dropped. */
    method Truncated() returns (r: bool)
      requires Valid()
      ensures r <==> lines != appended
    {
      r := lineCount > maxLines;
    }

    lemma ValueIs()
      ensures Value() == Tail(appended, partial)
    {
    }

    method Append(line: string)
      requires lines == LastOf(appended, maxLines) && lineCount == |appended|
      modifies this
      ensures lines == LastOf(appended, maxLines) && lineCount == |appended|
      ensures appended == old(appended) + [line] && partial == old(partial)
    {
      lineCount := lineCount + 1;
      lines := lines + [line];
      if |lines| > maxLines {
        lines := lines[1..];
      }
      appended := appended + [line];
    }

    method FlushLongPartial()
      requires lines == LastOf(appended, maxLines) && lineCount == |appended|
      modifies this
      ensures Valid() && Value() == FlushLong(old(Value()))
      ensures |partial| <= 8192 && (|old(partial)| <= 8192 ==> appended == old(appended) && partial == old(partial))
      ensures |old(partial)| > 8192 ==> old(appended) + [old(partial)[..8192]] <= appended
    {
      if |partial| > PARTIAL_LIMIT { FlushAppendsHead(Value()); }
      while |partial| > PARTIAL_LIMIT
        invariant lines == LastOf(appended, maxLines) && lineCount == |appended|
        invariant FlushLong(Value()) == FlushLong(old(Value()))
        decreases |partial|
      {
        Append(partial[..PARTIAL_LIMIT]);
        partial := partial[PARTIAL_LIMIT..];
      }
    }
  }
}
