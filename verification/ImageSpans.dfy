/**
 Locating the image scalar of a service in the source text: on the line that the parser reports,
 or on the line after its key. The spans of values on different lines never overlap, so the edits
 can be spliced.
 */
module ImageSpans {
  import opened Ordering
  import opened SourceLines
  import opened Splice
  import FlowScanner

  // ---------- The two line patterns ----------

  predicate IsBlankChar(c: char) {
    c == ' ' || c == '\t'
  }

  /** The length of the spaces and tabs at the start. */
  function Indent(s: string): (n: nat)
    ensures n <= |s| && AllBlank(s[..n]) && (n == |s| || !IsBlankChar(s[n]))
  {
    if s == "" || !IsBlankChar(s[0]) then 0
    else
      var n := 1 + Indent(s[1..]);
      assert s[..n] == [s[0]] + s[1..][..n - 1];
      n
  }

  predicate AllBlank(s: string) {
    forall i :: 0 <= i < |s| ==> IsBlankChar(s[i])
  }

  predicate IsQuoteChar(c: char) {
    c == '\'' || c == '"'
  }

  /** `["']image["']|image` at the start; the two quotes need not be the same. */
  function KeyLength(s: string): (n: nat)
    ensures n <= |s|
  {
    if |s| >= 7 && IsQuoteChar(s[0]) && s[1..6] == "image" && IsQuoteChar(s[6]) then 7
    else if |s| >= 5 && s[..5] == "image" then 5
    else 0
  }

  /** `[ \t]*(?:["']image["']|image)[ \t]*:[ \t]*` */
  predicate IsKeyText(s: string) {
    var i := Indent(s);
    var k := i + KeyLength(s[i..]);
    var c := k + Indent(s[k..]);
    k > i && c < |s| && s[c] == ':' && AllBlank(s[c + 1..])
  }

  /** `[ \t]*(?:#.*)?` */
  predicate IsTrailing(s: string) {
    Indent(s) == |s| || s[Indent(s)] == '#'
  }

  /** The old image stands at `n` behind the key, with `q` quotes on each side. */
  predicate ValueAt(body: string, oldImage: string, n: nat, q: nat) {
    && q <= 1 && q <= n && n + |oldImage| + q <= |body|
    && IsKeyText(body[..n - q]) && body[n..n + |oldImage|] == oldImage
    && (q == 1 ==> IsQuoteChar(body[n - 1]) && body[n + |oldImage|] == body[n - 1])
    && IsTrailing(body[n + |oldImage| + q..])
  }

  /** The rightmost place where the single-line pattern puts the image. */
  function FindValue(body: string, oldImage: string, n: nat): (r: Option<nat>)
    ensures r.Some? ==> r.value <= n && (ValueAt(body, oldImage, r.value, 0) || ValueAt(body, oldImage, r.value, 1))
    ensures r.None? ==> forall k: nat, q: nat :: k <= n ==> !ValueAt(body, oldImage, k, q)
  {
    if ValueAt(body, oldImage, n, 0) || ValueAt(body, oldImage, n, 1) then Some(n)
    else if n == 0 then None
    else FindValue(body, oldImage, n - 1)
  }

  /** The value line of the two-line form: blanks, the image from `n` on, blanks. */
  predicate PlainAt(body: string, oldImage: string, n: nat) {
    && 0 < n && n + |oldImage| <= |body| && AllBlank(body[..n])
    && body[n..n + |oldImage|] == oldImage && AllBlank(body[n + |oldImage|..])
  }

  function FindPlain(body: string, oldImage: string, n: nat): (r: Option<nat>)
    ensures r.Some? ==> r.value <= n && PlainAt(body, oldImage, r.value)
    ensures r.None? ==> forall k: nat :: k <= n ==> !PlainAt(body, oldImage, k)
  {
    if PlainAt(body, oldImage, n) then Some(n) else if n == 0 then None else FindPlain(body, oldImage, n - 1)
  }

  // ---------- The locator ----------

  function BodyOf(source: string, line: nat): string
    requires line < |LineStartOffsets(source)|
  {
    OffsetBound(source, line);
    LineBody(source, LineStartOffsets(source)[line])
  }

  /** `not body.strip()` */
  predicate IsBlankLine(body: string) {
    forall i :: 0 <= i < |body| ==> FlowScanner.IsSpace(body[i])
  }

  /** A line after the value that is indented beyond the key continues the scalar. */
  predicate Continued(source: string, line: nat, indent: nat) {
    line < |LineStartOffsets(source)|
    && !IsBlankLine(BodyOf(source, line)) && Indent(BodyOf(source, line)) > indent
  }

  /** The edit for one service: what the parser reports about its image, and the new text. */
  datatype Request = Request(keyLine: nat, valueLine: nat, oldImage: string, newImage: string)

  function LocateTwoLines(source: string, r: Request): Option<Rewrite> {
    var offsets := LineStartOffsets(source);
    if r.keyLine >= |offsets| || r.valueLine >= |offsets| || r.valueLine != r.keyLine + 1 then None
    else
      var key, value := BodyOf(source, r.keyLine), BodyOf(source, r.valueLine);
      var n := FindPlain(value, r.oldImage, |value|);
      if !IsKeyText(key) || n.None? || n.value <= Indent(key) || Continued(source, r.valueLine + 1, Indent(key)) then
        None
      else
        var prefix := if IsBlankChar(key[|key| - 1]) then "" else " ";
        Some(Rewrite(offsets[r.keyLine] + |key|, offsets[r.valueLine] + n.value + |r.oldImage|, prefix + r.newImage))
  }

  /** `_service_image_scalar_rewrite`, from the reported lines on. */
  function Locate(source: string, r: Request): Result<Rewrite, string> {
    var offsets := LineStartOffsets(source);
    if r.valueLine >= |offsets| then Raise("image source location is invalid")
    else
      var body := BodyOf(source, r.valueLine);
      var n := FindValue(body, r.oldImage, |body|);
      if n.Some? then
        var start := offsets[r.valueLine] + n.value;
        Ok(Rewrite(start, start + |r.oldImage|, r.newImage))
      else
        var two := LocateTwoLines(source, r);
        if two.None? then Raise("image uses unsupported YAML syntax") else Ok(two.value)
  }

  // ---------- What a span holds ----------

  predicate OnOneLine(source: string, r: Request)
    requires r.valueLine < |LineStartOffsets(source)|
  {
    FindValue(BodyOf(source, r.valueLine), r.oldImage, |BodyOf(source, r.valueLine)|).Some?
  }

  lemma BodyInside(source: string, line: nat)
    requires line < |LineStartOffsets(source)|
    ensures var start, body := LineStartOffsets(source)[line], BodyOf(source, line);
            start + |body| <= |source| && source[start..start + |body|] == body
  {
    OffsetBound(source, line);
  }

  lemma SliceOfBody(source: string, start: nat, body: string, from: nat, to': nat)
    requires start + |body| <= |source| && source[start..start + |body|] == body
    requires from <= to' <= |body|
    ensures source[start + from..start + to'] == body[from..to']
  {
    var a, b := source[start + from..start + to'], body[from..to'];
    assert |a| == |b|;
    assert forall i :: 0 <= i < |a| ==> a[i] == source[start..start + |body|][from + i] == b[i];
  }

  /** On one line the span is exactly the old image; over two it ends with it and starts at the end of the key's line. */
  lemma SpanHoldsImage(source: string, r: Request)
    requires Locate(source, r).Ok?
    ensures var e := Locate(source, r).value;
            && r.valueLine < |LineStartOffsets(source)|
            && e.start <= e.end <= |source| && |r.oldImage| <= e.end - e.start
            && source[e.end - |r.oldImage|..e.end] == r.oldImage
            && (OnOneLine(source, r) ==> e.end - e.start == |r.oldImage| && e.text == r.newImage)
            && (!OnOneLine(source, r) ==>
                  && r.valueLine == r.keyLine + 1
                  && e.start == LineStartOffsets(source)[r.keyLine] + |BodyOf(source, r.keyLine)|
                  && e.start > 0 && (source[e.start - 1] == ':' || source[e.start - 1] == ' ' || source[e.start - 1] == '\t')
                  && e.text == if source[e.start - 1] == ':' then " " + r.newImage else r.newImage)
  {
    hide IsKeyText, IsTrailing, Continued, BodyOf, LineStartOffsets, FindValue, FindPlain;
    if OnOneLine(source, r) {
      OneLineSpan(source, r);
    } else {
      TwoLineSpan(source, r, LocateTwoLines(source, r).value);
      TwoLineText(source, r, LocateTwoLines(source, r).value);
    }
  }

  /** A space is added exactly when the key's line ends in its colon. */
  lemma TwoLineText(source: string, r: Request, e: Rewrite)
    requires LocateTwoLines(source, r) == Some(e)
    ensures e.start > 0 && e.start <= |source|
    ensures var c := source[e.start - 1];
            && (c == ':' || c == ' ' || c == '\t')
            && e.text == if c == ':' then " " + r.newImage else r.newImage
  {
    hide LineStartOffsets, FindPlain, Continued, LineBody;
    var key := BodyOf(source, r.keyLine);
    BodyInside(source, r.keyLine);
    KeyTextEnd(key);
    assert source[e.start - 1] == source[LineStartOffsets(source)[r.keyLine]..e.start][|key| - 1];
  }

  lemma KeyTextEnd(key: string)
    requires IsKeyText(key)
    ensures key != "" && (key[|key| - 1] == ':' || IsBlankChar(key[|key| - 1]))
  {
    var i := Indent(key);
    var k := i + KeyLength(key[i..]);
    var c := k + Indent(key[k..]);
    if c < |key| - 1 { assert key[|key| - 1] == key[c + 1..][|key| - c - 2]; }
  }

  lemma FoundSlice(source: string, r: Request) returns (n: nat)
    requires r.valueLine < |LineStartOffsets(source)| && OnOneLine(source, r)
    ensures var body := BodyOf(source, r.valueLine);
            && FindValue(body, r.oldImage, |body|) == Some(n)
            && n + |r.oldImage| <= |body| && body[n..n + |r.oldImage|] == r.oldImage
  {
    hide IsKeyText, IsTrailing, FindValue, BodyOf, LineStartOffsets;
    n := FindValue(BodyOf(source, r.valueLine), r.oldImage, |BodyOf(source, r.valueLine)|).value;
  }

  lemma LocateOneLine(source: string, r: Request)
    requires r.valueLine < |LineStartOffsets(source)| && OnOneLine(source, r)
    ensures var start := LineStartOffsets(source)[r.valueLine]
                       + FindValue(BodyOf(source, r.valueLine), r.oldImage, |BodyOf(source, r.valueLine)|).value;
            Locate(source, r) == Ok(Rewrite(start, start + |r.oldImage|, r.newImage))
  {
    hide LocateTwoLines, FindValue, ValueAt, BodyOf, LineStartOffsets;
  }

  lemma OneLineSpan(source: string, r: Request)
    requires r.valueLine < |LineStartOffsets(source)| && OnOneLine(source, r)
    ensures Locate(source, r).Ok?
    ensures var e := Locate(source, r).value;
            && e.start <= e.end <= |source| && e.end - e.start == |r.oldImage| && e.text == r.newImage
            && source[e.start..e.end] == r.oldImage
            && LineStartOffsets(source)[r.valueLine] <= e.start
            && e.end <= LineStartOffsets(source)[r.valueLine] + |BodyOf(source, r.valueLine)|
  {
    hide *;
    var body, first := BodyOf(source, r.valueLine), LineStartOffsets(source)[r.valueLine];
    BodyInside(source, r.valueLine);
    var n := FoundSlice(source, r);
    SliceOfBody(source, first, body, n, n + |r.oldImage|);
    LocateOneLine(source, r);
  }

  lemma TwoLineSpan(source: string, r: Request, e: Rewrite)
    requires LocateTwoLines(source, r) == Some(e)
    ensures r.valueLine == r.keyLine + 1 < |LineStartOffsets(source)|
    ensures && e.start <= e.end <= |source| && |r.oldImage| <= e.end - e.start
            && source[e.end - |r.oldImage|..e.end] == r.oldImage
            && e.start == LineStartOffsets(source)[r.keyLine] + |BodyOf(source, r.keyLine)|
            && e.end <= LineStartOffsets(source)[r.valueLine] + |BodyOf(source, r.valueLine)|
  {
    hide *;
    var n := TwoLineParts(source, r, e);
    var body := BodyOf(source, r.valueLine);
    BodyInside(source, r.valueLine);
    LineAfter(source, r.keyLine, r.valueLine);
    SliceOfBody(source, LineStartOffsets(source)[r.valueLine], body, n, n + |r.oldImage|);
  }

  lemma TwoLineParts(source: string, r: Request, e: Rewrite) returns (n: nat)
    requires LocateTwoLines(source, r) == Some(e)
    ensures r.valueLine == r.keyLine + 1 < |LineStartOffsets(source)|
    ensures var body := BodyOf(source, r.valueLine);
            && n + |r.oldImage| <= |body| && body[n..n + |r.oldImage|] == r.oldImage
            && e.start == LineStartOffsets(source)[r.keyLine] + |BodyOf(source, r.keyLine)|
            && e.end == LineStartOffsets(source)[r.valueLine] + n + |r.oldImage|
  {
    hide IsKeyText, BodyOf, LineStartOffsets, FindPlain, Continued, Indent;
    n := FindPlain(BodyOf(source, r.valueLine), r.oldImage, |BodyOf(source, r.valueLine)|).value;
  }

  // ---------- Spans of different lines ----------

  /** The earliest offset a span with that value line may start at, and the last it may end at. */
  lemma SpanOnItsLines(source: string, r: Request)
    requires Locate(source, r).Ok?
    ensures r.valueLine < |LineStartOffsets(source)|
    ensures var e := Locate(source, r).value;
            && e.start <= e.end <= LineStartOffsets(source)[r.valueLine] + |BodyOf(source, r.valueLine)|
            && (e.start >= LineStartOffsets(source)[r.valueLine]
                || (r.valueLine > 0
                    && e.start == LineStartOffsets(source)[r.valueLine - 1] + |BodyOf(source, r.valueLine - 1)|))
  {
    hide IsKeyText, IsTrailing, Continued, BodyOf, LineStartOffsets, FindValue, FindPlain;
    if OnOneLine(source, r) {
      OneLineSpan(source, r);
    } else {
      TwoLineSpan(source, r, LocateTwoLines(source, r).value);
    }
  }

  lemma LineAfter(source: string, i: nat, j: nat)
    requires i < j < |LineStartOffsets(source)|
    ensures LineStartOffsets(source)[i] + |BodyOf(source, i)| < LineStartOffsets(source)[j]
    ensures LineStartOffsets(source)[i] + |BodyOf(source, i)|
         <= LineStartOffsets(source)[j - 1] + |BodyOf(source, j - 1)|
  {
    LinesInOrder(source, i, j);
    if i < j - 1 {
      LinesInOrder(source, i, j - 1);
    }
  }

  /** Values on different lines: one span ends where the other has not begun. */
  lemma SpansApart(source: string, a: Request, b: Request)
    requires Locate(source, a).Ok? && Locate(source, b).Ok? && a.valueLine < b.valueLine
    ensures Locate(source, a).value.end <= Locate(source, b).value.start
    ensures a.oldImage != "" ==> Locate(source, a).value.start < Locate(source, b).value.start
  {
    hide *;
    SpanOnItsLines(source, a);
    SpanOnItsLines(source, b);
    SpanHoldsImage(source, a);
    LineAfter(source, a.valueLine, b.valueLine);
  }

  function LocateAll(source: string, requests: seq<Request>): (r: Result<seq<Rewrite>, string>)
    ensures r.Ok? ==> |r.value| == |requests| &&
                      forall i :: 0 <= i < |requests| ==> Locate(source, requests[i]) == Ok(r.value[i])
  {
    if requests == [] then Ok([])
    else
      var first :- Locate(source, requests[0]);
      var rest :- LocateAll(source, requests[1..]);
      Ok([first] + rest)
  }

  /** The parser reports one value for a line. */
  ghost predicate OneValuePerLine(requests: seq<Request>) {
    forall i, j :: 0 <= i < |requests| && 0 <= j < |requests| && requests[i].valueLine == requests[j].valueLine ==>
      requests[i].keyLine == requests[j].keyLine && requests[i].oldImage == requests[j].oldImage
  }

  /** `_reject_duplicate_image_span` has let every span pass. */
  ghost predicate NoDuplicateSpan(rewrites: seq<Rewrite>) {
    forall i, j :: 0 <= i < j < |rewrites| ==>
      (rewrites[i].start, rewrites[i].end) != (rewrites[j].start, rewrites[j].end)
  }

  /** Spans that are not rejected as duplicates are those of values on different lines. */
  lemma SameLineSameSpan(source: string, a: Request, b: Request)
    requires Locate(source, a).Ok? && Locate(source, b).Ok?
    requires a.valueLine == b.valueLine && a.keyLine == b.keyLine && a.oldImage == b.oldImage
    ensures Locate(source, a).value.start == Locate(source, b).value.start
    ensures Locate(source, a).value.end == Locate(source, b).value.end
  {
  }

  /** Rejecting duplicate spans suffices: the remaining edits can be spliced in any listed order. */
  lemma LocatedSpansSplice(source: string, requests: seq<Request>)
    requires LocateAll(source, requests).Ok? && OneValuePerLine(requests)
    requires NoDuplicateSpan(LocateAll(source, requests).value)
    requires forall i :: 0 <= i < |requests| ==> requests[i].oldImage != ""
    ensures Spans(multiset(LocateAll(source, requests).value), |source|)
    ensures DistinctStarts(multiset(LocateAll(source, requests).value))
  {
    var rewrites := LocateAll(source, requests).value;
    forall i, j | 0 <= i < j < |rewrites|
      ensures Disjoint(rewrites[i], rewrites[j]) && rewrites[i].start != rewrites[j].start
    {
      var a, b := requests[i], requests[j];
      assert Locate(source, a) == Ok(rewrites[i]) && Locate(source, b) == Ok(rewrites[j]);
      if a.valueLine < b.valueLine {
        SpansApart(source, a, b);
      } else if b.valueLine < a.valueLine {
        SpansApart(source, b, a);
      } else {
        SameLineSameSpan(source, a, b);
      }
    }
    forall i | 0 <= i < |rewrites| ensures rewrites[i].start <= rewrites[i].end <= |source| {
      assert Locate(source, requests[i]) == Ok(rewrites[i]);
      SpanHoldsImage(source, requests[i]);
    }
    PairwiseSpans(rewrites, |source|);
  }

  lemma PairwiseSpans(rewrites: seq<Rewrite>, length: nat)
    requires forall i, j :: 0 <= i < j < |rewrites| ==>
               Disjoint(rewrites[i], rewrites[j]) && rewrites[i].start != rewrites[j].start
    requires forall i :: 0 <= i < |rewrites| ==> rewrites[i].start <= rewrites[i].end <= length
    ensures Spans(multiset(rewrites), length) && DistinctStarts(multiset(rewrites))
  {
    forall r | r in multiset(rewrites) ensures r.start <= r.end <= length {
      assert r in rewrites;
    }
    forall a, b | a in multiset(rewrites) && b in multiset(rewrites) && (a != b || multiset(rewrites)[a] > 1)
      ensures Disjoint(a, b) && a.start != b.start
    {
      var i, j := TwoPlaces(rewrites, a, b);
      if i > j {
        assert Disjoint(rewrites[j], rewrites[i]);
      }
    }
  }

  lemma TwoPlaces(s: seq<Rewrite>, a: Rewrite, b: Rewrite) returns (i: nat, j: nat)
    requires a in multiset(s) && b in multiset(s) && (a != b || multiset(s)[a] > 1)
    ensures i < |s| && j < |s| && i != j && s[i] == a && s[j] == b
  {
    assert a in s && b in s;
    i :| 0 <= i < |s| && s[i] == a;
    if a != b {
      j :| 0 <= j < |s| && s[j] == b;
    } else {
      assert s == s[..i] + [s[i]] + s[i + 1..];
      assert multiset(s) == multiset(s[..i]) + multiset{a} + multiset(s[i + 1..]);
      var rest := s[..i] + s[i + 1..];
      assert a in s[..i] || a in s[i + 1..];
      if a in s[..i] {
        j :| 0 <= j < i && s[..i][j] == a;
      } else {
        var k :| 0 <= k < |s| - i - 1 && s[i + 1..][k] == a;
        j := i + 1 + k;
      }
    }
  }

  lemma {:induction false} LocateAllIff(source: string, requests: seq<Request>)
    ensures LocateAll(source, requests).Ok? <==> forall i :: 0 <= i < |requests| ==> Locate(source, requests[i]).Ok?
  {
    hide Locate;
    if requests != [] {
      LocateAllIff(source, requests[1..]);
      assert forall i :: 0 < i < |requests| ==> requests[i] == requests[1..][i - 1];
    }
  }

  /**
   Locating, rejecting duplicates and splicing: an error for a span that is not found or comes
   twice, otherwise the text with exactly the located edits made, all at once.
   */
  method RewriteImages(source: string, requests: seq<Request>) returns (r: Result<string, string>)
    requires OneValuePerLine(requests) && forall i :: 0 <= i < |requests| ==> requests[i].oldImage != ""
    ensures r.Ok? <==> LocateAll(source, requests).Ok? && NoDuplicateSpan(LocateAll(source, requests).value)
    ensures r.Ok? ==> AllAtOnce(source, multiset(LocateAll(source, requests).value), r.value)
  {
    hide Locate, LocateAll, AllAtOnce;
    LocateAllIff(source, requests);
    var rewrites: seq<Rewrite> := [];
    for i := 0 to |requests|
      invariant |rewrites| == i && NoDuplicateSpan(rewrites)
      invariant forall j :: 0 <= j < i ==> Locate(source, requests[j]) == Ok(rewrites[j])
    {
      var found := Locate(source, requests[i]);
      if found.Raise? {
        return Raise(found.error);
      }
      if exists k :: 0 <= k < i && rewrites[k].start == found.value.start && rewrites[k].end == found.value.end {
        return Raise("image was selected more than once");
      }
      rewrites := rewrites + [found.value];
    }
    assert rewrites == LocateAll(source, requests).value;
    LocatedSpansSplice(source, requests);
    var rendered := SpliceRewrites(source, rewrites, true);
    return Ok(rendered);
  }
}
