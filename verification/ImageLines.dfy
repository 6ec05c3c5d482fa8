/**
 Which lines hold the image of a service (src/wudup/compose_source.py): the two line patterns of
 the locator as grammars.
 */
module ImageLines {
  import opened Ordering
  import opened SourceLines
  import opened Splice
  import opened ImageSpans
  import FlowScanner

  // ---------- The grammars ----------

  ghost predicate Blanks(s: string) {
    forall i :: 0 <= i < |s| ==> s[i] == ' ' || s[i] == '\t'
  }

  ghost predicate Quote(s: string) {
    s == "'" || s == "\""
  }

  /** `image`, or in quotes that need not be the same. */
  ghost predicate KeyWord(key: string) {
    key == "image" || exists open, close :: Quote(open) && Quote(close) && key == open + "image" + close
  }

  /** Indentation, the key and its colon, with blanks round it. */
  ghost predicate KeyLine(line: string, indent: string) {
    exists key, gap, after ::
      Blanks(indent) && KeyWord(key) && Blanks(gap) && Blanks(after) && line == indent + (key + (gap + (":" + after)))
  }

  ghost predicate Trailing(s: string) {
    Blanks(s) || exists gap, comment :: Blanks(gap) && s == gap + ("#" + comment)
  }

  /** The key, the image in one pair of quotes or none, and perhaps a comment. */
  ghost predicate ImageLine(line: string, image: string, n: nat) {
    exists head, indent, quote, tail ::
      && KeyLine(head, indent) && (quote == "" || Quote(quote)) && Trailing(tail)
      && line == head + quote + (image + (quote + tail)) && n == |head + quote|
  }

  /** The image alone on a line that is indented. */
  ghost predicate ValueLine(line: string, image: string, n: nat) {
    exists indent, tail :: indent != "" && Blanks(indent) && Blanks(tail) && line == indent + (image + tail) && n == |indent|
  }

  // ---------- The scans decide them ----------

  lemma BlanksIff(s: string)
    ensures Blanks(s) <==> AllBlank(s)
  {
  }

  /** The first character that is no blank ends the indentation. */
  lemma IndentIs(indent: string, rest: string)
    requires AllBlank(indent) && (rest != "" ==> !IsBlankChar(rest[0]))
    ensures Indent(indent + rest) == |indent|
  {
    var s := indent + rest;
    var n := Indent(s);
    assert forall i :: 0 <= i < |indent| ==> s[i] == indent[i];
    assert rest != "" ==> s[|indent|] == rest[0];
    assert forall i :: 0 <= i < n ==> s[..n][i] == s[i];
  }

  lemma KeyWordIff(key: string, rest: string)
    requires rest != "" && (IsBlankChar(rest[0]) || rest[0] == ':')
    ensures KeyWord(key) ==> KeyLength(key + rest) == |key| > 0 && !IsBlankChar(key[0])
  {
    if key == "image" {
      assert (key + rest)[..5] == "image";
    } else if open, close :| Quote(open) && Quote(close) && key == open + "image" + close {
      QuotedKey(open[0], close[0], rest);
      assert open == [open[0]] && close == [close[0]];
    }
  }

  lemma QuotedKey(open: char, close: char, rest: string)
    ensures var s := [open] + "image" + [close] + rest; |s| >= 7 && s[0] == open && s[1..6] == "image" && s[6] == close
  {
  }

  lemma KeyLengthGives(s: string)
    ensures KeyLength(s) > 0 ==> KeyWord(s[..KeyLength(s)])
  {
    if KeyLength(s) == 7 {
      assert s[..7] == [s[0]] + "image" + [s[6]];
      assert Quote([s[0]]) && Quote([s[6]]);
    }
  }

  lemma KeyTextIff(line: string)
    ensures IsKeyText(line) <==> exists indent :: KeyLine(line, indent)
    ensures IsKeyText(line) ==> KeyLine(line, line[..Indent(line)])
    ensures forall indent :: KeyLine(line, indent) ==> |indent| == Indent(line)
  {
    if IsKeyText(line) { KeyTextGives(line); }
    forall indent | KeyLine(line, indent) ensures IsKeyText(line) && |indent| == Indent(line) {
      KeyLineGives(line, indent);
    }
  }

  lemma KeyTextPlaces(line: string) returns (i: nat, k: nat, c: nat)
    requires IsKeyText(line)
    ensures i == Indent(line) < k <= c < |line| && line[c] == ':' && KeyLength(line[i..]) == k - i
    ensures AllBlank(line[..i]) && AllBlank(line[k..][..c - k]) && AllBlank(line[c + 1..])
  {
    i := Indent(line);
    k := i + KeyLength(line[i..]);
    c := k + Indent(line[k..]);
  }

  lemma KeyTextAt(line: string, i: nat, k: nat, c: nat)
    requires Indent(line) == i < k <= c < |line| && KeyLength(line[i..]) == k - i && Indent(line[k..]) == c - k
    requires line[c] == ':' && AllBlank(line[c + 1..])
    ensures IsKeyText(line)
  {
    hide Indent, KeyLength, AllBlank;
  }

  lemma KeyLineFrom(indent: string, key: string, gap: string, after: string)
    requires Blanks(indent) && KeyWord(key) && Blanks(gap) && Blanks(after)
    ensures KeyLine(indent + (key + (gap + (":" + after))), indent)
  {
    hide Blanks, KeyWord;
  }

  lemma KeyLineParts(line: string, indent: string) returns (key: string, gap: string, after: string)
    requires KeyLine(line, indent)
    ensures Blanks(indent) && KeyWord(key) && Blanks(gap) && Blanks(after)
    ensures line == indent + (key + (gap + (":" + after)))
  {
    hide Blanks, KeyWord;
    key, gap, after :| Blanks(indent) && KeyWord(key) && Blanks(gap) && Blanks(after)
                       && line == indent + (key + (gap + (":" + after)));
  }

  lemma KeyTextGives(line: string)
    requires IsKeyText(line)
    ensures KeyLine(line, line[..Indent(line)])
  {
    hide *;
    var i, k, c := KeyTextPlaces(line);
    KeyParts(line, i, k, c);
    KeyLengthGives(line[i..]);
    BlanksIff(line[..i]);
    BlanksIff(line[k..c]);
    BlanksIff(line[c + 1..]);
    KeyLineFrom(line[..i], line[i..k], line[k..c], line[c + 1..]);
  }

  lemma KeyParts(line: string, i: nat, k: nat, c: nat)
    requires i <= k <= c < |line| && line[c] == ':'
    ensures line[i..][..k - i] == line[i..k] && line[k..][..c - k] == line[k..c]
    ensures line == line[..i] + (line[i..k] + (line[k..c] + (":" + line[c + 1..])))
  {
  }

  lemma KeyLineGives(line: string, indent: string)
    requires KeyLine(line, indent)
    ensures IsKeyText(line) && |indent| == Indent(line)
  {
    hide *;
    var key, gap, after := KeyLineParts(line, indent);
    BlanksIff(indent);
    BlanksIff(gap);
    BlanksIff(after);
    GapStarts(gap, after);
    KeyWordIff(key, gap + (":" + after));
    KeyStarts(key, gap + (":" + after));
    IndentIs(indent, key + (gap + (":" + after)));
    ColonStarts(after);
    IndentIs(gap, ":" + after);
    KeySlices(line, indent, key, gap, after);
    KeyTextAt(line, |indent|, |indent| + |key|, |indent| + |key| + |gap|);
  }

  lemma KeyStarts(key: string, rest: string)
    requires key != "" && !IsBlankChar(key[0])
    ensures key + rest != "" && !IsBlankChar((key + rest)[0])
  {
  }

  lemma ColonStarts(after: string)
    ensures !IsBlankChar((":" + after)[0])
  {
  }

  lemma KeySlices(line: string, indent: string, key: string, gap: string, after: string)
    requires line == indent + (key + (gap + (":" + after)))
    ensures line[|indent|..] == key + (gap + (":" + after))
    ensures line[|indent| + |key|..] == gap + (":" + after)
    ensures var c := |indent| + |key| + |gap|; c < |line| && line[c] == ':' && line[c + 1..] == after
  {
  }

  lemma GapStarts(gap: string, after: string)
    requires AllBlank(gap)
    ensures var rest := gap + (":" + after);
            rest != "" && (IsBlankChar(rest[0]) || rest[0] == ':')
  {
  }

  lemma TrailingIff(s: string)
    ensures Trailing(s) <==> IsTrailing(s)
  {
    hide Indent;
    BlanksIff(s);
    var n := Indent(s);
    if IsTrailing(s) {
      if n == |s| {
        assert s[..n] == s;
      } else {
        BlanksIff(s[..n]);
        assert s == s[..n] + ("#" + s[n + 1..]);
      }
    }
    if Blanks(s) {
      assert s + "" == s;
      IndentIs(s, "");
    } else if gap, comment :| Blanks(gap) && s == gap + ("#" + comment) {
      BlanksIff(gap);
      IndentIs(gap, "#" + comment);
    }
  }

  /** The place of the image in a line of its own pattern, quoted or not. */
  lemma ValueIff(line: string, image: string, n: nat)
    ensures ValueAt(line, image, n, 0) || ValueAt(line, image, n, 1) <==> ImageLine(line, image, n)
  {
    hide IsKeyText, IsTrailing, KeyLine, Trailing;
    if ValueAt(line, image, n, 0) { ValueGives(line, image, n, 0); }
    if ValueAt(line, image, n, 1) { ValueGives(line, image, n, 1); }
    if head, indent, quote, tail :| KeyLine(head, indent) && (quote == "" || Quote(quote)) && Trailing(tail)
                                    && line == head + quote + (image + (quote + tail)) && n == |head + quote| {
      KeyTextIff(head);
      TrailingIff(tail);
      LineGives(line, image, head, quote, tail);
    }
  }

  lemma ValueGives(line: string, image: string, n: nat, q: nat)
    requires ValueAt(line, image, n, q)
    ensures ImageLine(line, image, n)
  {
    hide IsKeyText, IsTrailing, KeyLine, Trailing;
    var head, quote, tail := line[..n - q], line[n - q..n], line[n + |image| + q..];
    KeyTextIff(head);
    TrailingIff(tail);
    assert line[n + |image|..n + |image| + q] == quote;
    assert line == head + quote + (image + (quote + tail));
    assert q == 1 ==> quote == [line[n - 1]];
  }

  lemma LineGives(line: string, image: string, head: string, quote: string, tail: string)
    requires line == head + quote + (image + (quote + tail)) && (quote == "" || Quote(quote))
    requires IsKeyText(head) && IsTrailing(tail)
    ensures ValueAt(line, image, |head + quote|, |quote|)
  {
    hide IsKeyText, IsTrailing;
    var n, q := |head + quote|, |quote|;
    assert line[..n - q] == head && line[n..n + |image|] == image && line[n + |image| + q..] == tail;
    if q == 1 {
      assert line[n - 1] == quote[0] && line[n + |image|] == quote[0];
    }
  }

  /** On one line the image is found if and only if the line has the pattern, at the rightmost place. */
  lemma OnOneLineIff(source: string, r: Request)
    requires r.valueLine < |LineStartOffsets(source)|
    ensures OnOneLine(source, r) <==> exists n :: ImageLine(BodyOf(source, r.valueLine), r.oldImage, n)
    ensures OnOneLine(source, r) ==>
              exists n :: ImageLine(BodyOf(source, r.valueLine), r.oldImage, n)
                          && Locate(source, r).Ok?
                          && Locate(source, r).value.start == LineStartOffsets(source)[r.valueLine] + n
                          && forall k :: ImageLine(BodyOf(source, r.valueLine), r.oldImage, k) ==> k <= n
  {
    hide ValueAt, ImageLine, LineStartOffsets, BodyOf, LocateTwoLines, FindValue;
    var line := BodyOf(source, r.valueLine);
    forall n: nat ensures ValueAt(line, r.oldImage, n, 0) || ValueAt(line, r.oldImage, n, 1) <==> ImageLine(line, r.oldImage, n) {
      ValueIff(line, r.oldImage, n);
    }
    forall n: nat | ImageLine(line, r.oldImage, n) ensures n <= |line| {
      InLine(line, r.oldImage, n);
    }
    if OnOneLine(source, r) {
      LocateOneLine(source, r);
      Rightmost(line, r.oldImage, |line|);
    }
  }

  lemma InLine(line: string, image: string, n: nat)
    requires ImageLine(line, image, n)
    ensures n <= |line|
  {
    hide KeyLine, Trailing;
  }

  lemma {:induction false} Rightmost(line: string, image: string, n: nat)
    requires FindValue(line, image, n).Some?
    ensures forall k, q :: 0 <= k <= n && 0 <= q && ValueAt(line, image, k, q) ==> k <= FindValue(line, image, n).value
  {
    hide ValueAt;
    if !(ValueAt(line, image, n, 0) || ValueAt(line, image, n, 1)) && n > 0 {
      Rightmost(line, image, n - 1);
      forall q: nat ensures !ValueAt(line, image, n, q) {
        AtMostOneQuote(line, image, n, q);
      }
    }
  }

  lemma AtMostOneQuote(line: string, image: string, n: nat, q: nat)
    ensures ValueAt(line, image, n, q) ==> q == 0 || q == 1
  {
    hide IsKeyText, IsTrailing;
  }

  lemma PlainIff(line: string, image: string, n: nat)
    ensures PlainAt(line, image, n) <==> ValueLine(line, image, n)
  {
    if PlainAt(line, image, n) {
      BlanksIff(line[..n]);
      BlanksIff(line[n + |image|..]);
      assert line == line[..n] + (image + line[n + |image|..]);
    }
    if indent, tail :| indent != "" && Blanks(indent) && Blanks(tail) && line == indent + (image + tail) && n == |indent| {
      assert line[..n] == indent && line[n..n + |image|] == image && line[n + |image|..] == tail;
    }
  }

  /** The line is there, is not blank, and starts with more than `width` blanks. */
  ghost predicate GoesOn(source: string, line: nat, width: nat) {
    line < |LineStartOffsets(source)|
    && var body := BodyOf(source, line);
       width < |body| && Blanks(body[..width + 1]) && exists c :: c in body && !FlowScanner.IsSpace(c)
  }

  lemma GoesOnIff(source: string, line: nat, width: nat)
    ensures GoesOn(source, line, width) <==> Continued(source, line, width)
  {
    hide LineStartOffsets, BodyOf;
    if line < |LineStartOffsets(source)| {
      var body := BodyOf(source, line);
      WiderIff(body, width);
    }
  }

  lemma WiderIff(body: string, width: nat)
    ensures Indent(body) > width <==> width < |body| && Blanks(body[..width + 1])
  {
    var n := Indent(body);
    assert forall i :: 0 <= i < n ==> body[..n][i] == body[i];
    if width < |body| {
      BlanksIff(body[..width + 1]);
      assert forall i :: 0 <= i < width + 1 ==> body[..width + 1][i] == body[i];
    }
  }

  /** Over two lines: the key alone, the image alone and indented further, and no line that continues it. */
  ghost predicate OverTwoLines(source: string, r: Request) {
    && r.valueLine == r.keyLine + 1 < |LineStartOffsets(source)|
    && exists indent, n: nat ::
         && KeyLine(BodyOf(source, r.keyLine), indent)
         && ValueLine(BodyOf(source, r.valueLine), r.oldImage, n) && n > |indent|
         && !GoesOn(source, r.valueLine + 1, |indent|)
  }

  lemma TwoLinesIff(source: string, r: Request)
    ensures LocateTwoLines(source, r).Some? <==> OverTwoLines(source, r)
  {
    hide LineStartOffsets, BodyOf, FindPlain, PlainAt, ValueLine, KeyLine, Continued, GoesOn, IsKeyText, Indent;
    if r.valueLine == r.keyLine + 1 < |LineStartOffsets(source)| {
      GoesOnIff(source, r.valueLine + 1, Indent(BodyOf(source, r.keyLine)));
      var key, value := BodyOf(source, r.keyLine), BodyOf(source, r.valueLine);
      KeyTextIff(key);
      forall n: nat
        ensures PlainAt(value, r.oldImage, n) <==> ValueLine(value, r.oldImage, n)
        ensures ValueLine(value, r.oldImage, n) ==> n <= |value|
      {
        PlainIff(value, r.oldImage, n);
        PlainInside(value, r.oldImage, n);
      }
      if FindPlain(value, r.oldImage, |value|).Some? { LargestPlain(value, r.oldImage, |value|); }
    }
  }

  lemma PlainInside(line: string, image: string, n: nat)
    ensures PlainAt(line, image, n) ==> n <= |line|
  {
  }

  lemma {:induction false} LargestPlain(line: string, image: string, n: nat)
    requires FindPlain(line, image, n).Some?
    ensures forall k: nat :: k <= n && PlainAt(line, image, k) ==> k <= FindPlain(line, image, n).value
  {
    hide PlainAt;
    if !PlainAt(line, image, n) && n > 0 { LargestPlain(line, image, n - 1); }
  }

  /** An image is located if and only if it stands in one of the two patterns. */
  lemma LocatedIff(source: string, r: Request)
    ensures Locate(source, r).Ok? <==>
            && r.valueLine < |LineStartOffsets(source)|
            && ((exists n :: ImageLine(BodyOf(source, r.valueLine), r.oldImage, n)) || OverTwoLines(source, r))
  {
    hide LineStartOffsets, BodyOf, ImageLine, OverTwoLines, LocateTwoLines, FindValue;
    if r.valueLine < |LineStartOffsets(source)| {
      OnOneLineIff(source, r);
      TwoLinesIff(source, r);
    }
  }
}
