/**
 Inserting one label into a flow collection (src/wudup/compose_source.py): the edits the
 source computes, and that applying them adds exactly one entry and touches nothing else.
 */
module FlowInsert {
  import opened Ordering
  import opened FlowScanner
  import opened FlowEntries
  import opened SourceLines
  import opened Splice

  datatype InsertError = ScanFailed(error: FlowError) | UnsupportedMultiline

  /** A position the parser reports for an existing label. */
  datatype Location = Location(line: nat, column: nat)

  predicate Blank(text: string) {
    forall c :: c in text ==> IsSpace(c)
  }

  function Prefix(text: string, n: nat): (r: string)
    ensures r <= text && |r| == if n < |text| then n else |text|
  {
    if n < |text| then text[..n] else text
  }

  /** What stands on the label's line before it. */
  function IndentOf(source: string, at: Location): (indent: string)
    requires at.line < |LineStartOffsets(source)|
    ensures var start := LineStartOffsets(source)[at.line];
            && start + |indent| <= |source| && indent == source[start..start + |indent|]
            && |indent| == if at.column < |LineBody(source, start)| then at.column else |LineBody(source, start)|
  {
    OffsetBound(source, at.line);
    Prefix(LineBody(source, LineStartOffsets(source)[at.line]), at.column)
  }

  /** A label below the opening line with nothing but white space before it. */
  predicate OnOwnLine(source: string, at: Location, collectionStart: nat)
    requires collectionStart <= |source|
  {
    at.line < |LineStartOffsets(source)| && at.line > CountLineFeeds(source[..collectionStart])
    && Blank(IndentOf(source, at))
  }

  ghost predicate FirstOnOwnLine(locations: seq<Location>, source: string, collectionStart: nat, k: nat)
    requires collectionStart <= |source|
  {
    && k < |locations| && OnOwnLine(source, locations[k], collectionStart)
    && forall j :: 0 <= j < k ==> !OnOwnLine(source, locations[j], collectionStart)
  }

  /** The indentation of the first label on a line of its own or, without one, the closing bracket's and two spaces. */
  ghost predicate IndentIs(locations: seq<Location>, source: string, collectionStart: nat, closingPrefix: string,
                           indent: string)
    requires collectionStart <= |source|
  {
    && (forall k: nat :: FirstOnOwnLine(locations, source, collectionStart, k) ==> indent == IndentOf(source, locations[k]))
    && ((forall k :: 0 <= k < |locations| ==> !OnOwnLine(source, locations[k], collectionStart)) ==>
          indent == closingPrefix + "  ")
  }

  /** The indentation of the first label on a line of its own, or the closing bracket's plus two. */
  method MultilineFlowLabelIndent(locations: seq<Location>, source: string, lineOffsets: seq<nat>,
                                  collectionStart: nat, closingPrefix: string) returns (indent: string)
    requires collectionStart <= |source| && lineOffsets == LineStartOffsets(source)
    requires forall i :: 0 <= i < |locations| ==> locations[i].line < |lineOffsets|
    requires Blank(closingPrefix)
    ensures Blank(indent)
    ensures IndentIs(locations, source, collectionStart, closingPrefix, indent)
  {
    hide *;
    var openingLine := CountLineFeeds(source[..collectionStart]);
    for i := 0 to |locations|
      invariant forall j :: 0 <= j < i ==> !OnOwnLine(source, locations[j], collectionStart)
    {
      OwnLineIs(source, locations[i], collectionStart);
      if locations[i].line > openingLine {
        OffsetBound(source, locations[i].line);
        var body := LineBody(source, lineOffsets[locations[i].line]);
        if Blank(Prefix(body, locations[i].column)) {
          FirstDecides(locations, source, collectionStart, closingPrefix, i);
          return Prefix(body, locations[i].column);
        }
      }
    }
    NoneDecides(locations, source, collectionStart, closingPrefix);
    return closingPrefix + "  ";
  }

  lemma OwnLineIs(source: string, at: Location, collectionStart: nat)
    requires collectionStart <= |source| && at.line < |LineStartOffsets(source)|
    ensures LineStartOffsets(source)[at.line] <= |source|
    ensures IndentOf(source, at) == Prefix(LineBody(source, LineStartOffsets(source)[at.line]), at.column)
    ensures OnOwnLine(source, at, collectionStart) <==>
            at.line > CountLineFeeds(source[..collectionStart]) && Blank(IndentOf(source, at))
  {
    OffsetBound(source, at.line);
  }

  lemma FirstDecides(locations: seq<Location>, source: string, collectionStart: nat, closingPrefix: string, k: nat)
    requires collectionStart <= |source| && k < |locations| && OnOwnLine(source, locations[k], collectionStart)
    requires forall j :: 0 <= j < k ==> !OnOwnLine(source, locations[j], collectionStart)
    ensures IndentIs(locations, source, collectionStart, closingPrefix, IndentOf(source, locations[k]))
  {
    hide IndentOf, OnOwnLine;
  }

  lemma NoneDecides(locations: seq<Location>, source: string, collectionStart: nat, closingPrefix: string)
    requires collectionStart <= |source| && Blank(closingPrefix)
    requires forall j :: 0 <= j < |locations| ==> !OnOwnLine(source, locations[j], collectionStart)
    ensures IndentIs(locations, source, collectionStart, closingPrefix, closingPrefix + "  ")
    ensures Blank(closingPrefix + "  ")
  {
    hide IndentOf, OnOwnLine;
  }

  /** What stands on the closing bracket's line before it. */
  function ClosingLineStart(source: string, start: nat, close: nat): (n: nat)
    requires start <= close <= |source|
    ensures n <= close
    ensures '\n' in source[start..close] ==> start < n && source[n - 1] == '\n' && '\n' !in source[n..close]
  {
    (LastLineFeed(source, start, close) + 1) as nat
  }

  /** The multi-line collection's closing bracket shares its line with other text. */
  ghost predicate ClosingLineOccupied(source: string, start: nat, end: nat)
    requires start < end <= |source|
  {
    '\n' in source[start..end] && !Blank(source[ClosingLineStart(source, start, end - 1)..end - 1])
  }

  /**
   * Applying `rewrites` turns the collection `p` at `start` into one with the same brackets
   * and entries plus `entry`, and keeps the text around it. Every edit is an insertion.
   */
  ghost predicate AddsEntry(source: string, start: nat, p: Piece, entry: seq<Piece>, rewrites: seq<Rewrite>)
    requires CollectionAt(source, start, p)
  {
    && (forall r :: r in rewrites ==> r.start == r.end)
    && Chained(rewrites, 0, |source|)
    && exists q :: Collection(q) && q.open == p.open
         && Entries(q.items) == Entries(p.items) + [entry]
         && Substitute(source, 0, rewrites)
            == source[..start] + RenderPiece(q) + source[start + |RenderPiece(p)|..]
  }

  // ---------- Where the pieces of the collection stand in the source ----------

  /** The entries in front of the trailing trivia, and that trivia. */
  ghost predicate Layout(source: string, start: nat, p: Piece, front: seq<Piece>, trail: seq<Piece>)
    requires CollectionAt(source, start, p)
  {
    && p.items == front + trail && AllTrivia(trail)
    && (front != [] ==> !IsTrivia(front[|front| - 1]))
    && BoundsOf(p, start).last == start + |Render(front)|
  }

  lemma SplitItems(source: string, start: nat, p: Piece) returns (front: seq<Piece>, trail: seq<Piece>)
    requires CollectionAt(source, start, p)
    ensures Layout(source, start, p, front, trail)
  {
    var k := LastSignificantSplits(p.items, start + 1, start);
    front, trail := p.items[..k], p.items[k..];
    assert k == 0 ==> front == [];
  }

  /** The source around and inside the collection, cut at `front`, `trail` and the brackets. */
  lemma LayoutText(source: string, start: nat, p: Piece, front: seq<Piece>, trail: seq<Piece>)
    requires CollectionAt(source, start, p) && Layout(source, start, p, front, trail)
    ensures var q := start + 1 + |Render(front)|;
            var close := q + |Render(trail)|;
            && close + 1 == start + |RenderPiece(p)| <= |source|
            && source[start] == p.open && source[close] == CloseOf(p.open)
            && source[start + 1..q] == Render(front)
            && source[q..close] == Render(trail)
            && At(source, q, Render(trail))
    ensures ItemsOk(front, false) && ItemsOk(trail, false)
  {
    BracketsAround(source, start, p);
    LayoutJoins(source, start, p, front, trail);
    hide *;
    RenderConcat(front, trail);
    BracketsCut(source, start, p.open, Render(front), Render(trail));
    ItemsOkConcat(front, trail, false);
  }

  lemma BracketsCut(source: string, start: nat, open: char, a: string, b: string)
    requires At(source, start, [open] + (a + b) + [CloseOf(open)])
    ensures var q := start + 1 + |a|;
            var close := q + |b|;
            && close < |source| && source[start] == open && source[close] == CloseOf(open)
            && source[start + 1..q] == a && source[q..close] == b && At(source, q, b)
  {
    hide At, CloseOf;
    var text := [open] + (a + b) + [CloseOf(open)];
    AtCharacter(source, start, text, 0);
    AtCharacter(source, start, text, |text| - 1);
    assert text == [open] + (a + (b + [CloseOf(open)]));
    AtSplit(source, start, [open], a + (b + [CloseOf(open)]));
    AtSplit(source, start + 1, a, b + [CloseOf(open)]);
    AtSplit(source, start + 1 + |a|, b, [CloseOf(open)]);
    AtSlice(source, start + 1, a);
    AtSlice(source, start + 1 + |a|, b);
  }

  lemma AtCharacter(source: string, index: nat, text: string, n: nat)
    requires At(source, index, text) && n < |text|
    ensures index + n < |source| && source[index + n] == text[n]
  {
    assert source[index..index + |text|][n] == source[index + n];
  }

  lemma BracketsAround(source: string, start: nat, p: Piece)
    requires CollectionAt(source, start, p)
    ensures IsOpen(p.open) && ItemsOk(p.items, false)
    ensures At(source, start, [p.open] + Render(p.items) + [CloseOf(p.open)])
    ensures |RenderPiece(p)| == |Render(p.items)| + 2 && start + |RenderPiece(p)| <= |source|
  {
  }

  lemma LayoutJoins(source: string, start: nat, p: Piece, front: seq<Piece>, trail: seq<Piece>)
    requires CollectionAt(source, start, p) && Layout(source, start, p, front, trail)
    ensures p.items == front + trail
  {
  }

  lemma AtSlice(source: string, index: nat, text: string)
    requires At(source, index, text)
    ensures index + |text| <= |source| && source[index..index + |text|] == text
  {
  }

  lemma LastCharacterOf(p: Piece, afterSpace: bool)
    requires PieceOk(p, afterSpace) && !IsTrivia(p)
    ensures var c := RenderPiece(p)[|RenderPiece(p)| - 1]; !IsSpace(c) && (c == ',' <==> p == COMMA)
  {
  }

  /** The last significant character decides whether a comma is needed. */
  lemma LastSignificantCharacter(source: string, start: nat, p: Piece, front: seq<Piece>, trail: seq<Piece>)
    requires CollectionAt(source, start, p) && Layout(source, start, p, front, trail)
    ensures var last := start + |Render(front)|;
            && last < |source| && !IsSpace(source[last])
            && (NeedsComma(front) <==> last != start && source[last] != ',')
  {
    LayoutText(source, start, p, front, trail);
    if front != [] {
      LastOfItems(front);
      var m := |Render(front)|;
      hide Render, RenderPiece, PieceOk, ItemsOk;
      assert source[start + m] == source[start + 1..start + 1 + m][m - 1] == Render(front)[m - 1];
    }
  }

  lemma LastOfItems(front: seq<Piece>)
    requires front != [] && ItemsOk(front, false) && !IsTrivia(front[|front| - 1])
    ensures Render(front) != []
    ensures var c := Render(front)[|Render(front)| - 1]; !IsSpace(c) && (c != ',' <==> NeedsComma(front))
  {
    var n := |front| - 1;
    var piece := front[n];
    assert front == front[..n] + [piece];
    RenderConcat(front[..n], [piece]);
    assert Render([piece]) == RenderPiece(piece) + [];
    ItemsOkConcat(front[..n], [piece], false);
    LastCharacterOf(piece, SpaceAfter(front[..n], false));
  }

  // ---------- The inserted text ----------

  /** The edits: a comma at `q` if one is needed, and `text` at `r`. */
  function Insertions(comma: bool, q: nat, r: nat, text: string): seq<Rewrite> {
    if comma then [Rewrite(q, q, ","), Rewrite(r, r, text)] else [Rewrite(r, r, text)]
  }

  lemma SubstituteOne(source: string, from: nat, at: nat, text: string)
    requires from <= at <= |source|
    ensures Chained([Rewrite(at, at, text)], from, |source|)
    ensures Substitute(source, from, [Rewrite(at, at, text)]) == source[from..at] + text + source[at..]
  {
    assert [Rewrite(at, at, text)][1..] == [];
  }

  lemma SubstituteTwo(source: string, q: nat, r: nat, comma: string, text: string)
    requires q <= r <= |source|
    ensures var two := [Rewrite(q, q, comma), Rewrite(r, r, text)];
            && Chained(two, 0, |source|)
            && Substitute(source, 0, two) == source[..q] + comma + (source[q..r] + text + source[r..])
  {
    SubstituteOne(source, q, r, text);
    assert [Rewrite(q, q, comma), Rewrite(r, r, text)][1..] == [Rewrite(r, r, text)];
  }

  lemma InsertionsText(source: string, comma: bool, q: nat, r: nat, text: string)
    requires q <= r <= |source|
    ensures var rewrites := Insertions(comma, q, r, text);
            && Chained(rewrites, 0, |source|)
            && Substitute(source, 0, rewrites)
               == source[..q] + (if comma then "," else "") + source[q..r] + text + source[r..]
  {
    hide Substitute, Chained;
    if comma {
      SubstituteTwo(source, q, r, ",", text);
      Regroup(source[..q] + ",", source[q..r], text, source[r..]);
    } else {
      SubstituteOne(source, 0, r, text);
      EmptyBetween(source, q, r);
    }
  }

  lemma Regroup(a: string, b: string, c: string, d: string)
    ensures a + (b + c + d) == a + b + c + d
  {
    Associative(a, b + c, d);
    Associative(a, b, c);
  }

  lemma EmptyBetween(source: string, q: nat, r: nat)
    requires q <= r <= |source|
    ensures source[0..r] == source[..q] + "" + source[q..r]
  {
  }

  lemma Reassociate(a: string, o: string, f: string, c: string, t1: string, x: string, t2: string,
                    cl: string, z: string)
    ensures a + (o + (f + c + t1 + x + t2) + cl) + z == a + o + f + c + t1 + x + (t2 + cl + z)
  {
    var l := f + c + t1 + x + t2;
    Associative(a, o + l, cl);
    Associative(a, o, l);
    assert a + (o + l + cl) + z == a + o + l + cl + z;
    Associative(a + o, f + c + t1 + x, t2);
    Associative(a + o, f + c + t1, x);
    Associative(a + o, f + c, t1);
    Associative(a + o, f, c);
    var m := a + o + f + c + t1 + x;
    assert a + o + l == m + t2;
    Associative(m, t2 + cl, z);
    Associative(m, t2, cl);
  }

  /** The pieces of the collection once the entry is inserted at a cut of the trailing trivia. */
  function Inserted(front: seq<Piece>, comma: bool, t1: seq<Piece>, pad: string, entry: seq<Piece>,
                    feed: string, t2: seq<Piece>): seq<Piece>
  {
    WithEntry(front, comma, t1 + Spaces(pad), entry, Spaces(feed) + t2)
  }

  lemma InsertedText(front: seq<Piece>, comma: bool, t1: seq<Piece>, pad: string, entry: seq<Piece>,
                     feed: string, t2: seq<Piece>)
    requires Blank(pad) && Blank(feed)
    ensures Render(Inserted(front, comma, t1, pad, entry, feed, t2))
         == Render(front) + (if comma then "," else "") + Render(t1)
            + (pad + Render(entry) + "," + feed) + Render(t2)
  {
    hide *;
    BlankSpaces(pad);
    BlankSpaces(feed);
    CommaText();
    var base := if comma then front + [COMMA] else front;
    var body := t1 + Spaces(pad) + entry;
    InsertedIs(front, comma, t1, pad, entry, feed, t2);
    RenderConcat(front, [COMMA]);
    RenderConcat(t1, Spaces(pad));
    RenderConcat(t1 + Spaces(pad), entry);
    RenderConcat(Spaces(feed), t2);
    RenderConcat(base, body);
    RenderConcat(base + body, [COMMA]);
    RenderConcat(base + body + [COMMA], Spaces(feed) + t2);
    TextsJoined(Render(front) + (if comma then "," else ""), Render(t1), pad, Render(entry), feed, Render(t2));
  }

  lemma BlankSpaces(text: string)
    requires Blank(text)
    ensures Render(Spaces(text)) == text
  {
    SpacesOk(text, false);
  }

  lemma InsertedIs(front: seq<Piece>, comma: bool, t1: seq<Piece>, pad: string, entry: seq<Piece>,
                   feed: string, t2: seq<Piece>)
    ensures Inserted(front, comma, t1, pad, entry, feed, t2)
         == (if comma then front + [COMMA] else front) + (t1 + Spaces(pad) + entry) + [COMMA] + (Spaces(feed) + t2)
  {
  }

  lemma TextsJoined(a: string, b: string, pad: string, entry: string, feed: string, c: string)
    ensures a + (b + pad + entry) + "," + (feed + c) == a + b + (pad + entry + "," + feed) + c
  {
  }

  lemma CommaText()
    ensures Render([COMMA]) == ","
  {
    assert [COMMA][1..] == [];
  }

  lemma InsertedOk(front: seq<Piece>, comma: bool, trail: seq<Piece>, j: nat, pad: string, entry: seq<Piece>,
                   feed: string)
    requires AllTrivia(trail) && j <= |trail| && EntryOk(entry) && Blank(pad) && Blank(feed)
    requires ItemsOk(front, false) && ItemsOk(trail, false)
    requires front != [] ==> !IsTrivia(front[|front| - 1])
    requires comma == NeedsComma(front) && (feed == "" ==> j == |trail|)
    ensures var items := Inserted(front, comma, trail[..j], pad, entry, feed, trail[j..]);
            ItemsOk(items, false) && Entries(items) == Entries(front + trail) + [entry]
  {
    hide ItemsOk;
    var t1, t2 := trail[..j], trail[j..];
    assert trail == t1 + t2;
    ItemsOkConcat(t1, t2, false);
    SpacesOk(pad, SpaceAfter(t1, false));
    ItemsOkConcat(t1, Spaces(pad), false);
    SpacesOk(feed, false);
    TriviaOkAfterSpace(t2, SpaceAfter(t1, false));
    ItemsOkConcat(Spaces(feed), t2, false);
    if feed == "" {
      assert Spaces(feed) + t2 == [];
      NothingOk(false);
    }
    WithEntryOk(front, comma, t1 + Spaces(pad), entry, Spaces(feed) + t2);
    if comma {
      EntriesWithComma(front, trail, t1 + Spaces(pad), entry, Spaces(feed) + t2);
    } else {
      EntriesWithoutComma(front, trail, t1 + Spaces(pad), entry, Spaces(feed) + t2);
    }
  }

  lemma NothingOk(afterSpace: bool)
    ensures ItemsOk([], afterSpace)
  {
  }

  lemma TriviaOkAfterSpace(t: seq<Piece>, afterSpace: bool)
    requires AllTrivia(t) && ItemsOk(t, afterSpace)
    ensures ItemsOk(t, true)
  {
    if t != [] {
      assert PieceOk(t[0], afterSpace);
      assert PieceOk(t[0], true);
    }
  }

  /** The whole edit: entry text inserted behind the `j`-th trailing trivia piece. */
  lemma InsertionAddsEntry(source: string, start: nat, p: Piece, front: seq<Piece>, trail: seq<Piece>, j: nat,
                           pad: string, entry: seq<Piece>, feed: string)
    requires CollectionAt(source, start, p) && Layout(source, start, p, front, trail)
    requires j <= |trail| && EntryOk(entry) && Blank(pad) && Blank(feed) && (feed == "" ==> j == |trail|)
    requires Render(trail) == Render(trail[..j]) + Render(trail[j..])
    ensures var q := start + 1 + |Render(front)|;
            var r := q + |Render(trail[..j])|;
            r <= |source| &&
            AddsEntry(source, start, p, entry,
                      Insertions(NeedsComma(front), q, r, pad + Render(entry) + "," + feed))
  {
    hide *;
    var comma := NeedsComma(front);
    IsNested(source, start, p);
    LayoutItems(source, start, p, front, trail);
    InsertedOk(front, comma, trail, j, pad, entry, feed);
    var items := Inserted(front, comma, trail[..j], pad, entry, feed, trail[j..]);
    var q := start + 1 + |Render(front)|;
    var r := q + |Render(trail[..j])|;
    BracketedOk(p.open, items, p);
    var rewrites := Insertions(comma, q, r, pad + Render(entry) + "," + feed);
    InsertionsRendered(source, start, p, front, trail, j, pad, entry, feed);
    InsertionsInsert(comma, q, r, pad + Render(entry) + "," + feed);
    WitnessAdds(source, start, p, entry, rewrites, Nested(p.open, items));
  }

  lemma IsNested(source: string, start: nat, p: Piece)
    requires CollectionAt(source, start, p)
    ensures p.Nested? && Collection(p)
  {
  }

  lemma LayoutItems(source: string, start: nat, p: Piece, front: seq<Piece>, trail: seq<Piece>)
    requires CollectionAt(source, start, p) && Layout(source, start, p, front, trail)
    ensures p.items == front + trail && AllTrivia(trail)
    ensures ItemsOk(front, false) && ItemsOk(trail, false)
    ensures front != [] ==> !IsTrivia(front[|front| - 1])
  {
    hide CollectionAt;
    LayoutText(source, start, p, front, trail);
  }

  lemma InsertionsInsert(comma: bool, q: nat, r: nat, text: string)
    ensures forall e :: e in Insertions(comma, q, r, text) ==> e.start == e.end
  {
  }

  /** The edits applied: the source with the new collection in place of the old one. */
  lemma InsertionsRendered(source: string, start: nat, p: Piece, front: seq<Piece>, trail: seq<Piece>, j: nat,
                           pad: string, entry: seq<Piece>, feed: string)
    requires p.Nested? && CollectionAt(source, start, p) && Layout(source, start, p, front, trail)
    requires j <= |trail| && Blank(pad) && Blank(feed)
    requires Render(trail) == Render(trail[..j]) + Render(trail[j..])
    ensures var q := start + 1 + |Render(front)|;
            var r := q + |Render(trail[..j])|;
            var comma := NeedsComma(front);
            var rewrites := Insertions(comma, q, r, pad + Render(entry) + "," + feed);
            var items := Inserted(front, comma, trail[..j], pad, entry, feed, trail[j..]);
            && r <= |source| && start + |RenderPiece(p)| <= |source| && Chained(rewrites, 0, |source|)
            && Substitute(source, 0, rewrites)
               == source[..start] + ([p.open] + Render(items) + [CloseOf(p.open)])
                  + source[start + |RenderPiece(p)|..]
  {
    hide *;
    var q := start + 1 + |Render(front)|;
    var r := q + |Render(trail[..j])|;
    SplicedText(source, start, p, front, trail, j, pad, entry, feed);
    InsertionsText(source, NeedsComma(front), q, r, pad + Render(entry) + "," + feed);
  }

  lemma WitnessAdds(source: string, start: nat, p: Piece, entry: seq<Piece>, rewrites: seq<Rewrite>, q: Piece)
    requires CollectionAt(source, start, p) && Chained(rewrites, 0, |source|)
    requires forall r :: r in rewrites ==> r.start == r.end
    requires Collection(q) && q.open == p.open && Entries(q.items) == Entries(p.items) + [entry]
    requires start + |RenderPiece(p)| <= |source|
    requires Substitute(source, 0, rewrites) == source[..start] + RenderPiece(q) + source[start + |RenderPiece(p)|..]
    ensures AddsEntry(source, start, p, entry, rewrites)
  {
    hide Substitute, Chained, RenderPiece, Entries, Collection;
  }

  /** The spliced text is the source with the new collection in place of the old one. */
  lemma SplicedText(source: string, start: nat, p: Piece, front: seq<Piece>, trail: seq<Piece>, j: nat,
                    pad: string, entry: seq<Piece>, feed: string)
    requires p.Nested? && CollectionAt(source, start, p) && Layout(source, start, p, front, trail)
    requires j <= |trail| && Blank(pad) && Blank(feed)
    requires Render(trail) == Render(trail[..j]) + Render(trail[j..])
    ensures var q := start + 1 + |Render(front)|;
            var r := q + |Render(trail[..j])|;
            var comma := NeedsComma(front);
            var items := Inserted(front, comma, trail[..j], pad, entry, feed, trail[j..]);
            && r <= |source| && start + |RenderPiece(p)| <= |source|
            && source[..q] + (if comma then "," else "") + source[q..r]
                 + (pad + Render(entry) + "," + feed) + source[r..]
               == source[..start] + ([p.open] + Render(items) + [CloseOf(p.open)])
                 + source[start + |RenderPiece(p)|..]
  {
    hide *;
    var q := start + 1 + |Render(front)|;
    var r := q + |Render(trail[..j])|;
    var close := q + |Render(trail)|;
    LayoutText(source, start, p, front, trail);
    AtSplit(source, q, Render(trail[..j]), Render(trail[j..]));
    AtSlice(source, q, Render(trail[..j]));
    InsertedText(front, NeedsComma(front), trail[..j], pad, entry, feed, trail[j..]);
    SplicedAround(source, start, q, r, close, Render(front), if NeedsComma(front) then "," else "", Render(trail[..j]),
                  pad + Render(entry) + "," + feed, Render(trail[j..]),
                  Render(Inserted(front, NeedsComma(front), trail[..j], pad, entry, feed, trail[j..])));
  }

  lemma SplicedAround(source: string, start: nat, q: nat, r: nat, close: nat, f: string, c: string, t1: string,
                      x: string, t2: string, body: string)
    requires start < q <= r <= close < |source| && source[start + 1..q] == f && source[q..r] == t1
    requires At(source, r, t2) && close == r + |t2| && body == f + c + t1 + x + t2
    ensures source[..q] + c + source[q..r] + x + source[r..]
         == source[..start] + ([source[start]] + body + [source[close]]) + source[close + 1..]
  {
    hide *;
    SourceAround(source, start, q, r, close, t2);
    Glue(source[..q], source[q..r], source[r..], source[..start], [source[start]], f, c, t1, x, t2, [source[close]],
         source[close + 1..], body);
  }

  /** The source up to `q` and from `r` on, cut at the brackets. */
  lemma SourceAround(source: string, start: nat, q: nat, r: nat, close: nat, text: string)
    requires start < q <= r <= close < |source| && At(source, r, text) && close == r + |text|
    ensures source[..q] == source[..start] + [source[start]] + source[start + 1..q]
    ensures source[r..] == text + [source[close]] + source[close + 1..]
  {
    SourceParts(source, start, q, r, close);
    AtTail(source, r, text, close);
  }

  lemma AtTail(source: string, r: nat, text: string, close: nat)
    requires At(source, r, text) && close == r + |text|
    ensures source[r..close] == text
  {
  }

  lemma Glue(sq: string, sqr: string, sr: string, a: string, o: string, f: string, c: string, t1: string,
             x: string, t2: string, cl: string, z: string, body: string)
    requires sq == a + o + f && sqr == t1 && sr == t2 + cl + z && body == f + c + t1 + x + t2
    ensures sq + c + sqr + x + sr == a + (o + body + cl) + z
  {
    Reassociate(a, o, f, c, t1, x, t2, cl, z);
  }

  lemma SourceParts(source: string, start: nat, q: nat, r: nat, close: nat)
    requires start < q <= r <= close < |source|
    ensures source[..q] == source[..start] + [source[start]] + source[start + 1..q]
    ensures source[r..] == source[r..close] + [source[close]] + source[close + 1..]
  {
  }

  lemma BracketedOk(open: char, items: seq<Piece>, p: Piece)
    requires Collection(p) && p.open == open && ItemsOk(items, false)
    ensures Collection(Nested(open, items))
    ensures RenderPiece(Nested(open, items)) == [open] + Render(items) + [CloseOf(open)]
  {
  }

  // ---------- The branches of the source ----------

  /** `[a]`: comma, space and entry go in as one edit. */
  lemma AdjacentInsertion(source: string, start: nat, p: Piece, entry: seq<Piece>, b: Bounds)
    requires CollectionAt(source, start, p) && EntryOk(entry)
    requires b == BoundsOf(p, start) && start <= b.last < b.end - 1 < |source|
    requires CommaMissing(source, start, b) && b.last + 1 == b.end - 1
    ensures AddsEntry(source, start, p, entry, [Rewrite(b.end - 1, b.end - 1, ", " + Render(entry) + ",")])
  {
    hide *;
    CommaMeansEntries(source, start, b);
    PaddedInsertion(source, start, p, entry, b);
    AdjacentAdds(source, start, p, entry, b.end - 1);
  }

  lemma CommaMeansEntries(source: string, start: nat, b: Bounds)
    requires CommaMissing(source, start, b)
    ensures b.last != start
  {
  }

  /** The comma and the padded entry at one place add the entry just as the one edit does. */
  lemma AdjacentAdds(source: string, start: nat, p: Piece, entry: seq<Piece>, at: nat)
    requires CollectionAt(source, start, p) && at <= |source|
    requires AddsEntry(source, start, p, entry, Insertions(true, at, at, " " + Render(entry) + ","))
    ensures AddsEntry(source, start, p, entry, [Rewrite(at, at, ", " + Render(entry) + ",")])
  {
    hide Render, RenderPiece, Entries, ItemsOk, LastSignificant, Substitute, Chained;
    var text := Render(entry);
    CommaThenSpace(text);
    OneEdit(source, at, " " + text + ",", ", " + text + ",");
  }

  lemma CommaThenSpace(text: string)
    ensures ", " + text + "," == "," + (" " + text + ",")
  {
  }

  /** A comma and a text inserted at the same place are one insertion. */
  lemma OneEdit(source: string, at: nat, text: string, joined: string)
    requires at <= |source| && joined == "," + text
    ensures Chained(Insertions(true, at, at, text), 0, |source|)
    ensures Chained([Rewrite(at, at, joined)], 0, |source|)
    ensures Substitute(source, 0, [Rewrite(at, at, joined)])
         == Substitute(source, 0, Insertions(true, at, at, text))
  {
    hide Substitute, Chained;
    InsertionsText(source, true, at, at, text);
    SubstituteOne(source, 0, at, joined);
    JoinedText(source[..at], source[at..at], text, source[at..]);
  }

  lemma JoinedText(a: string, nothing: string, text: string, z: string)
    requires nothing == ""
    ensures a + "," + nothing + text + z == a + ("," + text) + z
  {
    Associative(a, ",", text);
    assert a + "," + nothing == a + ",";
  }

  lemma WholeTrail(trail: seq<Piece>)
    ensures trail[..|trail|] == trail && trail[|trail|..] == []
    ensures Render(trail) == Render(trail[..|trail|]) + Render(trail[|trail|..])
  {
    assert trail[..|trail|] == trail && trail[|trail|..] == [];
  }

  /** Every other single-line collection: padded, empty, or ending in a comma. */
  lemma PaddedInsertion(source: string, start: nat, p: Piece, entry: seq<Piece>, b: Bounds)
    requires CollectionAt(source, start, p) && EntryOk(entry)
    requires b == BoundsOf(p, start) && start <= b.last < b.end - 1 < |source|
    ensures AddsEntry(source, start, p, entry,
              Insertions(CommaMissing(source, start, b), b.last + 1, b.end - 1,
                         (if b.last == start then "" else " ") + Render(entry) + ","))
  {
    hide *;
    var front, trail := SplitItems(source, start, p);
    LayoutBounds(source, start, p, front, trail);
    WholeTrail(trail);
    var pad := if b.last == start then "" else " ";
    BlankPad(pad);
    InsertionAddsEntry(source, start, p, front, trail, |trail|, pad, entry, "");
    assert pad + Render(entry) + "," + "" == pad + Render(entry) + ",";
  }

  lemma BlankPad(pad: string)
    requires pad == "" || pad == " "
    ensures Blank(pad) && Blank("") && Blank("\n")
  {
  }

  /** The scanner's bounds in terms of `front` and `trail`. */
  lemma LayoutBounds(source: string, start: nat, p: Piece, front: seq<Piece>, trail: seq<Piece>)
    requires CollectionAt(source, start, p) && Layout(source, start, p, front, trail)
    ensures var b := BoundsOf(p, start);
            && b.last == start + |Render(front)| && b.end - 1 == b.last + 1 + |Render(trail)| < |source|
            && (NeedsComma(front) <==> CommaMissing(source, start, b))
            && !IsSpace(source[b.last]) && !IsSpace(source[b.end - 1])
            && source[b.last + 1..b.end - 1] == Render(trail)
    ensures AllTrivia(trail) && ItemsOk(trail, false)
  {
    LayoutText(source, start, p, front, trail);
    LastSignificantCharacter(source, start, p, front, trail);
  }

  /** Multi-line: a line of its own before the closing bracket's line. */
  lemma MultilineInsertion(source: string, start: nat, p: Piece, entry: seq<Piece>, indent: string, b: Bounds)
    requires CollectionAt(source, start, p) && EntryOk(entry) && Blank(indent)
    requires b == BoundsOf(p, start) && start <= b.last < b.end - 1 < |source|
    requires '\n' in source[start..b.end] && !ClosingLineOccupied(source, start, b.end)
    ensures AddsEntry(source, start, p, entry,
              Insertions(CommaMissing(source, start, b), b.last + 1,
                         ClosingLineStart(source, start, b.end - 1), indent + Render(entry) + ",\n"))
  {
    hide *;
    var front, trail := SplitItems(source, start, p);
    LayoutBounds(source, start, p, front, trail);
    BlankPad("");
    var r := FeedBehindLast(source, start, b.end, b.last);
    var n := r - (b.last + 1);
    FeedInTrail(source, b.last + 1, b.end - 1, r, Render(trail));
    var j := CutTrivia(trail, false, n);
    InsertionAddsEntry(source, start, p, front, trail, j, indent, entry, "\n");
    assert indent + Render(entry) + "," + "\n" == indent + Render(entry) + ",\n";
  }

  lemma FeedInTrail(source: string, from: nat, close: nat, r: nat, text: string)
    requires from < r <= close <= |source| && source[from..close] == text && source[r - 1] == '\n'
    ensures text[r - from - 1] == '\n'
  {
    assert text[r - from - 1] == source[from..close][r - from - 1];
  }

  /** The closing line starts behind the last significant position. */
  lemma FeedBehindLast(source: string, start: nat, end: nat, last: nat) returns (r: nat)
    requires start <= last < end - 1 && end <= |source| && !IsSpace(source[last])
    requires '\n' in source[start..end] && !IsSpace(source[end - 1])
    requires !ClosingLineOccupied(source, start, end)
    ensures r == ClosingLineStart(source, start, end - 1)
    ensures last + 1 < r <= end - 1 && source[r - 1] == '\n'
  {
    r := ClosingLineStart(source, start, end - 1);
    assert source[start..end] == source[start..end - 1] + [source[end - 1]];
    assert '\n' in source[start..end - 1];
    assert forall i :: r <= i < end - 1 ==> source[i] == source[r..end - 1][i - r];
  }

  lemma BoundsInside(source: string, start: nat, p: Piece)
    requires CollectionAt(source, start, p)
    ensures var b := BoundsOf(p, start); start <= b.last < b.end - 1 && b.end <= |source|
  {
    var front, trail := SplitItems(source, start, p);
    LayoutText(source, start, p, front, trail);
  }

  /** For every reading of the collection and the entry, the edits add that entry. */
  ghost predicate AlwaysAdds(source: string, start: nat, entry: string, rewrites: seq<Rewrite>) {
    forall p, e :: CollectionAt(source, start, p) && EntryOk(e) && Render(e) == entry ==>
      AddsEntry(source, start, p, e, rewrites)
  }

  predicate CommaMissing(source: string, start: nat, b: Bounds) {
    b.last < |source| && b.last != start && source[b.last] != ','
  }

  lemma SingleLineAdds(source: string, start: nat, entry: string, b: Bounds)
    requires ScanCollection(source, start) == Ok(b) && start <= b.last < b.end - 1 < |source|
    ensures CommaMissing(source, start, b) && b.last + 1 == b.end - 1 ==>
              AlwaysAdds(source, start, entry, [Rewrite(b.end - 1, b.end - 1, ", " + entry + ",")])
    ensures AlwaysAdds(source, start, entry,
              Insertions(CommaMissing(source, start, b), b.last + 1, b.end - 1,
                         (if b.last == start then "" else " ") + entry + ","))
  {
    hide ScanCollection, CollectionAt, EntryOk, AddsEntry, LastSignificant, Render, RenderPiece;
    forall p, e | CollectionAt(source, start, p) && EntryOk(e) && Render(e) == entry
      ensures CommaMissing(source, start, b) && b.last + 1 == b.end - 1 ==>
                AddsEntry(source, start, p, e, [Rewrite(b.end - 1, b.end - 1, ", " + entry + ",")])
      ensures AddsEntry(source, start, p, e,
                Insertions(CommaMissing(source, start, b), b.last + 1, b.end - 1,
                           (if b.last == start then "" else " ") + entry + ","))
    {
      CollectionIsFound(source, start, p);
      PaddedInsertion(source, start, p, e, b);
      if CommaMissing(source, start, b) && b.last + 1 == b.end - 1 {
        AdjacentInsertion(source, start, p, e, b);
      }
    }
  }

  lemma MultilineAdds(source: string, start: nat, entry: string, indent: string, b: Bounds)
    requires ScanCollection(source, start) == Ok(b) && start <= b.last < b.end - 1 < |source|
    requires Blank(indent) && '\n' in source[start..b.end] && !ClosingLineOccupied(source, start, b.end)
    ensures AlwaysAdds(source, start, entry,
              Insertions(CommaMissing(source, start, b), b.last + 1,
                         ClosingLineStart(source, start, b.end - 1), indent + entry + ",\n"))
  {
    hide ScanCollection, CollectionAt, EntryOk, AddsEntry, LastSignificant, Render, RenderPiece, Blank,
      ClosingLineOccupied, ClosingLineStart;
    forall p, e | CollectionAt(source, start, p) && EntryOk(e) && Render(e) == entry
      ensures AddsEntry(source, start, p, e,
                Insertions(CommaMissing(source, start, b), b.last + 1,
                           ClosingLineStart(source, start, b.end - 1), indent + entry + ",\n"))
    {
      CollectionIsFound(source, start, p);
      MultilineInsertion(source, start, p, e, indent, b);
    }
  }

  lemma FoundInside(source: string, start: nat, b: Bounds)
    requires start < |source| && IsOpen(source[start]) && ScanCollection(source, start) == Ok(b)
    ensures start <= b.last < b.end - 1 < |source|
  {
    var p := FoundIsCollection(source, start);
    CollectionIsFound(source, start, p);
    BoundsInside(source, start, p);
  }

  /** The inserter gives up on a collection whose closing line holds more than the bracket. */
  ghost predicate Refused(source: string, start: nat, b: Bounds) {
    start < b.end <= |source| && ClosingLineOccupied(source, start, b.end)
  }

  function SingleLineRewrites(source: string, start: nat, entry: string, b: Bounds): seq<Rewrite>
    requires start <= b.last < b.end - 1
  {
    if CommaMissing(source, start, b) && b.last + 1 == b.end - 1 then
      [Rewrite(b.end - 1, b.end - 1, ", " + entry + ",")]
    else
      Insertions(CommaMissing(source, start, b), b.last + 1, b.end - 1,
                 (if b.last == start then "" else " ") + entry + ",")
  }

  /**
   The edits themselves, whatever `entry` is: on one line the entry goes before the bracket, on
   several lines it becomes a line before the bracket's, indented like the first label on its own line.
   */
  ghost predicate InsertsAt(locations: seq<Location>, source: string, start: nat, entry: string, b: Bounds,
                            rewrites: seq<Rewrite>)
    requires start <= b.last < b.end - 1 < |source|
  {
    var comma := b.last != start && source[b.last] != ',';
    if '\n' !in source[start..b.end] then
      rewrites == if comma && b.last + 1 == b.end - 1 then [Rewrite(b.end - 1, b.end - 1, ", " + entry + ",")]
                  else (if comma then [Rewrite(b.last + 1, b.last + 1, ",")] else [])
                       + [Rewrite(b.end - 1, b.end - 1, (if b.last == start then "" else " ") + entry + ",")]
    else
      var n := ClosingLineStart(source, start, b.end - 1);
      var before := if comma then [Rewrite(b.last + 1, b.last + 1, ",")] else [];
      && (forall k: nat :: FirstOnOwnLine(locations, source, start, k) ==>
            rewrites == before + [Rewrite(n, n, IndentOf(source, locations[k]) + entry + ",\n")])
      && ((forall k :: 0 <= k < |locations| ==> !OnOwnLine(source, locations[k], start)) ==>
            rewrites == before + [Rewrite(n, n, source[n..b.end - 1] + "  " + entry + ",\n")])
  }

  /** The collection is found and not refused, and these are the edits for it. */
  ghost predicate Inserts(locations: seq<Location>, source: string, start: nat, entry: string, rewrites: seq<Rewrite>) {
    exists b ::
      && ScanCollection(source, start) == Ok(b) && !Refused(source, start, b)
      && start <= b.last < b.end - 1 < |source| && InsertsAt(locations, source, start, entry, b, rewrites)
  }

  /** The edits that add `entry` at the end of the collection, or a refusal. */
  method FlowLabelAdditionRewrites(locations: seq<Location>, entry: string, source: string,
                                   lineOffsets: seq<nat>, start: nat)
    returns (result: Result<seq<Rewrite>, InsertError>)
    requires start < |source| && IsOpen(source[start])
    requires lineOffsets == LineStartOffsets(source)
    requires forall i :: 0 <= i < |locations| ==> locations[i].line < |lineOffsets|
    ensures match result
            case Ok(rewrites) =>
              AlwaysAdds(source, start, entry, rewrites) && Inserts(locations, source, start, entry, rewrites)
            case Raise(ScanFailed(error)) => ScanCollection(source, start) == Raise(error)
            case Raise(UnsupportedMultiline) =>
              exists b :: ScanCollection(source, start) == Ok(b) && Refused(source, start, b)
  {
    hide AlwaysAdds, ScanCollection, LineStartOffsets, OnOwnLine, IndentOf, SingleLineRewrites, Insertions, CommaMissing,
      Inserts, InsertsAt, Blank, IndentIs;
    var bounds := FlowCollectionBounds(source, start);
    if bounds.Raise? {
      return Raise(ScanFailed(bounds.error));
    }
    var b := bounds.value;
    FoundInside(source, start, b);
    if '\n' !in source[start..b.end] {
      var rewrites := SingleLineEdits(entry, source, start, b);
      SingleLineInserts(locations, source, start, entry, b, rewrites);
      return Ok(rewrites);
    }
    var closingLineStart := ClosingLineStart(source, start, b.end - 1);
    var closingPrefix := source[closingLineStart..b.end - 1];
    if !Blank(closingPrefix) {
      return Raise(UnsupportedMultiline);
    }
    var indent := MultilineFlowLabelIndent(locations, source, lineOffsets, start, closingPrefix);
    var rewrites := MultilineEdits(entry, source, start, b, closingLineStart, indent);
    MultilineInserts(locations, source, start, entry, b, indent, rewrites);
    return Ok(rewrites);
  }

  lemma SingleLineInserts(locations: seq<Location>, source: string, start: nat, entry: string, b: Bounds,
                          rewrites: seq<Rewrite>)
    requires ScanCollection(source, start) == Ok(b) && start <= b.last < b.end - 1 < |source|
    requires '\n' !in source[start..b.end] && rewrites == SingleLineRewrites(source, start, entry, b)
    ensures Inserts(locations, source, start, entry, rewrites)
  {
    hide ScanCollection, FirstOnOwnLine, OnOwnLine, IndentOf, Inserts;
    assert [] + rewrites == rewrites;
    InsertsFrom(locations, source, start, entry, b, rewrites);
  }

  lemma MultilineInserts(locations: seq<Location>, source: string, start: nat, entry: string, b: Bounds,
                         indent: string, rewrites: seq<Rewrite>)
    requires ScanCollection(source, start) == Ok(b) && start <= b.last < b.end - 1 < |source|
    requires '\n' in source[start..b.end] && !ClosingLineOccupied(source, start, b.end)
    requires IndentIs(locations, source, start, source[ClosingLineStart(source, start, b.end - 1)..b.end - 1], indent)
    requires rewrites == Insertions(CommaMissing(source, start, b), b.last + 1,
                                    ClosingLineStart(source, start, b.end - 1), indent + entry + ",\n")
    ensures Inserts(locations, source, start, entry, rewrites)
  {
    hide ScanCollection, ClosingLineStart, Blank, ClosingLineOccupied, FirstOnOwnLine, OnOwnLine, IndentOf, Inserts,
      Insertions;
    InsertionsAppended(CommaMissing(source, start, b), b.last + 1, ClosingLineStart(source, start, b.end - 1),
                       indent + entry + ",\n");
    InsertsFrom(locations, source, start, entry, b, rewrites);
  }

  lemma InsertsFrom(locations: seq<Location>, source: string, start: nat, entry: string, b: Bounds,
                    rewrites: seq<Rewrite>)
    requires ScanCollection(source, start) == Ok(b) && start <= b.last < b.end - 1 < |source|
    requires !Refused(source, start, b) && InsertsAt(locations, source, start, entry, b, rewrites)
    ensures Inserts(locations, source, start, entry, rewrites)
  {
  }

  method SingleLineEdits(entry: string, source: string, start: nat, b: Bounds) returns (rewrites: seq<Rewrite>)
    requires ScanCollection(source, start) == Ok(b) && start <= b.last < b.end - 1 < |source|
    ensures AlwaysAdds(source, start, entry, rewrites) && rewrites == SingleLineRewrites(source, start, entry, b)
  {
    hide *;
    SingleLineIs(source, start, entry, b);
    SingleLineAdds(source, start, entry, b);
    rewrites := [];
    var needsComma := CommaMissing(source, start, b);
    var prefix: string;
    if needsComma && b.last + 1 == b.end - 1 {
      prefix := ", ";
      NothingBefore([Rewrite(b.end - 1, b.end - 1, ", " + entry + ",")]);
    } else {
      if needsComma {
        rewrites := [Rewrite(b.last + 1, b.last + 1, ",")];
      }
      prefix := if b.last == start then "" else " ";
      InsertionsAppended(needsComma, b.last + 1, b.end - 1, prefix + entry + ",");
      assert rewrites == if needsComma then [Rewrite(b.last + 1, b.last + 1, ",")] else [];
    }
    rewrites := rewrites + [Rewrite(b.end - 1, b.end - 1, prefix + entry + ",")];
  }

  lemma NothingBefore(rewrites: seq<Rewrite>)
    ensures [] + rewrites == rewrites
  {
  }

  lemma SingleLineIs(source: string, start: nat, entry: string, b: Bounds)
    requires start <= b.last < b.end - 1
    ensures CommaMissing(source, start, b) && b.last + 1 == b.end - 1 ==>
              SingleLineRewrites(source, start, entry, b) == [Rewrite(b.end - 1, b.end - 1, ", " + entry + ",")]
    ensures !(CommaMissing(source, start, b) && b.last + 1 == b.end - 1) ==>
              SingleLineRewrites(source, start, entry, b)
              == Insertions(CommaMissing(source, start, b), b.last + 1, b.end - 1,
                            (if b.last == start then "" else " ") + entry + ",")
  {
    hide CommaMissing, Insertions;
  }

  method MultilineEdits(entry: string, source: string, start: nat, b: Bounds, closingLineStart: nat,
                        indent: string)
    returns (rewrites: seq<Rewrite>)
    requires ScanCollection(source, start) == Ok(b) && start <= b.last < b.end - 1 < |source|
    requires Blank(indent) && '\n' in source[start..b.end] && !ClosingLineOccupied(source, start, b.end)
    requires closingLineStart == ClosingLineStart(source, start, b.end - 1)
    ensures AlwaysAdds(source, start, entry, rewrites)
    ensures rewrites == Insertions(CommaMissing(source, start, b), b.last + 1, closingLineStart, indent + entry + ",\n")
  {
    hide *;
    MultilineAdds(source, start, entry, indent, b);
    rewrites := [];
    var needsComma := CommaMissing(source, start, b);
    if needsComma {
      rewrites := [Rewrite(b.last + 1, b.last + 1, ",")];
    }
    InsertionsAppended(needsComma, b.last + 1, closingLineStart, indent + entry + ",\n");
    rewrites := rewrites + [Rewrite(closingLineStart, closingLineStart, indent + entry + ",\n")];
  }

  lemma InsertionsAppended(comma: bool, q: nat, r: nat, text: string)
    ensures Insertions(comma, q, r, text)
         == (if comma then [Rewrite(q, q, ",")] else []) + [Rewrite(r, r, text)]
  {
  }
}
