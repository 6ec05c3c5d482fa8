/**
 When inserting a rendered label into a flow collection adds that label, and what becomes of the
 collection when it does not (src/wudup/compose_source.py).
 */
module LabelInsertion {
  import opened Ordering
  import opened FlowScanner
  import opened FlowEntries
  import opened Splice
  import opened FlowInsert
  import opened YamlScalar

  // ---------- Every entry of a collection is entry text ----------

  /** Pieces that may stand somewhere. */
  ghost predicate PartOk(part: seq<Piece>) {
    exists afterSpace :: ItemsOk(part, afterSpace)
  }

  lemma {:induction false} SplitPartsOk(items: seq<Piece>, afterSpace: bool)
    requires ItemsOk(items, afterSpace)
    ensures ItemsOk(Split(items)[0], afterSpace)
    ensures forall i :: 0 <= i < |Split(items)| ==> PartOk(Split(items)[i]) && NoComma(Split(items)[i])
  {
    if items == [] {
      assert ItemsOk([], afterSpace);
    } else {
      var x, rest := items[0], items[1..];
      SplitPartsOk(rest, IsTrivia(x));
      var parts := Split(rest);
      if x == COMMA {
        assert ItemsOk([], afterSpace);
        assert forall i :: 0 < i < |Split(items)| ==> Split(items)[i] == parts[i - 1];
      } else {
        FirstOfPart(rest);
        FirstPartOk(x, parts[0], items, afterSpace);
        assert forall i :: 0 < i < |Split(items)| ==> Split(items)[i] == parts[i];
      }
    }
  }

  lemma FirstOfPart(items: seq<Piece>)
    ensures Split(items)[0] != [] ==> items != [] && Split(items)[0][0] == items[0]
  {
  }

  lemma FirstPartOk(x: Piece, part: seq<Piece>, items: seq<Piece>, afterSpace: bool)
    requires items != [] && items[0] == x && x != COMMA && ItemsOk(items, afterSpace)
    requires ItemsOk(part, IsTrivia(x)) && NoComma(part)
    requires part != [] ==> |items| > 1 && part[0] == items[1]
    ensures ItemsOk([x] + part, afterSpace) && NoComma([x] + part)
  {
    assert ([x] + part)[1..] == part;
  }

  lemma {:induction false} DropFrontOk(part: seq<Piece>)
    requires PartOk(part) && NoComma(part)
    ensures PartOk(DropFront(part)) && NoComma(DropFront(part))
    ensures DropFront(part) != [] ==> !IsTrivia(DropFront(part)[0])
  {
    if part != [] && IsTrivia(part[0]) {
      var afterSpace :| ItemsOk(part, afterSpace);
      assert ItemsOk(part[1..], IsTrivia(part[0]));
      DropFrontOk(part[1..]);
    }
  }

  lemma {:induction false} DropBackOk(part: seq<Piece>)
    requires PartOk(part) && NoComma(part) && (part != [] ==> !IsTrivia(part[0]))
    ensures PartOk(DropBack(part)) && NoComma(DropBack(part))
    ensures DropBack(part) != [] ==> !IsTrivia(DropBack(part)[0]) && !IsTrivia(DropBack(part)[|DropBack(part)| - 1])
  {
    if part != [] && IsTrivia(part[|part| - 1]) {
      var n := |part| - 1;
      var afterSpace :| ItemsOk(part, afterSpace);
      assert part == part[..n] + [part[n]];
      ItemsOkConcat(part[..n], [part[n]], afterSpace);
      DropBackOk(part[..n]);
    }
  }

  /** Pieces without a comma, and without space or comment at their ends. */
  ghost predicate Trimmed(x: seq<Piece>) {
    PartOk(x) && NoComma(x) && (x != [] ==> !IsTrivia(x[0]) && !IsTrivia(x[|x| - 1]))
  }

  lemma EntryIsPart(items: seq<Piece>, x: seq<Piece>) returns (i: nat)
    requires x in Entries(items)
    ensures i < |Split(items)| && x == DropBack(DropFront(Split(items)[i]))
  {
    hide Split, DropFront, DropBack;
    var trimmed := TrimAll(Split(items));
    var n := |trimmed| - 1;
    assert x in trimmed by { PrefixOf(trimmed, n, x); }
    i :| 0 <= i < |trimmed| && trimmed[i] == x;
  }

  lemma PrefixOf(trimmed: seq<seq<Piece>>, n: nat, x: seq<Piece>)
    requires n <= |trimmed| && (x in trimmed[..n] || x in trimmed)
    ensures x in trimmed
  {
  }

  lemma EntriesAreTrimmed(items: seq<Piece>, x: seq<Piece>)
    requires ItemsOk(items, false) && x in Entries(items)
    ensures Trimmed(x)
  {
    hide Split, Entries, DropFront, DropBack, PartOk, NoComma, ItemsOk, IsTrivia;
    SplitPartsOk(items, false);
    var i := EntryIsPart(items, x);
    DropFrontOk(Split(items)[i]);
    DropBackOk(DropFront(Split(items)[i]));
  }

  lemma TrimmedIsEntry(x: seq<Piece>)
    requires Trimmed(x) && x != [] && Render(x)[0] != '#'
    ensures EntryOk(x)
  {
    var afterSpace :| ItemsOk(x, afterSpace);
    YamlScalar.FirstOfItems(x);
    FirstAfterSpace(x, afterSpace);
  }

  lemma FirstAfterSpace(x: seq<Piece>, afterSpace: bool)
    requires x != [] && ItemsOk(x, afterSpace) && !IsTrivia(x[0]) && (x[0].Plain? ==> x[0].c != '#')
    ensures ItemsOk(x, true)
  {
    assert PieceOk(x[0], afterSpace);
    assert PieceOk(x[0], true);
  }

  // ---------- The inserter adds exactly entry text ----------

  /** The edits make the collection one that has all its entries and one written as `entry`. */
  ghost predicate AddsText(source: string, start: nat, entry: string, rewrites: seq<Rewrite>) {
    exists p, x :: CollectionAt(source, start, p) && Render(x) == entry && AddsEntry(source, start, p, x, rewrites)
  }

  lemma LastEntryOf(p: Piece, q: Piece, x: seq<Piece>)
    requires p.Nested? && Collection(q) && Entries(q.items) == Entries(p.items) + [x]
    ensures ItemsOk(q.items, false) && x in Entries(q.items)
  {
    assert (Entries(p.items) + [x])[|Entries(p.items)|] == x;
  }

  lemma AddedIsEntryText(source: string, start: nat, entry: string, rewrites: seq<Rewrite>)
    requires AddsText(source, start, entry, rewrites) && entry != "" && entry[0] != '#'
    ensures EntryText(entry)
  {
    hide Split, Entries, ItemsOk, PieceOk, Render, RenderPiece, Substitute, Chained, Trimmed, LastSignificant;
    var p, x :| CollectionAt(source, start, p) && Render(x) == entry && AddsEntry(source, start, p, x, rewrites);
    var q :| Collection(q) && q.open == p.open && Entries(q.items) == Entries(p.items) + [x];
    LastEntryOf(p, q, x);
    EntriesAreTrimmed(q.items, x);
    NothingIsEmpty(x);
    TrimmedIsEntry(x);
  }

  lemma NothingIsEmpty(x: seq<Piece>)
    ensures x == [] ==> Render(x) == ""
  {
  }

  /** Whatever the layout, the edits add the text as an entry if and only if it is entry text. */
  lemma AddsTextIff(locations: seq<Location>, source: string, start: nat, entry: string, rewrites: seq<Rewrite>)
    requires start < |source| && IsOpen(source[start])
    requires AlwaysAdds(source, start, entry, rewrites) && Inserts(locations, source, start, entry, rewrites)
    requires entry != "" && entry[0] != '#'
    ensures AddsText(source, start, entry, rewrites) <==> EntryText(entry)
  {
    if EntryText(entry) {
      var e :| EntryOk(e) && Render(e) == entry;
      hide EntryOk, AddsEntry, CollectionAt, ScanCollection, InsertsAt, Render, RenderPiece;
      var b :| ScanCollection(source, start) == Ok(b) && !Refused(source, start, b);
      var p := FoundIsCollection(source, start);
      assert AddsEntry(source, start, p, e, rewrites);
    }
    if AddsText(source, start, entry, rewrites) {
      AddedIsEntryText(source, start, entry, rewrites);
    }
  }

  /** Inserting a mapping label adds it exactly when its value is quoted or has no open quote and no loose end. */
  lemma MappingLabelAddedIff(locations: seq<Location>, source: string, start: nat, key: string, value: string,
                             rewrites: seq<Rewrite>)
    requires start < |source| && IsOpen(source[start]) && KeyOk(key) && !HasLineBreak(value)
    requires var entry := key + ": " + RenderYamlScalarLike("", value, true).value;
             AlwaysAdds(source, start, entry, rewrites) && Inserts(locations, source, start, entry, rewrites)
    ensures AddsText(source, start, key + ": " + RenderYamlScalarLike("", value, true).value, rewrites) <==>
            Unsafe(value, true)
            || (value != "" && !IsSpace(value[|value| - 1]) && QuotesClosed(value, Outside, true))
  {
    var entry := key + ": " + RenderYamlScalarLike("", value, true).value;
    assert entry[0] == key[0];
    hide Unsafe, QuotesClosed, AlwaysAdds, Inserts, AddsText, EntryText, RenderYamlScalarLike;
    MappingEntryIff(key, value);
    AddsTextIff(locations, source, start, entry, rewrites);
  }

  lemma RenderingStarts(value: string)
    requires value != "" && !HasLineBreak(value)
    ensures var text := RenderYamlScalarLike("", value, true).value; text != "" && text[0] != '#'
  {
    if !Unsafe(value, true) {
      var initials := "-?:,[]{}#&*!|>'\"%@`";
      assert value[0] !in initials && initials[8] == '#';
    }
  }

  /** The same for a `key=value` in a flow sequence. */
  lemma SequenceLabelAddedIff(locations: seq<Location>, source: string, start: nat, value: string,
                              rewrites: seq<Rewrite>)
    requires start < |source| && IsOpen(source[start]) && value != "" && !HasLineBreak(value)
    requires var entry := RenderYamlScalarLike("", value, true).value;
             AlwaysAdds(source, start, entry, rewrites) && Inserts(locations, source, start, entry, rewrites)
    ensures AddsText(source, start, RenderYamlScalarLike("", value, true).value, rewrites) <==>
            Unsafe(value, true)
            || (!IsSpace(value[0]) && !IsSpace(value[|value| - 1]) && QuotesClosed(value, Outside, true))
  {
    hide Unsafe, QuotesClosed, AlwaysAdds, Inserts, AddsText, EntryText;
    RenderingStarts(value);
    SequenceEntryIff(value);
    AddsTextIff(locations, source, start, RenderYamlScalarLike("", value, true).value, rewrites);
  }

  // ---------- An open quote swallows the closing bracket ----------

  /** A single quote that nothing closes: the scan reaches the end of the text. */
  lemma {:induction false} OpenQuoteScan(source: string, start: nat, index: nat, stack: seq<char>, last: nat)
    requires forall i :: index <= i < |source| ==> source[i] != '\''
    ensures Scan(source, start, index, InSingle, stack, last) == Raise(Unterminated)
    decreases |source| - index
  {
    if index < |source| {
      OpenQuoteScan(source, start, index + 1, stack, index);
    }
  }

  /** Characters that neither open nor close anything are passed. */
  lemma {:induction false} PlainScan(source: string, start: nat, index: nat, end: nat, stack: seq<char>, last: nat)
    returns (later: nat)
    requires start < index <= end <= |source|
    requires forall i :: index <= i < end ==>
               !IsOpen(source[i]) && !IsClose(source[i]) && source[i] != '\'' && source[i] != '"' && source[i] != '#'
    ensures Scan(source, start, index, Outside, stack, last) == Scan(source, start, end, Outside, stack, later)
    decreases end - index
  {
    if index == end {
      later := last;
    } else {
      later := PlainScan(source, start, index + 1, end, stack, if IsSpace(source[index]) then last else index);
    }
  }

  /** Plain text and then one quote: no continuation without another quote ends the collection. */
  lemma OpenQuoteIsUnterminated(plain: string, rest: string)
    requires forall i :: 0 <= i < |plain| ==>
               !IsOpen(plain[i]) && !IsClose(plain[i]) && plain[i] != '\'' && plain[i] != '"' && plain[i] != '#'
    requires '\'' !in rest
    ensures ScanCollection("{" + plain + "'" + rest, 0) == Raise(Unterminated)
  {
    var source := "{" + plain + "'" + rest;
    var end := 1 + |plain|;
    assert source[0] == '{' && source[end] == '\'';
    forall i | 1 <= i < end
      ensures !IsOpen(source[i]) && !IsClose(source[i]) && source[i] != '\'' && source[i] != '"' && source[i] != '#'
    {
      assert source[i] == plain[i - 1];
    }
    forall i | end < i < |source| ensures source[i] != '\'' {
      assert source[i] == rest[i - end - 1];
    }
    var later := PlainScan(source, 0, 1, end, ['{'], 0);
    OpenQuoteScan(source, 0, end + 1, ['{'], end);
    assert [] + ['{'] == ['{'];
    assert Scan(source, 0, 0, Outside, [], 0) == Scan(source, 0, 1, Outside, ['{'], 0);
    assert Scan(source, 0, end, Outside, ['{'], later) == Scan(source, 0, end + 1, InSingle, ['{'], end);
  }

  lemma SampleCollection()
    ensures ScanCollection("{a: b}", 0) == Ok(Bounds(6, 4))
  {
    var source := "{a: b}";
    assert Scan(source, 0, 5, Outside, ['{'], 4) == Ok(Bounds(6, 4));
    assert Scan(source, 0, 4, Outside, ['{'], 2) == Scan(source, 0, 5, Outside, ['{'], 4);
    assert Scan(source, 0, 3, Outside, ['{'], 2) == Scan(source, 0, 4, Outside, ['{'], 2);
    assert Scan(source, 0, 2, Outside, ['{'], 1) == Scan(source, 0, 3, Outside, ['{'], 2);
    assert Scan(source, 0, 1, Outside, ['{'], 0) == Scan(source, 0, 2, Outside, ['{'], 1);
    assert Scan(source, 0, 0, Outside, [], 0) == Scan(source, 0, 1, Outside, ['{'], 0);
  }

  /** The label `k: a'b`, which the renderer leaves plain, makes `{a: b}` a collection without an end. */
  lemma LoneQuoteOpensTheCollection(locations: seq<Location>, rewrites: seq<Rewrite>)
    requires Inserts(locations, "{a: b}", 0, "k: a'b", rewrites)
    ensures RenderYamlScalarLike("", "a'b", true) == Ok("a'b")
    ensures rewrites == [Rewrite(5, 5, ", k: a'b,")] && Chained(rewrites, 0, 6)
    ensures Substitute("{a: b}", 0, rewrites) == "{a: b, k: a'b,}"
    ensures ScanCollection("{a: b, k: a'b,}", 0) == Raise(Unterminated)
  {
    hide *;
    LoneQuoteDoesNotFit();
    SampleCollection();
    SampleEdits(locations, rewrites);
    SubstituteOne("{a: b}", 0, 5, ", k: a'b,");
    SampleTexts();
    OpenQuoteIsUnterminated("a: b, k: a", "b,}");
  }

  lemma SampleTexts()
    ensures "{a: b}"[0..5] + ", k: a'b," + "{a: b}"[5..] == "{a: b, k: a'b,}"
    ensures "{" + "a: b, k: a" + "'" + "b,}" == "{a: b, k: a'b,}"
    ensures var plain := "a: b, k: a";
            forall i :: 0 <= i < |plain| ==>
              !IsOpen(plain[i]) && !IsClose(plain[i]) && plain[i] != '\'' && plain[i] != '"' && plain[i] != '#'
  {
  }

  lemma SampleEdits(locations: seq<Location>, rewrites: seq<Rewrite>)
    requires Inserts(locations, "{a: b}", 0, "k: a'b", rewrites) && ScanCollection("{a: b}", 0) == Ok(Bounds(6, 4))
    ensures rewrites == [Rewrite(5, 5, ", k: a'b,")]
  {
    hide ScanCollection;
    var source := "{a: b}";
    assert source[0..6] == source && '\n' !in source && source[4] == 'b';
    assert ", " + "k: a'b" + "," == ", k: a'b,";
  }
}
