/**
 The entries of a flow collection and what adding one at the end means
 (src/wudup/compose_source.py).
 */
module FlowEntries {
  import opened FlowScanner

  const COMMA := Plain(',')

  /** The parts between top-level commas; there is always at least one. */
  function Split(items: seq<Piece>): (parts: seq<seq<Piece>>)
    ensures parts != []
  {
    if items == [] then [[]]
    else
      var parts := Split(items[1..]);
      if items[0] == COMMA then [[]] + parts
      else [[items[0]] + parts[0]] + parts[1..]
  }

  function DropFront(part: seq<Piece>): seq<Piece> {
    if part != [] && IsTrivia(part[0]) then DropFront(part[1..]) else part
  }

  function DropBack(part: seq<Piece>): seq<Piece> {
    if part != [] && IsTrivia(part[|part| - 1]) then DropBack(part[..|part| - 1]) else part
  }

  /** One entry without the spaces and comments around it. */
  function Trim(part: seq<Piece>): seq<Piece> {
    DropBack(DropFront(part))
  }

  function TrimAll(parts: seq<seq<Piece>>): seq<seq<Piece>> {
    seq(|parts|, i requires 0 <= i < |parts| => Trim(parts[i]))
  }

  /** The entries of a collection; nothing after a trailing comma is not an entry. */
  function Entries(items: seq<Piece>): seq<seq<Piece>> {
    var trimmed := TrimAll(Split(items));
    if trimmed[|trimmed| - 1] == [] then trimmed[..|trimmed| - 1] else trimmed
  }

  ghost predicate AllTrivia(items: seq<Piece>) {
    forall i :: 0 <= i < |items| ==> IsTrivia(items[i])
  }

  ghost predicate NoComma(items: seq<Piece>) {
    forall i :: 0 <= i < |items| ==> items[i] != COMMA
  }

  /** Text that may be inserted as one entry: no top-level comma, and no space or comment at its ends. */
  ghost predicate EntryOk(entry: seq<Piece>) {
    && entry != [] && NoComma(entry) && ItemsOk(entry, true)
    && !IsTrivia(entry[0]) && !IsTrivia(entry[|entry| - 1])
  }

  // ---------- Splitting and trimming ----------

  lemma SplitAtComma(a: seq<Piece>, b: seq<Piece>)
    ensures Split(a + [COMMA] + b) == Split(a) + Split(b)
  {
    hide Split;
    var c := [COMMA] + b;
    assert c[0] == COMMA && c[1..] == b;
    SplitBefore(a, c);
    assert a + [COMMA] + b == a + c;
  }

  lemma {:induction false} SplitBefore(a: seq<Piece>, c: seq<Piece>)
    requires c != [] && c[0] == COMMA
    ensures Split(a + c) == Split(a) + Split(c[1..])
  {
    hide *;
    SplitFirst(c);
    SplitFirst(a + c);
    SplitNothing();
    if a != [] { SplitFirst(a); }
    if a == [] {
      assert a + c == c;
    } else {
      SplitBefore(a[1..], c);
      assert (a + c)[1..] == a[1..] + c && (a + c)[0] == a[0];
      FirstPart(a[0], Split(a[1..]), Split(c[1..]));
    }
  }

  lemma SplitNothing()
    ensures Split([]) == [[]]
  {
  }

  lemma FirstPart(x: Piece, parts: seq<seq<Piece>>, others: seq<seq<Piece>>)
    requires parts != []
    ensures [[]] + (parts + others) == [[]] + parts + others
    ensures [[x] + (parts + others)[0]] + (parts + others)[1..] == [[x] + parts[0]] + parts[1..] + others
  {
    assert (parts + others)[1..] == parts[1..] + others;
  }

  lemma SplitFirst(items: seq<Piece>)
    requires items != []
    ensures var rest := Split(items[1..]);
            Split(items) == if items[0] == COMMA then [[]] + rest else [[items[0]] + rest[0]] + rest[1..]
  {
  }

  lemma {:induction false} PlainSplit(b: seq<Piece>)
    requires NoComma(b)
    ensures Split(b) == [b]
  {
    if b != [] {
      PlainSplit(b[1..]);
      assert b == [b[0]] + b[1..];
    }
  }

  /** The parts with text without a comma appended to the last one. */
  function ExtendLast(parts: seq<seq<Piece>>, b: seq<Piece>): seq<seq<Piece>>
    requires parts != []
  {
    parts[..|parts| - 1] + [parts[|parts| - 1] + b]
  }

  lemma {:induction false} SplitExtend(a: seq<Piece>, b: seq<Piece>)
    requires NoComma(b)
    ensures Split(a + b) == ExtendLast(Split(a), b)
  {
    if a == [] {
      assert a + b == b && [] + b == b;
      PlainSplit(b);
    } else {
      SplitExtend(a[1..], b);
      assert (a + b)[1..] == a[1..] + b && (a + b)[0] == a[0];
      ExtendConsistent(a[0], Split(a[1..]), b);
    }
  }

  lemma ExtendConsistent(x: Piece, parts: seq<seq<Piece>>, b: seq<Piece>)
    requires parts != []
    ensures [[]] + ExtendLast(parts, b) == ExtendLast([[]] + parts, b)
    ensures var t := ExtendLast(parts, b);
            [[x] + t[0]] + t[1..] == ExtendLast([[x] + parts[0]] + parts[1..], b)
  {
    if |parts| == 1 {
      assert [x] + (parts[0] + b) == ([x] + parts[0]) + b;
    }
  }

  lemma {:induction false} TrimAllConcat(a: seq<seq<Piece>>, b: seq<seq<Piece>>)
    ensures TrimAll(a + b) == TrimAll(a) + TrimAll(b)
  {
  }

  lemma {:induction false} DropFrontTrivia(m: seq<Piece>, x: seq<Piece>)
    requires AllTrivia(m)
    ensures DropFront(m + x) == DropFront(x)
  {
    if m == [] {
      assert m + x == x;
    } else {
      DropFrontTrivia(m[1..], x);
      assert (m + x)[1..] == m[1..] + x;
    }
  }

  lemma {:induction false} DropBackTrivia(x: seq<Piece>, t: seq<Piece>)
    requires AllTrivia(t)
    ensures DropBack(x + t) == DropBack(x)
  {
    if t == [] {
      assert x + t == x;
    } else {
      DropBackTrivia(x, t[..|t| - 1]);
      assert (x + t)[..|x + t| - 1] == x + t[..|t| - 1];
    }
  }

  lemma {:induction false} TrimTrailing(x: seq<Piece>, t: seq<Piece>)
    requires AllTrivia(t)
    ensures Trim(x + t) == Trim(x)
  {
    if x == [] {
      assert x + t == t && t + [] == t;
      DropFrontTrivia(t, []);
    } else if IsTrivia(x[0]) {
      TrimTrailing(x[1..], t);
      assert (x + t)[1..] == x[1..] + t;
    } else {
      DropBackTrivia(x, t);
    }
  }

  lemma TrimTrivia(t: seq<Piece>)
    requires AllTrivia(t)
    ensures Trim(t) == []
  {
    TrimTrailing([], t);
    assert [] + t == t;
  }

  /** Spaces and comments before an entry are no part of it. */
  lemma TrimEntry(m: seq<Piece>, entry: seq<Piece>)
    requires AllTrivia(m) && EntryOk(entry)
    ensures Trim(m + entry) == entry
  {
    hide *;
    EntryEnds(entry);
    DropFrontTrivia(m, entry);
    TrimIs(m + entry);
  }

  lemma EntryEnds(entry: seq<Piece>)
    requires EntryOk(entry)
    ensures DropFront(entry) == entry && DropBack(entry) == entry
  {
    hide ItemsOk, NoComma;
  }

  lemma TrimIs(part: seq<Piece>)
    ensures Trim(part) == DropBack(DropFront(part))
  {
  }

  lemma TrimNonEmpty(part: seq<Piece>)
    requires part != [] && !IsTrivia(part[|part| - 1])
    ensures Trim(part) != []
    decreases |part|
  {
    if IsTrivia(part[0]) { TrimNonEmpty(part[1..]); }
  }

  // ---------- Adding an entry ----------

  /** The pieces of the collection after the insertion. */
  function WithEntry(front: seq<Piece>, comma: bool, mid: seq<Piece>, entry: seq<Piece>, tail: seq<Piece>)
    : seq<Piece>
  {
    (if comma then front + [COMMA] else front) + (mid + entry) + [COMMA] + tail
  }

  ghost predicate NeedsComma(front: seq<Piece>) {
    front != [] && front[|front| - 1] != COMMA
  }

  lemma EntriesWithComma(front: seq<Piece>, trail: seq<Piece>, mid: seq<Piece>, entry: seq<Piece>, tail: seq<Piece>)
    requires AllTrivia(trail) && AllTrivia(mid) && AllTrivia(tail) && EntryOk(entry)
    requires NeedsComma(front) && !IsTrivia(front[|front| - 1])
    ensures Entries(WithEntry(front, true, mid, entry, tail)) == Entries(front + trail) + [entry]
  {
    hide *;
    var body, parts := mid + entry, Split(front);
    WithComma(front, mid, entry, tail);
    OldEntries(front, trail);
    EntryParts(mid, entry, tail);
    SplitAtComma(front, body + [COMMA] + tail);
    SplitAtComma(body, tail);
    EntriesAfter(WithEntry(front, true, mid, entry, tail), parts, mid, entry, tail);
  }

  lemma TriviaNoComma(trail: seq<Piece>)
    requires AllTrivia(trail)
    ensures NoComma(trail)
  {
  }

  lemma WithComma(front: seq<Piece>, mid: seq<Piece>, entry: seq<Piece>, tail: seq<Piece>)
    ensures WithEntry(front, true, mid, entry, tail) == front + [COMMA] + ((mid + entry) + [COMMA] + tail)
  {
  }

  lemma WithoutComma(front: seq<Piece>, mid: seq<Piece>, entry: seq<Piece>, tail: seq<Piece>)
    ensures WithEntry(front, false, mid, entry, tail) == front + ((mid + entry) + [COMMA] + tail)
  {
  }

  lemma BodyNoComma(mid: seq<Piece>, entry: seq<Piece>)
    requires AllTrivia(mid) && EntryOk(entry)
    ensures NoComma(mid + entry)
  {
    hide ItemsOk;
  }

  /** The inserted text and what follows it are parts of their own. */
  lemma EntryParts(mid: seq<Piece>, entry: seq<Piece>, tail: seq<Piece>)
    requires AllTrivia(mid) && AllTrivia(tail) && EntryOk(entry)
    ensures Split(mid + entry) == [mid + entry] && Split(tail) == [tail]
    ensures Trim(mid + entry) == entry && Trim(tail) == []
  {
    hide *;
    BodyNoComma(mid, entry);
    TriviaNoComma(tail);
    TrimEntry(mid, entry);
    TrimTrivia(tail);
    PlainSplit(mid + entry);
    PlainSplit(tail);
  }

  /** The entries of items that end with the inserted text, a comma and trivia. */
  lemma EntriesAfter(items: seq<Piece>, parts: seq<seq<Piece>>, mid: seq<Piece>, entry: seq<Piece>, tail: seq<Piece>)
    requires Split(items) == parts + ([mid + entry] + [tail])
    requires Trim(mid + entry) == entry && Trim(tail) == []
    ensures Entries(items) == TrimAll(parts) + [entry]
  {
    hide *;
    EndsWith(parts, [mid + entry] + [tail], [entry, []]);
    assert TrimAll(parts) + [entry, []] == TrimAll(parts) + [entry] + [[]];
    EntriesBeforeLast(items, TrimAll(parts) + [entry]);
  }

  lemma OldEntries(front: seq<Piece>, trail: seq<Piece>)
    requires AllTrivia(trail) && NeedsComma(front) && !IsTrivia(front[|front| - 1])
    ensures Entries(front + trail) == TrimAll(Split(front))
  {
    hide *;
    var parts := Split(front);
    LastPartEnds(front);
    TriviaNoComma(trail);
    SplitExtend(front, trail);
    TrimExtended(parts, trail);
    EntriesWhole(front + trail, TrimAll(parts));
  }

  /** The last part ends as the pieces do. */
  lemma LastPartEnds(front: seq<Piece>)
    requires NeedsComma(front)
    ensures var last := Split(front)[|Split(front)| - 1]; last != [] && last[|last| - 1] == front[|front| - 1]
  {
    hide Split;
    var n := |front| - 1;
    assert NoComma([front[n]]);
    SplitExtend(front[..n], [front[n]]);
    assert front == front[..n] + [front[n]];
  }

  lemma TrimExtended(parts: seq<seq<Piece>>, trail: seq<Piece>)
    requires AllTrivia(trail) && parts != []
    requires var last := parts[|parts| - 1]; last != [] && !IsTrivia(last[|last| - 1])
    ensures TrimAll(ExtendLast(parts, trail)) == TrimAll(parts)
    ensures |TrimAll(parts)| > 0 && TrimAll(parts)[|TrimAll(parts)| - 1] != []
  {
    hide Trim, AllTrivia, IsTrivia;
    var last := parts[|parts| - 1];
    TrimTrailing(last, trail);
    TrimNonEmpty(last);
    TrimsAgree(ExtendLast(parts, trail), parts);
  }

  lemma TrimsAgree(a: seq<seq<Piece>>, b: seq<seq<Piece>>)
    requires |a| == |b| && forall i :: 0 <= i < |a| ==> Trim(a[i]) == Trim(b[i])
    ensures TrimAll(a) == TrimAll(b)
  {
    hide Trim;
  }

  lemma EntriesWhole(items: seq<Piece>, trimmed: seq<seq<Piece>>)
    requires TrimAll(Split(items)) == trimmed && trimmed != [] && trimmed[|trimmed| - 1] != []
    ensures Entries(items) == trimmed
  {
    hide Split, TrimAll;
  }

  lemma EntriesWithoutComma(front: seq<Piece>, trail: seq<Piece>, mid: seq<Piece>, entry: seq<Piece>,
                            tail: seq<Piece>)
    requires AllTrivia(trail) && AllTrivia(mid) && AllTrivia(tail) && EntryOk(entry)
    requires !NeedsComma(front)
    ensures Entries(WithEntry(front, false, mid, entry, tail)) == Entries(front + trail) + [entry]
  {
    hide *;
    var body := mid + entry;
    var parts := PartsBefore(front, trail);
    var others := PartsBefore(front, body + [COMMA] + tail);
    WithoutComma(front, mid, entry, tail);
    EntryParts(mid, entry, tail);
    TriviaNoComma(trail);
    PlainSplit(trail);
    TrimTrivia(trail);
    SplitAtComma(body, tail);
    EntriesAfter(WithEntry(front, false, mid, entry, tail), parts, mid, entry, tail);
    EndsWith(parts, [trail], [[]]);
    EntriesBeforeLast(front + trail, TrimAll(parts));
  }

  /** Nothing after the last comma: the entries are the parts before it. */
  lemma EntriesBeforeLast(items: seq<Piece>, before: seq<seq<Piece>>)
    requires TrimAll(Split(items)) == before + [[]]
    ensures Entries(items) == before
  {
    hide Split, TrimAll;
  }

  /** The parts up to the comma that `front` ends with. */
  lemma PartsBefore(front: seq<Piece>, rest: seq<Piece>) returns (parts: seq<seq<Piece>>)
    requires !NeedsComma(front)
    ensures Split(front + rest) == parts + Split(rest)
    ensures parts == if front == [] then [] else Split(front[..|front| - 1])
  {
    if front == [] {
      parts := [];
      assert front + rest == rest;
    } else {
      var f := front[..|front| - 1];
      assert front == f + [COMMA];
      parts := Split(f);
      SplitAtComma(f, rest);
    }
  }

  lemma EndsWith(parts: seq<seq<Piece>>, last: seq<seq<Piece>>, trimmed: seq<seq<Piece>>)
    requires |last| == |trimmed| && forall i :: 0 <= i < |last| ==> Trim(last[i]) == trimmed[i]
    ensures TrimAll(parts + last) == TrimAll(parts) + trimmed
  {
    hide Trim;
    TrimAllConcat(parts, last);
    assert TrimAll(last) == trimmed;
  }

  // ---------- Well-formedness and text of concatenations ----------

  lemma {:induction false} RenderConcat(a: seq<Piece>, b: seq<Piece>)
    ensures Render(a + b) == Render(a) + Render(b)
  {
    if a == [] {
      assert a + b == b;
    } else {
      RenderConcat(a[1..], b);
      assert (a + b)[1..] == a[1..] + b && (a + b)[0] == a[0];
      RenderFirst(a);
      RenderFirst(a + b);
      hide RenderPiece, Render;
      Associative(RenderPiece(a[0]), Render(a[1..]), Render(b));
    }
  }

  lemma RenderFirst(items: seq<Piece>)
    requires items != []
    ensures Render(items) == RenderPiece(items[0]) + Render(items[1..])
  {
  }

  lemma Associative(a: string, b: string, c: string)
    ensures a + (b + c) == a + b + c
  {
  }

  /** Whether white space stands before what follows `items`. */
  function SpaceAfter(items: seq<Piece>, afterSpace: bool): bool {
    if items == [] then afterSpace else IsTrivia(items[|items| - 1])
  }

  ghost predicate NoQuotePair(a: seq<Piece>, b: seq<Piece>) {
    a != [] && a[|a| - 1].Single? && b != [] ==> !b[0].Single?
  }

  lemma {:induction false} ItemsOkConcat(a: seq<Piece>, b: seq<Piece>, afterSpace: bool)
    ensures ItemsOk(a + b, afterSpace) <==>
            ItemsOk(a, afterSpace) && ItemsOk(b, SpaceAfter(a, afterSpace)) && NoQuotePair(a, b)
  {
    if a == [] {
      assert a + b == b;
    } else {
      ItemsOkConcat(a[1..], b, IsTrivia(a[0]));
      assert (a + b)[1..] == a[1..] + b;
      assert |a| == 1 ==> a[1..] == [];
    }
  }

  lemma ItemsOkAnywhere(entry: seq<Piece>, afterSpace: bool)
    requires EntryOk(entry)
    ensures ItemsOk(entry, afterSpace)
  {
    assert PieceOk(entry[0], true);
    assert PieceOk(entry[0], afterSpace);
  }

  lemma WithEntryOk(front: seq<Piece>, comma: bool, mid: seq<Piece>, entry: seq<Piece>, tail: seq<Piece>)
    requires ItemsOk(front, false) && EntryOk(entry) && ItemsOk(tail, false)
    requires AllTrivia(mid) && AllTrivia(tail) && ItemsOk(mid, false)
    requires comma ==> front != [] && !IsTrivia(front[|front| - 1])
    requires !comma ==> !NeedsComma(front)
    ensures ItemsOk(WithEntry(front, comma, mid, entry, tail), false)
  {
    hide ItemsOk;
    var base := if comma then front + [COMMA] else front;
    CommaOk(SpaceAfter(front, false));
    ItemsOkConcat(front, [COMMA], false);
    assert ItemsOk(base, false);
    assert !SpaceAfter(base, false);
    ItemsOkAnywhere(entry, SpaceAfter(mid, false));
    ItemsOkConcat(mid, entry, false);
    ItemsOkConcat(base, mid + entry, false);
    CommaOk(false);
    ItemsOkConcat(base + (mid + entry), [COMMA], false);
    ItemsOkConcat(base + (mid + entry) + [COMMA], tail, false);
  }

  lemma CommaOk(afterSpace: bool)
    ensures ItemsOk([COMMA], afterSpace)
  {
    assert PieceOk(COMMA, afterSpace);
    assert [COMMA][1..] == [];
  }

  /** White space as pieces. */
  function Spaces(text: string): seq<Piece> {
    seq(|text|, i requires 0 <= i < |text| => Space(text[i]))
  }

  lemma {:induction false} SpacesOk(text: string, afterSpace: bool)
    requires forall i :: 0 <= i < |text| ==> IsSpace(text[i])
    ensures Render(Spaces(text)) == text && AllTrivia(Spaces(text)) && ItemsOk(Spaces(text), afterSpace)
  {
    if text != [] {
      SpacesOk(text[1..], true);
      assert Spaces(text)[1..] == Spaces(text[1..]);
    }
  }

  /** Trivia can be cut just behind any line feed in their text. */
  lemma {:induction false} CutTrivia(trail: seq<Piece>, afterSpace: bool, n: nat) returns (j: nat)
    requires AllTrivia(trail) && ItemsOk(trail, afterSpace) && n <= |Render(trail)|
    requires n > 0 ==> Render(trail)[n - 1] == '\n'
    ensures j <= |trail| && |Render(trail[..j])| == n && Render(trail) == Render(trail[..j]) + Render(trail[j..])
  {
    hide *;
    RenderNothing();
    if n > 0 { TriviaEnds(trail, afterSpace, n); }
    if n == 0 {
      j := 0;
      assert trail[..0] == [] && trail[0..] == trail;
    } else {
      var p := trail[0];
      var m := |RenderPiece(p)|;
      var i := CutTrivia(trail[1..], IsTrivia(p), n - m);
      j := i + 1;
      assert trail[..j] == [p] + trail[1..][..i];
      RenderConcat([p], trail[1..][..i]);
      RenderConcat(trail[..j], trail[j..]);
      assert trail == trail[..j] + trail[j..];
      RenderOne(p);
    }
  }

  lemma RenderNothing()
    ensures Render([]) == []
  {
  }

  lemma RenderOne(p: Piece)
    ensures Render([p]) == RenderPiece(p)
  {
    assert RenderPiece(p) + [] == RenderPiece(p);
  }

  /** A line feed in trivia ends one of its pieces: the first, or one behind it. */
  lemma TriviaEnds(trail: seq<Piece>, afterSpace: bool, n: nat)
    requires AllTrivia(trail) && ItemsOk(trail, afterSpace) && 0 < n <= |Render(trail)|
    requires Render(trail)[n - 1] == '\n'
    ensures trail != [] && AllTrivia(trail[1..]) && ItemsOk(trail[1..], IsTrivia(trail[0]))
    ensures var m := |RenderPiece(trail[0])|;
            && m <= n <= m + |Render(trail[1..])|
            && (n > m ==> Render(trail[1..])[n - m - 1] == '\n')
  {
    var p := trail[0];
    var m := |RenderPiece(p)|;
    assert Render(trail) == RenderPiece(p) + Render(trail[1..]);
    if n <= m {
      if p.Comment? {
        assert forall k :: 1 <= k < m - 1 ==> RenderPiece(p)[k] == p.text[k - 1];
      }
    } else {
      assert Render(trail)[n - 1] == Render(trail[1..])[n - m - 1];
    }
  }
}
