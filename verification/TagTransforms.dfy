/**
 The managed `wud.tag.transform` of four-part version tags: which tags keep one transform, and
 that the transformed tags are ordered by semantic versioning as the numbers in them are.
 */
module TagTransforms {
  import opened Ordering
  import opened Regex
  import opened TagTokens
  import opened TagScanning
  import opened TagStreams

  // ---------- The transform ----------

  const LS_RULE := "(\\d+)\\.(\\d+)\\.(\\d+)\\.(\\d+)-ls(\\d+)"
  const PLAIN_RULE := "(\\d+)\\.(\\d+)\\.(\\d+)\\.(\\d+)"
  const LS_TEMPLATE := "$1.$2.$3-$4.$5"
  const PLAIN_TEMPLATE := "$1.$2.$3-$4"

  /** A label value: a pattern with groups, ` => `, and the text to put in place of the tag. */
  function Label(pattern: string, template: string): string {
    pattern + " => " + template
  }

  function ManagedTransform(tag: string): string {
    var prefix := VPrefix(tag);
    if IsFourPart(tag, true) then Label(Anchored(prefix + LS_RULE), LS_TEMPLATE)
    else if IsFourPart(tag, false) then Label(Anchored(prefix + PLAIN_RULE), PLAIN_TEMPLATE)
    else ""
  }

  // ---------- Captured groups ----------

  /** The pieces of a four-part version with a group round each number. */
  function CaptureTokens(prefix: string, ls: bool): seq<Token> {
    Literals(prefix) + if ls then CAPTURED_FOUR + CAPTURED_LS else CAPTURED_FOUR
  }

  const CAPTURED_FOUR := [Capture, Literal('.'), Capture, Literal('.'), Capture, Literal('.'), Capture]
  const CAPTURED_LS := [Literal('-'), Literal('l'), Literal('s'), Capture]
  const DOT_CAPTURE := [Literal('.'), Capture]

  function NumberPieces(ts: seq<Token>): nat {
    if ts == [] then 0 else (if ts[0].Literal? then 0 else 1) + NumberPieces(ts[1..])
  }

  /** The text that the pieces match when the number pieces take `groups` in order. */
  function Fill(ts: seq<Token>, groups: seq<string>): string
    requires NumberPieces(ts) == |groups|
  {
    if ts == [] then ""
    else if ts[0].Literal? then [ts[0].c] + Fill(ts[1..], groups)
    else groups[0] + Fill(ts[1..], groups[1..])
  }

  predicate AllNumbers(groups: seq<string>) {
    forall i :: 0 <= i < |groups| ==> Number(groups[i])
  }

  predicate NoGroups(ts: seq<Token>) {
    forall t :: t in ts ==> !t.DotDigits?
  }

  /** Whatever the pieces match is filled by some numbers. */
  lemma {:induction false} DerivesFill(ts: seq<Token>, s: string) returns (groups: seq<string>)
    requires NoGroups(ts) && Derives(ts, s)
    ensures AllNumbers(groups) && |groups| == NumberPieces(ts) && Fill(ts, groups) == s
  {
    if ts == [] {
      groups := [];
    } else {
      SplitDerives(ts, s);
      var k: nat :| SplitsAt(ts, s, k);
      var rest := DerivesFill(ts[1..], s[k..]);
      assert s == s[..k] + s[k..];
      groups := if ts[0].Literal? then rest else [s[..k]] + rest;
      assert !ts[0].Literal? ==> groups[1..] == rest;
    }
  }

  lemma {:induction false} FillDerives(ts: seq<Token>, groups: seq<string>)
    requires NoGroups(ts) && AllNumbers(groups) && NumberPieces(ts) == |groups|
    ensures Derives(ts, Fill(ts, groups))
  {
    if ts != [] {
      var s := Fill(ts, groups);
      if ts[0].Literal? {
        FillDerives(ts[1..], groups);
        assert s[1..] == Fill(ts[1..], groups);
      } else {
        FillDerives(ts[1..], groups[1..]);
        var k := |groups[0]|;
        assert s[..k] == groups[0] && s[k..] == Fill(ts[1..], groups[1..]);
        assert SplitsAt(ts, s, k);
        SplitDerives(ts, s);
      }
    }
  }

  lemma {:induction false} FillStops(ts: seq<Token>, groups: seq<string>)
    requires ts != [] && Starts(ts[0], false) && NoGroups(ts) && NumberPieces(ts) == |groups|
    ensures var s := Fill(ts, groups); s != [] && !IsDigit(s[0])
  {
  }

  /** The numbers are determined by the text. */
  lemma {:induction false} FillUnique(ts: seq<Token>, a: seq<string>, b: seq<string>)
    requires Separated(ts) && NoGroups(ts) && AllNumbers(a) && AllNumbers(b)
    requires NumberPieces(ts) == |a| == |b| && Fill(ts, a) == Fill(ts, b)
    ensures a == b
  {
    if ts != [] {
      SeparatedTail(ts);
      var s := Fill(ts, a);
      if ts[0].Literal? {
        assert s[1..] == Fill(ts[1..], a) == Fill(ts[1..], b);
        FillUnique(ts[1..], a, b);
      } else {
        FirstNumber(ts, a);
        FirstNumber(ts, b);
        assert s[|a[0]|..] == Fill(ts[1..], a[1..]) && s[|b[0]|..] == Fill(ts[1..], b[1..]);
        assert a[0] == s[..|a[0]|] && b[0] == s[..|b[0]|];
        FillUnique(ts[1..], a[1..], b[1..]);
        assert a == [a[0]] + a[1..] && b == [b[0]] + b[1..];
      }
    }
  }

  lemma SeparatedTail(ts: seq<Token>)
    requires ts != [] && Separated(ts)
    ensures Separated(ts[1..])
  {
    forall i | 0 <= i < |ts[1..]| - 1 && !ts[1..][i].Literal?
      ensures Starts(ts[1..][i + 1], ts[1..][i].DotDigits?)
    {
      assert ts[1..][i] == ts[i + 1] && ts[1..][i + 1] == ts[i + 2];
    }
  }

  lemma FirstNumber(ts: seq<Token>, groups: seq<string>)
    requires ts != [] && !ts[0].Literal? && Separated(ts) && NoGroups(ts)
    requires AllNumbers(groups) && NumberPieces(ts) == |groups|
    ensures |groups[0]| == DigitRun(Fill(ts, groups))
  {
    var s, k := Fill(ts, groups), |groups[0]|;
    var rest := Fill(ts[1..], groups[1..]);
    assert s[..k] == groups[0] && s[k..] == rest;
    if |ts| > 1 {
      assert Starts(ts[1], ts[0].DotDigits?);
      FillStops(ts[1..], groups[1..]);
      assert s[k] == rest[0];
    }
    DigitRunLongest(s, k);
  }

  /** What a pattern made of these pieces captures from a text, in order. */
  ghost predicate Captures(ts: seq<Token>, text: string, groups: seq<string>) {
    |groups| == NumberPieces(ts) && AllNumbers(groups) && text == Fill(ts, groups)
  }

  /** `$k` stands for the `k`-th group; every other character for itself. */
  function Expand(template: string, groups: seq<string>): string {
    if template == "" then ""
    else if |template| >= 2 && template[0] == '$' && IsDigit(template[1])
            && 1 <= (template[1] - '0') as int <= |groups| then
      groups[(template[1] - '0') as int - 1] + Expand(template[2..], groups)
    else [template[0]] + Expand(template[1..], groups)
  }

  /** The transform label reads the text as this: its pattern captures, its template rewrites. */
  ghost predicate TransformsTo(rule: string, text: string, result: string) {
    exists ts, template, groups ::
      && rule == Anchored(Text(ts)) + " => " + template && ' ' !in Text(ts)
      && Accepts(Anchored(Text(ts)), text)
      && Captures(ts, text, groups)
      && result == Expand(template, groups)
  }

  // ---------- The pattern of the label ----------

  lemma CapturePattern(prefix: string, ls: bool)
    requires prefix == "" || prefix == "v"
    ensures Text(CaptureTokens(prefix, ls)) == prefix + if ls then LS_RULE else PLAIN_RULE
  {
    FourText();
    EndText();
    assert Escape(prefix) == prefix;
    hide Text, Escape;
    TextConcat(Literals(prefix), if ls then CAPTURED_FOUR + CAPTURED_LS else CAPTURED_FOUR);
    TextConcat(CAPTURED_FOUR, CAPTURED_LS);
    TextOfLiterals(prefix);
    RuleText();
  }

  lemma RuleText()
    ensures PLAIN_RULE + "-ls(\\d+)" == LS_RULE
    ensures "(\\d+)" + ("\\.(\\d+)" + ("\\.(\\d+)" + "\\.(\\d+)")) == PLAIN_RULE
  {
    hide Text, Escape, TokenText;
  }

  lemma PieceText()
    ensures Text([Capture]) == "(\\d+)"
    ensures Text(DOT_CAPTURE) == "\\.(\\d+)"
  {
    assert DOT_CAPTURE[1..] == [Capture] && [Capture][1..] == [];
  }

  lemma FourText()
    ensures Text(CAPTURED_FOUR) == PLAIN_RULE
  {
    hide Text;
    PieceText();
    RuleText();
    assert CAPTURED_FOUR == [Capture] + (DOT_CAPTURE + (DOT_CAPTURE + DOT_CAPTURE));
    TextConcat([Capture], DOT_CAPTURE + (DOT_CAPTURE + DOT_CAPTURE));
    TextConcat(DOT_CAPTURE, DOT_CAPTURE + DOT_CAPTURE);
    TextConcat(DOT_CAPTURE, DOT_CAPTURE);
  }

  lemma EndText()
    ensures Text(CAPTURED_LS) == "-ls(\\d+)"
  {
    hide Text;
    var l, s := [Literal('l')], [Literal('s')];
    assert CAPTURED_LS == [Literal('-')] + (l + (s + [Capture]));
    TextConcat([Literal('-')], l + (s + [Capture]));
    TextConcat(l, s + [Capture]);
    TextConcat(s, [Capture]);
    TextOne(Literal('-'));
    TextOne(Literal('l'));
    TextOne(Literal('s'));
    TextOne(Capture);
  }

  /** Grouping a number does not change what its piece matches. */
  function Ungrouped(t: Token): Token {
    if t.Capture? then Digits else t
  }

  ghost predicate SamePieces(a: seq<Token>, b: seq<Token>) {
    |a| == |b| && forall i :: 0 <= i < |a| ==> Ungrouped(a[i]) == Ungrouped(b[i])
  }

  lemma {:induction false} GroupingKeepsDerives(a: seq<Token>, b: seq<Token>, s: string)
    requires SamePieces(a, b) && Derives(a, s)
    ensures Derives(b, s)
  {
    if a != [] {
      SplitDerives(a, s);
      var k: nat :| SplitsAt(a, s, k);
      GroupingKeepsDerives(a[1..], b[1..], s[k..]);
      assert Ungrouped(a[0]) == Ungrouped(b[0]);
      assert SplitsAt(b, s, k);
      SplitDerives(b, s);
    }
  }

  lemma FourPartPieces(prefix: string, ls: bool)
    requires prefix == "" || prefix == "v"
    ensures SamePieces(CaptureTokens(prefix, ls), FourPartTokens(prefix, ls))
    ensures Separated(CaptureTokens(prefix, ls)) && NoGroups(CaptureTokens(prefix, ls))
    ensures NumberPieces(CaptureTokens(prefix, ls)) == if ls then 5 else 4
  {
    hide NumberPieces;
    FourPartCount(prefix, ls);
    var four := if ls then CAPTURED_FOUR + CAPTURED_LS else CAPTURED_FOUR;
    var ts := CaptureTokens(prefix, ls);
    assert ts == if prefix == "" then four else [Literal('v')] + four by {
      assert prefix != "" ==> Literals(prefix) == [Literal('v')];
    }
    SameFour(ls);
  }

  lemma SameFour(ls: bool)
    ensures var a := if ls then CAPTURED_FOUR + CAPTURED_LS else CAPTURED_FOUR;
            SamePieces(a, if ls then FOUR_PARTS_LS else FOUR_PARTS) && Separated(a) && NoGroups(a)
  {
    hide NumberPieces;
  }

  lemma FourPartCount(prefix: string, ls: bool)
    requires prefix == "" || prefix == "v"
    ensures NumberPieces(CaptureTokens(prefix, ls)) == if ls then 5 else 4
  {
    PieceCount();
    assert NumberPieces(Literals(prefix)) == 0;
    hide NumberPieces;
    NumberPiecesConcat(Literals(prefix), if ls then CAPTURED_FOUR + CAPTURED_LS else CAPTURED_FOUR);
    NumberPiecesConcat(CAPTURED_FOUR, CAPTURED_LS);
    assert CAPTURED_FOUR == [Capture] + (DOT_CAPTURE + (DOT_CAPTURE + DOT_CAPTURE));
    NumberPiecesConcat([Capture], DOT_CAPTURE + (DOT_CAPTURE + DOT_CAPTURE));
    NumberPiecesConcat(DOT_CAPTURE, DOT_CAPTURE + DOT_CAPTURE);
    NumberPiecesConcat(DOT_CAPTURE, DOT_CAPTURE);
  }

  lemma PieceCount()
    ensures NumberPieces([Capture]) == 1 == NumberPieces(DOT_CAPTURE) == NumberPieces(CAPTURED_LS)
  {
    assert DOT_CAPTURE[1..] == [Capture] && [Capture][1..] == [];
    assert CAPTURED_LS[1..] == [Literal('l'), Literal('s'), Capture];
    assert CAPTURED_LS[1..][1..] == [Literal('s'), Capture] && [Literal('s'), Capture][1..] == [Capture];
    assert NumberPieces([Literal('s'), Capture]) == 1;
  }

  lemma {:induction false} NumberPiecesConcat(a: seq<Token>, b: seq<Token>)
    ensures NumberPieces(a + b) == NumberPieces(a) + NumberPieces(b)
  {
    if a == [] {
      assert a + b == b;
    } else {
      assert (a + b)[1..] == a[1..] + b && (a + b)[0] == a[0];
      NumberPiecesConcat(a[1..], b);
    }
  }

  /** A four-part tag is its prefix and its numbers, in exactly one way. */
  lemma FourPartNumbers(tag: string, ls: bool) returns (groups: seq<string>)
    requires IsFourPart(tag, ls)
    ensures Captures(CaptureTokens(VPrefix(tag), ls), tag, groups) && |groups| == if ls then 5 else 4
  {
    var prefix := VPrefix(tag);
    FourPartTokensShape(prefix, ls);
    FullMatch(FourPartTokens(prefix, ls), tag);
    FourPartPieces(prefix, ls);
    GroupingKeepsDerives(FourPartTokens(prefix, ls), CaptureTokens(prefix, ls), tag);
    groups := DerivesFill(CaptureTokens(prefix, ls), tag);
  }

  lemma CapturesUnique(tag: string, ls: bool, a: seq<string>, b: seq<string>)
    requires Captures(CaptureTokens(VPrefix(tag), ls), tag, a) && Captures(CaptureTokens(VPrefix(tag), ls), tag, b)
    ensures a == b
  {
    FourPartPieces(VPrefix(tag), ls);
    FillUnique(CaptureTokens(VPrefix(tag), ls), a, b);
  }

  // ---------- Tags that share a transform ----------

  lemma NothingDerives(s: string)
    ensures Derives([], s) <==> s == ""
  {
  }

  /** Only digits become number pieces, so a tag that such pieces match has their shape. */
  lemma {:induction false} ShapeOf(ts: seq<Token>, s: string)
    requires Separated(ts) && NoGroups(ts) && Derives(ts, s)
    requires forall t :: t in ts ==> !t.Capture? && (t.Literal? ==> !IsDigit(t.c))
    ensures Generalise(s) == ts
    decreases |ts|
  {
    hide Derives, Separated, DigitRun;
    NothingDerives(s);
    if ts != [] {
      SplitDerives(ts, s);
      var k: nat :| SplitsAt(ts, s, k);
      SeparatedTail(ts);
      ShapeOf(ts[1..], s[k..]);
      assert s[..|s|] == s && s[k..][..|s| - k] == s[k..];
      FirstPiece(ts, s, |s|, k);
      assert ts == [ts[0]] + ts[1..];
      if ts[0].Literal? {
        assert s[0] == ts[0].c;
      } else {
        assert k == DigitRun(s) by {
          if |ts| == 1 {
            assert s[k..] == [];
          }
        }
      }
    }
  }

  lemma FourPartShape(tag: string, ls: bool)
    requires IsFourPart(tag, ls)
    ensures Generalise(tag) == FourPartTokens(VPrefix(tag), ls)
  {
    hide FourPartTokens, Separated, Derives, Greedy, Generalise, NoGroups;
    var prefix := VPrefix(tag);
    FourPartTokensShape(prefix, ls);
    FourPartTokensPlain(prefix, ls);
    FullMatch(FourPartTokens(prefix, ls), tag);
    ShapeOf(FourPartTokens(prefix, ls), tag);
  }

  lemma FourPartTokensPlain(prefix: string, ls: bool)
    requires prefix == "" || prefix == "v"
    ensures NoGroups(FourPartTokens(prefix, ls))
    ensures forall t :: t in FourPartTokens(prefix, ls) ==> !t.Capture? && (t.Literal? ==> !IsDigit(t.c))
  {
    assert prefix != "" ==> Literals(prefix) == [Literal('v')];
  }

  lemma {:induction false} DotGroupsCharacters(s: string)
    requires DotGroups(s)
    ensures forall i :: 0 <= i < |s| ==> s[i] == '.' || IsDigit(s[i])
    decreases |s|
  {
    var k: nat :| DotGroupAt(s, k) && (k == |s| || DotGroups(s[k..]));
    if k < |s| {
      DotGroupsCharacters(s[k..]);
    }
    forall i | 0 <= i < |s| ensures s[i] == '.' || IsDigit(s[i]) {
      if 1 <= i < k {
        assert s[i] == s[1..k][i - 1];
      } else if k <= i {
        assert s[i] == s[k..][i - k];
      }
    }
  }

  /** A dotted start of a tag holds no hyphen. */
  lemma DottedHasNoHyphen(tag: string)
    requires LeadingDotted(tag).Some?
    ensures '-' !in tag[..LeadingDotted(tag).value]
  {
    var m, e := MajorLength(tag), LeadingDotted(tag).value;
    LeadingDottedParts(tag);
    DotGroupsCharacters(tag[m..e]);
    var p := |VPrefix(tag)|;
    forall i | 0 <= i < e ensures tag[i] != '-' {
      if p <= i < m {
        assert tag[i] == tag[p..][..m - p][i - p];
      } else if m <= i {
        assert tag[i] == tag[m..e][i - m];
      }
    }
  }

  /** The text that pieces match ends as their last piece does. */
  lemma {:induction false} LastIsDigit(ts: seq<Token>, s: string)
    requires EndsInDigits(ts) && Derives(ts, s)
    ensures s != [] && IsDigit(s[|s| - 1])
    decreases |ts|
  {
    SplitDerives(ts, s);
    var k: nat :| SplitsAt(ts, s, k);
    if |ts| == 1 {
      assert s[..k] == s;
    } else {
      LastIsDigit(ts[1..], s[k..]);
      assert s[|s| - 1] == s[k..][|s| - k - 1];
    }
  }

  lemma {:induction false} HasLiteral(ts: seq<Token>, s: string, c: char)
    requires Literal(c) in ts && Derives(ts, s)
    ensures c in s
    decreases |ts|
  {
    SplitDerives(ts, s);
    var k: nat :| SplitsAt(ts, s, k);
    assert s == s[..k] + s[k..];
    if ts[0] == Literal(c) {
      assert s[..k] == [c];
      assert s[..k][0] == s[0];
    } else {
      HasLiteral(ts[1..], s[k..], c);
    }
  }

  lemma EndsInLetter(tag: string, e: nat)
    requires e <= |tag| && tag[e..] == "-alpine"
    ensures tag != [] && tag[|tag| - 1] == 'e'
  {
    assert tag == tag[..e] + tag[e..];
  }

  /** Tags with an `-ls` part are generalised run by run, so their shape is kept. */
  lemma LsTagKeepsShape(tag: string)
    requires IsFourPart(tag, true)
    ensures RetagTokens(tag) == Generalise(tag)
  {
    hide Greedy, Derives;
    var prefix := VPrefix(tag);
    var ts := FourPartTokens(prefix, true);
    FourPartTokensShape(prefix, true);
    FullMatch(ts, tag);
    assert ts[|ts| - 1] == Digits && ts[|ts| - 4] == Literal('-');
    LastIsDigit(ts, tag);
    HasLiteral(ts, tag, '-');
    if LeadingDotted(tag).Some? {
      var e := LeadingDotted(tag).value;
      DottedHasNoHyphen(tag);
      if tag[e..] == "-alpine" {
        EndsInLetter(tag, e);
      }
      assert tag[..|tag|] == tag;
    }
  }

  /** Every tag that the pattern of an `-ls` tag accepts gets the same transform. */
  lemma LsTransformIsShared(tag: string, text: string)
    requires IsFourPart(tag, true) && Accepts(Anchored(Text(RetagTokens(tag))), text)
    ensures IsFourPart(text, true) && ManagedTransform(text) == ManagedTransform(tag)
  {
    LsTagKeepsShape(tag);
    GeneralisedAccepts(tag, text);
    FourPartShape(tag, true);
    SameShape(text, text);
    var prefix := VPrefix(tag);
    assert Derives(FourPartTokens(prefix, true), text);
    IsFourPartIff(text, true);
    FourPartShape(text, true);
    FourPartTokensShape(prefix, true);
    FourPartTokensShape(VPrefix(text), true);
  }

  /** A plain four-part tag takes the dotted branch, which also accepts shorter versions. */
  lemma PlainTagIsDotted(tag: string)
    requires IsFourPart(tag, false)
    ensures LeadingDotted(tag) == Some(|tag|)
  {
    hide Fill;
    var prefix := VPrefix(tag);
    var groups := FourPartNumbers(tag, false);
    var ts := CaptureTokens(prefix, false);
    FillFour(prefix, groups);
    var a, tail := groups[0], "." + groups[1] + ("." + groups[2] + ("." + groups[3]));
    OneGroup(groups[3]);
    MoreGroups(groups[2], "." + groups[3]);
    MoreGroups(groups[1], "." + groups[2] + ("." + groups[3]));
    assert tag == prefix + (a + tail);
    DottedDerives(prefix, a, tail);
    DottedShape(prefix);
    FullMatch(DottedTokens(prefix), tag);
  }

  lemma {:induction false} FillConcat(a: seq<Token>, b: seq<Token>, g: seq<string>, h: seq<string>)
    requires NumberPieces(a) == |g| && NumberPieces(b) == |h|
    ensures NumberPieces(a + b) == |g + h| && Fill(a + b, g + h) == Fill(a, g) + Fill(b, h)
    decreases |a|
  {
    NumberPiecesConcat(a, b);
    if a == [] {
      assert a + b == b && g + h == h;
    } else {
      var k := if a[0].Literal? then 0 else 1;
      FillConcat(a[1..], b, g[k..], h);
      assert (a + b)[1..] == a[1..] + b && (a + b)[0] == a[0];
      assert (g + h)[k..] == g[k..] + h && (k == 1 ==> (g + h)[0] == g[0]);
      FillFirst(a, g);
      FillFirst(a + b, g + h);
      hide Fill, NumberPieces;
      Associative(if k == 0 then [a[0].c] else g[0], Fill(a[1..], g[k..]), Fill(b, h));
    }
  }

  lemma FillFirst(ts: seq<Token>, g: seq<string>)
    requires ts != [] && NumberPieces(ts) == |g|
    ensures var k := if ts[0].Literal? then 0 else 1;
            k <= |g| && NumberPieces(ts[1..]) == |g[k..]|
            && Fill(ts, g) == (if k == 0 then [ts[0].c] else g[0]) + Fill(ts[1..], g[k..])
  {
    assert g[0..] == g;
  }

  lemma {:induction false} FillLiterals(s: string)
    ensures NumberPieces(Literals(s)) == 0 && Fill(Literals(s), []) == s
  {
    if s != [] {
      assert Literals(s)[1..] == Literals(s[1..]);
      FillLiterals(s[1..]);
    }
  }

  lemma FillPieces(n: string)
    ensures NumberPieces([Capture]) == 1 == NumberPieces(DOT_CAPTURE) == NumberPieces(CAPTURED_LS)
    ensures Fill([Capture], [n]) == n && Fill(DOT_CAPTURE, [n]) == "." + n && Fill(CAPTURED_LS, [n]) == "-ls" + n
  {
    PieceCount();
    assert DOT_CAPTURE[1..] == [Capture] && [Capture][1..] == [] && [n][1..] == [];
    assert Fill([Capture], [n]) == n;
    assert CAPTURED_LS[1..] == [Literal('l'), Literal('s'), Capture];
    assert CAPTURED_LS[1..][1..] == [Literal('s'), Capture] && [Literal('s'), Capture][1..] == [Capture];
    assert NumberPieces([Literal('s'), Capture]) == 1;
    assert Fill([Literal('s'), Capture], [n]) == "s" + n;
    assert Fill([Literal('l'), Literal('s'), Capture], [n]) == "l" + ("s" + n);
  }

  /** The text of a four-part version: its prefix, its numbers between dots, and the `-ls` part. */
  lemma FillFour(prefix: string, g: seq<string>)
    requires (prefix == "" || prefix == "v") && |g| == 4
    ensures NumberPieces(CaptureTokens(prefix, false)) == 4
    ensures Fill(CaptureTokens(prefix, false), g)
         == prefix + (g[0] + ("." + g[1] + ("." + g[2] + ("." + g[3]))))
  {
    hide Fill, NumberPieces;
    FillPieces(g[0]);
    FillPieces(g[1]);
    FillPieces(g[2]);
    FillPieces(g[3]);
    FillLiterals(prefix);
    assert CAPTURED_FOUR == [Capture] + (DOT_CAPTURE + (DOT_CAPTURE + DOT_CAPTURE));
    FillConcat(DOT_CAPTURE, DOT_CAPTURE, [g[2]], [g[3]]);
    FillConcat(DOT_CAPTURE, DOT_CAPTURE + DOT_CAPTURE, [g[1]], [g[2]] + [g[3]]);
    FillConcat([Capture], DOT_CAPTURE + (DOT_CAPTURE + DOT_CAPTURE), [g[0]], [g[1]] + ([g[2]] + [g[3]]));
    assert g == [g[0]] + ([g[1]] + ([g[2]] + [g[3]]));
    FillConcat(Literals(prefix), CAPTURED_FOUR, [], g);
    assert [] + g == g;
  }

  lemma OneGroup(n: string)
    requires Number(n)
    ensures DotGroups("." + n)
  {
    assert ("." + n)[1..] == n;
    assert DotGroupAt("." + n, 1 + |n|);
  }

  lemma MoreGroups(n: string, rest: string)
    requires Number(n) && DotGroups(rest)
    ensures DotGroups("." + n + rest)
  {
    var s := "." + n + rest;
    assert s[1..1 + |n|] == n && s[1 + |n|..] == rest;
    assert DotGroupAt(s, 1 + |n|);
  }

  lemma DottedDerives(prefix: string, major: string, groups: string)
    requires Number(major) && DotGroups(groups)
    ensures Derives(DottedTokens(prefix), prefix + (major + groups))
  {
    var s := prefix + (major + groups);
    OneDotDigits(groups);
    var ts := [Digits, DotDigits];
    assert (major + groups)[..|major|] == major && (major + groups)[|major|..] == groups;
    assert ts[1..] == [DotDigits];
    assert SplitsAt(ts, major + groups, |major|);
    SplitDerives(ts, major + groups);
    DerivesLiterals(prefix, prefix);
    assert s[..|prefix|] == prefix && s[|prefix|..] == major + groups;
    assert SplitBetween(Literals(prefix), ts, s, |prefix|);
    DerivesConcat(Literals(prefix), ts, s);
  }

  lemma ShortVersion(prefix: string)
    requires prefix == "" || prefix == "v"
    ensures var text := prefix + ("0" + ".0");
            LeadingDotted(text) == Some(|text|) && VPrefix(text) == prefix && ManagedTransform(text) == ""
  {
    var text := prefix + ("0" + ".0");
    assert VPrefix(text) == prefix;
    assert "." + "0" == ".0";
    OneGroup("0");
    DottedDerives(prefix, "0", ".0");
    DottedShape(prefix);
    FullMatch(DottedTokens(prefix), text);
    forall ls: bool ensures !IsFourPart(text, ls) {
      if IsFourPart(text, ls) {
        FourPartShape(text, ls);
        ShortShape(prefix);
      }
    }
  }

  lemma ShortShape(prefix: string)
    requires prefix == "" || prefix == "v"
    ensures |Generalise(prefix + ("0" + ".0"))| <= 4
  {
    var text := prefix + ("0" + ".0");
    GeneraliseLength(text);
  }

  lemma {:induction false} GeneraliseLength(s: string)
    ensures |Generalise(s)| <= |s|
    decreases |s|
  {
    if s != [] {
      GeneraliseLength(s[if IsDigit(s[0]) then DigitRun(s) else 1..]);
    }
  }

  /**
   For a tag with a managed transform, every tag its pattern accepts gets that transform if and
   only if the tag has an `-ls` part.
   */
  lemma SharedTransformIff(tag: string)
    requires ManagedTransform(tag) != ""
    ensures (forall text :: Accepts(Anchored(Text(RetagTokens(tag))), text) ==>
                              ManagedTransform(text) == ManagedTransform(tag))
            <==> IsFourPart(tag, true)
  {
    hide Accepts, RetagTokens, Anchored, Text, IsFourPart;
    if IsFourPart(tag, true) {
      forall text | Accepts(Anchored(Text(RetagTokens(tag))), text)
        ensures ManagedTransform(text) == ManagedTransform(tag)
      {
        LsTransformIsShared(tag, text);
      }
    } else {
      PlainTagIsDotted(tag);
      var text := VPrefix(tag) + ("0" + ".0");
      ShortVersion(VPrefix(tag));
      DottedPatternAccepts(tag, text);
      assert Accepts(Anchored(Text(RetagTokens(tag))), text);
    }
  }

  /** Four numbers with dots between them are a plain four-part tag, and its groups. */
  lemma FourNumbers(g: seq<string>, tag: string)
    requires |g| == 4 && AllNumbers(g) && tag == g[0] + ("." + g[1] + ("." + g[2] + ("." + g[3])))
    ensures VPrefix(tag) == "" && IsFourPart(tag, false) && Captures(CaptureTokens("", false), tag, g)
  {
    hide Derives, Fill, NumberPieces, CaptureTokens, FourPartTokens;
    FillFour("", g);
    FourPartPieces("", false);
    NumberFirst(g[0], "." + g[1] + ("." + g[2] + ("." + g[3])));
    var captures, ts := CaptureTokens("", false), FourPartTokens("", false);
    assert "" + tag == tag;
    FillDerives(captures, g);
    GroupingKeepsDerives(captures, ts, tag);
    IsFourPartIff(tag, false);
  }

  lemma NumberFirst(n: string, rest: string)
    requires Number(n)
    ensures VPrefix(n + rest) == ""
  {
  }

  lemma SampleIsFourPart()
    ensures IsFourPart("1.2.3.4", false)
  {
    var g := ["1", "2", "3", "4"];
    assert "." + "4" == ".4" && "." + "3" + ".4" == ".3.4" && "." + "2" + ".3.4" == ".2.3.4";
    FourNumbers(g, "1.2.3.4");
  }

  /** A plain four-part tag: its own pattern accepts `0.0`, which has no transform. */
  lemma PlainTagNotShared()
    ensures ManagedTransform("1.2.3.4") != "" && ManagedTransform("0.0") == ""
    ensures Accepts(Anchored(Text(RetagTokens("1.2.3.4"))), "0.0")
  {
    hide Accepts, Anchored, Text, RetagTokens;
    var tag := "1.2.3.4";
    SampleIsFourPart();
    ManagedLabel(tag, false);
    PlainTagIsDotted(tag);
    ShortVersion(VPrefix(tag));
    assert VPrefix(tag) == "" && "" + ("0" + ".0") == "0.0";
    DottedPatternAccepts(tag, "0.0");
    assert |PLAIN_TEMPLATE| > 0 && ManagedTransform(tag) != "";
  }

  // ---------- What the transform makes of a tag ----------

  /** The text that a transformed tag has: a version core, a hyphen, and one or two identifiers. */
  function Transformed(g: seq<string>): string
    requires |g| == 4 || |g| == 5
  {
    g[0] + "." + g[1] + "." + g[2] + "-" + g[3] + if |g| == 5 then "." + g[4] else ""
  }

  lemma ExpandStep(template: string, k: nat, g: seq<string>)
    requires |template| >= 2 && template[0] == '$' && 1 <= k <= |g| && k <= 9
    requires template[1] == '0' + k as char
    ensures Expand(template, g) == g[k - 1] + Expand(template[2..], g)
  {
  }

  lemma ExpandChar(template: string, g: seq<string>)
    requires template != "" && template[0] != '$'
    ensures Expand(template, g) == [template[0]] + Expand(template[1..], g)
  {
  }

  lemma ExpandTwo(a: nat, c: char, b: nat, g: seq<string>, rest: string)
    requires c != '$' && 1 <= a <= |g| && 1 <= b <= |g| && a <= 9 && b <= 9
    ensures Expand(['$', '0' + a as char, c] + rest, g) == g[a - 1] + ([c] + Expand(rest, g))
  {
    var t := ['$', '0' + a as char, c] + rest;
    ExpandStep(t, a, g);
    assert t[2..] == [c] + rest && ([c] + rest)[1..] == rest;
    ExpandChar([c] + rest, g);
  }

  lemma ExpandLast(a: nat, g: seq<string>)
    requires 1 <= a <= |g| && a <= 9
    ensures Expand(['$', '0' + a as char], g) == g[a - 1]
  {
    var t := ['$', '0' + a as char];
    ExpandStep(t, a, g);
    assert t[2..] == "" && Expand("", g) == "";
  }

  lemma ExpandTemplates(g: seq<string>)
    requires |g| == 4 || |g| == 5
    ensures Expand(if |g| == 5 then LS_TEMPLATE else PLAIN_TEMPLATE, g) == Transformed(g)
  {
    hide Expand;
    var end := if |g| == 5 then "$4.$5" else "$4";
    var tail := if |g| == 5 then "." + g[4] else "";
    ExpandEnd(g);
    ExpandStart(g, end);
    TemplateText();
    ReassociateTransformed(g[0], g[1], g[2], g[3], tail);
  }

  lemma TemplateText()
    ensures LS_TEMPLATE == "$1." + ("$2." + ("$3-" + "$4.$5"))
    ensures PLAIN_TEMPLATE == "$1." + ("$2." + ("$3-" + "$4"))
  {
    hide Expand, Transformed;
  }

  lemma ExpandStart(g: seq<string>, end: string)
    requires |g| >= 3
    ensures Expand("$1." + ("$2." + ("$3-" + end)), g)
         == g[0] + ("." + (g[1] + ("." + (g[2] + ("-" + Expand(end, g))))))
  {
    hide Expand;
    ExpandTwo(3, '-', 3, g, end);
    ExpandTwo(2, '.', 2, g, "$3-" + end);
    ExpandTwo(1, '.', 1, g, "$2." + ("$3-" + end));
  }

  lemma ExpandEnd(g: seq<string>)
    requires |g| == 4 || |g| == 5
    ensures Expand(if |g| == 5 then "$4.$5" else "$4", g) == g[3] + if |g| == 5 then "." + g[4] else ""
  {
    hide Expand;
    if |g| == 5 {
      ExpandLast(5, g);
      ExpandTwo(4, '.', 4, g, "$5");
      assert "$4." + "$5" == "$4.$5";
    } else {
      ExpandLast(4, g);
    }
  }

  lemma ReassociateTransformed(a: string, b: string, c: string, d: string, e: string)
    ensures a + ("." + (b + ("." + (c + ("-" + (d + e)))))) == a + "." + b + "." + c + "-" + d + e
  {
  }

  /** The transform of a four-part tag maps the tag to its numbers, regrouped. */
  lemma ManagedTransformRewrites(tag: string, ls: bool) returns (g: seq<string>)
    requires IsFourPart(tag, ls)
    ensures Captures(CaptureTokens(VPrefix(tag), ls), tag, g) && |g| == if ls then 5 else 4
    ensures forall h :: Captures(CaptureTokens(VPrefix(tag), ls), tag, h) ==> h == g
    ensures TransformsTo(ManagedTransform(tag), tag, Transformed(g))
  {
    hide IsFourPart, Accepts, Derives, Expand, Transformed, CaptureTokens, Text, ManagedTransform, Fill, NumberPieces;
    hide Anchored, Label;
    var prefix := VPrefix(tag);
    var ts := CaptureTokens(prefix, ls);
    g := FourPartNumbers(tag, ls);
    ManagedLabel(tag, ls);
    LabelIs(Anchored(Text(ts)), if ls then LS_TEMPLATE else PLAIN_TEMPLATE);
    FourPartPieces(prefix, ls);
    FillDerives(ts, g);
    AnchoredAccepts(ts, tag);
    ExpandTemplates(g);
    var template := if ls then LS_TEMPLATE else PLAIN_TEMPLATE;
    assert Captures(ts, tag, g) && Accepts(Anchored(Text(ts)), tag);
    assert Transformed(g) == Expand(template, g);
    forall h | Captures(CaptureTokens(VPrefix(tag), ls), tag, h) ensures h == g {
      CapturesUnique(tag, ls, h, g);
    }
  }

  lemma LabelIs(pattern: string, template: string)
    ensures Label(pattern, template) == pattern + " => " + template
  {
  }

  lemma ManagedLabel(tag: string, ls: bool)
    requires IsFourPart(tag, ls)
    ensures var ts := CaptureTokens(VPrefix(tag), ls);
            ManagedTransform(tag) == Label(Anchored(Text(ts)), if ls then LS_TEMPLATE else PLAIN_TEMPLATE)
            && ' ' !in Text(ts)
  {
    hide IsFourPart, CaptureTokens, Text, Anchored, Label;
    OnlyOneForm(tag, ls);
    CapturePattern(VPrefix(tag), ls);
  }

  lemma OnlyOneForm(tag: string, ls: bool)
    requires IsFourPart(tag, ls)
    ensures !IsFourPart(tag, !ls)
  {
    FourPartShape(tag, ls);
    if IsFourPart(tag, !ls) {
      FourPartShape(tag, !ls);
    }
  }
}
