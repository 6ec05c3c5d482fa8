/**
 The pieces that the tag patterns are assembled from, what a pattern made of them is parsed
 to, and which texts it accepts.
 */
module TagTokens {
  import opened Ordering
  import opened Regex

  /** One piece of a generated pattern. */
  datatype Token =
    | Literal(c: char)       // the character, escaped if it is special
    | Digits                 // \d+
    | DotDigits              // (?:\.\d+)+
    | Capture                // (\d+)

  // ---------- Pattern text ----------

  /** `js_regex_escape` and `_REGEX_SPECIAL_RE.sub` on one character. */
  function EscapeChar(c: char): string {
    if IsSpecial(c) then ['\\', c] else [c]
  }

  function Escape(s: string): string {
    if s == [] then [] else EscapeChar(s[0]) + Escape(s[1..])
  }

  function TokenText(t: Token): (text: string)
    ensures text != []
  {
    match t
    case Literal(c) => EscapeChar(c)
    case Digits => "\\d+"
    case DotDigits => "(?:\\.\\d+)+"
    case Capture => "(\\d+)"
  }

  function Text(ts: seq<Token>): string {
    if ts == [] then [] else TokenText(ts[0]) + Text(ts[1..])
  }

  /** A pattern anchored at both ends. */
  function Anchored(body: string): string {
    "^" + body + "$"
  }

  function Literals(s: string): (ts: seq<Token>)
    ensures |ts| == |s| && forall i :: 0 <= i < |s| ==> ts[i] == Literal(s[i])
  {
    seq(|s|, i requires 0 <= i < |s| => Literal(s[i]))
  }

  lemma {:induction false} TextConcat(a: seq<Token>, b: seq<Token>)
    ensures Text(a + b) == Text(a) + Text(b)
  {
    hide *;
    TextFirst(a);
    TextFirst(a + b);
    if a == [] {
      assert a + b == b;
    } else {
      TextConcat(a[1..], b);
      assert (a + b)[1..] == a[1..] + b && (a + b)[0] == a[0];
      Associative(TokenText(a[0]), Text(a[1..]), Text(b));
    }
  }

  lemma TextFirst(ts: seq<Token>)
    ensures Text(ts) == if ts == [] then "" else TokenText(ts[0]) + Text(ts[1..])
  {
  }

  lemma TextOne(t: Token)
    ensures Text([t]) == TokenText(t)
  {
    assert [t][1..] == [];
  }

  lemma Associative(a: string, b: string, c: string)
    ensures a + (b + c) == a + b + c
  {
  }

  lemma {:induction false} TextOfLiterals(s: string)
    ensures Text(Literals(s)) == Escape(s)
  {
    if s != [] {
      TextOfLiterals(s[1..]);
      assert Literals(s)[1..] == Literals(s[1..]);
    }
  }

  // ---------- Parsing ----------

  const DOT_GROUP_TREE := Cat(Lit('.'), Cat(Plus(Digit), Nothing))

  const CAPTURE_TREE := Cat(Plus(Digit), Nothing)

  function TokenTree(t: Token): Tree {
    match t
    case Literal(c) => Lit(c)
    case Digits => Plus(Digit)
    case DotDigits => Plus(DOT_GROUP_TREE)
    case Capture => CAPTURE_TREE
  }

  function SequenceTree(ts: seq<Token>, last: Tree): Tree {
    if ts == [] then last else Cat(TokenTree(ts[0]), SequenceTree(ts[1..], last))
  }

  predicate NoQuantifierFirst(s: string) {
    s == [] || !IsQuantifier(s[0])
  }

  function Prepend(tree: Tree, p: Option<Parsed>): Option<Parsed> {
    if p.None? then None else Some(Parsed(Cat(tree, p.value.tree), p.value.rest))
  }

  lemma SpecialChars(c: char)
    ensures IsSpecial(c) ==> !IsWordChar(c)
    ensures !IsSpecial(c) ==> c != '(' && c != '[' && c != '\\' && c != '.' && c != '^' && c != '$' && c != '|' && c != ')'
  {
    var s := "\\^$.*+?()[]{}|";
    assert s[0] == '\\' && s[1] == '^' && s[2] == '$' && s[3] == '.' && s[7] == '(' && s[8] == ')';
    assert s[9] == '[' && s[13] == '|';
    assert forall i :: 0 <= i < |s| ==> !IsWordChar(s[i]);
  }

  lemma LiteralAtom(c: char, rest: string)
    ensures var s := EscapeChar(c) + rest;
            s[0] != '|' && s[0] != ')' && ParseAtom(s) == Some(Parsed(Lit(c), rest))
  {
    hide ParseAlternatives, ParseClass, IsSpecial;
    var s := EscapeChar(c) + rest;
    SpecialChars(c);
    if IsSpecial(c) {
      assert ParseEscape(c) == Some(Lit(c));
      assert s[0] == '\\' && s[1] == c && s[2..] == rest;
    } else {
      assert s[0] == c && s[1..] == rest;
    }
  }

  lemma ParseLiteral(c: char, rest: string)
    requires NoQuantifierFirst(rest)
    ensures ParseSequence(EscapeChar(c) + rest) == Prepend(Lit(c), ParseSequence(rest))
  {
    hide ParseAtom, ParseRepeated, ParseSequence;
    var s := EscapeChar(c) + rest;
    LiteralAtom(c, rest);
    OnceOnly(s, Lit(c), rest);
    ThenSequence(s, Lit(c), rest);
  }

  lemma ParseDigits(rest: string)
    requires NoQuantifierFirst(rest)
    ensures ParseSequence("\\d+" + rest) == Prepend(Plus(Digit), ParseSequence(rest))
  {
    hide ParseRepeated, ParseSequence, ParseAlternatives, ParseClass;
    var s := "\\d+" + rest;
    assert s[2..] == "+" + rest;
    assert ParseAtom(s) == Some(Parsed(Digit, "+" + rest));
    OnceOrMore(s, Digit, rest);
    ThenSequence(s, Plus(Digit), rest);
  }

  lemma ParseDotDigits(rest: string)
    requires NoQuantifierFirst(rest)
    ensures ParseSequence("(?:\\.\\d+)+" + rest) == Prepend(Plus(DOT_GROUP_TREE), ParseSequence(rest))
  {
    hide ParseAtom, ParseRepeated, ParseSequence, ParseAlternatives;
    hide EscapeChar;
    var s := "(?:\\.\\d+)+" + rest;
    var tail := ")" + ("+" + rest);
    DotDigitsText(rest);
    ClosingSequence(tail);
    ParseLiteral('.', "\\d+" + tail);
    ParseDigits(tail);
    ClosingAlternatives(s[3..], DOT_GROUP_TREE, tail);
    GroupAtom(s, DOT_GROUP_TREE, "+" + rest);
    OnceOrMore(s, DOT_GROUP_TREE, rest);
    ThenSequence(s, Plus(DOT_GROUP_TREE), rest);
  }

  lemma DotDigitsText(rest: string)
    ensures var s := "(?:\\.\\d+)+" + rest;
            && |s| >= 3 && s[0] == '(' && s[1] == '?' && s[2] == ':'
            && s[3..] == EscapeChar('.') + ("\\d+" + (")" + ("+" + rest)))
  {
    var special := "\\^$.*+?()[]{}|";
    assert special[3] == '.';
  }

  lemma ClosingSequence(tail: string)
    requires tail != [] && tail[0] == ')'
    ensures ParseSequence(tail) == Some(Parsed(Nothing, tail))
  {
  }

  lemma ClosingAlternatives(s: string, tree: Tree, tail: string)
    requires tail != [] && tail[0] == ')' && ParseSequence(s) == Some(Parsed(tree, tail))
    ensures ParseAlternatives(s) == Some(Parsed(tree, tail))
  {
    hide ParseSequence;
  }

  lemma ParseCapture(rest: string)
    requires NoQuantifierFirst(rest)
    ensures ParseSequence("(\\d+)" + rest) == Prepend(CAPTURE_TREE, ParseSequence(rest))
  {
    hide ParseRepeated, ParseSequence, ParseAlternatives;
    var s := "(\\d+)" + rest;
    var tail := ")" + rest;
    assert s[1..] == "\\d+" + tail && tail[1..] == rest;
    ClosingSequence(tail);
    assert OpeningOf(s) == Opening(1, None);
    ParseDigits(tail);
    ClosingAlternatives(s[1..], CAPTURE_TREE, tail);
    assert ParseAtom(s) == Some(Parsed(CAPTURE_TREE, rest));
    OnceOnly(s, CAPTURE_TREE, rest);
    ThenSequence(s, CAPTURE_TREE, rest);
  }

  lemma TextNoQuantifier(ts: seq<Token>, rest: string)
    requires NoQuantifierFirst(rest)
    ensures NoQuantifierFirst(Text(ts) + rest)
  {
    if ts == [] {
      assert Text(ts) + rest == rest;
    }
  }

  lemma {:induction false} ParseTokens(ts: seq<Token>, rest: string)
    requires NoQuantifierFirst(rest) && ParseSequence(rest).Some?
    ensures ParseSequence(Text(ts) + rest)
         == Some(Parsed(SequenceTree(ts, ParseSequence(rest).value.tree), ParseSequence(rest).value.rest))
  {
    hide ParseSequence;
    if ts == [] {
      assert Text(ts) + rest == rest;
    } else {
      ParseTokens(ts[1..], rest);
      var tail := Text(ts[1..]) + rest;
      TextNoQuantifier(ts[1..], rest);
      Associative(TokenText(ts[0]), Text(ts[1..]), rest);
      match ts[0]
      case Literal(c) => ParseLiteral(c, tail);
      case Digits => ParseDigits(tail);
      case DotDigits => ParseDotDigits(tail);
      case Capture => ParseCapture(tail);
    }
  }

  const END_TREE := Cat(End, Nothing)

  lemma ParseDollar()
    ensures ParseSequence("$") == Some(Parsed(END_TREE, "")) && NoQuantifierFirst("$")
  {
    assert "$"[1..] == "";
    assert ParseAtom("$") == Some(Parsed(End, ""));
  }

  /** What an anchored pattern of such pieces is parsed to. */
  lemma ParseAnchored(ts: seq<Token>)
    ensures Parse(Anchored(Text(ts))) == Some(Cat(Start, SequenceTree(ts, END_TREE)))
  {
    hide *;
    var body := Text(ts) + "$";
    ParseDollar();
    ParseTokens(ts, "$");
    TextNoQuantifier(ts, "$");
    AnchoredIs(Text(ts));
    CaretAtom(body);
    OnceOnly("^" + body, Start, body);
    ThenSequence("^" + body, Start, body);
    WholePattern("^" + body, Cat(Start, SequenceTree(ts, END_TREE)));
  }

  lemma AnchoredIs(body: string)
    ensures Anchored(body) == "^" + (body + "$")
  {
  }

  // ---------- Which texts are accepted ----------

  predicate AllDigits(s: string) {
    forall i :: 0 <= i < |s| ==> IsDigit(s[i])
  }

  predicate Number(s: string) {
    s != [] && AllDigits(s)
  }

  /** `.1.22.3`: one or more groups of a dot and digits. */
  ghost predicate DotGroups(s: string) {
    exists k: nat :: DotGroupAt(s, k) && (k == |s| || DotGroups(s[k..]))
  }

  predicate DotGroupAt(s: string, k: nat) {
    2 <= k <= |s| && s[0] == '.' && Number(s[1..k])
  }

  /** `s` is a concatenation of one instance of each piece. */
  ghost predicate Derives(ts: seq<Token>, s: string) {
    if ts == [] then s == []
    else match ts[0]
      case Literal(c) => s != [] && s[0] == c && Derives(ts[1..], s[1..])
      case Digits => exists k :: 0 < k <= |s| && Number(s[..k]) && Derives(ts[1..], s[k..])
      case Capture => exists k :: 0 < k <= |s| && Number(s[..k]) && Derives(ts[1..], s[k..])
      case DotDigits => exists k :: 0 < k <= |s| && DotGroups(s[..k]) && Derives(ts[1..], s[k..])
  }

  lemma {:induction false} MatchDigits(text: string, i: nat, j: nat)
    requires i <= j <= |text|
    ensures Match(Plus(Digit), text, i, j) <==> Number(text[i..j])
    decreases j - i
  {
    PlusSplits(Digit, text, i, j);
    assert Match(Digit, text, i, j) <==> j == i + 1 && IsDigit(text[i]);
    if i < j {
      MatchDigits(text, i + 1, j);
      NumberCons(text, i, j);
      assert MatchAt(Digit, text, i, i + 1) <==> IsDigit(text[i]);
      if IsDigit(text[i]) && Number(text[i + 1..j]) {
        assert MatchAt(Digit, text, i, i + 1) && MatchAt(Plus(Digit), text, i + 1, j);
      }
    }
  }

  lemma NumberCons(text: string, i: nat, j: nat)
    requires i < j <= |text|
    ensures Number(text[i..j]) <==> IsDigit(text[i]) && (j == i + 1 || Number(text[i + 1..j]))
  {
    assert text[i..j] == [text[i]] + text[i + 1..j];
  }

  lemma MatchDotGroup(text: string, i: nat, j: nat)
    requires i <= j <= |text|
    ensures Match(DOT_GROUP_TREE, text, i, j) <==> i + 2 <= j && text[i] == '.' && Number(text[i + 1..j])
  {
    var inner := Cat(Plus(Digit), Nothing);
    CatSplits(Lit('.'), inner, text, i, j);
    if i < j {
      CatSplits(Plus(Digit), Nothing, text, i + 1, j);
      MatchDigits(text, i + 1, j);
      assert MatchAt(Nothing, text, j, j);
      if text[i] == '.' && Number(text[i + 1..j]) {
        assert MatchAt(Plus(Digit), text, i + 1, j);
        assert MatchAt(Lit('.'), text, i, i + 1) && MatchAt(inner, text, i + 1, j);
      }
    }
  }

  lemma SliceOfSlice(text: string, i: nat, k: nat, j: nat)
    requires i < k <= j <= |text|
    ensures text[i..j][1..k - i] == text[i + 1..k] && text[i..j][k - i..] == text[k..j]
    ensures text[i..j][0] == text[i]
  {
    var a, b := text[i..j][1..k - i], text[i + 1..k];
    assert |a| == |b|;
    assert forall n :: 0 <= n < |a| ==> a[n] == text[i + 1 + n] == b[n];
    assert a == b;
    var c, d := text[i..j][k - i..], text[k..j];
    assert |c| == |d|;
    assert forall n :: 0 <= n < |c| ==> c[n] == text[k + n] == d[n];
    assert c == d;
  }

  lemma {:induction false} MatchDotGroups(text: string, i: nat, j: nat)
    requires i <= j <= |text|
    ensures Match(Plus(DOT_GROUP_TREE), text, i, j) <==> DotGroups(text[i..j])
    decreases j - i
  {
    hide Match;
    var s := text[i..j];
    forall k: nat | i <= k <= j
      ensures MatchAt(DOT_GROUP_TREE, text, i, k) <==> DotGroupAt(s, k - i)
      ensures i < k ==> (MatchAt(Plus(DOT_GROUP_TREE), text, k, j) <==> DotGroups(s[k - i..]))
    {
      MatchDotGroup(text, i, k);
      if i < k {
        SliceOfSlice(text, i, k, j);
        MatchDotGroups(text, k, j);
      }
    }
    PlusSplits(DOT_GROUP_TREE, text, i, j);
    assert MatchAt(DOT_GROUP_TREE, text, i, j) <==> Match(DOT_GROUP_TREE, text, i, j);
    if DotGroups(s) {
      var n: nat :| DotGroupAt(s, n) && (n == |s| || DotGroups(s[n..]));
      assert MatchAt(DOT_GROUP_TREE, text, i, i + n);
    }
    if Match(Plus(DOT_GROUP_TREE), text, i, j) {
      if Match(DOT_GROUP_TREE, text, i, j) {
        assert DotGroupAt(s, j - i);
      } else {
        var k: nat :| i < k && MatchAt(DOT_GROUP_TREE, text, i, k) && MatchAt(Plus(DOT_GROUP_TREE), text, k, j);
        assert DotGroupAt(s, k - i);
      }
    }
  }

  /** Matching the pieces up to the end of the text. */
  lemma {:induction false} MatchTokens(ts: seq<Token>, text: string, i: nat, j: nat)
    requires i <= j <= |text|
    ensures Match(SequenceTree(ts, END_TREE), text, i, j) <==> j == |text| && Derives(ts, text[i..])
    decreases |ts|
  {
    hide Match, Derives;
    var s := text[i..];
    if ts == [] {
      MatchEnd(text, i, j);
      DerivesNothing(s);
    } else {
      var tail := SequenceTree(ts[1..], END_TREE);
      forall k: nat | i <= k <= j
        ensures MatchAt(tail, text, k, j) <==> j == |text| && Derives(ts[1..], s[k - i..])
        ensures MatchAt(TokenTree(ts[0]), text, i, k) <==> TokenMatches(ts[0], s[..k - i])
      {
        MatchTokens(ts[1..], text, k, j);
        assert s[k - i..] == text[k..];
        MatchToken(ts[0], text, i, k);
        assert s[..k - i] == text[i..k];
      }
      CatSplits(TokenTree(ts[0]), tail, text, i, j);
      SplitDerives(ts, s);
      hide TokenMatches;
      if Derives(ts, s) && j == |text| {
        var n: nat :| SplitsAt(ts, s, n);
        var k := i + n;
        assert s[..k - i] == s[..n] && s[k - i..] == s[n..];
        assert MatchAt(TokenTree(ts[0]), text, i, k) && MatchAt(tail, text, k, j);
      }
      if Match(SequenceTree(ts, END_TREE), text, i, j) {
        var k: nat :| MatchAt(TokenTree(ts[0]), text, i, k) && MatchAt(tail, text, k, j);
        assert SplitsAt(ts, s, k - i);
      }
    }
  }

  lemma DerivesNothing(s: string)
    ensures Derives([], s) <==> s == []
  {
  }

  /** The first `n` characters are an instance of the first piece, the others of the rest. */
  ghost predicate SplitsAt(ts: seq<Token>, s: string, n: nat)
    requires ts != []
  {
    n <= |s| && TokenMatches(ts[0], s[..n]) && Derives(ts[1..], s[n..])
  }

  lemma MatchEnd(text: string, i: nat, j: nat)
    requires i <= j <= |text|
    ensures Match(END_TREE, text, i, j) <==> i == j == |text|
  {
    CatSplits(End, Nothing, text, i, j);
    if i == j == |text| {
      assert MatchAt(End, text, i, j) && MatchAt(Nothing, text, j, j);
    }
  }

  /** One instance of one piece. */
  ghost predicate TokenMatches(t: Token, s: string) {
    match t
    case Literal(c) => s == [c]
    case Digits => Number(s)
    case Capture => Number(s)
    case DotDigits => DotGroups(s)
  }

  lemma MatchToken(t: Token, text: string, i: nat, k: nat)
    requires i <= k <= |text|
    ensures Match(TokenTree(t), text, i, k) <==> TokenMatches(t, text[i..k])
  {
    match t
    case Literal(c) => assert k == i + 1 ==> text[i..k] == [text[i]];
    case Digits => MatchDigits(text, i, k);
    case Capture =>
      MatchDigits(text, i, k);
      CatSplits(Plus(Digit), Nothing, text, i, k);
      if Number(text[i..k]) {
        assert MatchAt(Plus(Digit), text, i, k) && MatchAt(Nothing, text, k, k);
      }
    case DotDigits => MatchDotGroups(text, i, k);
  }

  lemma SplitDerives(ts: seq<Token>, s: string)
    requires ts != []
    ensures Derives(ts, s) <==> exists n: nat :: SplitsAt(ts, s, n)
  {
    match ts[0]
    case Literal(c) =>
      if Derives(ts, s) {
        assert s[..1] == [s[0]];
        assert SplitsAt(ts, s, 1);
      }
      if n: nat :| SplitsAt(ts, s, n) {
        assert |s[..n]| == n == 1;
        assert s[..n][0] == s[0];
      }
    case Digits | Capture =>
      if k :| 0 < k <= |s| && Number(s[..k]) && Derives(ts[1..], s[k..]) {
        assert SplitsAt(ts, s, k);
      }
      if n: nat :| SplitsAt(ts, s, n) {
        assert Number(s[..n]) && 0 < n;
      }
    case DotDigits =>
      if k :| 0 < k <= |s| && DotGroups(s[..k]) && Derives(ts[1..], s[k..]) {
        assert SplitsAt(ts, s, k);
      }
      if n: nat :| SplitsAt(ts, s, n) {
        assert DotGroups(s[..n]) && 0 < n;
      }
  }

  /** An anchored pattern accepts exactly the texts its pieces derive. */
  lemma AnchoredAccepts(ts: seq<Token>, text: string)
    ensures Accepts(Anchored(Text(ts)), text) <==> Derives(ts, text)
  {
    hide Parse, Derives, SequenceTree;
    ParseAnchored(ts);
    var body := SequenceTree(ts, END_TREE);
    var tree := Cat(Start, body);
    assert text[0..] == text;
    if Derives(ts, text) {
      MatchTokens(ts, text, 0, |text|);
      assert MatchAt(Start, text, 0, 0) && MatchAt(body, text, 0, |text|);
      CatSplits(Start, body, text, 0, |text|);
      assert MatchAt(tree, text, 0, |text|);
    }
    if Test(tree, text) {
      var i, j :| MatchAt(tree, text, i, j);
      CatSplits(Start, body, text, i, j);
      var k: nat :| MatchAt(Start, text, i, k) && MatchAt(body, text, k, j);
      MatchTokens(ts, text, k, j);
    }
  }
}
