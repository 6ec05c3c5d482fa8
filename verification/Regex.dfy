/**
 The regular expressions that the tag labels use, as the JavaScript side reads them: a pattern
 string is parsed to a tree, and `Test` searches the tree's language anywhere in a text.
 */
module Regex {
  import opened Ordering

  /** The named sets of characters, `\d`, `\w` and `\s`. */
  datatype CharKind = DigitKind | WordKind | SpaceKind

  /** What may stand between square brackets. */
  datatype ClassItem = Range(low: char, high: char) | Kind(kind: CharKind, negated: bool)

  datatype Tree =
    | Nothing
    | Lit(c: char)
    | Digit
    | AnyChar
    | OneOf(negated: bool, items: seq<ClassItem>)
    | Start
    | End
    | Boundary(negated: bool)
    | Look(ahead: bool, negated: bool, inner: Tree)
    | Cat(first: Tree, second: Tree)
    | Alt(left: Tree, right: Tree)
    | Plus(inner: Tree)
    | Star(inner: Tree)
    | Opt(inner: Tree)

  predicate IsDigit(c: char) {
    '0' <= c <= '9'
  }

  predicate IsLineBreak(c: char) {
    c == '\n' || c == '\r' || c == '\U{2028}' || c == '\U{2029}'
  }

  predicate IsWordChar(c: char) {
    IsDigit(c) || 'a' <= c <= 'z' || 'A' <= c <= 'Z' || c == '_'
  }

  predicate IsSpace(c: char) {
    || '\U{9}' <= c <= '\U{D}' || c == ' ' || c == '\U{A0}' || c == '\U{1680}' || '\U{2000}' <= c <= '\U{200A}'
    || c == '\U{2028}' || c == '\U{2029}' || c == '\U{202F}' || c == '\U{205F}' || c == '\U{3000}' || c == '\U{FEFF}'
  }

  // ---------- Meaning ----------

  predicate InKind(c: char, kind: CharKind) {
    match kind case DigitKind => IsDigit(c) case WordKind => IsWordChar(c) case SpaceKind => IsSpace(c)
  }

  predicate InItem(c: char, item: ClassItem) {
    match item
    case Range(low, high) => low <= c <= high
    case Kind(kind, negated) => InKind(c, kind) != negated
  }

  predicate InClass(c: char, items: seq<ClassItem>) {
    exists n :: 0 <= n < |items| && InItem(c, items[n])
  }

  predicate WordAt(text: string, i: int) {
    0 <= i < |text| && IsWordChar(text[i])
  }

  /** `r` matches `text[i..j]` where it stands. */
  ghost predicate Match(r: Tree, text: string, i: nat, j: nat)
    requires i <= j <= |text|
    decreases r, j - i, j - i + 1
  {
    match r
    case Nothing => i == j
    case Lit(c) => j == i + 1 && text[i] == c
    case Digit => j == i + 1 && IsDigit(text[i])
    case AnyChar => j == i + 1 && !IsLineBreak(text[i])
    case OneOf(negated, items) => j == i + 1 && InClass(text[i], items) != negated
    case Start => i == j && i == 0
    case End => i == j && j == |text|
    case Boundary(negated) => i == j && (WordAt(text, i - 1) != WordAt(text, i)) != negated
    case Look(true, negated, a) =>
      i == j && (exists k :: i <= k <= |text| && Match(a, text, i, k)) != negated
    case Look(false, negated, a) =>
      i == j && (exists k :: 0 <= k <= i && Match(a, text, k, i)) != negated
    case Cat(_, _) => SplitFrom(r, text, i, i, j)
    case Alt(a, b) => Match(a, text, i, j) || Match(b, text, i, j)
    case Plus(a) => Match(a, text, i, j) || (i < j && SplitFrom(r, text, i, i + 1, j))
    case Star(_) => i == j || SplitFrom(r, text, i, i + 1, j)
    case Opt(a) => i == j || Match(a, text, i, j)
  }

  /** At some position from `k` on, `text[i..j]` splits into a first part and what follows it. */
  ghost predicate SplitFrom(r: Tree, text: string, i: nat, k: nat, j: nat)
    requires i <= k <= j <= |text| && (r.Cat? || r.Plus? || r.Star?) && (!r.Cat? ==> i < k)
    decreases r, j - i, j - k
  {
    || (match r
        case Cat(a, b) => Match(a, text, i, k) && Match(b, text, k, j)
        case Plus(a) => Match(a, text, i, k) && Match(r, text, k, j)
        case Star(a) => Match(a, text, i, k) && Match(r, text, k, j))
    || (k < j && SplitFrom(r, text, i, k + 1, j))
  }

  function Head(r: Tree): Tree
    requires r.Cat? || r.Plus? || r.Star?
  {
    match r case Cat(a, _) => a case Plus(a) => a case Star(a) => a
  }

  function Tail(r: Tree): Tree
    requires r.Cat? || r.Plus? || r.Star?
  {
    match r case Cat(_, b) => b case Plus(_) => r case Star(_) => r
  }

  lemma {:induction false} SplitIntro(r: Tree, text: string, i: nat, k: nat, n: nat, j: nat)
    requires i <= k <= n <= j <= |text| && (r.Cat? || r.Plus? || r.Star?) && (!r.Cat? ==> i < k)
    requires Match(Head(r), text, i, n) && Match(Tail(r), text, n, j)
    ensures SplitFrom(r, text, i, k, j)
    decreases n - k
  {
    if k < n { SplitIntro(r, text, i, k + 1, n, j); }
  }

  lemma {:induction false} SplitElim(r: Tree, text: string, i: nat, k: nat, j: nat) returns (n: nat)
    requires i <= k <= j <= |text| && (r.Cat? || r.Plus? || r.Star?) && (!r.Cat? ==> i < k)
    requires SplitFrom(r, text, i, k, j)
    ensures k <= n <= j && Match(Head(r), text, i, n) && Match(Tail(r), text, n, j)
    decreases j - k
  {
    if Match(Head(r), text, i, k) && Match(Tail(r), text, k, j) {
      n := k;
    } else {
      n := SplitElim(r, text, i, k + 1, j);
    }
  }

  ghost predicate MatchAt(r: Tree, text: string, i: nat, j: nat) {
    i <= j <= |text| && Match(r, text, i, j)
  }

  /** Concatenation: some position splits the matched text. */
  lemma CatSplits(a: Tree, b: Tree, text: string, i: nat, j: nat)
    requires i <= j <= |text|
    ensures Match(Cat(a, b), text, i, j) <==> exists k: nat :: MatchAt(a, text, i, k) && MatchAt(b, text, k, j)
  {
    var r := Cat(a, b);
    if Match(r, text, i, j) {
      var k := SplitElim(r, text, i, i, j);
      assert MatchAt(a, text, i, k) && MatchAt(b, text, k, j);
    }
    if k: nat :| MatchAt(a, text, i, k) && MatchAt(b, text, k, j) {
      SplitIntro(r, text, i, i, k, j);
    }
  }

  /** Repetition: once, or once and then again. */
  lemma PlusSplits(a: Tree, text: string, i: nat, j: nat)
    requires i <= j <= |text|
    ensures Match(Plus(a), text, i, j) <==>
            Match(a, text, i, j)
            || exists k: nat :: i < k && MatchAt(a, text, i, k) && MatchAt(Plus(a), text, k, j)
  {
    var r := Plus(a);
    if Match(r, text, i, j) && !Match(a, text, i, j) {
      var k := SplitElim(r, text, i, i + 1, j);
      assert MatchAt(a, text, i, k) && MatchAt(Plus(a), text, k, j);
    }
    if k: nat :| i < k && MatchAt(a, text, i, k) && MatchAt(Plus(a), text, k, j) {
      SplitIntro(r, text, i, i + 1, k, j);
    }
  }

  /** JavaScript's `RegExp.test`: a match anywhere in the text. */
  ghost predicate Test(r: Tree, text: string) {
    exists i, j :: MatchAt(r, text, i, j)
  }

  // ---------- Parsing ----------

  predicate IsSpecial(c: char) {
    c in "\\^$.*+?()[]{}|"
  }

  predicate IsQuantifier(c: char) {
    c == '*' || c == '+' || c == '?' || c == '{'
  }

  datatype Parsed = Parsed(tree: Tree, rest: string)

  /** Alternatives up to a closing parenthesis or the end. */
  function ParseAlternatives(s: string): (p: Option<Parsed>)
    ensures p.Some? ==> |p.value.rest| <= |s|
    decreases |s|, 2
  {
    var first := ParseSequence(s);
    if first.None? then None
    else if first.value.rest != [] && first.value.rest[0] == '|' then
      var others := ParseAlternatives(first.value.rest[1..]);
      if others.None? then None
      else Some(Parsed(Alt(first.value.tree, others.value.tree), others.value.rest))
    else first
  }

  function ParseSequence(s: string): (p: Option<Parsed>)
    ensures p.Some? ==> |p.value.rest| <= |s|
    decreases |s|, 1
  {
    if s == [] || s[0] == '|' || s[0] == ')' then Some(Parsed(Nothing, s))
    else
      var first := ParseRepeated(s);
      if first.None? then None
      else
        var others := ParseSequence(first.value.rest);
        if others.None? then None
        else Some(Parsed(Cat(first.value.tree, others.value.tree), others.value.rest))
  }

  function ParseRepeated(s: string): (p: Option<Parsed>)
    requires s != []
    ensures p.Some? ==> |p.value.rest| < |s|
    decreases |s|, 0, 1
  {
    var atom := ParseAtom(s);
    if atom.None? then None else Quantified(atom.value.tree, atom.value.rest)
  }

  /** What a quantifier makes of the atom before it; without one it stays as it is. */
  function Quantified(inner: Tree, rest: string): (p: Option<Parsed>)
    ensures p.Some? ==> |p.value.rest| <= |rest|
  {
    if rest == [] || !IsQuantifier(rest[0]) then Some(Parsed(inner, rest))
    else if IsAssertion(inner) then None
    else match rest[0]
      case '*' => Some(Parsed(Star(inner), AfterLazy(rest[1..])))
      case '+' => Some(Parsed(Plus(inner), AfterLazy(rest[1..])))
      case '?' => Some(Parsed(Opt(inner), AfterLazy(rest[1..])))
      case _ =>
        var count := ParseCount(rest);
        if count.None? then None
        else Some(Parsed(Counted(inner, count.value.least, count.value.most), AfterLazy(count.value.rest)))
  }

  predicate IsAssertion(r: Tree) {
    r.Start? || r.End? || r.Boundary? || r.Look?
  }

  /** A lazy quantifier matches the same texts in another order. */
  function AfterLazy(s: string): (rest: string)
    ensures |rest| <= |s|
  {
    if s != [] && s[0] == '?' then s[1..] else s
  }

  function Counted(inner: Tree, least: nat, most: Option<nat>): Tree
    decreases least
  {
    if least > 0 then
      Cat(inner, Counted(inner, least - 1,
                         if most.Some? && most.value > 0 then Some(most.value - 1) else most))
    else if most.None? then Star(inner)
    else UpTo(inner, most.value)
  }

  function UpTo(inner: Tree, most: nat): Tree {
    if most == 0 then Nothing else Opt(Cat(inner, UpTo(inner, most - 1)))
  }

  function DigitsAt(s: string): (n: nat)
    ensures n <= |s|
  {
    if s == [] || !IsDigit(s[0]) then 0 else 1 + DigitsAt(s[1..])
  }

  function CountOf(digits: string): nat {
    if digits == [] then 0
    else
      var c := digits[|digits| - 1];
      CountOf(digits[..|digits| - 1]) * 10 + if IsDigit(c) then (c - '0') as int else 0
  }

  datatype Count = Count(least: nat, most: Option<nat>, rest: string)

  /** `{m}`, `{m,}` or `{m,n}` */
  function ParseCount(s: string): (p: Option<Count>)
    requires s != []
    ensures p.Some? ==> |p.value.rest| < |s|
  {
    var n := DigitsAt(s[1..]);
    if n == 0 then None else ParseMost(CountOf(s[1..1 + n]), s[1 + n..])
  }

  function ParseMost(least: nat, rest: string): (p: Option<Count>)
    ensures p.Some? ==> |p.value.rest| < |rest|
  {
    if rest == [] then None
    else if rest[0] == '}' then Some(Count(least, Some(least), rest[1..]))
    else if rest[0] != ',' then None
    else
      var m := DigitsAt(rest[1..]);
      var most, after := CountOf(rest[1..1 + m]), rest[1 + m..];
      if after == [] || after[0] != '}' || (m > 0 && most < least) then None
      else Some(Count(least, if m == 0 then None else Some(most), after[1..]))
  }

  // ---------- Characters and classes ----------

  /** The letters that stand for control characters after a backslash. */
  function ControlChar(c: char): Option<char> {
    if c == 't' then Some('\t') else if c == 'n' then Some('\n') else if c == 'r' then Some('\r')
    else if c == 'v' then Some('\U{B}') else if c == 'f' then Some('\U{C}')
    else None
  }

  function KindOf(c: char): Option<ClassItem> {
    if c == 'd' then Some(Kind(DigitKind, false)) else if c == 'D' then Some(Kind(DigitKind, true))
    else if c == 'w' then Some(Kind(WordKind, false)) else if c == 'W' then Some(Kind(WordKind, true))
    else if c == 's' then Some(Kind(SpaceKind, false)) else if c == 'S' then Some(Kind(SpaceKind, true))
    else None
  }

  datatype ParsedItem = ParsedItem(item: ClassItem, rest: string)

  function ParseClassAtom(s: string): (p: Option<ParsedItem>)
    requires s != []
    ensures p.Some? ==> |p.value.rest| < |s|
  {
    if s[0] != '\\' then Some(ParsedItem(Range(s[0], s[0]), s[1..]))
    else if |s| < 2 then None
    else if KindOf(s[1]).Some? then Some(ParsedItem(KindOf(s[1]).value, s[2..]))
    else if ControlChar(s[1]).Some? then
      Some(ParsedItem(Range(ControlChar(s[1]).value, ControlChar(s[1]).value), s[2..]))
    else if s[1] == 'b' then Some(ParsedItem(Range('\U{8}', '\U{8}'), s[2..]))
    else if IsWordChar(s[1]) then None
    else Some(ParsedItem(Range(s[1], s[1]), s[2..]))
  }

  datatype ParsedItems = ParsedItems(items: seq<ClassItem>, rest: string)

  /** The items up to the closing bracket; a range of characters must not be empty. */
  function ParseItems(s: string): (p: Option<ParsedItems>)
    ensures p.Some? ==> |p.value.rest| < |s|
    decreases |s|
  {
    if s == [] then None
    else if s[0] == ']' then Some(ParsedItems([], s[1..]))
    else
      var first := ParseClassAtom(s);
      if first.None? then None
      else
        var rest := first.value.rest;
        if |rest| >= 2 && rest[0] == '-' && rest[1] != ']' then
          var last := ParseClassAtom(rest[1..]);
          if last.None? || !first.value.item.Range? || !last.value.item.Range?
             || first.value.item.low > last.value.item.low then None
          else PrependItem(Range(first.value.item.low, last.value.item.low), ParseItems(last.value.rest))
        else PrependItem(first.value.item, ParseItems(rest))
  }

  function PrependItem(item: ClassItem, p: Option<ParsedItems>): (r: Option<ParsedItems>)
    ensures r.Some? <==> p.Some?
    ensures r.Some? ==> r.value.rest == p.value.rest
  {
    if p.None? then None else Some(ParsedItems([item] + p.value.items, p.value.rest))
  }

  function ParseClass(s: string): (p: Option<Parsed>)
    ensures p.Some? ==> |p.value.rest| < |s|
  {
    var negated := s != [] && s[0] == '^';
    var items := ParseItems(if negated then s[1..] else s);
    if items.None? then None else Some(Parsed(OneOf(negated, items.value.items), items.value.rest))
  }

  function ParseEscape(c: char): Option<Tree> {
    if c == 'd' then Some(Digit)
    else if KindOf(c).Some? then Some(OneOf(false, [KindOf(c).value]))
    else if ControlChar(c).Some? then Some(Lit(ControlChar(c).value))
    else if c == 'b' then Some(Boundary(false))
    else if c == 'B' then Some(Boundary(true))
    else if IsWordChar(c) then None
    else Some(Lit(c))
  }

  /** How a group opens: what stands behind the opening parenthesis. */
  datatype Opening = Opening(length: nat, look: Option<(bool, bool)>)

  function OpeningOf(s: string): (o: Opening)
    requires s != []
    ensures 1 <= o.length <= |s|
  {
    if |s| >= 3 && s[1] == '?' && s[2] == ':' then Opening(3, None)
    else if |s| >= 3 && s[1] == '?' && s[2] == '=' then Opening(3, Some((true, false)))
    else if |s| >= 3 && s[1] == '?' && s[2] == '!' then Opening(3, Some((true, true)))
    else if |s| >= 4 && s[1] == '?' && s[2] == '<' && s[3] == '=' then Opening(4, Some((false, false)))
    else if |s| >= 4 && s[1] == '?' && s[2] == '<' && s[3] == '!' then Opening(4, Some((false, true)))
    else Opening(1, None)
  }

  function Grouped(o: Opening, inner: Tree): Tree {
    if o.look.None? then inner else Look(o.look.value.0, o.look.value.1, inner)
  }

  /** Groups, look-arounds, classes, escapes, anchors and literal characters; anything else is not read. */
  function ParseAtom(s: string): (p: Option<Parsed>)
    requires s != []
    ensures p.Some? ==> |p.value.rest| < |s|
    decreases |s|, 0, 0
  {
    if s[0] == '(' then
      var o := OpeningOf(s);
      var inner := ParseAlternatives(s[o.length..]);
      if inner.None? || inner.value.rest == [] || inner.value.rest[0] != ')' then None
      else Some(Parsed(Grouped(o, inner.value.tree), inner.value.rest[1..]))
    else if s[0] == '[' then ParseClass(s[1..])
    else if s[0] == '\\' then
      if |s| < 2 || ParseEscape(s[1]).None? then None else Some(Parsed(ParseEscape(s[1]).value, s[2..]))
    else if s[0] == '.' then Some(Parsed(AnyChar, s[1..]))
    else if s[0] == '^' then Some(Parsed(Start, s[1..]))
    else if s[0] == '$' then Some(Parsed(End, s[1..]))
    else if IsSpecial(s[0]) then None
    else Some(Parsed(Lit(s[0]), s[1..]))
  }

  function Parse(pattern: string): Option<Tree> {
    var p := ParseAlternatives(pattern);
    if p.Some? && p.value.rest == [] then Some(p.value.tree) else None
  }

  /** The texts a pattern accepts; a pattern outside the subset accepts none. */
  ghost predicate Accepts(pattern: string, text: string) {
    Parse(pattern).Some? && Test(Parse(pattern).value, text)
  }

  lemma GroupAtom(s: string, tree: Tree, rest: string)
    requires |s| >= 3 && s[0] == '(' && s[1] == '?' && s[2] == ':'
    requires ParseAlternatives(s[3..]) == Some(Parsed(tree, ")" + rest))
    ensures ParseAtom(s) == Some(Parsed(tree, rest))
  {
    hide ParseAlternatives;
    assert OpeningOf(s) == Opening(3, None);
    assert (")" + rest)[1..] == rest;
  }

  lemma OnceOnly(s: string, tree: Tree, rest: string)
    requires s != [] && ParseAtom(s) == Some(Parsed(tree, rest)) && (rest == [] || !IsQuantifier(rest[0]))
    ensures ParseRepeated(s) == Some(Parsed(tree, rest))
  {
    hide ParseAtom;
  }

  lemma OnceOrMore(s: string, tree: Tree, rest: string)
    requires s != [] && ParseAtom(s) == Some(Parsed(tree, "+" + rest)) && !IsAssertion(tree)
    requires rest == [] || !IsQuantifier(rest[0])
    ensures ParseRepeated(s) == Some(Parsed(Plus(tree), rest))
  {
    hide ParseAtom, ParseCount;
    assert ("+" + rest)[1..] == rest;
  }

  lemma ThenSequence(s: string, tree: Tree, rest: string)
    requires s != [] && s[0] != '|' && s[0] != ')' && ParseRepeated(s) == Some(Parsed(tree, rest))
    ensures ParseSequence(s) == var others := ParseSequence(rest);
                                if others.None? then None
                                else Some(Parsed(Cat(tree, others.value.tree), others.value.rest))
  {
    hide ParseRepeated;
  }

  lemma CaretAtom(rest: string)
    ensures ("^" + rest)[0] == '^' && ParseAtom("^" + rest) == Some(Parsed(Start, rest))
  {
    hide ParseAlternatives, ParseClass;
    assert ("^" + rest)[1..] == rest && ("^" + rest)[0] == '^';
  }

  lemma WholePattern(s: string, tree: Tree)
    requires ParseSequence(s) == Some(Parsed(tree, ""))
    ensures Parse(s) == Some(tree)
  {
  }

  // ---------- A pattern inside a group ----------

  /** Text that ends a pattern that has been read to its end. */
  predicate Closes(t: string) {
    t == [] || t[0] == ')'
  }

  function Then(p: Option<Parsed>, t: string): Option<Parsed> {
    if p.None? then None else Some(Parsed(p.value.tree, p.value.rest + t))
  }

  lemma {:induction false} AlternativesExtend(s: string, t: string)
    requires Closes(t) && ParseAlternatives(s).Some?
    ensures ParseAlternatives(s + t) == Then(ParseAlternatives(s), t)
    decreases |s|, 2
  {
    SequenceExtend(s, t);
    var first := ParseSequence(s);
    var rest := first.value.rest;
    if rest != [] && rest[0] == '|' {
      AlternativesExtend(rest[1..], t);
      assert (rest + t)[1..] == rest[1..] + t;
    }
  }

  lemma {:induction false} SequenceExtend(s: string, t: string)
    requires Closes(t) && ParseSequence(s).Some?
    ensures ParseSequence(s + t) == Then(ParseSequence(s), t)
    decreases |s|, 1
  {
    if s == [] {
      assert s + t == t;
    } else if s[0] != '|' && s[0] != ')' {
      RepeatedExtend(s, t);
      SequenceExtend(ParseRepeated(s).value.rest, t);
    }
  }

  lemma {:induction false} RepeatedExtend(s: string, t: string)
    requires Closes(t) && s != [] && ParseRepeated(s).Some?
    ensures ParseRepeated(s + t) == Then(ParseRepeated(s), t)
    decreases |s|, 0, 2
  {
    hide ParseAtom, Quantified;
    AtomExtend(s, t);
    QuantifiedExtend(ParseAtom(s).value.tree, ParseAtom(s).value.rest, t);
  }

  lemma QuantifiedExtend(inner: Tree, rest: string, t: string)
    requires Closes(t) && Quantified(inner, rest).Some?
    ensures Quantified(inner, rest + t) == Then(Quantified(inner, rest), t)
  {
    hide ParseCount, Counted, AfterLazy, IsAssertion;
    if rest == [] {
      assert rest + t == t;
    } else {
      assert (rest + t)[0] == rest[0] && (rest + t)[1..] == rest[1..] + t;
      if rest[0] != '{' {
        LazyExtend(rest[1..], t);
      } else if ParseCount(rest).Some? {
        CountExtend(rest, t);
        LazyExtend(ParseCount(rest).value.rest, t);
      }
    }
  }

  lemma LazyExtend(s: string, t: string)
    requires Closes(t)
    ensures AfterLazy(s + t) == AfterLazy(s) + t
  {
    if s == [] {
      assert s + t == t;
    } else {
      assert (s + t)[1..] == s[1..] + t;
    }
  }

  lemma {:induction false} DigitsExtend(s: string, t: string)
    requires DigitsAt(s) < |s|
    ensures DigitsAt(s + t) == DigitsAt(s)
  {
    assert (s + t)[1..] == s[1..] + t;
    if IsDigit(s[0]) { DigitsExtend(s[1..], t); }
  }

  /** The digits at the start of `s` and what follows, with more text behind it. */
  lemma DigitsCut(s: string, t: string, n: nat)
    requires n < |s|
    ensures (s + t)[1..] == s[1..] + t && (s + t)[1..1 + n] == s[1..1 + n] && (s + t)[1 + n..] == s[1 + n..] + t
  {
  }

  lemma CountExtend(s: string, t: string)
    requires s != [] && ParseCount(s).Some?
    ensures ParseCount(s + t) == Some(ParseCount(s).value.(rest := ParseCount(s).value.rest + t))
  {
    hide CountOf, ParseMost, DigitsAt;
    var n := DigitsAt(s[1..]);
    MostExtend(CountOf(s[1..1 + n]), s[1 + n..], t);
    DigitsExtend(s[1..], t);
    DigitsCut(s, t, n);
  }

  lemma MostExtend(least: nat, rest: string, t: string)
    requires ParseMost(least, rest).Some?
    ensures rest != []
    ensures ParseMost(least, rest + t) == Some(ParseMost(least, rest).value.(rest := ParseMost(least, rest).value.rest + t))
  {
    hide CountOf, DigitsAt;
    assert (rest + t)[0] == rest[0] && (rest + t)[1..] == rest[1..] + t;
    if rest[0] == ',' {
      var m := DigitsAt(rest[1..]);
      DigitsExtend(rest[1..], t);
      DigitsCut(rest, t, m);
      var after := rest[1 + m..];
      assert (after + t)[0] == after[0] && (after + t)[1..] == after[1..] + t;
    }
  }

  lemma ClassAtomExtend(s: string, t: string)
    requires s != [] && ParseClassAtom(s).Some?
    ensures ParseClassAtom(s + t) == Some(ParseClassAtom(s).value.(rest := ParseClassAtom(s).value.rest + t))
  {
    assert (s + t)[1..] == s[1..] + t;
    assert |s| >= 2 ==> (s + t)[2..] == s[2..] + t;
  }

  lemma {:induction false} ItemsExtend(s: string, t: string)
    requires ParseItems(s).Some?
    ensures ParseItems(s + t) == Some(ParseItems(s).value.(rest := ParseItems(s).value.rest + t))
    decreases |s|
  {
    assert (s + t)[1..] == s[1..] + t;
    if s[0] != ']' {
      ClassAtomExtend(s, t);
      var rest := ParseClassAtom(s).value.rest;
      hide ParseClassAtom;
      if |rest| >= 2 && rest[0] == '-' && rest[1] != ']' {
        assert (rest + t)[1..] == rest[1..] + t;
        ClassAtomExtend(rest[1..], t);
        ItemsExtend(ParseClassAtom(rest[1..]).value.rest, t);
      } else {
        ItemsExtend(rest, t);
        LoneHyphen(rest);
      }
    }
  }

  lemma LoneHyphen(rest: string)
    requires ParseItems(rest).Some?
    ensures rest != "-" && rest != []
  {
  }

  lemma ClassExtend(s: string, t: string)
    requires ParseClass(s).Some?
    ensures ParseClass(s + t) == Then(ParseClass(s), t)
  {
    if s == [] {
    } else {
      assert (s + t)[1..] == s[1..] + t;
      ItemsExtend(if s[0] == '^' then s[1..] else s, t);
    }
  }

  /** A group opens the same way whatever follows, unless the text ends right behind a `?`. */
  lemma OpeningExtend(s: string, t: string)
    requires s != [] && s[0] == '(' && Closes(t) && ParseAlternatives(s[OpeningOf(s).length..]).Some?
    ensures OpeningOf(s + t) == OpeningOf(s)
    ensures (s + t)[OpeningOf(s).length..] == s[OpeningOf(s).length..] + t
  {
    if |s| >= 2 && s[1] == '?' && OpeningOf(s).length == 1 {
      QuantifierFirst(s[1..]);
    }
  }

  lemma QuantifierFirst(s: string)
    requires s != [] && s[0] == '?'
    ensures ParseAlternatives(s).None?
  {
    assert IsSpecial('?') by { var special := "\\^$.*+?()[]{}|"; assert special[6] == '?'; }
    assert ParseAtom(s).None?;
    assert ParseRepeated(s).None?;
    assert ParseSequence(s).None?;
  }

  lemma {:induction false} AtomExtend(s: string, t: string)
    requires Closes(t) && s != [] && ParseAtom(s).Some?
    ensures ParseAtom(s + t) == Then(ParseAtom(s), t)
    decreases |s|, 0, 1
  {
    assert (s + t)[1..] == s[1..] + t && (s + t)[0] == s[0];
    if s[0] == '(' {
      GroupExtend(s, t);
    } else if s[0] == '[' {
      hide ParseClass;
      ClassExtend(s[1..], t);
    } else {
      assert |s| >= 2 ==> (s + t)[2..] == s[2..] + t;
    }
  }

  lemma {:induction false} GroupExtend(s: string, t: string)
    requires Closes(t) && s != [] && s[0] == '(' && ParseAtom(s).Some?
    ensures ParseAtom(s + t) == Then(ParseAtom(s), t)
    decreases |s|, 0, 0
  {
    hide ParseAlternatives, OpeningOf;
    var body := s[OpeningOf(s).length..];
    OpeningExtend(s, t);
    AlternativesExtend(body, t);
    var rest := ParseAlternatives(body).value.rest;
    assert (rest + t)[1..] == rest[1..] + t;
  }
}
