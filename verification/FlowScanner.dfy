/**
 The scanner that finds the end of a YAML flow collection (src/wudup/compose_source.py),
 refined against a grammar of flow collections: section 7.4 of YAML 1.2.2 for brackets,
 7.3.1 and 7.3.2 for the two quoted styles, 6.6 for comments. As in the source, a quote
 opens at any unquoted quote character, also inside a plain scalar.
 */
module FlowScanner {
  import opened Ordering

  // ---------- Characters ----------

  /** Python's `str.isspace` for one character. */
  predicate IsSpace(c: char) {
    || '\U{0009}' <= c <= '\U{000D}' || '\U{001C}' <= c <= '\U{0020}'
    || c == '\U{0085}' || c == '\U{00A0}' || c == '\U{1680}'
    || '\U{2000}' <= c <= '\U{200A}' || c == '\U{2028}' || c == '\U{2029}'
    || c == '\U{202F}' || c == '\U{205F}' || c == '\U{3000}'
  }

  predicate IsOpen(c: char) {
    c == '[' || c == '{'
  }

  predicate IsClose(c: char) {
    c == ']' || c == '}'
  }

  function CloseOf(open: char): char {
    if open == '[' then ']' else '}'
  }

  // ---------- The grammar ----------

  /** One character of a double-quoted scalar, as written. */
  datatype Unit = Char(c: char) | Escape(c: char)

  datatype Piece =
    | Plain(c: char)
    | Space(c: char)
    | Comment(text: string)
    | Single(value: string)
    | Double(units: seq<Unit>)
    | Nested(open: char, items: seq<Piece>)

  function DoubleQuotes(value: string): string {
    if value == [] then []
    else if value[0] == '\'' then "''" + DoubleQuotes(value[1..])
    else [value[0]] + DoubleQuotes(value[1..])
  }

  function RenderUnits(units: seq<Unit>): string {
    if units == [] then []
    else (match units[0] case Char(c) => [c] case Escape(c) => ['\\', c]) + RenderUnits(units[1..])
  }

  function RenderPiece(p: Piece): (s: string)
    ensures s != []
    decreases p, 1
  {
    match p
    case Plain(c) => [c]
    case Space(c) => [c]
    case Comment(text) => "#" + text + "\n"
    case Single(value) => "'" + DoubleQuotes(value) + "'"
    case Double(units) => "\"" + RenderUnits(units) + "\""
    case Nested(open, items) => [open] + Render(items) + (if open == '[' then "]" else "}")
  }

  function Render(items: seq<Piece>): string
    decreases items, 0
  {
    if items == [] then [] else RenderPiece(items[0]) + Render(items[1..])
  }

  predicate UnitOk(u: Unit) {
    u.Char? ==> u.c != '"' && u.c != '\\'
  }

  /** Spaces and comments: what may stand between two entries without being one. */
  predicate IsTrivia(p: Piece) {
    p.Space? || p.Comment?
  }

  /** `afterSpace`: whether the character before the piece is white space. */
  predicate PieceOk(p: Piece, afterSpace: bool)
    decreases p, 1
  {
    match p
    case Plain(c) =>
      !IsSpace(c) && !IsOpen(c) && !IsClose(c) && c != '\'' && c != '"' && (c == '#' ==> !afterSpace)
    case Space(c) => IsSpace(c)
    case Comment(text) => afterSpace && '\n' !in text
    case Single(value) => true
    case Double(units) => forall u :: u in units ==> UnitOk(u)
    case Nested(open, items) => IsOpen(open) && ItemsOk(items, false)
  }

  predicate ItemsOk(items: seq<Piece>, afterSpace: bool)
    decreases items, 0
  {
    items == [] ||
    (&& PieceOk(items[0], afterSpace)
     && (items[0].Single? && |items| > 1 ==> !items[1].Single?)
     && ItemsOk(items[1..], IsTrivia(items[0])))
  }

  ghost predicate Collection(p: Piece) {
    p.Nested? && PieceOk(p, false)
  }

  /** The last position of `items`, written from `index` on, that is neither space nor comment. */
  function LastSignificant(items: seq<Piece>, index: nat, last: nat): nat {
    if items == [] then last
    else
      LastSignificant(items[1..], index + |RenderPiece(items[0])|, LastOfPiece(items[0], index, last))
  }

  function LastOfPiece(p: Piece, index: nat, last: nat): nat {
    if IsTrivia(p) then last else index + |RenderPiece(p)| - 1
  }

  // ---------- The scanner's transition function ----------

  datatype FlowError = Malformed | Unterminated

  datatype Bounds = Bounds(end: nat, last: nat)

  datatype Mode = Outside | InComment | InSingle | InDouble(escaped: bool)

  /** The outcome of scanning on from `index` in the given state. */
  function Scan(source: string, start: nat, index: nat, mode: Mode, stack: seq<char>, last: nat)
    : Result<Bounds, FlowError>
    decreases |source| - index
  {
    if index >= |source| then Raise(Unterminated)
    else
      var c := source[index];
      match mode
      case InComment =>
        Scan(source, start, index + 1, if c == '\n' then Outside else InComment, stack, last)
      case InSingle =>
        if c == '\'' && index + 1 < |source| && source[index + 1] == '\'' then
          Scan(source, start, index + 2, InSingle, stack, index + 1)
        else
          Scan(source, start, index + 1, if c == '\'' then Outside else InSingle, stack, index)
      case InDouble(escaped) =>
        var next := if escaped then InDouble(false)
                    else if c == '\\' then InDouble(true)
                    else if c == '"' then Outside
                    else InDouble(false);
        Scan(source, start, index + 1, next, stack, index)
      case Outside =>
        if c == '#' && (index == start || (0 < index && IsSpace(source[index - 1]))) then
          Scan(source, start, index + 1, InComment, stack, last)
        else if c == '\'' then Scan(source, start, index + 1, InSingle, stack, index)
        else if c == '"' then Scan(source, start, index + 1, InDouble(false), stack, index)
        else if IsOpen(c) then Scan(source, start, index + 1, Outside, stack + [c], index)
        else if IsClose(c) then
          if stack == [] || CloseOf(stack[|stack| - 1]) != c then Raise(Malformed)
          else if |stack| == 1 then Ok(Bounds(index + 1, last))
          else Scan(source, start, index + 1, Outside, stack[..|stack| - 1], index)
        else
          Scan(source, start, index + 1, Outside, stack, if IsSpace(c) then last else index)
  }

  // ---------- Every tree is scanned to its end ----------

  ghost predicate At(source: string, index: nat, text: string) {
    index + |text| <= |source| && source[index..index + |text|] == text
  }

  lemma AtSplit(source: string, index: nat, a: string, b: string)
    requires At(source, index, a + b)
    ensures At(source, index, a) && At(source, index + |a|, b)
  {
    assert source[index..index + |a|] == source[index..index + |a + b|][..|a|];
    assert source[index + |a|..index + |a| + |b|] == source[index..index + |a + b|][|a|..];
  }

  lemma AtHead(source: string, index: nat, c: char, rest: string)
    requires At(source, index, [c] + rest)
    ensures index < |source| && source[index] == c && At(source, index + 1, rest)
  {
    AtSplit(source, index, [c], rest);
    assert source[index..index + 1][0] == c;
  }

  lemma {:induction false} ScanComment(source: string, start: nat, index: nat, text: string,
                                       stack: seq<char>, last: nat)
    requires At(source, index, text + "\n") && '\n' !in text
    ensures Scan(source, start, index, InComment, stack, last)
         == Scan(source, start, index + |text| + 1, Outside, stack, last)
    decreases |text|
  {
    if text == [] {
      assert text + "\n" == "\n" + [];
      AtHead(source, index, '\n', []);
    } else {
      assert text + "\n" == [text[0]] + (text[1..] + "\n");
      AtHead(source, index, text[0], text[1..] + "\n");
      ScanComment(source, start, index + 1, text[1..], stack, last);
    }
  }

  lemma {:induction false} ScanSingle(source: string, start: nat, index: nat, value: string,
                                      stack: seq<char>, last: nat)
    requires At(source, index, DoubleQuotes(value) + "'")
    requires var end := index + |DoubleQuotes(value)| + 1; end < |source| ==> source[end] != '\''
    ensures Scan(source, start, index, InSingle, stack, last)
         == Scan(source, start, index + |DoubleQuotes(value)| + 1, Outside, stack,
                 index + |DoubleQuotes(value)|)
    decreases |value|
  {
    if value == [] {
      assert DoubleQuotes(value) + "'" == "'" + [];
      AtHead(source, index, '\'', []);
    } else {
      var rest := DoubleQuotes(value[1..]) + "'";
      FirstOfQuoted(value);
      hide DoubleQuotes;
      if value[0] == '\'' {
        AtHead(source, index, '\'', "'" + rest);
        AtHead(source, index + 1, '\'', rest);
        ScanSingle(source, start, index + 2, value[1..], stack, index + 1);
      } else {
        AtHead(source, index, value[0], rest);
        ScanSingle(source, start, index + 1, value[1..], stack, index);
      }
    }
  }

  /** The first character of a single-quoted value, doubled if it is a quote. */
  lemma FirstOfQuoted(value: string)
    requires value != []
    ensures var rest := DoubleQuotes(value[1..]) + "'";
            if value[0] == '\'' then
              DoubleQuotes(value) + "'" == "'" + ("'" + rest) && |DoubleQuotes(value)| == |DoubleQuotes(value[1..])| + 2
            else
              DoubleQuotes(value) + "'" == [value[0]] + rest && |DoubleQuotes(value)| == |DoubleQuotes(value[1..])| + 1
  {
    var r := DoubleQuotes(value[1..]);
    QuoteTwice(r);
    QuoteOnce(value[0], r);
  }

  lemma QuoteTwice(r: string)
    ensures "''" + r + "'" == "'" + ("'" + (r + "'"))
  {
  }

  lemma QuoteOnce(c: char, r: string)
    ensures [c] + r + "'" == [c] + (r + "'")
  {
  }

  lemma {:induction false} ScanDouble(source: string, start: nat, index: nat, units: seq<Unit>,
                                      stack: seq<char>, last: nat)
    requires At(source, index, RenderUnits(units) + "\"")
    requires forall u :: u in units ==> UnitOk(u)
    ensures Scan(source, start, index, InDouble(false), stack, last)
         == Scan(source, start, index + |RenderUnits(units)| + 1, Outside, stack,
                 index + |RenderUnits(units)|)
    decreases |units|
  {
    hide RenderUnits;
    FirstUnit(units);
    if units == [] {
      AtHead(source, index, '"', []);
    } else {
      var rest := RenderUnits(units[1..]) + "\"";
      assert UnitOk(units[0]);
      match units[0]
      case Char(c) =>
        AtHead(source, index, c, rest);
        ScanDouble(source, start, index + 1, units[1..], stack, index);
      case Escape(c) =>
        AtHead(source, index, '\\', [c] + rest);
        AtHead(source, index + 1, c, rest);
        ScanDouble(source, start, index + 2, units[1..], stack, index + 1);
    }
  }

  lemma FirstUnit(units: seq<Unit>)
    ensures units == [] ==> RenderUnits(units) == [] && RenderUnits(units) + "\"" == ['"'] + []
    ensures units != [] ==>
              var body, rest := RenderUnits(units) + "\"", RenderUnits(units[1..]) + "\"";
              match units[0]
              case Char(c) => body == [c] + rest && |body| == 1 + |rest|
              case Escape(c) => body == ['\\'] + ([c] + rest) && |body| == 2 + |rest|
  {
    if units != [] {
      var others := RenderUnits(units[1..]);
      RenderUnitsFirst(units);
      hide RenderUnits;
      match units[0]
      case Char(c) => Associates([c], others, "\"");
      case Escape(c) =>
        Associates(['\\', c], others, "\"");
        assert ['\\', c] + (others + "\"") == ['\\'] + ([c] + (others + "\""));
    }
  }

  lemma RenderUnitsFirst(units: seq<Unit>)
    requires units != []
    ensures RenderUnits(units)
         == (match units[0] case Char(c) => [c] case Escape(c) => ['\\', c]) + RenderUnits(units[1..])
  {
  }

  lemma Associates(a: string, b: string, c: string)
    ensures a + b + c == a + (b + c)
  {
  }

  /** Whether the character before `index` is white space. */
  predicate AfterSpace(source: string, index: nat) {
    0 < index <= |source| && IsSpace(source[index - 1])
  }

  /** A single-quoted scalar at the end of `items` must not be followed by another quote. */
  ghost predicate NoQuoteAfter(source: string, items: seq<Piece>, end: nat) {
    items != [] && items[|items| - 1].Single? && end < |source| ==> source[end] != '\''
  }

  lemma {:induction false} ScanPiece(source: string, start: nat, index: nat, p: Piece,
                                     stack: seq<char>, last: nat)
    requires start < index && stack != []
    requires At(source, index, RenderPiece(p)) && PieceOk(p, AfterSpace(source, index))
    requires NoQuoteAfter(source, [p], index + |RenderPiece(p)|)
    ensures Scan(source, start, index, Outside, stack, last)
         == Scan(source, start, index + |RenderPiece(p)|, Outside, stack, LastOfPiece(p, index, last))
    decreases p, 1
  {
    hide Scan;
    match p
    case Plain(c) => ScanPlain(source, start, index, c, stack, last);
    case Space(c) => ScanPlain(source, start, index, c, stack, last);
    case Comment(text) => ScanCommented(source, start, index, text, stack, last);
    case Single(value) => ScanSingleQuoted(source, start, index, value, stack, last);
    case Double(units) => ScanDoubleQuoted(source, start, index, units, stack, last);
    case Nested(open, items) => ScanNested(source, start, index, open, items, stack, last);
  }

  lemma ScanPlain(source: string, start: nat, index: nat, c: char, stack: seq<char>, last: nat)
    requires start < index && At(source, index, [c])
    requires PieceOk(Plain(c), AfterSpace(source, index)) || IsSpace(c)
    ensures Scan(source, start, index, Outside, stack, last)
         == Scan(source, start, index + 1, Outside, stack, if IsSpace(c) then last else index)
  {
    AtHead(source, index, c, []);
  }

  lemma ScanCommented(source: string, start: nat, index: nat, text: string,
                      stack: seq<char>, last: nat)
    requires start < index && At(source, index, "#" + text + "\n")
    requires AfterSpace(source, index) && '\n' !in text
    ensures Scan(source, start, index, Outside, stack, last)
         == Scan(source, start, index + |text| + 2, Outside, stack, last)
  {
    assert "#" + text + "\n" == "#" + (text + "\n");
    AtHead(source, index, '#', text + "\n");
    ScanComment(source, start, index + 1, text, stack, last);
  }

  lemma ScanSingleQuoted(source: string, start: nat, index: nat, value: string,
                         stack: seq<char>, last: nat)
    requires start < index
    requires At(source, index, "'" + DoubleQuotes(value) + "'")
    requires NoQuoteAfter(source, [Single(value)], index + |DoubleQuotes(value)| + 2)
    ensures Scan(source, start, index, Outside, stack, last)
         == Scan(source, start, index + |DoubleQuotes(value)| + 2, Outside, stack,
                 index + |DoubleQuotes(value)| + 1)
  {
    assert "'" + DoubleQuotes(value) + "'" == "'" + (DoubleQuotes(value) + "'");
    AtHead(source, index, '\'', DoubleQuotes(value) + "'");
    ScanSingle(source, start, index + 1, value, stack, index);
  }

  lemma ScanDoubleQuoted(source: string, start: nat, index: nat, units: seq<Unit>,
                         stack: seq<char>, last: nat)
    requires start < index
    requires At(source, index, "\"" + RenderUnits(units) + "\"")
    requires forall u :: u in units ==> UnitOk(u)
    ensures Scan(source, start, index, Outside, stack, last)
         == Scan(source, start, index + |RenderUnits(units)| + 2, Outside, stack,
                 index + |RenderUnits(units)| + 1)
  {
    assert "\"" + RenderUnits(units) + "\"" == "\"" + (RenderUnits(units) + "\"");
    AtHead(source, index, '"', RenderUnits(units) + "\"");
    ScanDouble(source, start, index + 1, units, stack, index);
  }

  lemma {:induction false} ScanNested(source: string, start: nat, index: nat, open: char,
                                      items: seq<Piece>, stack: seq<char>, last: nat)
    requires start < index && stack != []
    requires At(source, index, [open] + Render(items) + [CloseOf(open)])
    requires IsOpen(open) && ItemsOk(items, false)
    ensures Scan(source, start, index, Outside, stack, last)
         == Scan(source, start, index + |Render(items)| + 2, Outside, stack, index + |Render(items)| + 1)
    decreases items, 1
  {
    hide Scan;
    var end := InsideBrackets(source, index, open, items);
    ScanOpen(source, start, index, stack, last);
    ScanItems(source, start, index + 1, items, stack + [open], index);
    ScanClose(source, start, end, stack, open, LastSignificant(items, index + 1, index));
  }

  /** Splits a bracketed text into its two brackets and what is between them. */
  lemma InsideBrackets(source: string, index: nat, open: char, items: seq<Piece>) returns (end: nat)
    requires At(source, index, [open] + Render(items) + [CloseOf(open)]) && IsOpen(open)
    ensures end == index + 1 + |Render(items)| < |source|
    ensures source[index] == open && source[end] == CloseOf(open)
    ensures At(source, index + 1, Render(items)) && !AfterSpace(source, index + 1)
    ensures NoQuoteAfter(source, items, end)
  {
    var close := [CloseOf(open)];
    assert [open] + Render(items) + close == [open] + (Render(items) + close);
    AtHead(source, index, open, Render(items) + close);
    AtSplit(source, index + 1, Render(items), close);
    end := index + 1 + |Render(items)|;
    AtHead(source, end, CloseOf(open), []);
  }

  lemma ScanOpen(source: string, start: nat, index: nat, stack: seq<char>, last: nat)
    requires index < |source| && IsOpen(source[index])
    ensures Scan(source, start, index, Outside, stack, last)
         == Scan(source, start, index + 1, Outside, stack + [source[index]], index)
  {
  }

  lemma ScanClose(source: string, start: nat, index: nat, stack: seq<char>, open: char, last: nat)
    requires index < |source| && IsOpen(open) && source[index] == CloseOf(open) && stack != []
    ensures Scan(source, start, index, Outside, stack + [open], last)
         == Scan(source, start, index + 1, Outside, stack, index)
  {
    assert (stack + [open])[..|stack|] == stack;
  }

  lemma {:induction false} ScanItems(source: string, start: nat, index: nat, items: seq<Piece>,
                                     stack: seq<char>, last: nat)
    requires start < index && stack != []
    requires At(source, index, Render(items)) && ItemsOk(items, AfterSpace(source, index))
    requires NoQuoteAfter(source, items, index + |Render(items)|)
    ensures Scan(source, start, index, Outside, stack, last)
         == Scan(source, start, index + |Render(items)|, Outside, stack,
                 LastSignificant(items, index, last))
    decreases items, 0
  {
    hide Scan, PieceOk, DoubleQuotes, RenderUnits, LastOfPiece;
    if items != [] {
      var p := items[0];
      var text := RenderPiece(p);
      AtSplit(source, index, text, Render(items[1..]));
      EndsLikePiece(source, index, p);
      if items[1..] != [] {
        FirstCharacter(source, index + |text|, items[1..]);
      }
      ScanPiece(source, start, index, p, stack, last);
      ScanItems(source, start, index + |text|, items[1..], stack, LastOfPiece(p, index, last));
    }
  }

  lemma EndsLikePiece(source: string, index: nat, p: Piece)
    requires At(source, index, RenderPiece(p)) && PieceOk(p, AfterSpace(source, index))
    ensures AfterSpace(source, index + |RenderPiece(p)|) == IsTrivia(p)
  {
    var text := RenderPiece(p);
    assert source[index + |text| - 1] == source[index..index + |text|][|text| - 1] == text[|text| - 1];
  }

  lemma FirstCharacter(source: string, index: nat, items: seq<Piece>)
    requires At(source, index, Render(items)) && items != [] && ItemsOk(items, AfterSpace(source, index))
    ensures index < |source| && (source[index] == '\'' <==> items[0].Single?)
  {
    var text := RenderPiece(items[0]);
    AtSplit(source, index, text, Render(items[1..]));
    assert source[index] == source[index..index + |text|][0] == text[0];
  }

  // ---------- Every accepted text is a tree ----------

  lemma {:induction false} ParseComment(source: string, start: nat, index: nat, stack: seq<char>, last: nat)
    returns (text: string)
    requires Scan(source, start, index, InComment, stack, last).Ok?
    ensures At(source, index, text + "\n") && '\n' !in text
    decreases |source| - index
  {
    if source[index] == '\n' {
      text := [];
      assert source[index..index + 1] == text + "\n";
    } else {
      var rest := ParseComment(source, start, index + 1, stack, last);
      text := [source[index]] + rest;
      AtCons(source, index, rest + "\n");
      assert text + "\n" == [source[index]] + (rest + "\n");
    }
  }

  lemma AtCons(source: string, index: nat, rest: string)
    requires index < |source| && At(source, index + 1, rest)
    ensures At(source, index, [source[index]] + rest)
  {
    assert source[index..index + 1 + |rest|] == [source[index]] + source[index + 1..index + 1 + |rest|];
  }

  lemma {:induction false} ParseSingle(source: string, start: nat, index: nat, stack: seq<char>, last: nat)
    returns (value: string)
    requires Scan(source, start, index, InSingle, stack, last).Ok?
    ensures At(source, index, DoubleQuotes(value) + "'")
    ensures NoQuoteAfter(source, [Single(value)], index + |DoubleQuotes(value)| + 1)
    decreases |source| - index
  {
    hide *;
    SingleContinues(source, start, index, stack, last);
    var c := source[index];
    if c == '\'' && index + 1 < |source| && source[index + 1] == '\'' {
      var rest := ParseSingle(source, start, index + 2, stack, index + 1);
      value := [c] + rest;
      DoubledAt(source, index, rest);
      NoQuoteMoved(source, rest, value, index + 2 + |DoubleQuotes(rest)| + 1);
    } else if c == '\'' {
      value := [];
      ClosingAt(source, index);
    } else {
      var rest := ParseSingle(source, start, index + 1, stack, index);
      value := [c] + rest;
      OnceAt(source, index, rest);
      NoQuoteMoved(source, rest, value, index + 1 + |DoubleQuotes(rest)| + 1);
    }
  }

  lemma SingleContinues(source: string, start: nat, index: nat, stack: seq<char>, last: nat)
    requires Scan(source, start, index, InSingle, stack, last).Ok?
    ensures index < |source|
    ensures source[index] != '\'' ==> Scan(source, start, index + 1, InSingle, stack, index).Ok?
    ensures source[index] == '\'' && index + 1 < |source| && source[index + 1] == '\'' ==>
              Scan(source, start, index + 2, InSingle, stack, index + 1).Ok?
  {
  }

  lemma NoQuoteMoved(source: string, a: string, b: string, end: nat)
    requires NoQuoteAfter(source, [Single(a)], end)
    ensures NoQuoteAfter(source, [Single(b)], end)
  {
  }

  lemma ClosingAt(source: string, index: nat)
    requires index < |source| && source[index] == '\'' && (index + 1 < |source| ==> source[index + 1] != '\'')
    ensures DoubleQuotes([]) == [] && At(source, index, DoubleQuotes([]) + "'")
    ensures NoQuoteAfter(source, [Single([])], index + |DoubleQuotes([])| + 1)
  {
    assert source[index..index + 1] == "'";
  }

  lemma DoubledAt(source: string, index: nat, rest: string)
    requires index + 1 < |source| && source[index] == '\'' && source[index + 1] == '\''
    requires At(source, index + 2, DoubleQuotes(rest) + "'")
    ensures var value := [source[index]] + rest;
            At(source, index, DoubleQuotes(value) + "'") && |DoubleQuotes(value)| == |DoubleQuotes(rest)| + 2
  {
    var c := source[index];
    QuotedCons(c, rest);
    AtCons(source, index + 1, DoubleQuotes(rest) + "'");
    AtCons(source, index, [c] + (DoubleQuotes(rest) + "'"));
  }

  lemma OnceAt(source: string, index: nat, rest: string)
    requires index < |source| && source[index] != '\'' && At(source, index + 1, DoubleQuotes(rest) + "'")
    ensures var value := [source[index]] + rest;
            At(source, index, DoubleQuotes(value) + "'") && |DoubleQuotes(value)| == |DoubleQuotes(rest)| + 1
  {
    QuotedCons(source[index], rest);
    AtCons(source, index, DoubleQuotes(rest) + "'");
  }

  lemma QuotedCons(c: char, rest: string)
    ensures var value := [c] + rest;
            if c == '\'' then
              DoubleQuotes(value) + "'" == [c] + ([c] + (DoubleQuotes(rest) + "'"))
              && |DoubleQuotes(value)| == |DoubleQuotes(rest)| + 2
            else
              DoubleQuotes(value) + "'" == [c] + (DoubleQuotes(rest) + "'")
              && |DoubleQuotes(value)| == |DoubleQuotes(rest)| + 1
  {
    assert ([c] + rest)[1..] == rest;
    FirstOfQuoted([c] + rest);
  }

  lemma {:induction false} ParseDouble(source: string, start: nat, index: nat, stack: seq<char>, last: nat)
    returns (units: seq<Unit>)
    requires Scan(source, start, index, InDouble(false), stack, last).Ok?
    ensures At(source, index, RenderUnits(units) + "\"")
    ensures forall u :: u in units ==> UnitOk(u)
    decreases |source| - index
  {
    var c := source[index];
    if c == '\\' {
      var d := source[index + 1];
      var rest := ParseDouble(source, start, index + 2, stack, index + 1);
      units := [Escape(d)] + rest;
      AtCons(source, index + 1, RenderUnits(rest) + "\"");
      AtCons(source, index, [d] + (RenderUnits(rest) + "\""));
      assert RenderUnits(units) + "\"" == [c] + ([d] + (RenderUnits(rest) + "\""));
    } else if c == '"' {
      units := [];
      assert source[index..index + 1] == RenderUnits(units) + "\"";
    } else {
      var rest := ParseDouble(source, start, index + 1, stack, index);
      units := [Char(c)] + rest;
      AtCons(source, index, RenderUnits(rest) + "\"");
      assert RenderUnits(units) + "\"" == [c] + (RenderUnits(rest) + "\"");
    }
  }

  lemma {:induction false} ParsePiece(source: string, start: nat, index: nat, stack: seq<char>, last: nat)
    returns (p: Piece)
    requires start < index && stack != []
    requires Scan(source, start, index, Outside, stack, last).Ok? && !IsClose(source[index])
    ensures At(source, index, RenderPiece(p)) && PieceOk(p, AfterSpace(source, index))
    ensures NoQuoteAfter(source, [p], index + |RenderPiece(p)|)
    decreases |source| - index, 0
  {
    hide Scan;
    PieceStarts(source, start, index, stack, last);
    var c := source[index];
    if c == '#' && AfterSpace(source, index) {
      var text := ParseComment(source, start, index + 1, stack, last);
      p := Comment(text);
      AtCons(source, index, text + "\n");
      CommentText(text);
    } else if c == '\'' {
      var value := ParseSingle(source, start, index + 1, stack, index);
      p := Single(value);
      AtCons(source, index, DoubleQuotes(value) + "'");
      SingleText(value);
    } else if c == '"' {
      var units := ParseDouble(source, start, index + 1, stack, index);
      p := Double(units);
      AtCons(source, index, RenderUnits(units) + "\"");
      DoubleText(units);
    } else if IsOpen(c) {
      var items, k := ParseItems(source, start, index + 1, stack + [c], index);
      p := Nested(c, items);
      NestedText(source, index, items, k);
    } else {
      p := if IsSpace(c) then Space(c) else Plain(c);
      assert source[index..index + 1] == [c];
    }
  }

  /** What the scanner does with the first character of a piece. */
  lemma PieceStarts(source: string, start: nat, index: nat, stack: seq<char>, last: nat)
    requires start < index && Scan(source, start, index, Outside, stack, last).Ok?
    ensures index < |source|
    ensures var c := source[index];
            if c == '#' && AfterSpace(source, index) then Scan(source, start, index + 1, InComment, stack, last).Ok?
            else if c == '\'' then Scan(source, start, index + 1, InSingle, stack, index).Ok?
            else if c == '"' then Scan(source, start, index + 1, InDouble(false), stack, index).Ok?
            else IsOpen(c) ==> Scan(source, start, index + 1, Outside, stack + [c], index).Ok?
  {
  }

  lemma NestedText(source: string, index: nat, items: seq<Piece>, k: nat)
    requires index < k < |source| && IsOpen(source[index]) && source[k] == CloseOf(source[index])
    requires source[index + 1..k] == Render(items) && ItemsOk(items, false)
    ensures At(source, index, RenderPiece(Nested(source[index], items)))
    ensures PieceOk(Nested(source[index], items), AfterSpace(source, index))
  {
    assert source[index..k + 1] == [source[index]] + source[index + 1..k] + [source[k]];
  }

  lemma CommentText(text: string)
    ensures RenderPiece(Comment(text)) == "#" + (text + "\n")
  {
  }

  lemma SingleText(value: string)
    ensures RenderPiece(Single(value)) == "'" + (DoubleQuotes(value) + "'")
  {
  }

  lemma DoubleText(units: seq<Unit>)
    ensures RenderPiece(Double(units)) == "\"" + (RenderUnits(units) + "\"")
  {
  }

  lemma {:induction false} ParseItems(source: string, start: nat, index: nat, stack: seq<char>, last: nat)
    returns (items: seq<Piece>, k: nat)
    requires start < index && stack != []
    requires Scan(source, start, index, Outside, stack, last).Ok?
    ensures index <= k < |source| && source[index..k] == Render(items)
    ensures ItemsOk(items, AfterSpace(source, index))
    ensures source[k] == CloseOf(stack[|stack| - 1])
    decreases |source| - index, 1
  {
    OutsideOk(source, start, index, stack, last);
    if IsClose(source[index]) {
      items, k := [], index;
    } else {
      hide *;
      var p := ParsePiece(source, start, index, stack, last);
      var next := index + |RenderPiece(p)|;
      ScanPiece(source, start, index, p, stack, last);
      PieceNonEmpty(source, index, p);
      var rest;
      rest, k := ParseItems(source, start, next, stack, LastOfPiece(p, index, last));
      items := [p] + rest;
      OneMorePiece(source, index, p, rest, k);
    }
  }

  lemma OutsideOk(source: string, start: nat, index: nat, stack: seq<char>, last: nat)
    requires stack != [] && Scan(source, start, index, Outside, stack, last).Ok?
    ensures index < |source| && (IsClose(source[index]) ==> source[index] == CloseOf(stack[|stack| - 1]))
  {
  }

  lemma PieceNonEmpty(source: string, index: nat, p: Piece)
    requires At(source, index, RenderPiece(p)) && PieceOk(p, AfterSpace(source, index))
    ensures |RenderPiece(p)| > 0 && index + |RenderPiece(p)| <= |source|
  {
  }

  lemma OneMorePiece(source: string, index: nat, p: Piece, rest: seq<Piece>, k: nat)
    requires At(source, index, RenderPiece(p)) && PieceOk(p, AfterSpace(source, index))
    requires NoQuoteAfter(source, [p], index + |RenderPiece(p)|)
    requires var next := index + |RenderPiece(p)|;
             next <= k <= |source| && source[next..k] == Render(rest) && ItemsOk(rest, AfterSpace(source, next))
    ensures source[index..k] == Render([p] + rest) && ItemsOk([p] + rest, AfterSpace(source, index))
  {
    hide PieceOk, RenderPiece, Render, AfterSpace, At, ItemsOk;
    var next := index + |RenderPiece(p)|;
    EndsLikePiece(source, index, p);
    AtNext(source, index, RenderPiece(p), next, Render(rest), k);
    if rest != [] {
      FirstCharacter(source, next, rest);
    }
    ConsOk(p, rest, AfterSpace(source, index));
  }

  lemma AtNext(source: string, index: nat, text: string, next: nat, others: string, k: nat)
    requires At(source, index, text) && next == index + |text| <= k <= |source| && source[next..k] == others
    ensures At(source, next, others) && source[index..k] == text + others
  {
    assert source[index..k] == source[index..next] + source[next..k];
  }

  lemma ConsOk(p: Piece, rest: seq<Piece>, afterSpace: bool)
    requires PieceOk(p, afterSpace) && ItemsOk(rest, IsTrivia(p))
    requires p.Single? && rest != [] ==> !rest[0].Single?
    ensures Render([p] + rest) == RenderPiece(p) + Render(rest) && ItemsOk([p] + rest, afterSpace)
  {
    hide PieceOk, RenderPiece;
    assert ([p] + rest)[1..] == rest;
  }

  // ---------- The scanner is exactly the grammar ----------

  function BoundsOf(p: Piece, start: nat): Bounds
    requires p.Nested?
  {
    Bounds(start + |RenderPiece(p)|, LastSignificant(p.items, start + 1, start))
  }

  ghost predicate CollectionAt(source: string, start: nat, p: Piece) {
    Collection(p) && At(source, start, RenderPiece(p))
  }

  function ScanCollection(source: string, start: nat): Result<Bounds, FlowError> {
    Scan(source, start, start, Outside, [], start)
  }

  /** A collection written at `start` is found, with these bounds. */
  lemma CollectionIsFound(source: string, start: nat, p: Piece)
    requires CollectionAt(source, start, p)
    ensures ScanCollection(source, start) == Ok(BoundsOf(p, start))
  {
    var end := InsideBrackets(source, start, p.open, p.items);
    assert [] + [p.open] == [p.open];
    assert ScanCollection(source, start) == Scan(source, start, start + 1, Outside, [p.open], start);
    var last := LastSignificant(p.items, start + 1, start);
    assert Scan(source, start, end, Outside, [p.open], last) == Ok(BoundsOf(p, start));
    hide Scan;
    ScanItems(source, start, start + 1, p.items, [p.open], start);
  }

  /** What the scanner accepts is a collection. */
  lemma FoundIsCollection(source: string, start: nat) returns (p: Piece)
    requires start < |source| && IsOpen(source[start])
    requires ScanCollection(source, start).Ok?
    ensures CollectionAt(source, start, p)
  {
    var open := source[start];
    assert [] + [open] == [open];
    assert Scan(source, start, start + 1, Outside, [open], start).Ok?;
    hide Scan, Render, CloseOf;
    var items, k := ParseItems(source, start, start + 1, [open], start);
    p := Nested(open, items);
    assert [open][|[open]| - 1] == open;
    NestedText(source, start, items, k);
  }

  /** The last significant position: a split of the entries into a part and trailing trivia. */
  lemma {:induction false} LastSignificantSplits(items: seq<Piece>, index: nat, last: nat) returns (k: nat)
    ensures k <= |items| && forall i :: k <= i < |items| ==> IsTrivia(items[i])
    ensures k > 0 ==> !IsTrivia(items[k - 1])
    ensures LastSignificant(items, index, last)
         == if k == 0 then last else index + |Render(items[..k])| - 1
  {
    if items == [] {
      k := 0;
    } else {
      var next := index + |RenderPiece(items[0])|;
      var j := LastSignificantSplits(items[1..], next, LastOfPiece(items[0], index, last));
      if j == 0 && IsTrivia(items[0]) {
        k := 0;
      } else {
        k := j + 1;
        assert items[..k][1..] == items[1..][..j];
        if j == 0 { assert items[..k] == [items[0]]; }
      }
      forall i | k <= i < |items| ensures IsTrivia(items[i]) {
        if i > 0 { assert items[i] == items[1..][i - 1]; }
      }
    }
  }

  // ---------- The two errors ----------

  lemma {:induction false} MalformedStays(source: string, t: string, start: nat, index: nat, mode: Mode,
                                          stack: seq<char>, last: nat)
    requires start <= index && Scan(source, start, index, mode, stack, last) == Raise(Malformed)
    ensures Scan(source + t, start, index, mode, stack, last) == Raise(Malformed)
    decreases |source| - index
  {
    var c := source[index];
    assert forall i :: 0 <= i < |source| ==> (source + t)[i] == source[i];
    match mode
    case InComment =>
      MalformedStays(source, t, start, index + 1, if c == '\n' then Outside else InComment, stack, last);
    case InSingle =>
      if c == '\'' && index + 1 < |source| && source[index + 1] == '\'' {
        MalformedStays(source, t, start, index + 2, InSingle, stack, index + 1);
      } else {
        MalformedStays(source, t, start, index + 1, if c == '\'' then Outside else InSingle, stack, index);
      }
    case InDouble(escaped) =>
      var next := if escaped then InDouble(false) else if c == '\\' then InDouble(true)
                  else if c == '"' then Outside else InDouble(false);
      MalformedStays(source, t, start, index + 1, next, stack, index);
    case Outside =>
      if c == '#' && (index == start || AfterSpace(source, index)) {
        MalformedStays(source, t, start, index + 1, InComment, stack, last);
      } else if c == '\'' {
        MalformedStays(source, t, start, index + 1, InSingle, stack, index);
      } else if c == '"' {
        MalformedStays(source, t, start, index + 1, InDouble(false), stack, index);
      } else if IsOpen(c) {
        MalformedStays(source, t, start, index + 1, Outside, stack + [c], index);
      } else if IsClose(c) {
        if stack != [] && CloseOf(stack[|stack| - 1]) == c && |stack| > 1 {
          MalformedStays(source, t, start, index + 1, Outside, stack[..|stack| - 1], index);
        }
      } else {
        MalformedStays(source, t, start, index + 1, Outside, stack, if IsSpace(c) then last else index);
      }
  }

  /** The brackets that close every open collection. */
  function Closers(stack: seq<char>): string {
    if stack == [] then [] else [CloseOf(stack[|stack| - 1])] + Closers(stack[..|stack| - 1])
  }

  lemma {:induction false} ClosersFinish(source: string, start: nat, index: nat, stack: seq<char>, last: nat)
    requires start < index && stack != [] && At(source, index, Closers(stack))
    requires index + |Closers(stack)| == |source|
    ensures Scan(source, start, index, Outside, stack, last).Ok?
    ensures Scan(source, start, index, Outside, stack, last).value.end == |source|
    decreases |stack|
  {
    var close := CloseOf(stack[|stack| - 1]);
    var below := stack[..|stack| - 1];
    AtHead(source, index, close, Closers(below));
    if |stack| > 1 {
      ClosersFinish(source, start, index + 1, below, index);
    }
  }

  /** Text that completes an unterminated collection, whatever state the scan ended in. */
  function Completion(mode: Mode, stack: seq<char>): string {
    match mode
    case Outside => Closers(stack)
    case InComment => "\n" + Closers(stack)
    case InSingle => "'" + Closers(stack)
    case InDouble(escaped) => if escaped then "n\"" + Closers(stack) else "\"" + Closers(stack)
  }

  lemma CompletionFinishes(source: string, start: nat, mode: Mode, stack: seq<char>, last: nat)
    requires start < |source| && stack != []
    ensures var t := Completion(mode, stack);
            && Scan(source + t, start, |source|, mode, stack, last).Ok?
            && Scan(source + t, start, |source|, mode, stack, last).value.end == |source + t|
  {
    hide Closers;
    var t := Completion(mode, stack);
    var text := source + t;
    var n := |source|;
    var closers := Closers(stack);
    assert At(text, n, t) by { assert text[n..n + |t|] == t; }
    if mode.Outside? {
      ClosersFinish(text, start, n, stack, last);
    } else if mode == InDouble(true) {
      EscapedCompletion(text, start, n, stack, last);
    } else {
      assert t == [t[0]] + closers;
      AtHead(text, n, t[0], closers);
      NotAQuote(text, n + 1, stack);
      CompletionStep(text, start, n, mode, stack, last);
      hide Scan;
      ClosersFinish(text, start, n + 1, stack, if mode.InComment? then last else n);
    }
  }

  lemma CompletionStep(text: string, start: nat, n: nat, mode: Mode, stack: seq<char>, last: nat)
    requires !mode.Outside? && mode != InDouble(true) && n + 1 < |text| && text[n + 1] != '\''
    requires text[n] == Completion(mode, stack)[0]
    ensures Scan(text, start, n, mode, stack, last)
         == Scan(text, start, n + 1, Outside, stack, if mode.InComment? then last else n)
  {
    hide Closers;
  }

  lemma EscapedCompletion(text: string, start: nat, n: nat, stack: seq<char>, last: nat)
    requires start < n && stack != [] && At(text, n, "n\"" + Closers(stack))
    requires n + 2 + |Closers(stack)| == |text|
    ensures Scan(text, start, n, InDouble(true), stack, last).Ok?
    ensures Scan(text, start, n, InDouble(true), stack, last).value.end == |text|
  {
    hide Closers;
    var closers := Closers(stack);
    assert "n\"" + closers == "n" + ("\"" + closers);
    AtHead(text, n, 'n', "\"" + closers);
    AtHead(text, n + 1, '"', closers);
    ClosersFinish(text, start, n + 2, stack, n + 1);
  }

  lemma NotAQuote(text: string, n: nat, stack: seq<char>)
    requires stack != [] && At(text, n, Closers(stack))
    ensures n < |text| && text[n] != '\''
  {
    var closers := Closers(stack);
    assert closers == [closers[0]] + closers[1..];
    AtHead(text, n, closers[0], closers[1..]);
  }

  lemma {:induction false} Completable(source: string, start: nat, index: nat, mode: Mode,
                                       stack: seq<char>, last: nat) returns (t: string)
    requires start < index <= |source| && stack != []
    requires Scan(source, start, index, mode, stack, last) == Raise(Unterminated)
    ensures Scan(source + t, start, index, mode, stack, last).Ok?
    ensures Scan(source + t, start, index, mode, stack, last).value.end == |source + t|
    ensures index == |source| && mode.Outside? ==> t != [] && t[0] != '\''
    decreases |source| - index
  {
    if index == |source| {
      t := Completion(mode, stack);
      CompletionFinishes(source, start, mode, stack, last);
    } else {
      var next, mode', stack', last' := Step(source, start, index, mode, stack, last);
      t := Completable(source, start, next, mode', stack', last');
      StepExtends(source, t, start, index, mode, stack, last, next, mode', stack', last');
    }
  }

  /** One iteration of the scan that neither ends it nor fails. */
  lemma Step(source: string, start: nat, index: nat, mode: Mode, stack: seq<char>, last: nat)
    returns (next: nat, mode': Mode, stack': seq<char>, last': nat)
    requires start < index < |source| && stack != []
    requires Scan(source, start, index, mode, stack, last) == Raise(Unterminated)
    ensures Stepped(source, start, index, mode, stack, last, next, mode', stack', last')
    ensures Scan(source, start, next, mode', stack', last') == Raise(Unterminated)
  {
    var c := source[index];
    next, mode', stack', last' := index + 1, mode, stack, index;
    match mode {
      case InComment => mode', last' := if c == '\n' then Outside else InComment, last;
      case InSingle =>
        if c == '\'' && index + 1 < |source| && source[index + 1] == '\'' {
          next, last' := index + 2, index + 1;
        } else if c == '\'' {
          mode' := Outside;
        }
      case InDouble(escaped) =>
        mode' := if escaped then InDouble(false) else if c == '\\' then InDouble(true)
                 else if c == '"' then Outside else InDouble(false);
      case Outside =>
        if c == '#' && AfterSpace(source, index) { mode', last' := InComment, last; }
        else if c == '\'' { mode' := InSingle; }
        else if c == '"' { mode' := InDouble(false); }
        else if IsOpen(c) { stack' := stack + [c]; }
        else if IsClose(c) { stack' := stack[..|stack| - 1]; }
        else if IsSpace(c) { last' := last; }
    }
  }

  ghost predicate Stepped(source: string, start: nat, index: nat, mode: Mode, stack: seq<char>, last: nat,
                          next: nat, mode': Mode, stack': seq<char>, last': nat)
    requires start < index < |source|
  {
    && index < next <= |source| && stack' != []
    && forall t {:trigger source + t} ::
         (next == |source| && mode'.Outside? ==> t != [] && t[0] != '\'') ==>
         Scan(source + t, start, index, mode, stack, last)
         == Scan(source + t, start, next, mode', stack', last')
  }

  lemma StepExtends(source: string, t: string, start: nat, index: nat, mode: Mode, stack: seq<char>, last: nat,
                    next: nat, mode': Mode, stack': seq<char>, last': nat)
    requires start < index < |source|
    requires Stepped(source, start, index, mode, stack, last, next, mode', stack', last')
    requires next == |source| && mode'.Outside? ==> t != [] && t[0] != '\''
    ensures Scan(source + t, start, index, mode, stack, last)
         == Scan(source + t, start, next, mode', stack', last')
  {
  }

  /** No text can follow `source` so that a collection at `start` is completed. */
  ghost predicate HopelessAt(source: string, start: nat) {
    forall t, p :: !CollectionAt(source + t, start, p)
  }

  /** The three outcomes, each exactly when the grammar says so. */
  lemma ScannerOutcome(source: string, start: nat)
    requires start < |source| && IsOpen(source[start])
    ensures ScanCollection(source, start).Ok? <==> exists p :: CollectionAt(source, start, p)
    ensures forall p :: CollectionAt(source, start, p) ==>
              ScanCollection(source, start) == Ok(BoundsOf(p, start))
    ensures ScanCollection(source, start) == Raise(Malformed) <==> HopelessAt(source, start)
    ensures ScanCollection(source, start) == Raise(Unterminated) <==>
              !HopelessAt(source, start) && !exists p :: CollectionAt(source, start, p)
    ensures ScanCollection(source, start) == Raise(Unterminated) ==>
              exists t, p :: CollectionAt(source + t, start, p) && BoundsOf(p, start).end == |source + t|
  {
    hide Scan;
    forall p | CollectionAt(source, start, p) ensures ScanCollection(source, start) == Ok(BoundsOf(p, start)) {
      CollectionIsFound(source, start, p);
    }
    match ScanCollection(source, start)
    case Ok(_) =>
      var p := FoundIsCollection(source, start);
      assert source + [] == source;
      assert CollectionAt(source + [], start, p);
    case Raise(Malformed) =>
      forall t, p ensures !CollectionAt(source + t, start, p) {
        MalformedStays(source, t, start, start, Outside, [], start);
        if CollectionAt(source + t, start, p) { CollectionIsFound(source + t, start, p); }
      }
      assert source + [] == source;
    case Raise(Unterminated) =>
      var t := CompletableFromStart(source, start);
      assert (source + t)[start] == source[start];
      var p := FoundIsCollection(source + t, start);
      CollectionIsFound(source + t, start, p);
      assert !HopelessAt(source, start);
  }

  lemma CompletableFromStart(source: string, start: nat) returns (t: string)
    requires start < |source| && IsOpen(source[start])
    requires ScanCollection(source, start) == Raise(Unterminated)
    ensures ScanCollection(source + t, start).Ok?
    ensures ScanCollection(source + t, start).value.end == |source + t|
  {
    var open := source[start];
    assert [] + [open] == [open];
    t := Completable(source, start, start + 1, Outside, [open], start);
  }

  // ---------- The loop of the source ----------

  /** The source's `quote`, `escaped` and `comment` variables as one mode. */
  function ModeOf(quote: string, escaped: bool, comment: bool): Mode {
    if comment then InComment
    else if quote == "'" then InSingle
    else if quote == "\"" then InDouble(escaped)
    else Outside
  }

  function QuotedFlowCharacter(source: string, index: nat, quote: string, escaped: bool)
    : (string, bool, nat, nat)
    requires index < |source|
  {
    var c := source[index];
    if quote == "'" && c == '\'' && index + 1 < |source| && source[index + 1] == '\'' then
      (quote, escaped, index + 1, index + 1)
    else if quote == "\"" && escaped then (quote, false, index, index)
    else if quote == "\"" && c == '\\' then (quote, true, index, index)
    else (if [c] == quote then "" else quote, escaped, index, index)
  }

  datatype Unquoted = Unquoted(quote: string, comment: bool, last: nat, end: Option<nat>, stack: seq<char>)

  function UnquotedFlowCharacter(source: string, start: nat, index: nat, stack: seq<char>, last: nat)
    : Result<Unquoted, FlowError>
    requires index < |source|
  {
    var c := source[index];
    if c == '#' && (index == start || (0 < index && IsSpace(source[index - 1]))) then
      Ok(Unquoted("", true, last, None, stack))
    else if c == '\'' || c == '"' then Ok(Unquoted([c], false, index, None, stack))
    else if IsOpen(c) then Ok(Unquoted("", false, index, None, stack + [c]))
    else if IsClose(c) then
      if stack == [] || CloseOf(stack[|stack| - 1]) != c then Raise(Malformed)
      else
        var popped := stack[..|stack| - 1];
        if popped == [] then Ok(Unquoted("", false, last, Some(index + 1), popped))
        else Ok(Unquoted("", false, index, None, popped))
    else Ok(Unquoted("", false, if IsSpace(c) then last else index, None, stack))
  }

  /** Returns the position just past the matching bracket and the last significant position. */
  method FlowCollectionBounds(source: string, start: nat) returns (result: Result<Bounds, FlowError>)
    ensures result == ScanCollection(source, start)
  {
    var stack: seq<char> := [];
    var quote, escaped, comment := "", false, false;
    var last := start;
    var index := start;
    while index < |source|
      invariant start <= index
      invariant quote == "" || quote == "'" || quote == "\""
      invariant comment ==> quote == ""
      invariant escaped ==> quote == "\""
      invariant ScanCollection(source, start)
             == Scan(source, start, index, ModeOf(quote, escaped, comment), stack, last)
    {
      var c := source[index];
      if comment {
        comment := c != '\n';
      } else if quote != "" {
        var (quote', escaped', index', last') := QuotedFlowCharacter(source, index, quote, escaped);
        quote, escaped, index, last := quote', escaped', index', last';
      } else {
        var step := UnquotedFlowCharacter(source, start, index, stack, last);
        if step.Raise? {
          return Raise(step.error);
        }
        var Unquoted(quote', comment', last', end, stack') := step.value;
        quote, comment, last, stack := quote', comment', last', stack';
        if end.Some? {
          return Ok(Bounds(end.value, last));
        }
      }
      index := index + 1;
    }
    return Raise(Unterminated);
  }
}
