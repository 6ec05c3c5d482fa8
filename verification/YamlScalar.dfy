/**
 Rendering a label value in the style of the scalar it replaces: the quoted styles of sections
 7.3.1 and 7.3.2 of YAML 1.2.2 are read back as the same value, and stay one piece for the scanner
 of flow collections.
 */
module YamlScalar {
  import opened Ordering
  import opened FlowScanner
  import opened FlowEntries

  // ---------- Rendering ----------

  predicate HasLineBreak(value: string) {
    '\n' in value || '\r' in value
  }

  predicate HasPair(value: string, a: char, b: char) {
    exists i :: 0 <= i < |value| - 1 && value[i] == a && value[i + 1] == b
  }

  /** A value that the source does not write as a plain scalar. */
  predicate Unsafe(value: string, flow: bool) {
    || (value != "" && value[0] in "-?:,[]{}#&*!|>'\"%@`")
    || HasPair(value, ' ', '#') || HasPair(value, '\t', '#') || HasPair(value, ':', ' ') || HasPair(value, ':', '\t')
    || (flow && exists i :: 0 <= i < |value| && value[i] in "[]{},")
  }

  function EscapeDouble(value: string): string {
    if value == "" then ""
    else (if value[0] == '\\' || value[0] == '"' then ['\\', value[0]] else [value[0]]) + EscapeDouble(value[1..])
  }

  function SingleQuoted(value: string): string {
    "'" + DoubleQuotes(value) + "'"
  }

  function DoubleQuoted(value: string): string {
    "\"" + EscapeDouble(value) + "\""
  }

  function RenderYamlScalarLike(token: string, value: string, flow: bool): Result<string, string> {
    if HasLineBreak(value) then Raise("Label value cannot contain a line break.")
    else if token != "" && token[0] == '\'' then Ok(SingleQuoted(value))
    else if token != "" && token[0] == '"' then Ok(DoubleQuoted(value))
    else if Unsafe(value, flow) then Ok(SingleQuoted(value))
    else Ok(value)
  }

  predicate IsQuoted(token: string, value: string, flow: bool) {
    (token != "" && (token[0] == '\'' || token[0] == '"')) || Unsafe(value, flow)
  }

  // ---------- Reading back ----------

  /** Between single quotes: a doubled quote stands for one, a lone one is not allowed. */
  function ReadSingle(body: string): Option<string>
    decreases |body|
  {
    if body == "" then Some("")
    else
      var quote := body[0] == '\'';
      if quote && (|body| < 2 || body[1] != '\'') then None
      else
        var rest := ReadSingle(body[if quote then 2 else 1..]);
        if rest.None? then None else Some([body[0]] + rest.value)
  }

  /** The escapes of one character in section 5.7 that stand for a character of their own. */
  function Unescaped(c: char): Option<char> {
    if c == '"' || c == '\\' || c == '/' || c == ' ' || c == '\t' then Some(c)
    else if c == 'n' then Some('\n')
    else if c == 't' then Some('\t')
    else if c == 'r' then Some('\r')
    else if c == '0' then Some('\0')
    else None
  }

  /** Between double quotes: a backslash starts an escape, a lone quote is not allowed. */
  function ReadDouble(body: string): Option<string>
    decreases |body|
  {
    if body == "" then Some("")
    else if body[0] == '"' then None
    else if body[0] == '\\' then
      if |body| < 2 || Unescaped(body[1]).None? then None
      else
        var rest := ReadDouble(body[2..]);
        if rest.None? then None else Some([Unescaped(body[1]).value] + rest.value)
    else
      var rest := ReadDouble(body[1..]);
      if rest.None? then None else Some([body[0]] + rest.value)
  }

  /** The value of a quoted scalar on one line. */
  function ReadQuoted(text: string): Option<string> {
    if |text| < 2 || text[0] != text[|text| - 1] then None
    else if text[0] == '\'' then ReadSingle(text[1..|text| - 1])
    else if text[0] == '"' then ReadDouble(text[1..|text| - 1])
    else None
  }

  lemma {:induction false} SingleReadsBack(value: string)
    ensures ReadSingle(DoubleQuotes(value)) == Some(value)
  {
    if value != "" {
      SingleReadsBack(value[1..]);
      var body, rest := DoubleQuotes(value), DoubleQuotes(value[1..]);
      assert body[if value[0] == '\'' then 2 else 1..] == rest;
      assert value == [value[0]] + value[1..];
    }
  }

  lemma {:induction false} DoubleReadsBack(value: string)
    ensures ReadDouble(EscapeDouble(value)) == Some(value)
  {
    if value != "" {
      DoubleReadsBack(value[1..]);
      var body, rest := EscapeDouble(value), EscapeDouble(value[1..]);
      assert body[if value[0] == '\\' || value[0] == '"' then 2 else 1..] == rest;
      assert value == [value[0]] + value[1..];
    }
  }

  /** A value is refused exactly when it holds a line break; a quoted rendering reads back as the value. */
  lemma RenderingReadsBack(token: string, value: string, flow: bool)
    ensures RenderYamlScalarLike(token, value, flow).Raise? <==> '\n' in value || '\r' in value
    ensures !HasLineBreak(value) && IsQuoted(token, value, flow) ==>
              ReadQuoted(RenderYamlScalarLike(token, value, flow).value) == Some(value)
    ensures !HasLineBreak(value) && !IsQuoted(token, value, flow) ==>
              RenderYamlScalarLike(token, value, flow) == Ok(value)
    ensures !HasLineBreak(value) && IsQuoted(token, value, flow) ==>
              var text := RenderYamlScalarLike(token, value, flow).value;
              text != "" && text[0] == if token != "" && token[0] == '"' then '"' else '\''
    ensures !HasLineBreak(value) && token != "" && (token[0] == '\'' || token[0] == '"') ==> IsQuoted(token, value, flow)
  {
    hide Unsafe;
    SingleReadsBack(value);
    DoubleReadsBack(value);
    var s, d := SingleQuoted(value), DoubleQuoted(value);
    assert s[1..|s| - 1] == DoubleQuotes(value) && d[1..|d| - 1] == EscapeDouble(value);
  }

  lemma NoLineBreak(value: string)
    ensures HasLineBreak(value) <==> '\n' in value || '\r' in value
  {
  }

  // ---------- One piece for the scanner ----------

  function Units(value: string): (units: seq<Unit>)
    ensures forall u :: u in units ==> UnitOk(u)
  {
    if value == "" then []
    else [if value[0] == '\\' || value[0] == '"' then Escape(value[0]) else Char(value[0])] + Units(value[1..])
  }

  lemma {:induction false} UnitsText(value: string)
    ensures RenderUnits(Units(value)) == EscapeDouble(value)
  {
    if value != "" {
      UnitsText(value[1..]);
      assert Units(value)[1..] == Units(value[1..]);
    }
  }

  function QuotedPiece(token: string, value: string): (p: Piece)
    ensures (p.Single? || p.Double?) && PieceOk(p, true) && PieceOk(p, false)
  {
    if token != "" && token[0] == '"' then Double(Units(value)) else Single(value)
  }

  lemma QuotedIsOnePiece(token: string, value: string, flow: bool)
    requires !HasLineBreak(value) && IsQuoted(token, value, flow)
    ensures RenderPiece(QuotedPiece(token, value)) == RenderYamlScalarLike(token, value, flow).value
  {
    hide Unsafe;
    UnitsText(value);
  }

  lemma QuotedStands(source: string, index: nat, p: Piece, end: nat, last: nat)
    requires (p.Single? || p.Double?) && PieceOk(p, true) && PieceOk(p, false)
    requires end < |source| ==> source[end] != '\''
    ensures PieceOk(p, AfterSpace(source, index)) && NoQuoteAfter(source, [p], end)
    ensures LastOfPiece(p, index, last) == index + |RenderPiece(p)| - 1
  {
    hide AfterSpace, PieceOk, RenderPiece;
  }

  /** A scanner at the opening quote is outside again just past the closing one if no quote follows. */
  lemma ScannerPassesQuoted(source: string, start: nat, index: nat, token: string, value: string, flow: bool,
                            text: string, stack: seq<char>, last: nat)
    requires RenderYamlScalarLike(token, value, flow) == Ok(text) && IsQuoted(token, value, flow)
    requires start < index && stack != [] && At(source, index, text)
    requires index + |text| < |source| ==> source[index + |text|] != '\''
    ensures Scan(source, start, index, Outside, stack, last)
         == Scan(source, start, index + |text|, Outside, stack, index + |text| - 1)
  {
    hide *;
    NoLineBreak(value);
    RenderingReadsBack(token, value, flow);
    QuotedIsOnePiece(token, value, flow);
    var p := QuotedPiece(token, value);
    QuotedStands(source, index, p, index + |text|, last);
    ScanPiece(source, start, index, p, stack, last);
  }

  // ---------- Which plain texts are entries ----------

  /** `text` may be inserted as one entry of a flow collection. */
  ghost predicate EntryText(text: string) {
    exists entry :: EntryOk(entry) && Render(entry) == text
  }

  /** No bracket, brace, comma or line feed: what the source lets into a plain scalar and a key. */
  predicate OneLine(text: string) {
    forall i :: 0 <= i < |text| ==> !IsOpen(text[i]) && !IsClose(text[i]) && text[i] != ',' && text[i] != '\n'
  }

  /** Every quote that opens in `text` is closed in it, and outside quotes no `#` stands after white space. */
  predicate QuotesClosed(text: string, mode: Mode, afterSpace: bool)
    decreases |text|
  {
    if text == "" then mode.Outside?
    else
      var c, rest := text[0], text[1..];
      match mode
      case InComment => false
      case InSingle =>
        if c == '\'' && rest != "" && rest[0] == '\'' then QuotesClosed(rest[1..], InSingle, false)
        else QuotesClosed(rest, if c == '\'' then Outside else InSingle, false)
      case InDouble(escaped) =>
        if escaped then QuotesClosed(rest, InDouble(false), false)
        else QuotesClosed(rest, if c == '"' then Outside else InDouble(c == '\\'), false)
      case Outside =>
        if c == '#' && afterSpace then false
        else if c == '\'' then QuotesClosed(rest, InSingle, false)
        else if c == '"' then QuotesClosed(rest, InDouble(false), false)
        else QuotesClosed(rest, Outside, IsSpace(c))
  }

  lemma {:induction false} SingleCloses(value: string, rest: string)
    requires rest != "" ==> rest[0] != '\''
    ensures QuotesClosed(DoubleQuotes(value) + "'" + rest, InSingle, false) == QuotesClosed(rest, Outside, false)
  {
    if value == "" {
      var text := DoubleQuotes(value) + "'" + rest;
      assert text[0] == '\'' && text[1..] == rest;
    } else {
      SingleCloses(value[1..], rest);
      FirstOfQuoted(value);
      var tail := DoubleQuotes(value[1..]) + "'";
      hide DoubleQuotes;
      if value[0] == '\'' {
        CutTwo('\'', '\'', tail, rest);
      } else {
        CutOne(value[0], tail, rest);
      }
    }
  }

  lemma CutOne(c: char, tail: string, rest: string)
    ensures var text := [c] + tail + rest; text[0] == c && text[1..] == tail + rest
  {
  }

  lemma CutTwo(c: char, d: char, tail: string, rest: string)
    ensures var text := [c] + ([d] + tail) + rest;
            text[0] == c && text[1..] != "" && text[1..][0] == d && text[1..][1..] == tail + rest
  {
  }

  lemma {:induction false} DoubleCloses(units: seq<Unit>, rest: string)
    requires forall u :: u in units ==> UnitOk(u)
    ensures QuotesClosed(RenderUnits(units) + "\"" + rest, InDouble(false), false)
         == QuotesClosed(rest, Outside, false)
  {
    hide RenderUnits;
    FirstUnit(units);
    if units == [] {
      CutOne('"', "", rest);
      assert "" + rest == rest;
    } else {
      DoubleCloses(units[1..], rest);
      var tail := RenderUnits(units[1..]) + "\"";
      assert UnitOk(units[0]);
      match units[0]
      case Char(c) => CutOne(c, tail, rest);
      case Escape(c) => CutTwo('\\', c, tail, rest);
    }
  }

  lemma FirstOfItems(items: seq<Piece>)
    requires items != []
    ensures Render(items) != "" && Render(items)[0] == RenderPiece(items[0])[0]
    ensures RenderPiece(items[0])[0] == '\'' && PieceOk(items[0], true) ==> items[0].Single?
  {
  }

  lemma OneLineSplit(a: string, b: string)
    ensures OneLine(a + b) <==> OneLine(a) && OneLine(b)
  {
    var text := a + b;
    if OneLine(text) {
      forall i | 0 <= i < |a| ensures !IsOpen(a[i]) && !IsClose(a[i]) && a[i] != ',' && a[i] != '\n' {
        assert text[i] == a[i];
      }
      forall i | 0 <= i < |b| ensures !IsOpen(b[i]) && !IsClose(b[i]) && b[i] != ',' && b[i] != '\n' {
        assert text[|a| + i] == b[i];
      }
    }
  }

  lemma OneLinePiece(p: Piece)
    requires OneLine(RenderPiece(p))
    ensures !p.Comment? && (p.Nested? ==> !IsOpen(p.open))
  {
    if p.Comment? {
      CommentEnds(p.text);
    } else if p.Nested? {
      assert RenderPiece(p)[0] == p.open;
    }
  }

  lemma CommentEnds(text: string)
    ensures var t := RenderPiece(Comment(text)); t[|t| - 1] == '\n'
  {
  }

  /** Pieces without brackets and comments leave no quote open. */
  lemma {:induction false} PiecesClose(items: seq<Piece>, afterSpace: bool)
    requires ItemsOk(items, afterSpace) && OneLine(Render(items))
    ensures QuotesClosed(Render(items), Outside, afterSpace)
  {
    if items != [] {
      var p, rest := items[0], items[1..];
      RenderFirst(items);
      OneLineSplit(RenderPiece(p), Render(rest));
      OneLinePiece(p);
      PiecesClose(rest, IsTrivia(p));
      if rest != [] { FirstOfItems(rest); }
      hide Render, QuotesClosed, OneLine;
      PieceCloses(p, Render(rest), afterSpace);
    }
  }

  lemma PieceCloses(p: Piece, rest: string, afterSpace: bool)
    requires PieceOk(p, afterSpace) && !p.Comment? && !p.Nested?
    requires p.Single? && rest != "" ==> rest[0] != '\''
    ensures QuotesClosed(RenderPiece(p) + rest, Outside, afterSpace) == QuotesClosed(rest, Outside, IsTrivia(p))
  {
    match p
    case Plain(c) => CutOne(c, "", rest);
    case Space(c) => CutOne(c, "", rest);
    case Single(value) =>
      SingleText(value);
      CutOne('\'', DoubleQuotes(value) + "'", rest);
      SingleCloses(value, rest);
    case Double(units) =>
      DoubleText(units);
      CutOne('"', RenderUnits(units) + "\"", rest);
      DoubleCloses(units, rest);
  }

  lemma {:induction false} ReadSingleQuoted(text: string) returns (value: string, rest: string)
    requires QuotesClosed(text, InSingle, false)
    ensures text == DoubleQuotes(value) + "'" + rest && QuotesClosed(rest, Outside, false)
    ensures rest != "" ==> rest[0] != '\''
    decreases |text|
  {
    if text[0] == '\'' && |text| > 1 && text[1] == '\'' {
      assert text[1..][1..] == text[2..];
      value, rest := ReadSingleQuoted(text[2..]);
      AddedInFront(text[0], value);
      assert text == "''" + text[2..];
      value := [text[0]] + value;
    } else if text[0] == '\'' {
      value, rest := "", text[1..];
    } else {
      value, rest := ReadSingleQuoted(text[1..]);
      AddedInFront(text[0], value);
      assert text == [text[0]] + text[1..];
      value := [text[0]] + value;
    }
  }

  lemma AddedInFront(c: char, value: string)
    ensures DoubleQuotes([c] + value) == (if c == '\'' then "''" else [c]) + DoubleQuotes(value)
  {
    assert ([c] + value)[1..] == value;
  }

  lemma {:induction false} ReadDoubleQuoted(text: string) returns (units: seq<Unit>, rest: string)
    requires QuotesClosed(text, InDouble(false), false)
    ensures text == RenderUnits(units) + "\"" + rest && QuotesClosed(rest, Outside, false)
    ensures forall u :: u in units ==> UnitOk(u)
    decreases |text|
  {
    var c := text[0];
    if c == '"' {
      units, rest := [], text[1..];
    } else if c == '\\' {
      assert text[1..][1..] == text[2..];
      units, rest := ReadDoubleQuoted(text[2..]);
      assert text == [c, text[1]] + text[2..];
      assert ([Escape(text[1])] + units)[1..] == units;
      units := [Escape(text[1])] + units;
    } else {
      units, rest := ReadDoubleQuoted(text[1..]);
      assert text == [c] + text[1..];
      assert ([Char(c)] + units)[1..] == units;
      units := [Char(c)] + units;
    }
  }

  /** The piece that closed text starts with, and the text behind it. */
  lemma FirstPiece(text: string, afterSpace: bool) returns (p: Piece, rest: string)
    requires text != "" && OneLine(text) && QuotesClosed(text, Outside, afterSpace)
    ensures text == RenderPiece(p) + rest && QuotesClosed(rest, Outside, IsTrivia(p))
    ensures PieceOk(p, afterSpace) && p != COMMA && (p.Single? && rest != "" ==> rest[0] != '\'')
    ensures IsTrivia(p) ==> p == Space(text[0])
    ensures !IsTrivia(p) ==> !IsSpace(text[0])
    ensures !IsTrivia(p) ==> !IsSpace(RenderPiece(p)[|RenderPiece(p)| - 1])
  {
    var c := text[0];
    assert text == [c] + text[1..];
    if c == '\'' {
      var value;
      value, rest := ReadSingleQuoted(text[1..]);
      p := Single(value);
      Associative("'", DoubleQuotes(value) + "'", rest);
      SingleText(value);
    } else if c == '"' {
      var units;
      units, rest := ReadDoubleQuoted(text[1..]);
      p := Double(units);
      Associative("\"", RenderUnits(units) + "\"", rest);
      DoubleText(units);
    } else {
      p, rest := if IsSpace(c) then Space(c) else Plain(c), text[1..];
    }
  }

  ghost predicate Reads(items: seq<Piece>, text: string, afterSpace: bool) {
    && Render(items) == text && ItemsOk(items, afterSpace) && NoComma(items)
    && (items == [] <==> text == "")
    && (items != [] ==> IsTrivia(items[0]) == IsSpace(text[0])
                        && IsTrivia(items[|items| - 1]) == IsSpace(text[|text| - 1]))
  }

  lemma {:induction false} ClosedReads(text: string, afterSpace: bool) returns (items: seq<Piece>)
    requires OneLine(text) && QuotesClosed(text, Outside, afterSpace)
    ensures Reads(items, text, afterSpace)
    decreases |text|
  {
    if text == "" {
      items := [];
    } else {
      var p, rest := FirstPiece(text, afterSpace);
      OneLineSplit(RenderPiece(p), rest);
      hide QuotesClosed, OneLine, RenderPiece;
      var others := ClosedReads(rest, IsTrivia(p));
      items := [p] + others;
      PrependReads(p, others, text, rest, afterSpace);
    }
  }

  lemma PrependReads(p: Piece, others: seq<Piece>, text: string, rest: string, afterSpace: bool)
    requires text != "" && text == RenderPiece(p) + rest && Reads(others, rest, IsTrivia(p))
    requires PieceOk(p, afterSpace) && p != COMMA && (p.Single? && rest != "" ==> rest[0] != '\'')
    requires IsTrivia(p) ==> p == Space(text[0])
    requires !IsTrivia(p) ==> !IsSpace(text[0]) && !IsSpace(RenderPiece(p)[|RenderPiece(p)| - 1])
    ensures Reads([p] + others, text, afterSpace)
  {
    var items := [p] + others;
    assert items[1..] == others;
    if others != [] {
      FirstOfItems(others);
      assert items[|items| - 1] == others[|others| - 1];
      assert text[|text| - 1] == rest[|rest| - 1];
    }
    assert p.Space? ==> RenderPiece(p) == [p.c];
    if others != [] && others[0].Single? { SingleText(others[0].value); }
  }

  /**
   Exactly which plain text may be inserted as an entry: no white space at its ends, every quote
   closed, and no `#` that would start a comment.
   */
  lemma EntryTextIff(text: string)
    requires OneLine(text)
    ensures EntryText(text) <==>
            text != "" && !IsSpace(text[0]) && !IsSpace(text[|text| - 1]) && QuotesClosed(text, Outside, true)
  {
    if EntryText(text) {
      var entry :| EntryOk(entry) && Render(entry) == text;
      PiecesClose(entry, true);
      var items := ClosedReads(text, true);
      SameEnds(entry);
    }
    if text != "" && !IsSpace(text[0]) && !IsSpace(text[|text| - 1]) && QuotesClosed(text, Outside, true) {
      var items := ClosedReads(text, true);
      assert EntryOk(items);
    }
  }

  /** The text of an entry has no white space at its ends. */
  lemma SameEnds(entry: seq<Piece>)
    requires EntryOk(entry) && OneLine(Render(entry))
    ensures var text := Render(entry); text != "" && !IsSpace(text[0]) && !IsSpace(text[|text| - 1])
  {
    hide OneLine;
    var n := |entry| - 1;
    FirstOfItems(entry);
    assert PieceOk(entry[0], true);
    assert entry == entry[..n] + [entry[n]];
    RenderConcat(entry[..n], [entry[n]]);
    ItemsOkConcat(entry[..n], [entry[n]], true);
    OneLineSplit(Render(entry[..n]), Render([entry[n]]));
    RenderFirst(entry);
    OneLineSplit(RenderPiece(entry[0]), Render(entry[1..]));
    OnePieceText(entry[n]);
    PieceEnds(entry[0], true);
    PieceEnds(entry[n], SpaceAfter(entry[..n], true));
  }

  lemma OnePieceText(p: Piece)
    ensures Render([p]) == RenderPiece(p)
  {
    assert [p][1..] == [];
    assert RenderPiece(p) + "" == RenderPiece(p);
  }

  lemma PieceEnds(p: Piece, afterSpace: bool)
    requires PieceOk(p, afterSpace) && !IsTrivia(p) && OneLine(RenderPiece(p))
    ensures var text := RenderPiece(p); !IsSpace(text[0]) && !IsSpace(text[|text| - 1])
  {
    OneLinePiece(p);
    match p
    case Plain(c) =>
    case Single(value) =>
    case Double(units) =>
  }

  // ---------- Rendered labels as entries ----------

  /** A plain value without line breaks has nothing in it that ends an entry. */
  lemma PlainIsOneLine(value: string)
    requires !HasLineBreak(value) && !Unsafe(value, true)
    ensures OneLine(value)
  {
    forall i | 0 <= i < |value| ensures !IsOpen(value[i]) && !IsClose(value[i]) && value[i] != ',' {
      assert value[i] !in "[]{},";
      Bracket(value[i]);
    }
  }

  lemma Bracket(c: char)
    requires c !in "[]{},"
    ensures !IsOpen(c) && !IsClose(c) && c != ','
  {
    var s := "[]{},";
    assert s[0] == '[' && s[1] == ']' && s[2] == '{' && s[3] == '}' && s[4] == ',';
  }

  /** A label key as the source writes it: plain characters, no white space. */
  predicate KeyOk(key: string) {
    && key != "" && key[0] != '#' && OneLine(key)
    && forall i :: 0 <= i < |key| ==> !IsSpace(key[i]) && key[i] != '\'' && key[i] != '"'
  }

  lemma {:induction false} KeyCloses(key: string, rest: string, afterSpace: bool)
    requires forall i :: 0 <= i < |key| ==> !IsSpace(key[i]) && key[i] != '\'' && key[i] != '"'
    requires key != "" && afterSpace ==> key[0] != '#'
    requires rest != "" && rest[0] == '#' ==> key != ""
    ensures QuotesClosed(key + rest, Outside, afterSpace)
         == QuotesClosed(rest, Outside, if key == "" then afterSpace else false)
  {
    if key == "" {
      assert key + rest == rest;
    } else {
      assert key == [key[0]] + key[1..];
      CutOne(key[0], key[1..], rest);
      assert forall i :: 0 <= i < |key[1..]| ==> key[1..][i] == key[i + 1];
      if key[1..] == "" {
        assert key[1..] + rest == rest;
      } else {
        KeyCloses(key[1..], rest, false);
      }
    }
  }

  lemma ColonCloses(value: string)
    ensures QuotesClosed(": " + value, Outside, false) == QuotesClosed(value, Outside, true)
  {
    hide Unsafe;
    CutColon(value);
    PlainCharacter(": " + value, ':');
    PlainCharacter(" " + value, ' ');
  }

  lemma CutColon(value: string)
    ensures var text := ": " + value; text[0] == ':' && text[1..] == " " + value && (" " + value)[1..] == value
  {
  }

  lemma PlainCharacter(text: string, c: char)
    requires text != "" && text[0] == c && (c == ':' || c == ' ')
    ensures QuotesClosed(text, Outside, false) == QuotesClosed(text[1..], Outside, c == ' ')
  {
  }

  lemma QuotedIsEntry(value: string)
    requires Unsafe(value, true) && !HasLineBreak(value)
    ensures EntryOk([Single(value)]) && Render([Single(value)]) == RenderYamlScalarLike("", value, true).value
  {
    QuotedIsOnePiece("", value, true);
    OnePieceText(Single(value));
    assert [Single(value)][1..] == [];
  }

  lemma ColonOk()
    ensures Render([Plain(':'), Space(' ')]) == ": " && ItemsOk([Plain(':'), Space(' ')], false)
  {
    assert [Plain(':'), Space(' ')][1..] == [Space(' ')] && [Space(' ')][1..] == [];
    assert Render([Space(' ')]) == " ";
  }

  lemma KeyReads(key: string) returns (items: seq<Piece>)
    requires KeyOk(key)
    ensures Reads(items, key, true)
  {
    KeyCloses(key, "", true);
    assert key + "" == key;
    items := ClosedReads(key, true);
  }

  lemma QuotedMapping(key: string, value: string)
    requires KeyOk(key) && Unsafe(value, true) && !HasLineBreak(value)
    ensures EntryText(key + ": " + RenderYamlScalarLike("", value, true).value)
  {
    hide ItemsOk, PieceOk, Render, Unsafe, RenderYamlScalarLike, OneLine;
    var k := KeyReads(key);
    var colon, v := [Plain(':'), Space(' ')], [Single(value)];
    ColonOk();
    QuotedIsEntry(value);
    RenderConcat(k, colon);
    RenderConcat(k + colon, v);
    ItemsOkConcat(k, colon, true);
    ItemsOkConcat(k + colon, v, true);
    assert EntryOk(k + colon + v);
  }

  /** When a rendered `key: value` is one entry of a flow mapping, exactly. */
  lemma MappingEntryIff(key: string, value: string)
    requires KeyOk(key) && !HasLineBreak(value)
    ensures EntryText(key + ": " + RenderYamlScalarLike("", value, true).value) <==>
            Unsafe(value, true)
            || (value != "" && !IsSpace(value[|value| - 1]) && QuotesClosed(value, Outside, true))
  {
    if Unsafe(value, true) {
      QuotedMapping(key, value);
    } else {
      var text := key + ": " + value;
      PlainIsOneLine(value);
      hide Unsafe, HasLineBreak;
      ColonIsOneLine();
      OneLineSplit(key + ": ", value);
      OneLineSplit(key, ": ");
      EntryTextIff(text);
      Associative(key, ": ", value);
      KeyCloses(key, ": " + value, true);
      ColonCloses(value);
      hide EntryText, QuotesClosed, OneLine;
      if value == "" {
        assert text[|text| - 1] == ' ';
      } else {
        assert text[|text| - 1] == value[|value| - 1];
      }
    }
  }

  lemma ColonIsOneLine()
    ensures OneLine(": ")
  {
  }

  /** When a rendered `key=value` is one entry of a flow sequence, exactly. */
  lemma SequenceEntryIff(value: string)
    requires !HasLineBreak(value)
    ensures EntryText(RenderYamlScalarLike("", value, true).value) <==>
            Unsafe(value, true)
            || (value != "" && !IsSpace(value[0]) && !IsSpace(value[|value| - 1])
                && QuotesClosed(value, Outside, true))
  {
    if Unsafe(value, true) {
      QuotedIsEntry(value);
    } else {
      PlainIsOneLine(value);
      EntryTextIff(value);
    }
  }

  /** The quote in a plain `a'b` stays open: neither form is an entry, though both are written. */
  lemma LoneQuoteDoesNotFit()
    ensures RenderYamlScalarLike("", "a'b", true) == Ok("a'b")
    ensures !EntryText("a'b") && !EntryText("k: " + "a'b")
  {
    hide Unsafe, QuotesClosed;
    SafeText();
    OpenQuote();
    SequenceEntryIff("a'b");
    MappingEntryIff("k", "a'b");
    assert "k" + ": " == "k: ";
  }

  lemma SafeText()
    ensures !Unsafe("a'b", true) && !HasLineBreak("a'b")
  {
    var value := "a'b";
    assert forall i :: 0 <= i < |value| ==> value[i] == 'a' || value[i] == '\'' || value[i] == 'b';
  }

  lemma OpenQuote()
    ensures !QuotesClosed("a'b", Outside, true)
  {
    var text := "a'b";
    assert text[1..] == "'b" && "'b"[1..] == "b" && "b"[1..] == "";
    assert !QuotesClosed("b", InSingle, false);
    assert !QuotesClosed("'b", Outside, false);
  }
}
