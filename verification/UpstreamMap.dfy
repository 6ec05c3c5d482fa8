/**
 The upstream map file: reading and rendering it, merging a source scan into it, and the check
 that it is current.
 */
module UpstreamMap {
  import opened Ordering
  import opened TextTail
  import FlowScanner

  datatype MapEntry = MapEntry(key: string, value: string, comments: seq<string>) {
    predicate IsOverride() {
      comments != []
    }
  }

  datatype SourceScan = SourceScan(seen: set<string>, entries: map<string, string>)

  // ---------- Lines ----------

  predicate IsNameChar(c: char) {
    'A' <= c <= 'Z' || 'a' <= c <= 'z' || '0' <= c <= '9' || c == '.' || c == '_' || c == '-'
  }

  predicate IsName(s: string) {
    s != "" && forall i :: 0 <= i < |s| ==> IsNameChar(s[i])
  }

  const KEY_PREFIX := "linuxserver/docker-"

  predicate IsKey(s: string) {
    KEY_PREFIX <= s && IsName(s[|KEY_PREFIX|..])
  }

  function IndexOf(c: char, s: string): (n: nat)
    ensures n <= |s| && (n < |s| ==> s[n] == c)
    ensures forall i :: 0 <= i < n ==> s[i] != c
  {
    if s == "" || s[0] == c then 0 else 1 + IndexOf(c, s[1..])
  }

  /** `Owner/Repo` */
  predicate IsValue(s: string) {
    var k := IndexOf('/', s);
    k < |s| && IsName(s[..k]) && IsName(s[k + 1..])
  }

  /** The key and value of an entry line, if it is one. */
  function ParseEntry(line: string): Option<(string, string)> {
    var k := IndexOf(':', line);
    if k + 1 < |line| && line[k + 1] == ' ' && IsKey(line[..k]) && IsValue(line[k + 2..]) then
      Some((line[..k], line[k + 2..]))
    else None
  }

  function Strip(line: string): (s: string)
    ensures s <= line && (s != "" ==> !FlowScanner.IsSpace(s[|s| - 1]))
  {
    if line != "" && FlowScanner.IsSpace(line[|line| - 1]) then Strip(line[..|line| - 1]) else line
  }

  predicate IsComment(line: string) {
    line != "" && line[0] == '#'
  }

  function EntryLine(e: MapEntry): string {
    e.key + ": " + e.value
  }

  // ---------- Reading ----------

  /** The entries, and the comments that wait for one, line by line. */
  function ReadLines(lines: seq<string>, entries: map<string, MapEntry>, pending: seq<string>)
    : Result<map<string, MapEntry>, string>
    decreases |lines|, 1
  {
    if lines == [] then Ok(entries) else AfterLine(Strip(lines[0]), lines[1..], entries, pending)
  }

  function AfterLine(line: string, rest: seq<string>, entries: map<string, MapEntry>, pending: seq<string>)
    : Result<map<string, MapEntry>, string>
    decreases |rest| + 1, 0
  {
    if line == "" then ReadLines(rest, entries, [])
    else if IsComment(line) then ReadLines(rest, entries, pending + [line])
    else
      var parsed := ParseEntry(line);
      if parsed.None? then Raise("invalid upstream map line")
      else
        var (key, value) := parsed.value;
        ReadLines(rest, entries[key := MapEntry(key, value, pending)], [])
  }

  /** `str.splitlines`, without the line breaks. */
  function PlainLines(text: string): seq<string>
    decreases |text|
  {
    if text == "" then []
    else
      var n := LineLength(text);
      [WithoutBreak(text[..n])] + PlainLines(text[n..])
  }

  function WithoutBreak(line: string): string {
    if line != "" && IsLineBreak(line[|line| - 1]) then WithoutBreak(line[..|line| - 1]) else line
  }

  function ReadMap(text: string): Result<map<string, MapEntry>, string> {
    ReadLines(PlainLines(text), map[], [])
  }

  method ReadMapFile(text: string) returns (r: Result<map<string, MapEntry>, string>)
    ensures r == ReadMap(text)
  {
    r := ReadMapLines(PlainLines(text));
  }

  /** The loop over the lines. */
  method ReadMapLines(lines: seq<string>) returns (r: Result<map<string, MapEntry>, string>)
    ensures r == ReadLines(lines, map[], [])
  {
    hide ReadLines, Strip, ParseEntry, IsComment;
    var entries: map<string, MapEntry> := map[];
    var pending: seq<string> := [];
    var n := 0;
    assert lines[0..] == lines;
    while n < |lines|
      invariant n <= |lines| && ReadLines(lines[n..], entries, pending) == ReadLines(lines, map[], [])
    {
      var line := Strip(lines[n]);
      ReadAt(lines, n, entries, pending);
      if line == "" {
        pending := [];
      } else if IsComment(line) {
        pending := pending + [line];
      } else {
        var parsed := ParseEntry(line);
        if parsed.None? {
          return Raise("invalid upstream map line");
        }
        entries := entries[parsed.value.0 := MapEntry(parsed.value.0, parsed.value.1, pending)];
        pending := [];
      }
      n := n + 1;
    }
    ReadNothing(entries, pending);
    assert lines[n..] == [];
    return Ok(entries);
  }

  lemma ReadNothing(entries: map<string, MapEntry>, pending: seq<string>)
    ensures ReadLines([], entries, pending) == Ok(entries)
  {
  }

  lemma ReadAt(lines: seq<string>, n: nat, entries: map<string, MapEntry>, pending: seq<string>)
    requires n < |lines|
    ensures ReadLines(lines[n..], entries, pending) == AfterLine(Strip(lines[n]), lines[n + 1..], entries, pending)
  {
    hide Strip, ParseEntry, IsComment;
    assert lines[n..][0] == lines[n] && lines[n..][1..] == lines[n + 1..];
  }

  // ---------- Rendering ----------

  const HEADER_PATH := "# /wud/" + "upstreams.txt"
  const HEADER_FORMAT := "# Format: " + "linuxserver/" + "docker-<image>" + ": <Owner>" + "/<Repo>"
  const HEADER_ORDER := "# Keep " + "entries " + "sorted by " + "the " + "linuxserver/" + "docker-* key."
  const HEADER := [HEADER_PATH, HEADER_FORMAT, HEADER_ORDER]

  function EntryLines(entries: map<string, MapEntry>, keys: seq<string>): seq<string>
    requires forall k :: k in keys ==> k in entries
  {
    if keys == [] then [] else entries[keys[0]].comments + [EntryLine(entries[keys[0]])] + EntryLines(entries, keys[1..])
  }

  function JoinLines(lines: seq<string>): string {
    if lines == [] then "" else lines[0] + "\n" + JoinLines(lines[1..])
  }

  ghost function SortedKeys(keys: set<string>): (s: seq<string>)
    ensures Increasing(s) && Elements(s) == keys
  {
    if keys == {} then [] else
      assert exists x :: IsLeast(x, keys) by {
        var x := LeastExists(keys);
      }
      var x :| IsLeast(x, keys);
      var rest := SortedKeys(keys - {x});
      LeastFirst(x, keys, rest);
      [x] + rest
  }

  lemma LeastFirst(x: string, keys: set<string>, rest: seq<string>)
    requires IsLeast(x, keys) && Increasing(rest) && Elements(rest) == keys - {x}
    ensures Increasing([x] + rest) && Elements([x] + rest) == keys
  {
    forall i | 0 <= i < |rest| ensures Less(x, rest[i]) {
      assert rest[i] in Elements(rest);
    }
    var all := [x] + rest;
    forall y ensures y in all <==> y in keys {
      assert y in rest <==> y in Elements(rest);
    }
    assert Elements(all) == keys;
    forall i, j | 0 <= i < j < |all| ensures Less(all[i], all[j]) {
      assert all[j] == rest[j - 1] && (i > 0 ==> all[i] == rest[i - 1]);
    }
  }

  ghost function RenderMap(entries: map<string, MapEntry>): string {
    JoinLines(HEADER + [""] + EntryLines(entries, SortedKeys(entries.Keys)))
  }

  /** The loop over the sorted keys. */
  method RenderMapFile(entries: map<string, MapEntry>, keys: seq<string>) returns (text: string)
    requires Increasing(keys) && Elements(keys) == entries.Keys
    ensures text == RenderMap(entries)
  {
    IncreasingUnique(keys, SortedKeys(entries.Keys));
    assert forall k :: k in keys ==> k in Elements(keys);
    var lines := HEADER + [""];
    for n := 0 to |keys|
      invariant lines + EntryLines(entries, keys[n..]) == HEADER + [""] + EntryLines(entries, keys)
    {
      assert keys[n..][1..] == keys[n + 1..];
      assert keys[n] in keys;
      Regroup(lines, entries[keys[n]].comments, [EntryLine(entries[keys[n]])], EntryLines(entries, keys[n + 1..]));
      lines := lines + entries[keys[n]].comments + [EntryLine(entries[keys[n]])];
    }
    assert EntryLines(entries, keys[|keys|..]) == [];
    assert lines + [] == lines;
    text := JoinLines(lines);
  }

  lemma Regroup(a: seq<string>, b: seq<string>, c: seq<string>, d: seq<string>)
    ensures a + (b + c + d) == a + b + c + d
  {
  }

  // ---------- Reading what was rendered ----------

  predicate CommentOk(line: string) {
    IsComment(line) && !FlowScanner.IsSpace(line[|line| - 1]) && forall i :: 0 <= i < |line| ==> !IsLineBreak(line[i])
  }

  predicate EntryOk(key: string, e: MapEntry) {
    e.key == key && IsKey(e.key) && IsValue(e.value) && forall c :: c in e.comments ==> CommentOk(c)
  }

  ghost predicate WellFormed(entries: map<string, MapEntry>) {
    forall key :: key in entries ==> EntryOk(key, entries[key])
  }

  predicate LineOk(line: string) {
    (line != "" ==> !FlowScanner.IsSpace(line[|line| - 1])) && forall i :: 0 <= i < |line| ==> !IsLineBreak(line[i])
  }

  lemma {:induction false} LineLengthOf(line: string, rest: string)
    requires forall i :: 0 <= i < |line| ==> !IsLineBreak(line[i])
    ensures LineLength(line + "\n" + rest) == |line| + 1
    decreases |line|
  {
    var s := line + "\n" + rest;
    if line != "" {
      LineLengthOf(line[1..], rest);
      assert s[1..] == line[1..] + "\n" + rest;
      assert !IsLineBreak(s[0]);
    }
  }

  predicate NoBreaks(line: string) {
    forall i :: 0 <= i < |line| ==> !IsLineBreak(line[i])
  }

  lemma {:induction false} LinesOfJoined(lines: seq<string>)
    requires forall l :: l in lines ==> NoBreaks(l)
    ensures PlainLines(JoinLines(lines)) == lines
    decreases |lines|
  {
    if lines != [] {
      var line, rest := lines[0], JoinLines(lines[1..]);
      assert NoBreaks(line);
      LinesOfJoined(lines[1..]);
      LineLengthOf(line, rest);
      var s := line + "\n" + rest;
      assert s[..|line| + 1] == line + "\n" && s[|line| + 1..] == rest;
      BreakGoes(line);
    }
  }

  lemma BreakGoes(line: string)
    requires NoBreaks(line)
    ensures WithoutBreak(line + "\n") == line
  {
    assert (line + "\n")[..|line|] == line;
  }

  lemma NameCharPlain(c: char)
    requires IsNameChar(c) || c == '/' || c == ':' || c == ' '
    ensures !IsLineBreak(c) && (c != ' ' ==> !FlowScanner.IsSpace(c)) && c != '#'
  {
  }

  lemma ValueCharacters(value: string)
    requires IsValue(value)
    ensures value != "" && forall i :: 0 <= i < |value| ==> IsNameChar(value[i]) || value[i] == '/'
  {
    var k := IndexOf('/', value);
    forall i | 0 <= i < |value| ensures IsNameChar(value[i]) || value[i] == '/' {
      if i < k {
        assert value[i] == value[..k][i];
      } else if i > k {
        assert value[i] == value[k + 1..][i - k - 1];
      }
    }
  }

  lemma KeyCharacters(key: string)
    requires IsKey(key)
    ensures |key| > |KEY_PREFIX| && key[0] == 'l'
    ensures forall i :: 0 <= i < |key| ==> IsNameChar(key[i]) || key[i] == '/'
  {
    PrefixCharacters();
    forall i | 0 <= i < |key| ensures IsNameChar(key[i]) || key[i] == '/' {
      if i >= |KEY_PREFIX| {
        assert key[i] == key[|KEY_PREFIX|..][i - |KEY_PREFIX|];
      } else {
        assert key[i] == KEY_PREFIX[i];
      }
    }
  }

  lemma PrefixCharacters()
    ensures forall i :: 0 <= i < |KEY_PREFIX| ==> IsNameChar(KEY_PREFIX[i]) || KEY_PREFIX[i] == '/'
  {
    assert "linuxserver" + "/" + "docker-" == KEY_PREFIX;
    assert IsName("linuxserver") && IsName("docker-");
  }

  lemma IndexOfFirst(c: char, a: string, b: string)
    requires forall i :: 0 <= i < |a| ==> a[i] != c
    ensures IndexOf(c, a + [c] + b) == |a|
  {
    var s := a + [c] + b;
    var n := IndexOf(c, s);
    assert s[|a|] == c;
    assert forall i :: 0 <= i < |a| ==> s[i] == a[i];
  }

  /** A rendered entry line is read as its key and value. */
  lemma EntryLineParses(key: string, value: string)
    requires IsKey(key) && IsValue(value)
    ensures ParseEntry(key + ": " + value) == Some((key, value))
    ensures LineOk(key + ": " + value) && !IsComment(key + ": " + value) && key + ": " + value != ""
  {
    var line := key + ": " + value;
    KeyCharacters(key);
    ValueCharacters(value);
    assert line == key + ":" + (" " + value);
    IndexOfFirst(':', key, " " + value);
    assert line[..|key|] == key && line[|key| + 2..] == value;
    assert line[0] == key[0];
    forall i | 0 <= i < |line| ensures !IsLineBreak(line[i]) {
      if i < |key| {
        assert line[i] == key[i];
      } else if i >= |key| + 2 {
        assert line[i] == value[i - |key| - 2];
      }
      NameCharPlain(line[i]);
    }
    assert line[|line| - 1] == value[|value| - 1];
    NameCharPlain(line[|line| - 1]);
  }

  lemma StripOk(line: string)
    requires LineOk(line)
    ensures Strip(line) == line
  {
  }

  lemma {:induction false} ReadComments(comments: seq<string>, rest: seq<string>, entries: map<string, MapEntry>,
                                        pending: seq<string>)
    requires forall c :: c in comments ==> CommentOk(c)
    ensures ReadLines(comments + rest, entries, pending) == ReadLines(rest, entries, pending + comments)
    decreases |comments|
  {
    if comments == [] {
      assert comments + rest == rest && pending + comments == pending;
    } else {
      var first, others := comments[0], comments[1..];
      assert CommentOk(first);
      ReadComment(first, others + rest, entries, pending);
      ReadComments(others, rest, entries, pending + [first]);
      hide ReadLines, CommentOk;
      assert comments + rest == [first] + (others + rest);
      assert pending + [first] + others == pending + comments;
    }
  }

  lemma ReadComment(comment: string, rest: seq<string>, entries: map<string, MapEntry>, pending: seq<string>)
    requires CommentOk(comment)
    ensures ReadLines([comment] + rest, entries, pending) == ReadLines(rest, entries, pending + [comment])
  {
    hide Strip, ParseEntry;
    StripOk(comment);
    assert ([comment] + rest)[1..] == rest;
  }

  lemma ReadEntry(e: MapEntry, rest: seq<string>, entries: map<string, MapEntry>)
    requires EntryOk(e.key, e)
    ensures ReadLines(e.comments + [EntryLine(e)] + rest, entries, []) == ReadLines(rest, entries[e.key := e], [])
  {
    var line := EntryLine(e);
    ReadComments(e.comments, [line] + rest, entries, []);
    assert e.comments + [line] + rest == e.comments + ([line] + rest);
    assert [] + e.comments == e.comments;
    EntryLineParses(e.key, e.value);
    StripOk(line);
    assert ([line] + rest)[1..] == rest;
  }

  lemma {:induction false} ReadEntries(entries: map<string, MapEntry>, keys: seq<string>, done: map<string, MapEntry>)
    requires WellFormed(entries) && forall k :: k in keys ==> k in entries
    requires forall k :: k in done ==> k in entries && done[k] == entries[k]
    requires forall k :: k in entries ==> k in done || k in keys
    ensures ReadLines(EntryLines(entries, keys), done, []) == Ok(entries)
    decreases |keys|
  {
    if keys == [] {
      assert done == entries;
    } else {
      var e := entries[keys[0]];
      assert EntryOk(keys[0], e);
      ReadEntry(e, EntryLines(entries, keys[1..]), done);
      ReadEntries(entries, keys[1..], done[e.key := e]);
    }
  }

  lemma {:induction false} EntryLinesOk(entries: map<string, MapEntry>, keys: seq<string>)
    requires WellFormed(entries) && forall k :: k in keys ==> k in entries
    ensures forall l :: l in EntryLines(entries, keys) ==> LineOk(l)
    decreases |keys|
  {
    if keys != [] {
      var e := entries[keys[0]];
      assert EntryOk(keys[0], e);
      EntryLinesOk(entries, keys[1..]);
      EntryLineParses(e.key, e.value);
    }
  }

  lemma HeaderOk()
    ensures forall l :: l in HEADER ==> CommentOk(l) && LineOk(l)
  {
    hide CommentOk, LineOk;
    HeaderPathOk();
    HeaderFormatOk();
    HeaderOrderOk();
  }

  lemma HeaderPathOk()
    ensures CommentOk(HEADER_PATH) && LineOk(HEADER_PATH)
  {
    assert Printable("# /wud/") && Printable("upstreams.txt");
    HeaderLine("# /wud/", "upstreams.txt");
  }

  lemma HeaderFormatOk()
    ensures CommentOk(HEADER_FORMAT) && LineOk(HEADER_FORMAT)
  {
    assert Printable("# Format: ") && Printable("linuxserver/") && Printable("docker-<image>");
    assert Printable(": <Owner>") && Printable("/<Repo>");
    HeaderLine("# Format: " + "linuxserver/" + "docker-<image>" + ": <Owner>", "/<Repo>");
  }

  lemma HeaderOrderOk()
    ensures CommentOk(HEADER_ORDER) && LineOk(HEADER_ORDER)
  {
    assert Printable("# Keep ") && Printable("entries ") && Printable("sorted by ") && Printable("the ");
    assert Printable("linuxserver/") && Printable("docker-* key.");
    HeaderLine("# Keep " + "entries " + "sorted by " + "the " + "linuxserver/", "docker-* key.");
  }

  predicate Printable(s: string) {
    forall i :: 0 <= i < |s| ==> ' ' <= s[i] <= '~'
  }

  lemma HeaderLine(a: string, b: string)
    requires a != "" && a[0] == '#' && b != "" && !FlowScanner.IsSpace(b[|b| - 1])
    requires Printable(a) && Printable(b)
    ensures CommentOk(a + b) && LineOk(a + b)
  {
    var line := a + b;
    forall i | 0 <= i < |line| ensures !IsLineBreak(line[i]) {
      assert ' ' <= line[i] <= '~';
    }
  }

  lemma RenderedLines(entries: map<string, MapEntry>)
    requires WellFormed(entries)
    ensures ReadMap(RenderMap(entries)) == Ok(entries)
  {
    var keys := SortedKeys(entries.Keys);
    assert forall k :: k in keys <==> k in Elements(keys);
    var body := EntryLines(entries, keys);
    HeaderOk();
    EntryLinesOk(entries, keys);
    ReadEntries(entries, keys, map[]);
    HeaderIsSkipped(HEADER, body);
    hide EntryLines, ReadLines, HEADER, LineOk, WellFormed;
    assert LineOk("") by { EmptyLineOk(); }
    LinesOfJoined(HEADER + [""] + body);
  }

  lemma EmptyLineOk()
    ensures LineOk("")
  {
  }

  lemma HeaderIsSkipped(header: seq<string>, body: seq<string>)
    requires forall c :: c in header ==> CommentOk(c)
    ensures ReadLines(header + [""] + body, map[], []) == ReadLines(body, map[], [])
  {
    ReadComments(header, [""] + body, map[], []);
    assert header + [""] + body == header + ([""] + body);
    assert ([""] + body)[1..] == body;
    StripOk("");
  }

  // ---------- Everything read is well formed ----------

  lemma StripKeeps(line: string)
    requires forall i :: 0 <= i < |line| ==> !IsLineBreak(line[i])
    ensures LineOk(Strip(line))
  {
  }

  lemma ParsedIsOk(line: string)
    requires ParseEntry(line).Some?
    ensures IsKey(ParseEntry(line).value.0) && IsValue(ParseEntry(line).value.1)
  {
  }

  lemma {:induction false} ReadIsWellFormed(lines: seq<string>, entries: map<string, MapEntry>, pending: seq<string>)
    requires forall l :: l in lines ==> forall i :: 0 <= i < |l| ==> !IsLineBreak(l[i])
    requires WellFormed(entries) && forall c :: c in pending ==> CommentOk(c)
    ensures ReadLines(lines, entries, pending).Ok? ==> WellFormed(ReadLines(lines, entries, pending).value)
    decreases |lines|
  {
    if lines != [] {
      var line := Strip(lines[0]);
      assert lines[0] in lines;
      StripKeeps(lines[0]);
      assert ReadLines(lines, entries, pending) == AfterLine(line, lines[1..], entries, pending);
      hide ReadLines, ParseEntry, IsKey, IsValue, Strip, WellFormed, LineOk, CommentOk;
      if line == "" {
        ReadIsWellFormed(lines[1..], entries, []);
      } else if IsComment(line) {
        CommentIsOk(line);
        ReadIsWellFormed(lines[1..], entries, pending + [line]);
      } else if ParseEntry(line).Some? {
        var (key, value) := ParseEntry(line).value;
        AddedIsOk(entries, line, pending);
        ReadIsWellFormed(lines[1..], entries[key := MapEntry(key, value, pending)], []);
      }
    }
  }

  lemma CommentIsOk(line: string)
    requires LineOk(line) && IsComment(line)
    ensures CommentOk(line)
  {
  }

  lemma AddedIsOk(entries: map<string, MapEntry>, line: string, pending: seq<string>)
    requires WellFormed(entries) && ParseEntry(line).Some? && forall c :: c in pending ==> CommentOk(c)
    ensures var (key, value) := ParseEntry(line).value; WellFormed(entries[key := MapEntry(key, value, pending)])
  {
    hide ParseEntry, IsKey, IsValue, CommentOk;
    ParsedIsOk(line);
  }

  lemma {:induction false} WithoutBreakHasNone(line: string)
    requires LineLength(line) == |line|
    ensures forall i :: 0 <= i < |WithoutBreak(line)| ==> !IsLineBreak(WithoutBreak(line)[i])
  {
    if line != "" {
      BreakOnlyAtEnd(line);
      if IsLineBreak(line[|line| - 1]) {
        var rest := line[..|line| - 1];
        assert WithoutBreak(line) == WithoutBreak(rest);
        if rest != "" && IsLineBreak(rest[|rest| - 1]) {
          assert WithoutBreak(rest) == WithoutBreak(rest[..|rest| - 1]);
        }
      }
    }
  }

  /** In one line only its last character is a line break, or its last two are CR and LF. */
  lemma {:induction false} BreakOnlyAtEnd(line: string)
    requires line != "" && LineLength(line) == |line|
    ensures forall i :: 0 <= i < |line| - 2 ==> !IsLineBreak(line[i])
    ensures |line| >= 2 && IsLineBreak(line[|line| - 2]) ==> line[|line| - 2] == '\r' && line[|line| - 1] == '\n'
  {
    if !IsLineBreak(line[0]) && |line| > 1 {
      BreakOnlyAtEnd(line[1..]);
      forall i | 0 <= i < |line| - 2 ensures !IsLineBreak(line[i]) {
        if i > 0 {
          assert line[i] == line[1..][i - 1];
        }
      }
    }
  }

  lemma {:induction false} PlainLinesHaveNoBreaks(text: string)
    ensures forall l :: l in PlainLines(text) ==> forall i :: 0 <= i < |l| ==> !IsLineBreak(l[i])
    decreases |text|
  {
    if text != "" {
      var n := LineLength(text);
      PlainLinesHaveNoBreaks(text[n..]);
      LineLengthOfFirst(text);
      WithoutBreakHasNone(text[..n]);
    }
  }

  lemma {:induction false} LineLengthOfFirst(text: string)
    ensures LineLength(text[..LineLength(text)]) == LineLength(text)
  {
    var n := LineLength(text);
    if text != "" && !(text[0] == '\r' && |text| > 1 && text[1] == '\n') && !IsLineBreak(text[0]) {
      LineLengthOfFirst(text[1..]);
      assert text[..n][1..] == text[1..][..n - 1];
    }
  }

  lemma WellFormedWhenRead(text: string)
    ensures ReadMap(text).Ok? ==> WellFormed(ReadMap(text).value)
  {
    PlainLinesHaveNoBreaks(text);
    ReadIsWellFormed(PlainLines(text), map[], []);
  }

  /** Reading a rendered map gives the entries back if and only if they are well formed. */
  lemma RoundTripIff(entries: map<string, MapEntry>)
    ensures ReadMap(RenderMap(entries)) == Ok(entries) <==> WellFormed(entries)
  {
    if WellFormed(entries) {
      RenderedLines(entries);
    }
    WellFormedWhenRead(RenderMap(entries));
  }

  // ---------- Merging a scan ----------

  /** Which keys are kept or added, and with what. */
  predicate IsBuilt(current: map<string, MapEntry>, source: SourceScan, key: string) {
    key in source.entries || (key in current && (current[key].IsOverride() || key in source.seen))
  }

  function BuiltEntry(current: map<string, MapEntry>, source: SourceScan, key: string): MapEntry
    requires IsBuilt(current, source, key)
  {
    if key in current && (key !in source.entries || current[key].IsOverride()) then current[key]
    else MapEntry(key, source.entries[key], [])
  }

  function Built(current: map<string, MapEntry>, source: SourceScan): (r: map<string, MapEntry>)
    ensures forall key :: key in r <==> IsBuilt(current, source, key)
    ensures forall key :: key in r ==> r[key] == BuiltEntry(current, source, key)
  {
    map key | key in source.entries.Keys + current.Keys && IsBuilt(current, source, key) ::
      BuiltEntry(current, source, key)
  }

  method BuildOutputEntries(current: map<string, MapEntry>, source: SourceScan)
    returns (entries: map<string, MapEntry>)
    ensures entries == Built(current, source)
    ensures forall key :: key in entries <==>
              key in source.entries || (key in current && (current[key].comments != [] || key in source.seen))
    ensures forall key :: key in entries ==>
              entries[key] == if key in current && (key !in source.entries || current[key].comments != []) then current[key]
                              else MapEntry(key, source.entries[key], [])
  {
    var scanned := ScannedEntries(current, source);
    entries := WithKeptEntries(current, source, scanned);
    EqualsBuilt(current, source, entries);
  }

  /** The loop over the scanned entries. */
  method ScannedEntries(current: map<string, MapEntry>, source: SourceScan)
    returns (entries: map<string, MapEntry>)
    ensures entries.Keys == source.entries.Keys
    ensures forall key :: key in entries ==> entries[key] == BuiltEntry(current, source, key)
  {
    entries := map[];
    var todo := source.entries.Keys;
    while todo != {}
      invariant todo <= source.entries.Keys && entries.Keys == source.entries.Keys - todo
      invariant forall key :: key in entries ==> entries[key] == BuiltEntry(current, source, key)
      decreases |todo|
    {
      var key :| key in todo;
      var entry := if key in current && current[key].IsOverride() then current[key]
                   else MapEntry(key, source.entries[key], []);
      assert entry == BuiltEntry(current, source, key);
      entries := entries[key := entry];
      todo := todo - {key};
    }
  }

  /** The loop over the current entries. */
  method WithKeptEntries(current: map<string, MapEntry>, source: SourceScan, scanned: map<string, MapEntry>)
    returns (entries: map<string, MapEntry>)
    requires scanned.Keys == source.entries.Keys
    requires forall key :: key in scanned ==> scanned[key] == BuiltEntry(current, source, key)
    ensures forall key :: key in entries <==> IsBuilt(current, source, key)
    ensures forall key :: key in entries ==> entries[key] == BuiltEntry(current, source, key)
  {
    entries := scanned;
    var rest := current.Keys;
    while rest != {}
      invariant rest <= current.Keys
      invariant forall key :: key in entries ==>
                  IsBuilt(current, source, key) && entries[key] == BuiltEntry(current, source, key)
      invariant forall key :: IsBuilt(current, source, key) && key !in entries ==> key in rest
      invariant forall key :: key in source.entries ==> key in entries
      decreases |rest|
    {
      var key :| key in rest;
      if key !in entries && (current[key].IsOverride() || key in source.seen) {
        assert IsBuilt(current, source, key) && BuiltEntry(current, source, key) == current[key];
        entries := entries[key := current[key]];
      }
      rest := rest - {key};
    }
  }

  lemma EqualsBuilt(current: map<string, MapEntry>, source: SourceScan, entries: map<string, MapEntry>)
    requires forall key :: key in entries <==> IsBuilt(current, source, key)
    requires forall key :: key in entries ==> entries[key] == BuiltEntry(current, source, key)
    ensures entries == Built(current, source)
  {
    hide Built, BuiltEntry, IsBuilt;
    var built := Built(current, source);
    assert entries.Keys == built.Keys;
  }

  /** The keys that the check reports. */
  datatype Drift = Drift(missing: set<string>, changed: set<string>, removed: set<string>)

  function CompareEntries(current: map<string, MapEntry>, source: SourceScan): Drift {
    Drift(set key | key in source.entries && key !in current,
          set key | key in source.entries && key in current && !current[key].IsOverride()
                    && current[key].value != source.entries[key],
          set key | key in current && key !in source.seen && !current[key].IsOverride())
  }

  const NO_DRIFT := Drift({}, {}, {})

  ghost predicate ScanOk(source: SourceScan) {
    forall key :: key in source.entries ==> IsKey(key) && IsValue(source.entries[key])
  }

  lemma BuiltIsWellFormed(current: map<string, MapEntry>, source: SourceScan)
    requires WellFormed(current) && ScanOk(source)
    ensures WellFormed(Built(current, source))
  {
    forall key | key in Built(current, source) ensures EntryOk(key, Built(current, source)[key]) {
      if key in current {
        assert EntryOk(key, current[key]);
      }
    }
  }

  /** Writing again from what was written changes nothing, byte for byte, while the scan stays the same. */
  lemma WriteIsFixedPoint(current: map<string, MapEntry>, source: SourceScan)
    requires WellFormed(current) && ScanOk(source)
    ensures var text := RenderMap(Built(current, source));
            && ReadMap(text) == Ok(Built(current, source))
            && Built(ReadMap(text).value, source) == Built(current, source)
            && RenderMap(Built(ReadMap(text).value, source)) == text
  {
    hide Built, RenderMap, ReadMap;
    var built := Built(current, source);
    BuiltIsWellFormed(current, source);
    RoundTripIff(built);
    BuiltTwice(current, source);
  }

  lemma BuiltTwice(current: map<string, MapEntry>, source: SourceScan)
    ensures Built(Built(current, source), source) == Built(current, source)
  {
    hide Built;
    var once := Built(current, source);
    var twice := Built(once, source);
    forall key ensures key in twice <==> key in once {}
    assert twice.Keys == once.Keys;
  }

  /** A map that was just written is current if and only if every scanned key that is not overridden was seen. */
  lemma CheckAfterWriteIff(current: map<string, MapEntry>, source: SourceScan)
    requires WellFormed(current) && ScanOk(source)
    ensures var text := RenderMap(Built(current, source));
            ReadMap(text).Ok? &&
            (CompareEntries(ReadMap(text).value, source) == NO_DRIFT <==>
             forall key :: key in source.entries && !(key in current && current[key].IsOverride()) ==> key in source.seen)
  {
    var built := Built(current, source);
    WriteIsFixedPoint(current, source);
    var drift := CompareEntries(built, source);
    assert drift.missing == {} && drift.changed == {};
    if drift.removed == {} {
      forall key | key in source.entries && !(key in current && current[key].IsOverride()) ensures key in source.seen {
        assert key !in drift.removed;
      }
    }
  }

  /** Overrides are kept as they are, with their comments, whatever the scan says. */
  lemma OverridesAreKept(current: map<string, MapEntry>, source: SourceScan, key: string)
    requires WellFormed(current) && ScanOk(source) && key in current && current[key].IsOverride()
    ensures ReadMap(RenderMap(Built(current, source))).Ok?
    ensures var after := ReadMap(RenderMap(Built(current, source))).value; key in after && after[key] == current[key]
  {
    WriteIsFixedPoint(current, source);
  }
}
