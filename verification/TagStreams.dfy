/**
 Tag streams: splitting a tag into a strict version and a suffix, and the anchored include
 patterns that keep a service on the tags of one stream or of one shape.
 */
module TagStreams {
  import opened Ordering
  import opened Regex
  import opened TagTokens
  import opened TagScanning

  // ---------- Tags ----------

  predicate IsWord(c: char) {
    IsDigit(c) || 'a' <= c <= 'z' || 'A' <= c <= 'Z' || c == '_'
  }

  predicate TagValueValid(tag: string) {
    && 1 <= |tag| <= 128 && IsWord(tag[0])
    && forall i :: 0 <= i < |tag| ==> IsWord(tag[i]) || tag[i] == '.' || tag[i] == '-'
  }

  function VPrefix(tag: string): string {
    if tag != [] && tag[0] == 'v' then "v" else ""
  }

  // ---------- Strict version streams ----------

  datatype TagStreamParts = TagStreamParts(version: string, suffix: string)

  const THREE_PARTS := [Digits, Literal('.'), Digits, Literal('.'), Digits]

  function VersionTokens(prefix: string): seq<Token> {
    Literals(prefix) + THREE_PARTS
  }

  /** `v?\d+\.\d+\.\d+` */
  ghost predicate IsVersion(s: string) {
    Derives(VersionTokens(""), s) || Derives(VersionTokens("v"), s)
  }

  /** `([-_.].+)?` */
  predicate IsSuffix(s: string) {
    s == "" || (|s| >= 2 && s[0] in "-_." && '\n' !in s[1..])
  }

  function ParseTagStream(tag: string): Option<TagStreamParts> {
    var end := Greedy(VersionTokens(VPrefix(tag)), tag);
    if end.Some? && IsSuffix(tag[end.value..]) then Some(TagStreamParts(tag[..end.value], tag[end.value..]))
    else None
  }

  lemma VersionTokensShape(prefix: string)
    requires prefix == "" || prefix == "v"
    ensures Separated(VersionTokens(prefix)) && EndsInDigits(VersionTokens(prefix))
    ensures VersionTokens(prefix)[0] == if prefix == "" then Digits else Literal('v')
  {
    assert prefix != "" ==> Literals(prefix) == [Literal('v')];
  }

  /** A version starts with `v` exactly when its pieces do. */
  lemma VersionPrefix(prefix: string, s: string)
    requires (prefix == "" || prefix == "v") && Derives(VersionTokens(prefix), s)
    ensures s != [] && VPrefix(s) == prefix
  {
    VersionTokensShape(prefix);
    FirstCharacter(VersionTokens(prefix), s);
  }

  /** The parse is the only way to read the tag as a version and a suffix, and finds it if there is one. */
  lemma ParseTagStreamIff(tag: string, version: string, suffix: string)
    ensures ParseTagStream(tag) == Some(TagStreamParts(version, suffix)) <==>
            tag == version + suffix && IsVersion(version) && IsSuffix(suffix)
  {
    hide Derives, VersionTokens, Separated;
    var prefix := VPrefix(tag);
    var ts := VersionTokens(prefix);
    VersionTokensShape(prefix);
    if ParseTagStream(tag) == Some(TagStreamParts(version, suffix)) {
      GreedySound(ts, tag);
    }
    if tag == version + suffix && IsVersion(version) && IsSuffix(suffix) {
      var q := if Derives(VersionTokens("v"), version) then "v" else "";
      VersionPrefix(q, version);
      assert q == prefix;
      assert tag[..|version|] == version && tag[|version|..] == suffix;
      GreedyLongest(ts, tag, |version|);
    }
  }

  function TagStreamIncludeRegex(tag: string): Result<string, string> {
    var parts := ParseTagStream(tag);
    if parts.None? then Raise("tag is not a strict version stream")
    else
      var prefix := VPrefix(parts.value.version);
      Ok("^" + prefix + "\\d+\\.\\d+\\.\\d+" + Escape(parts.value.suffix) + "$")
  }

  lemma ThreePartsText()
    ensures Text(THREE_PARTS) == "\\d+\\.\\d+\\.\\d+"
  {
    hide Text;
    TextOne(Digits);
    TextOne(Literal('.'));
    TextConcat([Literal('.')], [Digits]);
    var dotted := [Literal('.')] + [Digits];
    assert THREE_PARTS == [Digits] + (dotted + dotted);
    TextConcat([Digits], dotted + dotted);
    TextConcat(dotted, dotted);
  }

  function StreamTokens(parts: TagStreamParts): seq<Token> {
    VersionTokens(VPrefix(parts.version)) + Literals(parts.suffix)
  }

  /** The stream pattern as a list of pieces. */
  lemma StreamPatternText(tag: string)
    requires ParseTagStream(tag).Some?
    ensures TagStreamIncludeRegex(tag) == Ok(Anchored(Text(StreamTokens(ParseTagStream(tag).value))))
  {
    hide Text, Escape, ParseTagStream, VersionTokens, Literals;
    var parts := ParseTagStream(tag).value;
    var prefix := VPrefix(parts.version);
    StreamText(prefix, parts.suffix);
    Enclose("^", prefix, "\\d+\\.\\d+\\.\\d+", Escape(parts.suffix), "$");
  }

  lemma StreamText(prefix: string, suffix: string)
    requires prefix == "" || prefix == "v"
    ensures Text(VersionTokens(prefix) + Literals(suffix)) == prefix + "\\d+\\.\\d+\\.\\d+" + Escape(suffix)
  {
    assert Escape(prefix) == prefix;
    hide Text, Escape;
    TextConcat(VersionTokens(prefix), Literals(suffix));
    TextConcat(Literals(prefix), THREE_PARTS);
    TextOfLiterals(prefix);
    TextOfLiterals(suffix);
    ThreePartsText();
  }

  lemma Enclose(open: string, a: string, b: string, c: string, close: string)
    ensures open + (a + b + c) + close == open + a + b + c + close
  {
  }

  ghost predicate SameStream(a: Option<TagStreamParts>, b: Option<TagStreamParts>) {
    && a.Some? && b.Some?
    && a.value.suffix == b.value.suffix
    && VPrefix(a.value.version) == VPrefix(b.value.version)
  }

  /** The pattern of a stream accepts exactly the tags of that stream with the same `v` prefix. */
  lemma StreamPatternAccepts(tag: string, text: string)
    requires ParseTagStream(tag).Some?
    ensures TagStreamIncludeRegex(tag).Ok?
    ensures Accepts(TagStreamIncludeRegex(tag).value, text) <==>
            SameStream(ParseTagStream(text), ParseTagStream(tag))
  {
    hide *;
    var parts := ParseTagStream(tag).value;
    StreamPatternText(tag);
    AnchoredAccepts(StreamTokens(parts), text);
    ParseTagStreamIff(tag, parts.version, parts.suffix);
    StreamTokensDerive(parts, text);
  }

  /** The pieces of a stream derive exactly the tags of that stream. */
  lemma StreamTokensDerive(parts: TagStreamParts, text: string)
    requires IsVersion(parts.version) && IsSuffix(parts.suffix)
    ensures Derives(StreamTokens(parts), text) <==> SameStream(ParseTagStream(text), Some(parts))
  {
    hide Derives, ParseTagStream, IsSuffix, VersionTokens, Literals;
    var prefix := VPrefix(parts.version);
    var version, suffix := VersionTokens(prefix), Literals(parts.suffix);
    DerivesConcat(version, suffix, text);
    if Derives(StreamTokens(parts), text) {
      var n: nat :| SplitBetween(version, suffix, text, n);
      DerivedIsStream(parts, text, n);
    }
    if SameStream(ParseTagStream(text), Some(parts)) {
      StreamIsDerived(parts, text);
    }
  }

  lemma DerivedIsStream(parts: TagStreamParts, text: string, n: nat)
    requires IsSuffix(parts.suffix)
    requires SplitBetween(VersionTokens(VPrefix(parts.version)), Literals(parts.suffix), text, n)
    ensures SameStream(ParseTagStream(text), Some(parts))
  {
    hide Derives, ParseTagStream, IsSuffix, VersionTokens, Literals;
    var prefix := VPrefix(parts.version);
    DerivesLiterals(parts.suffix, text[n..]);
    VersionPrefix(prefix, text[..n]);
    ParseTagStreamIff(text, text[..n], text[n..]);
    assert text == text[..n] + text[n..];
  }

  lemma StreamIsDerived(parts: TagStreamParts, text: string)
    requires SameStream(ParseTagStream(text), Some(parts))
    ensures exists n: nat :: SplitBetween(VersionTokens(VPrefix(parts.version)), Literals(parts.suffix), text, n)
  {
    hide ParseTagStream, IsSuffix, VersionTokens, Literals, Derives;
    var other := ParseTagStream(text).value;
    ParseTagStreamIff(text, other.version, other.suffix);
    var q := if Derives(VersionTokens("v"), other.version) then "v" else "";
    VersionPrefix(q, other.version);
    var n := |other.version|;
    assert text[..n] == other.version && text[n..] == other.suffix;
    DerivesLiterals(parts.suffix, text[n..]);
    assert SplitBetween(VersionTokens(VPrefix(parts.version)), Literals(parts.suffix), text, n);
  }

  // ---------- Four-part versions ----------

  const FOUR_PARTS :=
    [Digits, Literal('.'), Digits, Literal('.'), Digits, Literal('.'), Digits]
  const FOUR_PARTS_LS := FOUR_PARTS + [Literal('-'), Literal('l'), Literal('s'), Digits]

  function FourPartTokens(prefix: string, ls: bool): seq<Token> {
    Literals(prefix) + if ls then FOUR_PARTS_LS else FOUR_PARTS
  }

  /** `(v?)\d+\.\d+\.\d+\.\d+` with `-ls\d+` after it or without it. */
  predicate IsFourPart(tag: string, ls: bool) {
    Greedy(FourPartTokens(VPrefix(tag), ls), tag) == Some(|tag|)
  }

  lemma FourPartTokensShape(prefix: string, ls: bool)
    requires prefix == "" || prefix == "v"
    ensures Separated(FourPartTokens(prefix, ls))
    ensures FourPartTokens(prefix, ls)[0] == if prefix == "" then Digits else Literal('v')
  {
    assert prefix != "" ==> Literals(prefix) == [Literal('v')];
  }

  /** The scan decides the grammar of four-part versions. */
  lemma IsFourPartIff(tag: string, ls: bool)
    ensures IsFourPart(tag, ls) <==>
            Derives(FourPartTokens("", ls), tag) || Derives(FourPartTokens("v", ls), tag)
  {
    var prefix := VPrefix(tag);
    FourPartTokensShape(prefix, ls);
    FullMatch(FourPartTokens(prefix, ls), tag);
    FourPartTokensShape("v", ls);
    FourPartTokensShape("", ls);
    if Derives(FourPartTokens("v", ls), tag) {
      FirstCharacter(FourPartTokens("v", ls), tag);
    }
    if Derives(FourPartTokens("", ls), tag) {
      FirstCharacter(FourPartTokens("", ls), tag);
    }
  }

  lemma FirstCharacter(ts: seq<Token>, s: string)
    requires ts != [] && Derives(ts, s) && !ts[0].DotDigits?
    ensures s != []
    ensures if ts[0].Literal? then s[0] == ts[0].c else IsDigit(s[0])
  {
    SplitDerives(ts, s);
    var k: nat :| SplitsAt(ts, s, k);
    assert k > 0 && s[..k][0] == s[0];
  }

  // ---------- Retag patterns ----------

  /** Where `(v?)\d+(?:\.\d+)+` ends at the start of the tag. */
  function LeadingDotted(tag: string): (r: Option<nat>)
    ensures r.Some? ==> r.value <= |tag|
  {
    Greedy(DottedTokens(VPrefix(tag)), tag)
  }

  function DottedTokens(prefix: string): seq<Token> {
    Literals(prefix) + [Digits, DotDigits]
  }

  function MajorLength(tag: string): (n: nat)
    ensures n <= |tag|
  {
    var p := |VPrefix(tag)|;
    p + DigitRun(tag[p..])
  }

  /** The pieces of the pattern that follows a tag, branch by branch. */
  function RetagTokens(tag: string): seq<Token> {
    var end := LeadingDotted(tag);
    if end.Some? && tag[end.value..] == "-alpine" then
      Literals(tag[..MajorLength(tag)]) + [DotDigits] + Literals("-alpine")
    else if end == Some(|tag|) then DottedTokens(VPrefix(tag))
    else if end.Some? && !IsFourPart(tag, false) && !IsFourPart(tag, true) then
      DottedTokens(VPrefix(tag)) + Generalise(tag[end.value..])
    else Generalise(tag)
  }

  /** The loop over the runs of digits from `start` on. */
  method GeneralFragments(tag: string, start: nat) returns (text: string)
    requires start <= |tag|
    ensures text == Text(Generalise(tag[start..]))
  {
    hide Text, Generalise, Escape, Concat;
    var fragments: seq<string> := [];
    var offset := start;
    ghost var whole := Text(Generalise(tag[start..]));
    NoFragments(whole);
    while true
      invariant offset <= |tag|
      invariant Concat(fragments) + Text(Generalise(tag[offset..])) == whole
      decreases |tag| - offset
    {
      var k := NextDigit(tag, offset);
      if k == |tag| {
        LastFragment(tag, offset, fragments);
        break;
      }
      var n := DigitRun(tag[k..]);
      NextFragments(tag, offset, k, fragments);
      fragments := fragments + [Escape(tag[offset..k]), "\\d+"];
      offset := k + n;
    }
    text := Concat(fragments + [Escape(tag[offset..]), ""]);
  }

  lemma NoFragments(whole: string)
    ensures Concat([]) + whole == whole
  {
  }

  /** The last fragment is what follows the last run of digits. */
  lemma LastFragment(tag: string, offset: nat, fragments: seq<string>)
    requires offset <= |tag| && forall j :: offset <= j < |tag| ==> !IsDigit(tag[j])
    ensures Concat(fragments + [Escape(tag[offset..]), ""]) == Concat(fragments) + Text(Generalise(tag[offset..]))
  {
    GeneraliseUpTo(tag, offset, |tag|);
    assert tag[offset..|tag|] == tag[offset..];
    assert Text(Generalise(tag[|tag|..])) == "";
    ConcatTwo(fragments, Escape(tag[offset..]), "");
    hide Text, Generalise, Escape, Concat;
  }

  /** Two fragments: the text up to a run of digits, and the piece for that run. */
  lemma NextFragments(tag: string, offset: nat, k: nat, fragments: seq<string>)
    requires offset <= k < |tag| && IsDigit(tag[k]) && forall j :: offset <= j < k ==> !IsDigit(tag[j])
    ensures Concat(fragments) + Text(Generalise(tag[offset..]))
         == Concat(fragments + [Escape(tag[offset..k]), "\\d+"])
            + Text(Generalise(tag[k + DigitRun(tag[k..])..]))
  {
    hide Text, Generalise, Escape, Concat;
    GeneraliseUpTo(tag, offset, k);
    GeneraliseRun(tag, k);
    ConcatTwo(fragments, Escape(tag[offset..k]), "\\d+");
    Regroup(Concat(fragments), Escape(tag[offset..k]), "\\d+", Text(Generalise(tag[k + DigitRun(tag[k..])..])));
  }

  lemma Regroup(before: string, a: string, b: string, rest: string)
    ensures before + (a + (b + rest)) == before + a + b + rest
  {
  }

  function Concat(fragments: seq<string>): string {
    if fragments == [] then "" else fragments[0] + Concat(fragments[1..])
  }

  lemma {:induction false} ConcatTwo(fragments: seq<string>, a: string, b: string)
    ensures Concat(fragments + [a, b]) == Concat(fragments) + a + b
  {
    if fragments == [] {
      assert ([] + [a, b])[1..] == [b] && [b][1..] == [];
      assert Concat([b]) == b;
    } else {
      ConcatTwo(fragments[1..], a, b);
      assert (fragments + [a, b])[1..] == fragments[1..] + [a, b];
      assert (fragments + [a, b])[0] == fragments[0];
    }
  }

  function NextDigit(tag: string, i: nat): (k: nat)
    requires i <= |tag|
    ensures i <= k <= |tag| && (k == |tag| || IsDigit(tag[k]))
    ensures forall j :: i <= j < k ==> !IsDigit(tag[j])
    decreases |tag| - i
  {
    if i == |tag| || IsDigit(tag[i]) then i else NextDigit(tag, i + 1)
  }

  lemma {:induction false} GeneraliseUpTo(tag: string, i: nat, k: nat)
    requires i <= k <= |tag| && forall j :: i <= j < k ==> !IsDigit(tag[j])
    ensures Text(Generalise(tag[i..])) == Escape(tag[i..k]) + Text(Generalise(tag[k..]))
    decreases k - i
  {
    if i < k {
      GeneraliseUpTo(tag, i + 1, k);
      assert tag[i..][1..] == tag[i + 1..];
      assert tag[i..k][1..] == tag[i + 1..k];
      assert Generalise(tag[i..])[1..] == Generalise(tag[i + 1..]);
      Associative(EscapeChar(tag[i]), Escape(tag[i + 1..k]), Text(Generalise(tag[k..])));
    }
  }

  lemma GeneraliseRun(tag: string, i: nat)
    requires i < |tag| && IsDigit(tag[i])
    ensures Text(Generalise(tag[i..])) == "\\d+" + Text(Generalise(tag[i + DigitRun(tag[i..])..]))
  {
    var n := DigitRun(tag[i..]);
    assert tag[i..][n..] == tag[i + n..];
    assert Generalise(tag[i..]) == [Digits] + Generalise(tag[i + n..]);
    hide *;
    DigitsText();
    TextConcat([Digits], Generalise(tag[i + n..]));
  }

  lemma DigitsText()
    ensures Text([Digits]) == "\\d+"
  {
    TextOne(Digits);
  }

  lemma DottedText(prefix: string, rest: seq<Token>)
    requires prefix == "" || prefix == "v"
    ensures Text(DottedTokens(prefix) + rest) == prefix + "\\d+(?:\\.\\d+)+" + Text(rest)
    ensures rest == [] ==> DottedTokens(prefix) + rest == DottedTokens(prefix)
  {
    DottedPieces();
    assert Escape(prefix) == prefix;
    hide Text, Escape;
    TextConcat(DottedTokens(prefix), rest);
    TextConcat(Literals(prefix), [Digits, DotDigits]);
    TextOfLiterals(prefix);
  }

  lemma DottedPieces()
    ensures Text([DotDigits]) == "(?:\\.\\d+)+"
    ensures Text([Digits, DotDigits]) == "\\d+(?:\\.\\d+)+"
  {
    assert [DotDigits][1..] == [];
    assert [Digits, DotDigits][1..] == [DotDigits];
  }

  lemma {:induction false} EscapePlain(s: string)
    requires forall i :: 0 <= i < |s| ==> !IsSpecial(s[i])
    ensures Escape(s) == s
  {
    if s != [] {
      EscapePlain(s[1..]);
    }
  }

  lemma MajorIsPlain(tag: string)
    ensures var major := tag[..MajorLength(tag)];
            forall i :: 0 <= i < |major| ==> !IsSpecial(major[i])
  {
    var p := |VPrefix(tag)|;
    var n := DigitRun(tag[p..]);
    forall i | 0 <= i < p + n ensures !IsSpecial(tag[i]) {
      if i >= p {
        assert tag[i] == tag[p..][..n][i - p];
      }
    }
  }

  lemma AlpineText(tag: string)
    ensures var major := tag[..MajorLength(tag)];
            Text(Literals(major) + [DotDigits] + Literals("-alpine")) == major + ("(?:\\.\\d+)+" + "-alpine")
  {
    hide Text, Escape, MajorLength;
    var major := tag[..MajorLength(tag)];
    DottedPieces();
    MajorIsPlain(tag);
    EscapePlain(major);
    EscapePlain("-alpine");
    TextConcat(Literals(major) + [DotDigits], Literals("-alpine"));
    TextConcat(Literals(major), [DotDigits]);
    TextOfLiterals(major);
    TextOfLiterals("-alpine");
    Associative(major, "(?:\\.\\d+)+", "-alpine");
  }

  // ---------- Which tags a retag pattern accepts ----------

  lemma {:induction false} GeneraliseDerives(s: string)
    ensures Derives(Generalise(s), s)
  {
    SameShape(s, s);
  }

  lemma DottedShape(prefix: string)
    requires prefix == "" || prefix == "v"
    ensures Separated(DottedTokens(prefix))
    ensures DottedTokens(prefix)[0] == if prefix == "" then Digits else Literal('v')
  {
    assert prefix != "" ==> Literals(prefix) == [Literal('v')];
  }

  /** The dotted part at the start of a tag: the major number, then its dot groups. */
  lemma LeadingDottedParts(tag: string)
    requires LeadingDotted(tag).Some?
    ensures var m, e := MajorLength(tag), LeadingDotted(tag).value;
            m < e && DotRun(tag[m..]) == e - m && DotGroups(tag[m..e])
  {
    hide *;
    var m, e := MajorLength(tag), LeadingDotted(tag).value;
    var p, n := PartsAt(tag);
    TwoSlices(tag, p, n, e);
    DotRunGroups(tag[m..]);
  }

  lemma PartsAt(tag: string) returns (p: nat, n: nat)
    requires LeadingDotted(tag).Some?
    ensures p + n == MajorLength(tag) && p + n <= |tag| && DotRun(tag[p..][n..]) > 0
    ensures LeadingDotted(tag) == Some(p + n + DotRun(tag[p..][n..]))
  {
    hide Greedy, DotRun, DigitRun, LeadingDotted, DottedTokens, VPrefix;
    AfterPrefix(tag);
    p := |VPrefix(tag)|;
    n := DottedScan(tag[p..]);
  }

  lemma TwoSlices(tag: string, p: nat, n: nat, e: nat)
    requires p + n <= e <= |tag|
    ensures tag[p..][n..] == tag[p + n..] && tag[p + n..][..e - p - n] == tag[p + n..e]
  {
  }

  lemma AfterPrefix(tag: string)
    ensures var p := |VPrefix(tag)|;
            LeadingDotted(tag) == Shift(p, Greedy([Digits, DotDigits], tag[p..]))
  {
    hide DigitRun, DotRun;
    var ts := DottedTokens(VPrefix(tag));
    if VPrefix(tag) == "v" {
      assert ts == [Literal('v'), Digits, DotDigits] && ts[1..] == [Digits, DotDigits];
    } else {
      assert ts == [Digits, DotDigits] && tag[0..] == tag;
    }
  }

  lemma DottedScan(s: string) returns (n: nat)
    requires Greedy([Digits, DotDigits], s).Some?
    ensures n == DigitRun(s) && DotRun(s[n..]) > 0
    ensures Greedy([Digits, DotDigits], s) == Some(n + DotRun(s[n..]))
  {
    n := DigitRun(s);
    assert [Digits, DotDigits][1..] == [DotDigits] && [DotDigits][1..] == [];
    assert Greedy([DotDigits], s[n..]) == Some(DotRun(s[n..]));
  }

  /** A valid tag is accepted by the pattern made from it. */
  lemma RetagAcceptsItself(tag: string)
    requires TagValueValid(tag)
    ensures Accepts(Anchored(Text(RetagTokens(tag))), tag)
  {
    hide Accepts;
    AnchoredAccepts(RetagTokens(tag), tag);
    var end := LeadingDotted(tag);
    if end.Some? {
      var e := end.value;
      var rest := tag[e..];
      var dotted := DottedTokens(VPrefix(tag));
      GreedySound(dotted, tag);
      if rest == "-alpine" {
        AlpineDerives(tag, tag);
      } else if e == |tag| {
        assert tag[..e] == tag;
      } else {
        GeneraliseDerives(tag);
        GeneraliseDerives(rest);
        assert SplitBetween(dotted, Generalise(rest), tag, e);
        DerivesConcat(dotted, Generalise(rest), tag);
      }
    } else {
      GeneraliseDerives(tag);
    }
  }

  /** An Alpine release: `major`, at least one dot group, `-alpine`. */
  ghost predicate IsAlpine(major: string, text: string) {
    exists groups :: DotGroups(groups) && text == major + groups + "-alpine"
  }

  lemma AlpineTokens(major: string, text: string)
    ensures Derives(Literals(major) + [DotDigits] + Literals("-alpine"), text) <==> IsAlpine(major, text)
  {
    hide Derives, DotGroups, Literals;
    var end := "-alpine";
    var a, b, c := Literals(major), [DotDigits], Literals(end);
    DerivesConcat(a + b, c, text);
    if Derives(a + b + c, text) {
      var n: nat :| SplitBetween(a + b, c, text, n);
      DerivesLiterals(end, text[n..]);
      var groups := MajorSplits(major, text[..n]);
      assert text == text[..n] + text[n..];
    }
    if groups :| DotGroups(groups) && text == major + groups + end {
      var n := |major| + |groups|;
      SlicesOf(major + groups, end);
      MajorJoins(major, groups);
      DerivesLiterals(end, end);
      assert SplitBetween(a + b, c, text, n);
    }
  }

  lemma SlicesOf(a: string, b: string)
    ensures (a + b)[..|a|] == a && (a + b)[|a|..] == b
  {
  }

  lemma MajorSplits(major: string, text: string) returns (groups: string)
    requires Derives(Literals(major) + [DotDigits], text)
    ensures DotGroups(groups) && text == major + groups
  {
    hide Derives, DotGroups, Literals;
    DerivesConcat(Literals(major), [DotDigits], text);
    var m: nat :| SplitBetween(Literals(major), [DotDigits], text, m);
    DerivesLiterals(major, text[..m]);
    groups := text[m..];
    OneDotDigits(groups);
    assert text == text[..m] + groups;
  }

  lemma MajorJoins(major: string, groups: string)
    requires DotGroups(groups)
    ensures Derives(Literals(major) + [DotDigits], major + groups)
  {
    hide Derives, DotGroups, Literals;
    OneDotDigits(groups);
    DerivesLiterals(major, major);
    SlicesOf(major, groups);
    assert SplitBetween(Literals(major), [DotDigits], major + groups, |major|);
    DerivesConcat(Literals(major), [DotDigits], major + groups);
  }

  lemma OneDotDigits(s: string)
    ensures Derives([DotDigits], s) <==> DotGroups(s)
  {
    assert [DotDigits][1..] == [];
    SplitDerives([DotDigits], s);
    if Derives([DotDigits], s) {
      var k: nat :| SplitsAt([DotDigits], s, k);
      assert s[..k] == s;
    }
    if DotGroups(s) {
      assert s[..|s|] == s;
      assert SplitsAt([DotDigits], s, |s|);
    }
  }

  lemma AlpineDerives(tag: string, text: string)
    requires LeadingDotted(tag).Some? && tag[LeadingDotted(tag).value..] == "-alpine"
    ensures Derives(RetagTokens(tag), text) <==> IsAlpine(tag[..MajorLength(tag)], text)
    ensures Derives(RetagTokens(tag), tag)
  {
    hide *;
    AlpineRetagTokens(tag);
    AlpineTokens(tag[..MajorLength(tag)], text);
    AlpineTokens(tag[..MajorLength(tag)], tag);
    IsAlpineItself(tag);
  }

  lemma AlpineRetagTokens(tag: string)
    requires LeadingDotted(tag).Some? && tag[LeadingDotted(tag).value..] == "-alpine"
    ensures RetagTokens(tag) == Literals(tag[..MajorLength(tag)]) + [DotDigits] + Literals("-alpine")
  {
    hide LeadingDotted, MajorLength, Literals, IsFourPart, Generalise;
  }

  lemma IsAlpineItself(tag: string)
    requires LeadingDotted(tag).Some? && tag[LeadingDotted(tag).value..] == "-alpine"
    ensures IsAlpine(tag[..MajorLength(tag)], tag)
  {
    hide *;
    var m, e := MajorLength(tag), LeadingDotted(tag).value;
    LeadingDottedParts(tag);
    ThreeSlices(tag, m, e);
    AlpineOf(tag[..m], tag[m..e], tag);
  }

  lemma ThreeSlices(s: string, m: nat, e: nat)
    requires m <= e <= |s|
    ensures s == s[..m] + s[m..e] + s[e..]
  {
  }

  lemma AlpineOf(major: string, groups: string, text: string)
    requires DotGroups(groups) && text == major + groups + "-alpine"
    ensures IsAlpine(major, text)
  {
  }

  /** Alpine channels stay on their major number and accept any dotted version of it. */
  lemma AlpinePatternAccepts(tag: string, text: string)
    requires LeadingDotted(tag).Some? && tag[LeadingDotted(tag).value..] == "-alpine"
    ensures Accepts(Anchored(Text(RetagTokens(tag))), text) <==> IsAlpine(tag[..MajorLength(tag)], text)
  {
    AnchoredAccepts(RetagTokens(tag), text);
    AlpineDerives(tag, text);
  }

  /** A plain dotted version accepts every dotted version with the same `v` prefix. */
  lemma DottedPatternAccepts(tag: string, text: string)
    requires LeadingDotted(tag) == Some(|tag|)
    ensures Accepts(Anchored(Text(RetagTokens(tag))), text) <==>
            LeadingDotted(text) == Some(|text|) && VPrefix(text) == VPrefix(tag)
  {
    var prefix := VPrefix(tag);
    var ts := DottedTokens(prefix);
    assert tag[|tag|..] == "";
    assert RetagTokens(tag) == ts;
    AnchoredAccepts(ts, text);
    DottedShape(prefix);
    FullMatch(ts, text);
    if Derives(ts, text) {
      FirstCharacter(ts, text);
    }
  }

  lemma GeneralisedAccepts(tag: string, text: string)
    requires RetagTokens(tag) == Generalise(tag)
    ensures Accepts(Anchored(Text(RetagTokens(tag))), text) <==> Generalise(text) == Generalise(tag)
  {
    AnchoredAccepts(RetagTokens(tag), text);
    SameShape(tag, text);
  }

  /** A suffixed release may change its number of dotted parts, but not what follows them. */
  lemma SuffixedPatternAccepts(tag: string, text: string)
    requires LeadingDotted(tag).Some? && LeadingDotted(tag).value < |tag|
    requires tag[LeadingDotted(tag).value..] != "-alpine"
    requires !IsFourPart(tag, false) && !IsFourPart(tag, true)
    ensures Accepts(Anchored(Text(RetagTokens(tag))), text) <==>
            exists n: nat :: n <= |text| && LeadingDotted(text[..n]) == Some(n) && VPrefix(text[..n]) == VPrefix(tag)
                          && Generalise(text[n..]) == Generalise(tag[LeadingDotted(tag).value..])
  {
    var prefix, rest := VPrefix(tag), tag[LeadingDotted(tag).value..];
    var dotted, shape := DottedTokens(prefix), Generalise(rest);
    AnchoredAccepts(dotted + shape, text);
    DerivesConcat(dotted, shape, text);
    forall n: nat | n <= |text|
      ensures SplitBetween(dotted, shape, text, n) <==>
              LeadingDotted(text[..n]) == Some(n) && VPrefix(text[..n]) == prefix
              && Generalise(text[n..]) == shape
    {
      SameShape(rest, text[n..]);
      DottedShape(prefix);
      FullMatch(dotted, text[..n]);
      if Derives(dotted, text[..n]) {
        FirstCharacter(dotted, text[..n]);
      }
    }
  }
}
