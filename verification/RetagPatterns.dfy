/**
 The include pattern for a tag that a service is moved to (src/wudup/tag_streams.py), and which
 tags it accepts, in terms of the tags alone.
 */
module RetagPatterns {
  import opened Ordering
  import opened Regex
  import opened TagTokens
  import opened TagScanning
  import opened TagStreams
  import opened TagTransforms

  // ---------- Versions and shapes of tags ----------

  predicate IsPrefix(prefix: string) {
    prefix == "" || prefix == "v"
  }

  /** A prefix, a number and at least one `.number`. */
  ghost predicate DottedVersion(prefix: string, s: string) {
    exists number, groups :: Number(number) && DotGroups(groups) && s == prefix + number + groups
  }

  /** The longest dotted version that the tag starts with. */
  ghost predicate LeadingVersion(prefix: string, tag: string, k: nat) {
    && k <= |tag| && DottedVersion(prefix, tag[..k])
    && forall j :: k < j <= |tag| ==> !DottedVersion(prefix, tag[..j])
  }

  ghost predicate HasLeading(tag: string) {
    exists prefix, k :: IsPrefix(prefix) && LeadingVersion(prefix, tag, k)
  }

  ghost predicate IsMajor(major: string) {
    exists prefix, number :: IsPrefix(prefix) && Number(number) && major == prefix + number
  }

  ghost predicate AlpineRelease(tag: string) {
    exists major :: IsMajor(major) && IsAlpine(major, tag)
  }

  ghost predicate WholeDotted(tag: string) {
    exists prefix :: IsPrefix(prefix) && DottedVersion(prefix, tag)
  }

  /** The same characters outside the runs of digits, and a run of digits wherever the other has one. */
  ghost predicate SameShaped(a: string, b: string)
    decreases |a|
  {
    if a == "" || b == "" then a == b
    else if IsDigit(a[0]) then IsDigit(b[0]) && SameShaped(a[DigitRun(a)..], b[DigitRun(b)..])
    else a[0] == b[0] && SameShaped(a[1..], b[1..])
  }

  /** The dotted start of the text has the prefix of the tag's, and the rest has the shape of the tag's. */
  ghost predicate SuffixedLike(tag: string, text: string) {
    exists prefix, k: nat, n: nat ::
      && IsPrefix(prefix) && LeadingVersion(prefix, tag, k)
      && k <= |tag| && n <= |text| && DottedVersion(prefix, text[..n]) && SameShaped(tag[k..], text[n..])
  }

  /** Which tags should follow a tag. */
  ghost predicate RetagAccepts(tag: string, text: string) {
    if AlpineRelease(tag) then exists major :: IsMajor(major) && IsAlpine(major, tag) && IsAlpine(major, text)
    else if WholeDotted(tag) then
      exists prefix :: IsPrefix(prefix) && DottedVersion(prefix, tag) && DottedVersion(prefix, text)
    else if HasLeading(tag) && !IsFourPart(tag, false) && !IsFourPart(tag, true) then SuffixedLike(tag, text)
    else SameShaped(tag, text)
  }

  // ---------- Scans and grammars agree ----------

  lemma OneDigits(s: string)
    ensures Derives([Digits], s) <==> Number(s)
  {
    assert [Digits][1..] == [];
    SplitDerives([Digits], s);
    if Derives([Digits], s) {
      var k: nat :| SplitsAt([Digits], s, k);
      assert s[..k] == s;
    }
    if Number(s) {
      assert s[..|s|] == s;
      assert SplitsAt([Digits], s, |s|);
    }
  }

  lemma NumberAndGroups(s: string)
    ensures Derives([Digits, DotDigits], s) <==> exists number, groups ::
              Number(number) && DotGroups(groups) && s == number + groups
  {
    hide Derives, DotGroups, Number;
    assert [Digits, DotDigits] == [Digits] + [DotDigits];
    DerivesConcat([Digits], [DotDigits], s);
    if Derives([Digits, DotDigits], s) {
      var n: nat :| SplitBetween([Digits], [DotDigits], s, n);
      OneDigits(s[..n]);
      OneDotDigits(s[n..]);
      assert s == s[..n] + s[n..];
    }
    if number, groups :| Number(number) && DotGroups(groups) && s == number + groups {
      SlicesOf(number, groups);
      OneDigits(number);
      OneDotDigits(groups);
      assert SplitBetween([Digits], [DotDigits], s, |number|);
    }
  }

  lemma DottedIff(prefix: string, s: string)
    ensures Derives(DottedTokens(prefix), s) <==> DottedVersion(prefix, s)
  {
    hide Derives, DotGroups, Number;
    DerivesConcat(Literals(prefix), [Digits, DotDigits], s);
    if Derives(DottedTokens(prefix), s) {
      var n: nat :| SplitBetween(Literals(prefix), [Digits, DotDigits], s, n);
      DerivesLiterals(prefix, s[..n]);
      NumberAndGroups(s[n..]);
      var number, groups :| Number(number) && DotGroups(groups) && s[n..] == number + groups;
      assert s == s[..n] + s[n..] && prefix + (number + groups) == prefix + number + groups;
    }
    if number, groups :| Number(number) && DotGroups(groups) && s == prefix + number + groups {
      assert s == prefix + (number + groups);
      SlicesOf(prefix, number + groups);
      DerivesLiterals(prefix, prefix);
      NumberAndGroups(number + groups);
      assert SplitBetween(Literals(prefix), [Digits, DotDigits], s, |prefix|);
    }
  }

  lemma DottedPrefix(prefix: string, s: string)
    requires IsPrefix(prefix) && DottedVersion(prefix, s)
    ensures s != "" && VPrefix(s) == prefix
  {
    hide DotGroups;
    var number, groups :| Number(number) && DotGroups(groups) && s == prefix + number + groups;
    assert s[0] == if prefix == "" then number[0] else 'v';
  }

  lemma SlicePrefix(tag: string, k: nat)
    requires k <= |tag| && tag[..k] != ""
    ensures VPrefix(tag[..k]) == VPrefix(tag)
  {
  }

  lemma VPrefixIs(tag: string)
    ensures IsPrefix(VPrefix(tag))
  {
  }

  /** The greedy scan finds the longest dotted version at the start. */
  lemma LeadingIff(tag: string, k: nat)
    ensures LeadingDotted(tag) == Some(k) <==> LeadingVersion(VPrefix(tag), tag, k)
  {
    hide Greedy, Derives, DottedVersion, DottedTokens, Separated, VPrefix;
    var prefix := VPrefix(tag);
    var ts := DottedTokens(prefix);
    VPrefixIs(tag);
    DottedShape(prefix);
    if LeadingDotted(tag).Some? { GreedySound(ts, tag); }
    forall j | 0 <= j <= |tag|
      ensures Derives(ts, tag[..j]) <==> DottedVersion(prefix, tag[..j])
      ensures DottedVersion(prefix, tag[..j]) ==> LeadingDotted(tag).Some? && j <= LeadingDotted(tag).value
    {
      DottedIff(prefix, tag[..j]);
      if Derives(ts, tag[..j]) { GreedyLongest(ts, tag, j); }
    }
  }

  lemma LeadingPrefix(prefix: string, tag: string, k: nat)
    requires IsPrefix(prefix) && LeadingVersion(prefix, tag, k)
    ensures prefix == VPrefix(tag)
  {
    hide DottedVersion;
    DottedPrefix(prefix, tag[..k]);
    SlicePrefix(tag, k);
  }

  lemma HasLeadingIff(tag: string)
    ensures HasLeading(tag) <==> LeadingDotted(tag).Some?
  {
    hide LeadingVersion, LeadingDotted;
    if prefix, k :| IsPrefix(prefix) && LeadingVersion(prefix, tag, k) {
      LeadingPrefix(prefix, tag, k);
      LeadingIff(tag, k);
    }
    if LeadingDotted(tag).Some? {
      VPrefixIs(tag);
      LeadingIff(tag, LeadingDotted(tag).value);
    }
  }

  lemma WholeDottedIff(tag: string)
    ensures WholeDotted(tag) <==> LeadingDotted(tag) == Some(|tag|)
    ensures forall prefix :: IsPrefix(prefix) && DottedVersion(prefix, tag) ==> prefix == VPrefix(tag)
  {
    hide DottedVersion, LeadingDotted, VPrefix;
    assert tag[..|tag|] == tag;
    LeadingIff(tag, |tag|);
    VPrefixIs(tag);
    forall prefix | IsPrefix(prefix) && DottedVersion(prefix, tag) ensures prefix == VPrefix(tag) {
      DottedPrefix(prefix, tag);
    }
  }

  /** Generalising gives the same pieces exactly for texts of one shape. */
  lemma {:induction false} ShapeIff(a: string, b: string)
    ensures Generalise(a) == Generalise(b) <==> SameShaped(a, b)
    decreases |a|
  {
    GeneralisedFirst(a);
    GeneralisedFirst(b);
    if a != "" && b != "" {
      if IsDigit(a[0]) && IsDigit(b[0]) {
        ShapeIff(a[DigitRun(a)..], b[DigitRun(b)..]);
      } else if !IsDigit(a[0]) {
        ShapeIff(a[1..], b[1..]);
      }
    }
  }

  lemma GeneralisedFirst(s: string)
    ensures s == "" ==> Generalise(s) == []
    ensures s != "" ==>
              && Generalise(s) != []
              && Generalise(s)[0] == (if IsDigit(s[0]) then Digits else Literal(s[0]))
              && Generalise(s)[1..] == Generalise(s[if IsDigit(s[0]) then DigitRun(s) else 1..])
              && Generalise(s) == [Generalise(s)[0]] + Generalise(s)[1..]
              && (IsDigit(s[0]) ==> DigitRun(s) > 0)
  {
  }

  // ---------- Alpine releases ----------

  lemma DottedCharacters(prefix: string, s: string)
    requires IsPrefix(prefix)
    ensures '-' in s ==> !DottedVersion(prefix, s)
  {
    if number, groups :| Number(number) && DotGroups(groups) && s == prefix + number + groups {
      DotGroupsCharacters(groups);
    }
  }

  lemma AlpineParts(major: string, tag: string) returns (prefix: string, number: string, groups: string)
    requires IsMajor(major) && IsAlpine(major, tag)
    ensures IsPrefix(prefix) && Number(number) && DotGroups(groups) && major == prefix + number
    ensures tag == prefix + number + groups + "-alpine" && |prefix + number + groups| < |tag|
    ensures tag[..|prefix + number + groups|] == prefix + number + groups
    ensures tag[|prefix + number + groups|..] == "-alpine"
  {
    hide DotGroups, Number;
    prefix, number :| IsPrefix(prefix) && Number(number) && major == prefix + number;
    groups :| DotGroups(groups) && tag == major + groups + "-alpine";
    SlicesOf(prefix + number + groups, "-alpine");
  }

  lemma AlpineLeads(major: string, tag: string)
    requires IsMajor(major) && IsAlpine(major, tag)
    ensures LeadingDotted(tag).Some? && tag[LeadingDotted(tag).value..] == "-alpine"
  {
    hide DotGroups, Number, LeadingDotted, VPrefix, IsMajor, IsAlpine;
    var prefix, number, groups := AlpineParts(major, tag);
    var k := |prefix + number + groups|;
    assert DottedVersion(prefix, tag[..k]);
    assert tag[k] == '-' by { assert tag[k] == tag[k..][0]; }
    forall j | k < j <= |tag| ensures !DottedVersion(prefix, tag[..j]) {
      assert tag[..j][k] == '-';
      DottedCharacters(prefix, tag[..j]);
    }
    LeadingPrefix(prefix, tag, k);
    LeadingIff(tag, k);
  }

  lemma GroupsStart(groups: string)
    requires DotGroups(groups)
    ensures groups != "" && groups[0] == '.'
  {
  }

  /** The major version is the prefix and the run of digits behind it. */
  lemma MajorIs(prefix: string, number: string, rest: string, tag: string)
    requires Number(number) && tag == prefix + (number + rest) && VPrefix(tag) == prefix
    ensures tag[..|prefix| + DigitRun(tag[|prefix|..])] == prefix + tag[|prefix|..][..DigitRun(tag[|prefix|..])]
    ensures Number(tag[|prefix|..][..DigitRun(tag[|prefix|..])])
    ensures rest == "" || !IsDigit(rest[0]) ==> tag[..|prefix| + DigitRun(tag[|prefix|..])] == prefix + number
    ensures MajorLength(tag) == |prefix| + DigitRun(tag[|prefix|..])
  {
    hide VPrefix;
    SlicesOf(prefix, number + rest);
    SlicesOf(number, rest);
    DigitRunLongest(number + rest, |number|);
    MajorSlice(prefix, tag, DigitRun(tag[|prefix|..]));
  }

  lemma MajorSlice(prefix: string, tag: string, n: nat)
    requires prefix <= tag && n <= |tag| - |prefix|
    ensures tag[..|prefix| + n] == prefix + tag[|prefix|..][..n]
  {
  }

  /** An Alpine release has one major version. */
  lemma AlpineMajor(major: string, tag: string)
    requires IsMajor(major) && IsAlpine(major, tag)
    ensures major == tag[..MajorLength(tag)]
  {
    hide *;
    var prefix, number, groups := AlpineParts(major, tag);
    GroupsStart(groups);
    AlpinePrefix(prefix, number, groups, tag);
    Regrouped(prefix, number, groups, "-alpine");
    DotIsNoDigit();
    MajorIs(prefix, number, groups + "-alpine", tag);
  }

  lemma DotIsNoDigit()
    ensures !IsDigit('.')
  {
  }

  lemma Regrouped(a: string, b: string, c: string, d: string)
    ensures a + b + c + d == a + (b + (c + d))
  {
  }

  lemma AlpinePrefix(prefix: string, number: string, groups: string, tag: string)
    requires IsPrefix(prefix) && Number(number) && DotGroups(groups) && |prefix + number + groups| <= |tag|
    requires tag[..|prefix + number + groups|] == prefix + number + groups
    ensures VPrefix(tag) == prefix
  {
    hide VPrefix, DotGroups, IsPrefix;
    var k := |prefix + number + groups|;
    assert DottedVersion(prefix, tag[..k]);
    DottedPrefix(prefix, tag[..k]);
    SlicePrefix(tag, k);
  }

  lemma MajorOfLeading(tag: string)
    requires LeadingDotted(tag).Some?
    ensures IsMajor(tag[..MajorLength(tag)])
  {
    hide *;
    var e := LeadingDotted(tag).value;
    LeadingIff(tag, e);
    VPrefixIs(tag);
    var number, groups := LeadingParts(tag, e);
    assert tag == tag[..e] + tag[e..];
    Regrouped(VPrefix(tag), number, groups, tag[e..]);
    MajorIs(VPrefix(tag), number, groups + tag[e..], tag);
    MajorFrom(VPrefix(tag), tag[|VPrefix(tag)|..][..DigitRun(tag[|VPrefix(tag)|..])]);
  }

  lemma LeadingParts(tag: string, e: nat) returns (number: string, groups: string)
    requires LeadingVersion(VPrefix(tag), tag, e)
    ensures e <= |tag| && Number(number) && tag[..e] == VPrefix(tag) + number + groups
  {
    hide DotGroups, Number, VPrefix;
    number, groups :| Number(number) && DotGroups(groups) && tag[..e] == VPrefix(tag) + number + groups;
  }

  lemma MajorFrom(prefix: string, number: string)
    requires IsPrefix(prefix) && Number(number)
    ensures IsMajor(prefix + number)
  {
  }

  lemma AlpineIff(tag: string)
    ensures AlpineRelease(tag) <==> LeadingDotted(tag).Some? && tag[LeadingDotted(tag).value..] == "-alpine"
    ensures AlpineRelease(tag) ==> IsMajor(tag[..MajorLength(tag)]) && IsAlpine(tag[..MajorLength(tag)], tag)
  {
    hide LeadingDotted, MajorLength, IsMajor, IsAlpine;
    if major :| IsMajor(major) && IsAlpine(major, tag) {
      AlpineLeads(major, tag);
    }
    if LeadingDotted(tag).Some? && tag[LeadingDotted(tag).value..] == "-alpine" {
      MajorOfLeading(tag);
      IsAlpineItself(tag);
    }
  }

  // ---------- The language of the pattern ----------

  lemma AlpineLanguage(tag: string, text: string)
    requires AlpineRelease(tag)
    ensures Accepts(Anchored(Text(RetagTokens(tag))), text) <==> RetagAccepts(tag, text)
  {
    hide LeadingDotted, MajorLength, IsMajor, IsAlpine, Accepts, RetagTokens, Text;
    AlpineIff(tag);
    AlpinePatternAccepts(tag, text);
    forall major | IsMajor(major) && IsAlpine(major, tag) ensures major == tag[..MajorLength(tag)] {
      AlpineMajor(major, tag);
    }
  }

  lemma DottedLanguage(tag: string, text: string)
    requires !AlpineRelease(tag) && WholeDotted(tag)
    ensures Accepts(Anchored(Text(RetagTokens(tag))), text) <==> RetagAccepts(tag, text)
  {
    hide LeadingDotted, Accepts, RetagTokens, Text, AlpineRelease, DottedVersion, VPrefix;
    WholeDottedIff(tag);
    WholeDottedIff(text);
    DottedPatternAccepts(tag, text);
  }

  lemma SuffixedLanguage(tag: string, text: string)
    requires !AlpineRelease(tag) && !WholeDotted(tag) && HasLeading(tag)
    requires !IsFourPart(tag, false) && !IsFourPart(tag, true)
    ensures Accepts(Anchored(Text(RetagTokens(tag))), text) <==> SuffixedLike(tag, text)
  {
    hide LeadingDotted, Accepts, RetagTokens, Text, AlpineRelease, DottedVersion, VPrefix, IsFourPart, WholeDotted,
      HasLeading, Generalise, SameShaped, LeadingVersion;
    AlpineIff(tag);
    WholeDottedIff(tag);
    HasLeadingIff(tag);
    SuffixedPatternAccepts(tag, text);
    var prefix, e := VPrefix(tag), LeadingDotted(tag).value;
    LeadingIff(tag, e);
    VPrefixIs(tag);
    if n: nat :| n <= |text| && LeadingDotted(text[..n]) == Some(n) && VPrefix(text[..n]) == prefix
                 && Generalise(text[n..]) == Generalise(tag[e..]) {
      SplitIff(prefix, tag[e..], text, n);
      assert IsPrefix(prefix) && LeadingVersion(prefix, tag, e);
    }
    if q, k: nat, n: nat :| IsPrefix(q) && LeadingVersion(q, tag, k) && k <= |tag| && n <= |text|
                            && DottedVersion(q, text[..n]) && SameShaped(tag[k..], text[n..]) {
      LeadingPrefix(q, tag, k);
      LeadingIff(tag, k);
      SplitIff(prefix, tag[e..], text, n);
    }
  }

  lemma SplitIff(prefix: string, rest: string, text: string, n: nat)
    requires n <= |text| && IsPrefix(prefix)
    ensures LeadingDotted(text[..n]) == Some(n) && VPrefix(text[..n]) == prefix <==> DottedVersion(prefix, text[..n])
    ensures Generalise(text[n..]) == Generalise(rest) <==> SameShaped(rest, text[n..])
  {
    hide LeadingDotted, VPrefix, DottedVersion, Generalise, SameShaped, WholeDotted;
    WholeDottedIff(text[..n]);
    WholeDottedFrom(prefix, text[..n]);
    ShapeIff(rest, text[n..]);
  }

  lemma WholeDottedFrom(prefix: string, s: string)
    ensures IsPrefix(prefix) && DottedVersion(prefix, s) ==> WholeDotted(s)
    ensures WholeDotted(s) && VPrefix(s) == prefix ==> DottedVersion(prefix, s)
  {
    hide DottedVersion, VPrefix;
    WholeDottedIff(s);
  }

  /** A tag without a leading dotted version, or with four parts and `-ls`, accepts exactly the tags of its shape. */
  lemma ShapePatternAccepts(tag: string, text: string)
    requires LeadingDotted(tag).None? || IsFourPart(tag, true)
    ensures Accepts(Anchored(Text(RetagTokens(tag))), text) <==> SameShaped(tag, text)
  {
    hide Accepts, Text, Generalise, SameShaped, LeadingDotted, IsFourPart;
    if IsFourPart(tag, true) {
      LsTagKeepsShape(tag);
    } else {
      NoLeadingTokens(tag);
    }
    GeneralisedAccepts(tag, text);
    ShapeIff(tag, text);
  }

  lemma NoLeadingTokens(tag: string)
    requires LeadingDotted(tag).None?
    ensures RetagTokens(tag) == Generalise(tag)
  {
    hide LeadingDotted, Generalise;
  }

  /** For every tag the pattern accepts exactly the tags that should follow it. */
  lemma RetagLanguage(tag: string, text: string)
    ensures Accepts(Anchored(Text(RetagTokens(tag))), text) <==> RetagAccepts(tag, text)
  {
    hide *;
    RetagAcceptsIs(tag, text);
    if AlpineRelease(tag) {
      AlpineLanguage(tag, text);
    } else if WholeDotted(tag) {
      DottedLanguage(tag, text);
    } else if HasLeading(tag) && !IsFourPart(tag, false) && !IsFourPart(tag, true) {
      SuffixedLanguage(tag, text);
    } else {
      HasLeadingIff(tag);
      WholeDottedIff(tag);
      if IsFourPart(tag, false) { PlainTagIsDotted(tag); }
      ShapePatternAccepts(tag, text);
    }
  }

  lemma RetagAcceptsIs(tag: string, text: string)
    ensures !AlpineRelease(tag) && !WholeDotted(tag) ==>
              (RetagAccepts(tag, text) <==>
                if HasLeading(tag) && !IsFourPart(tag, false) && !IsFourPart(tag, true) then SuffixedLike(tag, text)
                else SameShaped(tag, text))
  {
    hide AlpineRelease, WholeDotted, HasLeading, SuffixedLike, SameShaped, IsFourPart;
  }

  lemma NoText()
    ensures Text([]) == ""
  {
  }

  method RetagTagIncludeRegex(tag: string) returns (r: Result<string, string>)
    ensures r.Ok? <==> TagValueValid(tag)
    ensures r.Ok? ==> r.value == Anchored(Text(RetagTokens(tag)))
    ensures r.Ok? ==> forall text :: Accepts(r.value, text) <==> RetagAccepts(tag, text)
  {
    hide Accepts, RetagAccepts, Text, IsFourPart, Generalise, LeadingDotted;
    forall text ensures Accepts(Anchored(Text(RetagTokens(tag))), text) <==> RetagAccepts(tag, text) {
      RetagLanguage(tag, text);
    }
    if !TagValueValid(tag) {
      return Raise("tag is not valid");
    }
    var end := LeadingDotted(tag);
    if end.Some? && tag[end.value..] == "-alpine" {
      var major := tag[..MajorLength(tag)];
      AlpineText(tag);
      return Ok("^" + (major + ("(?:\\.\\d+)+" + "-alpine")) + "$");
    }
    if end == Some(|tag|) {
      DottedText(VPrefix(tag), []);
      NoText();
      return Ok("^" + (VPrefix(tag) + "\\d+(?:\\.\\d+)+") + "$");
    }
    var dotted := end.Some? && !IsFourPart(tag, false) && !IsFourPart(tag, true);
    var head := if dotted then VPrefix(tag) + "\\d+(?:\\.\\d+)+" else "";
    var offset := if dotted then end.value else 0;
    var tail := GeneralFragments(tag, offset);
    if dotted {
      DottedText(VPrefix(tag), Generalise(tag[offset..]));
    } else {
      assert tag[0..] == tag && head + tail == tail;
    }
    return Ok("^" + (head + tail) + "$");
  }

}
