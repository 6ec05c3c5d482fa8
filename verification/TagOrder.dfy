/**
 Semantic versions and their precedence (sections 2, 9, 10 and 11 of SemVer 2.0.0), read loosely as
 the foreign reader of the labels does and strictly as the standard wants, and the order that the
 managed transform gives to four-part tags.
 */
module TagOrder {
  import opened Ordering
  import opened Regex
  import opened TagTokens
  import opened TagScanning
  import opened TagStreams
  import opened TagTransforms

  // ---------- Semantic versions ----------

  datatype SemVer = SemVer(major: nat, minor: nat, patch: nat, pre: seq<string>)

  function Value(digits: string): nat
    requires AllDigits(digits)
  {
    if digits == [] then 0
    else Value(digits[..|digits| - 1]) * 10 + (digits[|digits| - 1] - '0') as int
  }

  /** The parts of `s` between occurrences of `c`. */
  function Parts(c: char, s: string): (parts: seq<string>)
    ensures parts != []
  {
    if s == [] then [""]
    else
      var rest := Parts(c, s[1..]);
      if s[0] == c then [""] + rest else [[s[0]] + rest[0]] + rest[1..]
  }

  /** `X.Y.Z`, or `X.Y.Z-` and identifiers between dots; a number may start with zeros. */
  function ReadLoose(s: string): Option<SemVer> {
    var halves := Parts('-', s);
    var core := Parts('.', halves[0]);
    if |halves| > 2 || |core| != 3 || !Number(core[0]) || !Number(core[1]) || !Number(core[2]) then None
    else Some(SemVer(Value(core[0]), Value(core[1]), Value(core[2]),
                     if |halves| == 2 then Parts('.', halves[1]) else []))
  }

  /** The position of the first `c`, or the length of the text. */
  function FirstOf(c: char, s: string): (n: nat)
    ensures n <= |s|
  {
    if s == "" || s[0] == c then 0 else 1 + FirstOf(c, s[1..])
  }

  predicate NoLeadingZero(n: string) {
    Number(n) && (n[0] != '0' || |n| == 1)
  }

  predicate IsIdentifier(s: string) {
    s != "" && forall i :: 0 <= i < |s| ==>
      IsDigit(s[i]) || 'A' <= s[i] <= 'Z' || 'a' <= s[i] <= 'z' || s[i] == '-'
  }

  /** The grammar of the standard; build metadata after a `+` is read and has no part in the order. */
  function ParseSemVer(s: string): Option<SemVer> {
    var plus := FirstOf('+', s);
    var version := s[..plus];
    var hyphen := FirstOf('-', version);
    var core := Parts('.', version[..hyphen]);
    var pre := if hyphen < |version| then Parts('.', version[hyphen + 1..]) else [];
    if plus < |s| && exists id :: id in Parts('.', s[plus + 1..]) && !IsIdentifier(id) then None
    else VersionOf(core, pre)
  }

  function VersionOf(core: seq<string>, pre: seq<string>): Option<SemVer> {
    if |core| != 3 || !NoLeadingZero(core[0]) || !NoLeadingZero(core[1]) || !NoLeadingZero(core[2]) then None
    else if exists id :: id in pre && !(IsIdentifier(id) && (Number(id) ==> NoLeadingZero(id))) then None
    else Some(SemVer(Value(core[0]), Value(core[1]), Value(core[2]), pre))
  }

  function CompareNumbers(a: int, b: int): int {
    if a < b then -1 else if a > b then 1 else 0
  }

  function CompareText(a: string, b: string): int {
    if a == b then 0 else if Less(a, b) then -1 else 1
  }

  /** Numeric identifiers by value, others by their characters, numeric ones first. */
  function CompareIdentifiers(a: string, b: string): int {
    if Number(a) && Number(b) then CompareNumbers(Value(a), Value(b))
    else if Number(a) then -1
    else if Number(b) then 1
    else CompareText(a, b)
  }

  function ComparePre(a: seq<string>, b: seq<string>): int {
    if a == [] && b == [] then 0
    else if a == [] then -1
    else if b == [] then 1
    else
      var c := CompareIdentifiers(a[0], b[0]);
      if c != 0 then c else ComparePre(a[1..], b[1..])
  }

  /** Core numbers first; a version without identifiers comes after one with them. */
  function Precedence(a: SemVer, b: SemVer): int {
    if a.major != b.major then CompareNumbers(a.major, b.major)
    else if a.minor != b.minor then CompareNumbers(a.minor, b.minor)
    else if a.patch != b.patch then CompareNumbers(a.patch, b.patch)
    else if a.pre == [] && b.pre == [] then 0
    else if a.pre == [] then 1
    else if b.pre == [] then -1
    else ComparePre(a.pre, b.pre)
  }

  // ---------- Numeric order ----------

  /** Number by number from the left. */
  function CompareValues(a: seq<string>, b: seq<string>): int
    requires |a| == |b| && AllNumbers(a) && AllNumbers(b)
  {
    if a == [] then 0
    else if Value(a[0]) != Value(b[0]) then CompareNumbers(Value(a[0]), Value(b[0]))
    else CompareValues(a[1..], b[1..])
  }

  // ---------- Reading a transformed tag ----------

  lemma {:induction false} PartsOfOne(c: char, s: string)
    requires c !in s
    ensures Parts(c, s) == [s]
  {
    if s != [] {
      assert s == [s[0]] + s[1..];
      PartsOfOne(c, s[1..]);
    }
  }

  lemma {:induction false} PartsOfMore(c: char, s: string, rest: string)
    requires c !in s
    ensures Parts(c, s + ([c] + rest)) == [s] + Parts(c, rest)
  {
    var t := s + ([c] + rest);
    if s == [] {
      assert t == [c] + rest && t[1..] == rest;
    } else {
      PartsOfMore(c, s[1..], rest);
      assert t[1..] == s[1..] + ([c] + rest);
      var more := Parts(c, t[1..]);
      assert more[0] == s[1..] && more[1..] == Parts(c, rest);
      assert s == [s[0]] + s[1..];
    }
  }

  lemma NumberHasNo(n: string, c: char)
    requires Number(n) && !IsDigit(c)
    ensures c !in n
  {
  }

  lemma ThreeParts(a: string, b: string, c: string)
    requires Number(a) && Number(b) && Number(c)
    ensures Parts('.', a + ("." + (b + ("." + c)))) == [a, b, c]
    ensures '-' !in a + ("." + (b + ("." + c)))
  {
    hide Parts;
    NumberHasNo(a, '.');
    NumberHasNo(b, '.');
    NumberHasNo(c, '.');
    PartsOfOne('.', c);
    PartsOfMore('.', b, c);
    PartsOfMore('.', a, b + ("." + c));
    NumberHasNo(a, '-');
    NumberHasNo(b, '-');
    NumberHasNo(c, '-');
  }

  lemma PreParts(g: seq<string>)
    requires (|g| == 4 || |g| == 5) && AllNumbers(g)
    ensures var pre := g[3] + if |g| == 5 then "." + g[4] else "";
            Parts('.', pre) == g[3..] && Parts('-', pre) == [pre]
  {
    NumberHasNo(g[3], '.');
    NumberHasNo(g[3], '-');
    if |g| == 5 {
      NumberHasNo(g[4], '.');
      NumberHasNo(g[4], '-');
      hide Parts;
      PartsOfOne('.', g[4]);
      PartsOfMore('.', g[3], g[4]);
      PartsOfOne('-', g[3] + ("." + g[4]));
      assert g[3..] == [g[3]] + [g[4]];
    } else {
      hide Parts;
      assert g[3] + "" == g[3];
      PartsOfOne('.', g[3]);
      PartsOfOne('-', g[3]);
    }
  }

  lemma TransformedHalves(g: seq<string>)
    requires |g| == 4 || |g| == 5
    ensures Transformed(g) == (g[0] + ("." + (g[1] + ("." + g[2]))))
                            + ("-" + (g[3] + if |g| == 5 then "." + g[4] else ""))
  {
    Halves(g[0], g[1], g[2], g[3], if |g| == 5 then "." + g[4] else "");
  }

  lemma Halves(a: string, b: string, c: string, d: string, e: string)
    ensures a + "." + b + "." + c + "-" + d + e == (a + ("." + (b + ("." + c)))) + ("-" + (d + e))
  {
  }

  /** Read loosely, a transformed tag has three numbers as its core and the others as identifiers. */
  lemma ReadTransformed(g: seq<string>)
    requires (|g| == 4 || |g| == 5) && AllNumbers(g)
    ensures ReadLoose(Transformed(g)) == Some(SemVer(Value(g[0]), Value(g[1]), Value(g[2]), g[3..]))
  {
    hide Parts, Value, Transformed;
    var core := g[0] + ("." + (g[1] + ("." + g[2])));
    var pre := g[3] + if |g| == 5 then "." + g[4] else "";
    TransformedHalves(g);
    ThreeParts(g[0], g[1], g[2]);
    PreParts(g);
    PartsOfMore('-', core, pre);
    var halves := Parts('-', Transformed(g));
    assert halves == [core] + [pre];
    assert halves[0] == core && halves[1] == pre;
  }

  lemma {:induction false} FirstOfNone(c: char, s: string)
    requires c !in s
    ensures FirstOf(c, s) == |s|
  {
    if s != "" {
      assert s == [s[0]] + s[1..];
      FirstOfNone(c, s[1..]);
    }
  }

  lemma {:induction false} FirstOfBetween(c: char, s: string, rest: string)
    requires c !in s
    ensures FirstOf(c, s + ([c] + rest)) == |s|
    ensures (s + ([c] + rest))[..|s|] == s && (s + ([c] + rest))[|s| + 1..] == rest
  {
    var t := s + ([c] + rest);
    if s == "" {
      assert t == [c] + rest;
    } else {
      FirstOfBetween(c, s[1..], rest);
      assert t[1..] == s[1..] + ([c] + rest);
    }
  }

  lemma NoPlus(g: seq<string>)
    requires (|g| == 4 || |g| == 5) && AllNumbers(g)
    ensures '+' !in Transformed(g)
  {
    forall i | 0 <= i < |g| ensures '+' !in g[i] {
      NumberHasNo(g[i], '+');
    }
    hide Number, AllNumbers;
  }

  lemma NumberIsIdentifier(n: string)
    requires Number(n)
    ensures IsIdentifier(n)
  {
  }

  lemma FivePlaces(g: seq<string>)
    requires |g| == 4 || |g| == 5
    ensures AllStrict(g) <==>
            NoLeadingZero(g[0]) && NoLeadingZero(g[1]) && NoLeadingZero(g[2]) && forall n :: n in g[3..] ==> NoLeadingZero(n)
  {
    hide NoLeadingZero;
    assert forall i :: 0 <= i < |g| ==> i == 0 || i == 1 || i == 2 || g[i] in g[3..];
  }

  predicate AllStrict(g: seq<string>) {
    forall i :: 0 <= i < |g| ==> NoLeadingZero(g[i])
  }

  /** A transformed tag is a semantic version exactly if none of its numbers has a leading zero. */
  lemma TransformedIsSemVerIff(g: seq<string>)
    requires (|g| == 4 || |g| == 5) && AllNumbers(g)
    ensures ParseSemVer(Transformed(g)).Some? <==> AllStrict(g)
    ensures AllStrict(g) ==> ParseSemVer(Transformed(g)) == ReadLoose(Transformed(g))
  {
    var core := g[0] + ("." + (g[1] + ("." + g[2])));
    var pre := g[3] + if |g| == 5 then "." + g[4] else "";
    TransformedHalves(g);
    ThreeParts(g[0], g[1], g[2]);
    PreParts(g);
    NoPlus(g);
    ReadTransformed(g);
    hide *;
    ParseHalves(core, pre);
    VersionOfNumbers(g);
  }

  lemma ParseHalves(core: string, pre: string)
    requires '-' !in core && '+' !in core + ("-" + pre)
    ensures ParseSemVer(core + ("-" + pre)) == VersionOf(Parts('.', core), Parts('.', pre))
  {
    hide Parts, VersionOf, FirstOf, IsIdentifier;
    var t := core + ("-" + pre);
    FirstOfBetween('-', core, pre);
    FirstOfNone('+', t);
    assert t[..|t|] == t;
  }

  lemma VersionOfNumbers(g: seq<string>)
    requires (|g| == 4 || |g| == 5) && AllNumbers(g)
    ensures VersionOf([g[0], g[1], g[2]], g[3..])
         == if AllStrict(g) then Some(SemVer(Value(g[0]), Value(g[1]), Value(g[2]), g[3..])) else None
  {
    hide Value, NoLeadingZero, IsIdentifier, AllStrict, Number;
    FivePlaces(g);
    forall id | id in g[3..] ensures IsIdentifier(id) && Number(id) {
      var i :| 3 <= i < |g| && g[i] == id;
      NumberIsIdentifier(id);
    }
  }

  /** A four-part tag whose transform is no semantic version, although it is read in order. */
  lemma LeadingZeroIsNoSemVer()
    ensures TagValueValid("1.02.3.4") && IsFourPart("1.02.3.4", false)
    ensures TransformsTo(ManagedTransform("1.02.3.4"), "1.02.3.4", "1.02.3-4")
    ensures ParseSemVer("1.02.3-4").None? && ReadLoose("1.02.3-4").Some?
  {
    var g := ["1", "02", "3", "4"];
    assert !NoLeadingZero(g[1]) && AllNumbers(g);
    hide *;
    SampleTag(g);
    TransformedSample();
    FourNumbers(g, "1.02.3.4");
    var h := ManagedTransformRewrites("1.02.3.4", false);
    TransformedIsSemVerIff(g);
    ReadTransformed(g);
    OneLeadingZero(g, 1);
  }

  lemma OneLeadingZero(g: seq<string>, i: nat)
    requires i < |g| && !NoLeadingZero(g[i])
    ensures !AllStrict(g)
  {
    hide NoLeadingZero;
  }

  lemma SampleTag(g: seq<string>)
    requires g == ["1", "02", "3", "4"]
    ensures "1.02.3.4" == g[0] + ("." + g[1] + ("." + g[2] + ("." + g[3])))
    ensures TagValueValid("1.02.3.4")
  {
    assert "." + "4" == ".4" && "." + "3" + ".4" == ".3.4" && "." + "02" + ".3.4" == ".02.3.4";
  }

  lemma TransformedSample()
    ensures Transformed(["1", "02", "3", "4"]) == "1.02.3-4"
  {
    assert "1" + "." + "02" == "1.02";
  }

  lemma {:induction false} ComparePreValues(a: seq<string>, b: seq<string>)
    requires |a| == |b| && AllNumbers(a) && AllNumbers(b)
    ensures ComparePre(a, b) == CompareValues(a, b)
  {
    if a != [] {
      ComparePreValues(a[1..], b[1..]);
    }
  }

  lemma CompareThree(a: seq<string>, b: seq<string>)
    requires |a| == |b| >= 4 && AllNumbers(a) && AllNumbers(b)
    ensures CompareValues(a, b) ==
            if Value(a[0]) != Value(b[0]) then CompareNumbers(Value(a[0]), Value(b[0]))
            else if Value(a[1]) != Value(b[1]) then CompareNumbers(Value(a[1]), Value(b[1]))
            else if Value(a[2]) != Value(b[2]) then CompareNumbers(Value(a[2]), Value(b[2]))
            else CompareValues(a[3..], b[3..])
  {
    hide Value, CompareNumbers;
    assert a[1..][1..] == a[2..] && b[1..][1..] == b[2..];
    assert a[2..][1..] == a[3..] && b[2..][1..] == b[3..];
    assert CompareValues(a[2..], b[2..]) ==
           if Value(a[2]) != Value(b[2]) then CompareNumbers(Value(a[2]), Value(b[2]))
           else CompareValues(a[3..], b[3..]);
    assert CompareValues(a[1..], b[1..]) ==
           if Value(a[1]) != Value(b[1]) then CompareNumbers(Value(a[1]), Value(b[1]))
           else CompareValues(a[2..], b[2..]);
  }

  /**
   Tags of one four-part form: whatever the managed transform makes of two of them is read as
   versions whose precedence is the numeric order of the tags, part by part; these are semantic
   versions exactly if no number has a leading zero.
   */
  lemma TransformKeepsNumericOrder(x: string, y: string, ls: bool, a: seq<string>, b: seq<string>)
    requires IsFourPart(x, ls) && Captures(CaptureTokens(VPrefix(x), ls), x, a)
    requires IsFourPart(y, ls) && Captures(CaptureTokens(VPrefix(y), ls), y, b)
    ensures |a| == |b| && (|a| == 4 || |a| == 5)
    ensures TransformsTo(ManagedTransform(x), x, Transformed(a))
    ensures TransformsTo(ManagedTransform(y), y, Transformed(b))
    ensures ReadLoose(Transformed(a)).Some? && ReadLoose(Transformed(b)).Some?
    ensures Precedence(ReadLoose(Transformed(a)).value, ReadLoose(Transformed(b)).value) == CompareValues(a, b)
    ensures ParseSemVer(Transformed(a)).Some? <==> AllStrict(a)
    ensures AllStrict(a) ==> ParseSemVer(Transformed(a)) == ReadLoose(Transformed(a))
  {
    hide *;
    var a' := ManagedTransformRewrites(x, ls);
    var b' := ManagedTransformRewrites(y, ls);
    CapturedNumbers(CaptureTokens(VPrefix(x), ls), x, a);
    CapturedNumbers(CaptureTokens(VPrefix(y), ls), y, b);
    ReadTransformed(a);
    ReadTransformed(b);
    TransformedIsSemVerIff(a);
    SamePrecedence(a, b);
  }

  lemma CapturedNumbers(ts: seq<Token>, text: string, groups: seq<string>)
    requires Captures(ts, text, groups)
    ensures AllNumbers(groups)
  {
  }

  /** Semantic-version precedence of the read groups is their numeric order. */
  lemma SamePrecedence(a: seq<string>, b: seq<string>)
    requires |a| == |b| >= 4 && AllNumbers(a) && AllNumbers(b)
    ensures Precedence(SemVer(Value(a[0]), Value(a[1]), Value(a[2]), a[3..]),
                       SemVer(Value(b[0]), Value(b[1]), Value(b[2]), b[3..])) == CompareValues(a, b)
  {
    hide Value, CompareNumbers, ComparePre, CompareValues;
    CompareThree(a, b);
    ComparePreValues(a[3..], b[3..]);
  }

  // ---------- The order of the standard ----------

  function OneZeroZero(pre: seq<string>): SemVer {
    SemVer(1, 0, 0, pre)
  }

  /** The versions of section 11 of SemVer 2.0.0, in their order. */
  lemma SectionElevenOrder()
    ensures Precedence(OneZeroZero(["alpha"]), OneZeroZero(["alpha", "1"])) == -1
    ensures Precedence(OneZeroZero(["alpha", "1"]), OneZeroZero(["alpha", "beta"])) == -1
    ensures Precedence(OneZeroZero(["alpha", "beta"]), OneZeroZero(["beta"])) == -1
    ensures Precedence(OneZeroZero(["beta"]), OneZeroZero(["beta", "2"])) == -1
    ensures Precedence(OneZeroZero(["beta", "2"]), OneZeroZero(["beta", "11"])) == -1
    ensures Precedence(OneZeroZero(["beta", "11"]), OneZeroZero(["rc", "1"])) == -1
    ensures Precedence(OneZeroZero(["rc", "1"]), OneZeroZero([])) == -1
    ensures Precedence(OneZeroZero([]), SemVer(2, 0, 0, [])) == -1
    ensures Precedence(SemVer(2, 0, 0, []), SemVer(2, 1, 0, [])) == -1
    ensures Precedence(SemVer(2, 1, 0, []), SemVer(2, 1, 1, [])) == -1
  {
    hide CompareIdentifiers;
    SampleIdentifiers();
    Behind("alpha", [], ["1"]);
    Behind("alpha", ["1"], ["beta"]);
    Behind("beta", [], ["2"]);
    Behind("beta", ["2"], ["11"]);
  }

  lemma Behind(first: string, a: seq<string>, b: seq<string>)
    requires CompareIdentifiers(first, first) == 0
    ensures ComparePre([first] + a, [first] + b) == ComparePre(a, b)
  {
    hide CompareIdentifiers;
    assert ([first] + a)[1..] == a && ([first] + b)[1..] == b;
  }

  lemma SampleIdentifiers()
    ensures CompareIdentifiers("alpha", "alpha") == 0 && CompareIdentifiers("beta", "beta") == 0
    ensures CompareIdentifiers("1", "beta") == -1 && CompareIdentifiers("alpha", "beta") == -1
    ensures CompareIdentifiers("2", "11") == -1 && CompareIdentifiers("beta", "rc") == -1
  {
    assert "alpha"[0] == 'a' && "beta"[0] == 'b' && "rc"[0] == 'r';
    assert !Number("alpha") && !Number("beta") && !Number("rc");
    SampleNumbers();
  }

  lemma SampleNumbers()
    ensures Number("1") && Number("2") && Number("11") && Value("2") == 2 && Value("11") == 11
  {
    assert "2"[..0] == "" && "11"[..1] == "1" && "1"[..0] == "";
  }

  /** Compared the other way round, the order is turned round. */
  lemma PrecedenceTurned(a: SemVer, b: SemVer)
    ensures Precedence(a, b) == -Precedence(b, a)
  {
    PreTurned(a.pre, b.pre);
  }

  lemma {:induction false} PreTurned(a: seq<string>, b: seq<string>)
    ensures ComparePre(a, b) == -ComparePre(b, a)
  {
    if a != [] && b != [] {
      IdentifiersTurned(a[0], b[0]);
      PreTurned(a[1..], b[1..]);
    }
  }

  lemma IdentifiersTurned(a: string, b: string)
    ensures CompareIdentifiers(a, b) == -CompareIdentifiers(b, a)
  {
    TextTurned(a, b);
  }

  lemma TextTurned(a: string, b: string)
    ensures CompareText(a, b) == -CompareText(b, a)
  {
    LessTotal(a, b);
  }
}
