/**
 The forms of tags that the scans decide (src/wudup/tag_streams.py, src/wudup/compose_rewrite.py),
 written out with their numbers.
 */
module TagForms {
  import opened Ordering
  import opened TagTokens
  import opened TagScanning
  import opened TagStreams
  import opened TagTransforms

  /** Three numbers between dots, perhaps with a `v` in front. */
  ghost predicate VersionForm(s: string) {
    exists prefix, a, b, c :: (prefix == "" || prefix == "v") && Number(a) && Number(b) && Number(c)
                              && s == prefix + (a + ("." + b + ("." + c)))
  }

  /** Nothing, or a separator with one line of text behind it. */
  ghost predicate SuffixForm(s: string) {
    s == "" || exists rest :: rest != "" && '\n' !in rest && (s == "-" + rest || s == "_" + rest || s == "." + rest)
  }

  /** Four numbers between dots, perhaps with a `v` in front, and `-ls` with a fifth one if asked for. */
  ghost predicate FourPartForm(tag: string, ls: bool) {
    exists prefix, a, b, c, d, e ::
      && (prefix == "" || prefix == "v") && Number(a) && Number(b) && Number(c) && Number(d)
      && (if ls then exists n :: Number(n) && e == "-ls" + n else e == "")
      && tag == prefix + (a + ("." + b + ("." + c + ("." + d)))) + e
  }

  // ---------- Filled pieces ----------

  const DOT_NUMBER := [Literal('.'), Digits]

  lemma OnePiece(n: string)
    ensures NumberPieces([Digits]) == 1 && Fill([Digits], [n]) == n
    ensures NumberPieces(DOT_NUMBER) == 1 && Fill(DOT_NUMBER, [n]) == "." + n
  {
    assert [Digits][1..] == [] && [n][1..] == [] && DOT_NUMBER[1..] == [Digits];
    assert Fill([Digits], [n]) == n;
  }

  /** The text of three numbers. */
  lemma FillThree(prefix: string, g: seq<string>)
    requires |g| == 3
    ensures NumberPieces(VersionTokens(prefix)) == 3
    ensures Fill(VersionTokens(prefix), g) == prefix + (g[0] + ("." + g[1] + ("." + g[2])))
  {
    hide Fill, NumberPieces;
    OnePiece(g[0]);
    OnePiece(g[1]);
    OnePiece(g[2]);
    FillLiterals(prefix);
    assert THREE_PARTS == [Digits] + (DOT_NUMBER + DOT_NUMBER);
    FillConcat(DOT_NUMBER, DOT_NUMBER, [g[1]], [g[2]]);
    FillConcat([Digits], DOT_NUMBER + DOT_NUMBER, [g[0]], [g[1]] + [g[2]]);
    assert g == [g[0]] + ([g[1]] + [g[2]]);
    FillConcat(Literals(prefix), THREE_PARTS, [], g);
    assert [] + g == g;
  }

  lemma {:induction false} LiteralsHaveNoGroups(s: string)
    ensures NoGroups(Literals(s))
  {
    if s != "" { LiteralsHaveNoGroups(s[1..]); }
  }

  lemma NoGroupsThree(prefix: string)
    ensures NoGroups(VersionTokens(prefix))
  {
    LiteralsHaveNoGroups(prefix);
  }

  lemma VersionIff(s: string)
    ensures IsVersion(s) <==> VersionForm(s)
  {
    hide Fill, NumberPieces, Derives, VersionTokens, NoGroups, Number;
    if IsVersion(s) {
      var prefix := if Derives(VersionTokens(""), s) then "" else "v";
      NoGroupsThree(prefix);
      var g := DerivesFill(VersionTokens(prefix), s);
      FillThree(prefix, ["", "", ""]);
      FillThree(prefix, g);
      assert Number(g[0]) && Number(g[1]) && Number(g[2]);
    }
    if prefix, a, b, c :| (prefix == "" || prefix == "v") && Number(a) && Number(b) && Number(c)
                          && s == prefix + (a + ("." + b + ("." + c))) {
      NoGroupsThree(prefix);
      FillThree(prefix, [a, b, c]);
      FillDerives(VersionTokens(prefix), [a, b, c]);
    }
  }

  lemma SuffixIff(s: string)
    ensures IsSuffix(s) <==> SuffixForm(s)
  {
    if s != "" {
      assert s == [s[0]] + s[1..];
      if rest :| rest != "" && '\n' !in rest && (s == "-" + rest || s == "_" + rest || s == "." + rest) {
        assert s[1..] == rest;
      }
    }
  }

  /** A tag is a stream exactly if it is a version and a suffix, and these are then what it is read as. */
  lemma StreamIff(tag: string, version: string, suffix: string)
    ensures ParseTagStream(tag) == Some(TagStreamParts(version, suffix)) <==>
            tag == version + suffix && VersionForm(version) && SuffixForm(suffix)
  {
    hide *;
    ParseTagStreamIff(tag, version, suffix);
    VersionIff(version);
    SuffixIff(suffix);
  }

  // ---------- Four-part tags ----------

  lemma FillFive(prefix: string, g: seq<string>)
    requires (prefix == "" || prefix == "v") && |g| == 5
    ensures NumberPieces(CaptureTokens(prefix, true)) == 5
    ensures Fill(CaptureTokens(prefix, true), g)
         == prefix + (g[0] + ("." + g[1] + ("." + g[2] + ("." + g[3])))) + ("-ls" + g[4])
  {
    hide Fill, NumberPieces;
    FillFour(prefix, g[..4]);
    FillPieces(g[4]);
    assert CaptureTokens(prefix, true) == CaptureTokens(prefix, false) + CAPTURED_LS;
    FillConcat(CaptureTokens(prefix, false), CAPTURED_LS, g[..4], [g[4]]);
    assert g[..4] + [g[4]] == g;
  }

  lemma CapturedForm(prefix: string, ls: bool, tag: string)
    requires prefix == "" || prefix == "v"
    ensures Derives(FourPartTokens(prefix, ls), tag) ==> FourPartForm(tag, ls)
  {
    hide Fill, NumberPieces, Derives, FourPartTokens, CaptureTokens, NoGroups, Number;
    FourPartPieces(prefix, ls);
    if Derives(FourPartTokens(prefix, ls), tag) {
      GroupingKeepsDerives(FourPartTokens(prefix, ls), CaptureTokens(prefix, ls), tag);
      var g := DerivesFill(CaptureTokens(prefix, ls), tag);
      assert Number(g[0]) && Number(g[1]) && Number(g[2]) && Number(g[3]);
      if ls {
        assert Number(g[4]);
        FillFive(prefix, g);
      } else {
        FillFour(prefix, g);
        assert tag == tag + "";
      }
    }
  }

  lemma FormIsCaptured(prefix: string, ls: bool, g: seq<string>, tag: string)
    requires (prefix == "" || prefix == "v") && AllNumbers(g) && |g| == if ls then 5 else 4
    requires tag == prefix + (g[0] + ("." + g[1] + ("." + g[2] + ("." + g[3])))) + if ls then "-ls" + g[4] else ""
    ensures IsFourPart(tag, ls)
  {
    hide Fill, NumberPieces, Derives, FourPartTokens, CaptureTokens, NoGroups, Number;
    FourPartPieces(prefix, ls);
    if ls {
      FillFive(prefix, g);
    } else {
      FillFour(prefix, g);
      assert tag == Fill(CaptureTokens(prefix, ls), g);
    }
    FillDerives(CaptureTokens(prefix, ls), g);
    GroupingKeepsDerives(CaptureTokens(prefix, ls), FourPartTokens(prefix, ls), tag);
    IsFourPartIff(tag, ls);
  }

  /** Which tags are four-part versions. */
  lemma FourPartIff(tag: string, ls: bool)
    ensures IsFourPart(tag, ls) <==> FourPartForm(tag, ls)
  {
    hide Derives, FourPartTokens, IsFourPart, Number;
    if IsFourPart(tag, ls) {
      IsFourPartIff(tag, ls);
      CapturedForm("", ls, tag);
      CapturedForm("v", ls, tag);
    }
    if prefix, a, b, c, d, e :|
      && (prefix == "" || prefix == "v") && Number(a) && Number(b) && Number(c) && Number(d)
      && (if ls then exists n :: Number(n) && e == "-ls" + n else e == "")
      && tag == prefix + (a + ("." + b + ("." + c + ("." + d)))) + e
    {
      if ls {
        var n :| Number(n) && e == "-ls" + n;
        FormIsCaptured(prefix, ls, [a, b, c, d, n], tag);
      } else {
        FormIsCaptured(prefix, ls, [a, b, c, d], tag);
      }
    }
  }
}
