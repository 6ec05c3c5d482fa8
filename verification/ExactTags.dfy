/**
 Patterns that accept an exact set of tags, the recogniser of single-tag patterns, and the
 merging of exclusion labels.
 */
module ExactTags {
  import opened Ordering
  import opened Regex
  import opened TagTokens
  import opened TagScanning
  import opened TagStreams

  // ---------- Exact patterns ----------

  function Fragments(tags: seq<string>): (fs: seq<string>)
    ensures |fs| == |tags| && forall i :: 0 <= i < |tags| ==> fs[i] == Escape(tags[i])
  {
    seq(|tags|, i requires 0 <= i < |tags| => Escape(tags[i]))
  }

  function JoinBars(fs: seq<string>): string {
    if fs == [] then "" else if |fs| == 1 then fs[0] else fs[0] + ("|" + JoinBars(fs[1..]))
  }

  /** The sorted distinct tags as an anchored alternation; no tags give no pattern. */
  function ExactTagsRegex(tags: seq<string>): string {
    var fragments := Fragments(SortedUnique(tags));
    if fragments == [] then ""
    else if |fragments| == 1 then Anchored(fragments[0])
    else Anchored("(?:" + JoinBars(fragments) + ")")
  }

  /** `JoinBars(Fragments(tags))` is read as the alternatives, one per tag. */
  function AlternativesTree(tags: seq<string>): Tree
    requires tags != []
  {
    var first := SequenceTree(Literals(tags[0]), Nothing);
    if |tags| == 1 then first else Alt(first, AlternativesTree(tags[1..]))
  }

  lemma ParseOneTag(tag: string, rest: string)
    requires rest == "" || rest[0] == '|' || rest[0] == ')'
    ensures ParseSequence(Escape(tag) + rest) == Some(Parsed(SequenceTree(Literals(tag), Nothing), rest))
  {
    assert ParseSequence(rest) == Some(Parsed(Nothing, rest));
    TextOfLiterals(tag);
    ParseTokens(Literals(tag), rest);
  }

  lemma {:induction false} ParseBars(tags: seq<string>, rest: string)
    requires tags != [] && Closes(rest)
    ensures ParseAlternatives(JoinBars(Fragments(tags)) + rest) == Some(Parsed(AlternativesTree(tags), rest))
    decreases |tags|
  {
    var fs := Fragments(tags);
    if |tags| == 1 {
      ParseOneTag(tags[0], rest);
      OneAlternative(fs[0] + rest, AlternativesTree(tags), rest);
    } else {
      var more := JoinBars(fs[1..]) + rest;
      ParseBars(tags[1..], rest);
      assert fs[1..] == Fragments(tags[1..]);
      ParseOneTag(tags[0], "|" + more);
      MoreBars(fs, rest);
      hide JoinBars, ParseSequence, ParseAlternatives, Escape;
      FirstAlternative(fs[0] + ("|" + more), SequenceTree(Literals(tags[0]), Nothing), more,
                       AlternativesTree(tags[1..]), rest);
    }
  }

  lemma MoreBars(fs: seq<string>, rest: string)
    requires |fs| > 1
    ensures JoinBars(fs) + rest == fs[0] + ("|" + (JoinBars(fs[1..]) + rest))
  {
    var tail := JoinBars(fs[1..]);
    assert fs[0] + ("|" + tail) + rest == fs[0] + ("|" + (tail + rest));
  }

  lemma OneAlternative(s: string, tree: Tree, rest: string)
    requires ParseSequence(s) == Some(Parsed(tree, rest)) && Closes(rest)
    ensures ParseAlternatives(s) == Some(Parsed(tree, rest))
  {
    hide ParseSequence;
  }

  lemma FirstAlternative(s: string, first: Tree, more: string, others: Tree, rest: string)
    requires ParseSequence(s) == Some(Parsed(first, "|" + more))
    requires ParseAlternatives(more) == Some(Parsed(others, rest))
    ensures ParseAlternatives(s) == Some(Parsed(Alt(first, others), rest))
  {
    hide ParseSequence;
    assert ("|" + more)[1..] == more;
  }

  lemma {:induction false} MatchLiterals(s: string, text: string, i: nat, j: nat)
    requires i <= j <= |text|
    ensures Match(SequenceTree(Literals(s), Nothing), text, i, j) <==> text[i..j] == s
    decreases |s|
  {
    if s != [] {
      var tail := SequenceTree(Literals(s[1..]), Nothing);
      assert Literals(s)[1..] == Literals(s[1..]);
      CatSplits(Lit(s[0]), tail, text, i, j);
      if i < j {
        MatchLiterals(s[1..], text, i + 1, j);
        assert text[i..j] == [text[i]] + text[i + 1..j];
        assert s == [s[0]] + s[1..];
        if text[i..j] == s {
          assert text[i] == text[i..j][0];
          assert text[i + 1..j] == text[i..j][1..];
          assert MatchAt(Lit(s[0]), text, i, i + 1) && MatchAt(tail, text, i + 1, j);
        }
      }
    }
  }

  lemma {:induction false} MatchBars(tags: seq<string>, text: string, i: nat, j: nat)
    requires i <= j <= |text| && tags != []
    ensures Match(AlternativesTree(tags), text, i, j) <==> text[i..j] in tags
    decreases |tags|
  {
    MatchLiterals(tags[0], text, i, j);
    if |tags| > 1 {
      MatchBars(tags[1..], text, i, j);
      assert tags == [tags[0]] + tags[1..];
    }
  }

  lemma ParseGroupOfBars(tags: seq<string>)
    requires tags != []
    ensures var body := "(?:" + JoinBars(Fragments(tags)) + ")";
            Parse(Anchored(body)) == Some(Cat(Start, Cat(AlternativesTree(tags), END_TREE)))
  {
    hide ParseAlternatives;
    var inner := JoinBars(Fragments(tags));
    ParseBars(tags, ")" + "$");
    ParseDollar();
    GroupAnchored(inner, AlternativesTree(tags));
  }

  lemma GroupAnchored(inner: string, tree: Tree)
    requires ParseAlternatives(inner + (")" + "$")) == Some(Parsed(tree, ")" + "$"))
    requires ParseSequence("$") == Some(Parsed(END_TREE, ""))
    ensures Parse(Anchored("(?:" + inner + ")")) == Some(Cat(Start, Cat(tree, END_TREE)))
  {
    hide *;
    var group := "(?:" + (inner + (")" + "$"));
    var s := "^" + group;
    AnchoredGroup(inner);
    GroupThenDollar(inner, tree);
    GroupOpens(inner + (")" + "$"));
    CaretAtom(group);
    OnceOnly(s, Start, group);
    ThenSequence(s, Start, group);
    WholePattern(s, Cat(Start, Cat(tree, END_TREE)));
  }

  lemma AnchoredGroup(inner: string)
    ensures Anchored("(?:" + inner + ")") == "^" + ("(?:" + (inner + (")" + "$")))
  {
  }

  lemma GroupOpens(rest: string)
    ensures var group := "(?:" + rest;
            && group != "" && group[0] == '(' && !IsQuantifier(group[0]) && group[0] != '|' && group[0] != ')'
  {
  }

  lemma GroupThenDollar(inner: string, tree: Tree)
    requires ParseAlternatives(inner + (")" + "$")) == Some(Parsed(tree, ")" + "$"))
    requires ParseSequence("$") == Some(Parsed(END_TREE, ""))
    ensures ParseSequence("(?:" + (inner + (")" + "$"))) == Some(Parsed(Cat(tree, END_TREE), ""))
  {
    hide ParseAlternatives;
    var s := "(?:" + (inner + (")" + "$"));
    assert s[3..] == inner + (")" + "$");
    assert (")" + "$")[1..] == "$";
    assert ParseAtom(s) == Some(Parsed(tree, "$"));
    assert ParseRepeated(s) == Some(Parsed(tree, "$"));
  }

  /** A multi-tag pattern accepts exactly its tags. */
  lemma BarsAccept(tags: seq<string>, text: string)
    requires tags != []
    ensures Accepts(Anchored("(?:" + JoinBars(Fragments(tags)) + ")"), text) <==> text in tags
  {
    hide Parse, Match, AlternativesTree, JoinBars;
    var alternatives := AlternativesTree(tags);
    var inner := Cat(alternatives, END_TREE);
    var tree := Cat(Start, inner);
    ParseGroupOfBars(tags);
    assert text[0..|text|] == text;
    MatchEnd(text, |text|, |text|);
    if text in tags {
      MatchBars(tags, text, 0, |text|);
      MatchStart(text, 0, 0);
      assert MatchAt(alternatives, text, 0, |text|) && MatchAt(END_TREE, text, |text|, |text|);
      CatSplits(alternatives, END_TREE, text, 0, |text|);
      assert MatchAt(Start, text, 0, 0) && MatchAt(inner, text, 0, |text|);
      CatSplits(Start, inner, text, 0, |text|);
      assert MatchAt(tree, text, 0, |text|);
    }
    if i, j :| MatchAt(tree, text, i, j) {
      CatSplits(Start, inner, text, i, j);
      var k: nat :| MatchAt(Start, text, i, k) && MatchAt(inner, text, k, j);
      MatchStart(text, i, k);
      CatSplits(alternatives, END_TREE, text, k, j);
      var n: nat :| MatchAt(alternatives, text, k, n) && MatchAt(END_TREE, text, n, j);
      MatchEnd(text, n, j);
      MatchBars(tags, text, k, n);
    }
  }

  lemma MatchStart(text: string, i: nat, j: nat)
    requires i <= j <= |text|
    ensures Match(Start, text, i, j) <==> i == j == 0
  {
  }

  /** Exact patterns accept exactly their tags. */
  lemma ExactPatternAccepts(tags: seq<string>, text: string)
    requires tags != []
    ensures Accepts(ExactTagsRegex(tags), text) <==> text in tags
  {
    hide Accepts;
    var sorted := SortedUnique(tags);
    assert Elements(sorted) == Elements(tags);
    assert text in tags <==> text in Elements(tags);
    assert text in sorted <==> text in Elements(sorted);
    assert tags[0] in Elements(tags);
    assert sorted != [];
    if |sorted| == 1 {
      TextOfLiterals(sorted[0]);
      AnchoredAccepts(Literals(sorted[0]), text);
      DerivesLiterals(sorted[0], text);
    } else {
      BarsAccept(sorted, text);
    }
  }

  /** The pattern depends only on the set of tags. */
  lemma ExactPatternOfSet(a: seq<string>, b: seq<string>)
    requires Elements(a) == Elements(b)
    ensures ExactTagsRegex(a) == ExactTagsRegex(b)
  {
    IncreasingUnique(SortedUnique(a), SortedUnique(b));
  }

  lemma SingleTag(tag: string)
    ensures ExactTagsRegex([tag]) == Anchored(Escape(tag))
  {
    assert SortedUnique([tag]) == [tag];
  }

  // ---------- The recogniser ----------

  /** Whether a label value is the exact pattern of one valid tag, read character by character. */
  method IsSimpleExactTagInclude(value: string) returns (r: bool)
    ensures r <==> exists tag :: TagValueValid(tag) && value == ExactTagsRegex([tag])
  {
    if |value| < 3 || value[0] != '^' || value[|value| - 1] != '$' {
      forall tag | TagValueValid(tag) ensures value != ExactTagsRegex([tag]) {
        AnchoredShape(tag);
      }
      return false;
    }
    var end := |value| - 1;
    var tag := ReadEscapedTag(value, end);
    assert value == Anchored(value[1..end]);
    ExactOfBody(value[1..end]);
    if tag.Some? {
      forall t | Escape(t) == Escape(tag.value) ensures t == tag.value {
        EscapeInjective(t, tag.value);
      }
    }
    return tag.Some? && TagValueValid(tag.value);
  }

  /** The loop of the recogniser over the characters between the anchors. */
  method ReadEscapedTag(value: string, end: nat) returns (tag: Option<string>)
    requires 1 <= end < |value|
    ensures tag.Some? ==> Escape(tag.value) == value[1..end]
    ensures tag.None? ==> forall t :: Escape(t) != value[1..end]
  {
    var tagChars := "";
    var index := 1;
    while index < end
      invariant 1 <= index <= end
      invariant Escape(tagChars) + value[index..end] == value[1..end]
    {
      hide Escape, EscapeChar, StartsEscaped;
      var c := value[index];
      if c == '\\' {
        EscapedHead(value, index, end);
        index := index + 1;
        if index >= end || !IsSpecial(value[index]) {
          BadEscape(value[1..end], tagChars, value[index - 1..end]);
          return None;
        }
        EscapeStep(value[1..end], tagChars, value[index], value[index - 1..end], value[index + 1..end]);
        tagChars := tagChars + [value[index]];
        index := index + 1;
      } else if IsSpecial(c) {
        PlainHead(value, index, end);
        BadEscape(value[1..end], tagChars, value[index..end]);
        return None;
      } else {
        PlainHead(value, index, end);
        EscapeStep(value[1..end], tagChars, c, value[index..end], value[index + 1..end]);
        tagChars := tagChars + [c];
        index := index + 1;
      }
    }
    assert value[index..end] == "";
    return Some(tagChars);
  }

  lemma PlainHead(value: string, index: nat, end: nat)
    requires index < end <= |value| && value[index] != '\\'
    ensures IsSpecial(value[index]) ==> !StartsEscaped(value[index..end])
    ensures !IsSpecial(value[index]) ==> value[index..end] == EscapeChar(value[index]) + value[index + 1..end]
  {
    assert value[index..end] == [value[index]] + value[index + 1..end];
  }

  lemma EscapedHead(value: string, index: nat, end: nat)
    requires index < end <= |value| && value[index] == '\\'
    ensures index + 1 >= end || !IsSpecial(value[index + 1]) ==> !StartsEscaped(value[index..end])
    ensures index + 1 < end && IsSpecial(value[index + 1]) ==>
              value[index..end] == EscapeChar(value[index + 1]) + value[index + 2..end]
  {
    if index + 1 < end {
      assert value[index..end] == [value[index], value[index + 1]] + value[index + 2..end];
    }
  }

  lemma EscapeStep(body: string, tagChars: string, c: char, before: string, after: string)
    requires Escape(tagChars) + before == body && before == EscapeChar(c) + after
    ensures Escape(tagChars + [c]) + after == body
  {
    hide Escape;
    EscapeAppend(tagChars, c);
    Associative(Escape(tagChars), EscapeChar(c), after);
  }

  /** A value between anchors is an exact pattern exactly when the part between them is an escaped tag. */
  lemma ExactOfBody(body: string)
    ensures forall t :: Anchored(body) == ExactTagsRegex([t]) <==> Escape(t) == body
  {
    forall t ensures Anchored(body) == ExactTagsRegex([t]) <==> Escape(t) == body {
      SingleTag(t);
      if Anchored(body) == Anchored(Escape(t)) {
        AnchoredInjective(Escape(t), body);
      }
    }
  }

  lemma AnchoredShape(tag: string)
    requires TagValueValid(tag)
    ensures var p := ExactTagsRegex([tag]); |p| >= 3 && p[0] == '^' && p[|p| - 1] == '$'
  {
    SingleTag(tag);
  }

  lemma AnchoredInjective(a: string, b: string)
    requires Anchored(a) == Anchored(b)
    ensures a == b
  {
    assert Anchored(a)[1..|a| + 1] == a && Anchored(b)[1..|b| + 1] == b;
  }

  lemma {:induction false} EscapeAppend(s: string, c: char)
    ensures Escape(s + [c]) == Escape(s) + EscapeChar(c)
  {
    if s == [] {
      assert [] + [c] == [c] && [c][1..] == [];
      assert Escape([]) == [];
    } else {
      assert (s + [c])[1..] == s[1..] + [c];
      EscapeAppend(s[1..], c);
      Associative(EscapeChar(s[0]), Escape(s[1..]), EscapeChar(c));
    }
  }

  /** Escaped text starts with an unescaped plain character or an escaped special one. */
  predicate StartsEscaped(s: string) {
    s == "" || (if s[0] == '\\' then |s| >= 2 && IsSpecial(s[1]) else !IsSpecial(s[0]))
  }

  /** A common start of escaped texts leaves escaped texts. */
  lemma {:induction false} EscapeCancel(prefix: string, rest: string, tag: string)
    requires Escape(prefix) + rest == Escape(tag)
    ensures prefix <= tag && rest == Escape(tag[|prefix|..])
  {
    if prefix == [] {
      assert Escape(prefix) + rest == rest && tag[0..] == tag;
    } else {
      var e := EscapeChar(prefix[0]);
      Associative(e, Escape(prefix[1..]), rest);
      SameFirst(e, Escape(prefix[1..]) + rest, prefix[0], tag);
      EscapeCancel(prefix[1..], rest, tag[1..]);
      hide Escape;
      assert prefix == [prefix[0]] + prefix[1..] && tag == [tag[0]] + tag[1..];
      assert tag[1..][|prefix| - 1..] == tag[|prefix|..];
    }
  }

  /** Escaped text that starts like an escaped character is that of a tag that starts with it. */
  lemma SameFirst(e: string, others: string, c: char, tag: string)
    requires e == EscapeChar(c) && e + others == Escape(tag)
    ensures tag != [] && tag[0] == c && others == Escape(tag[1..])
  {
    assert tag != [];
    var d, tail := EscapeChar(tag[0]), Escape(tag[1..]);
    assert Escape(tag) == d + tail;
    hide Escape;
    assert (e + others)[0] == e[0] && (d + tail)[0] == d[0];
    assert |e| == 2 ==> (e + others)[1] == e[1];
    assert |d| == 2 ==> (d + tail)[1] == d[1];
    assert tag[0] == c;
    assert (e + others)[|e|..] == others && (d + tail)[|d|..] == tail;
  }

  lemma EscapeInjective(a: string, b: string)
    requires Escape(a) == Escape(b)
    ensures a == b
  {
    assert Escape(a) + "" == Escape(b);
    EscapeCancel(a, "", b);
  }

  lemma BadEscape(body: string, tagChars: string, rest: string)
    requires Escape(tagChars) + rest == body && !StartsEscaped(rest)
    ensures forall t :: Escape(t) != body
  {
    forall t | Escape(t) == body ensures false {
      EscapeCancel(tagChars, rest, t);
      EscapedStart(t[|tagChars|..]);
    }
  }

  lemma EscapedStart(s: string)
    ensures StartsEscaped(Escape(s))
  {
  }
}
