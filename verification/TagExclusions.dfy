/**
 The `wud.tag.exclude` label over any sequence of renders: what it excludes, how the managed
 pattern is merged into it, and how its dollars are escaped for Compose.
 */
module TagExclusions {
  import opened Ordering
  import opened Regex
  import opened TagTokens
  import opened TagStreams
  import opened ExactTags

  // ---------- Dollars ----------

  function EscapeDollars(v: string): string {
    if v == "" then "" else (if v[0] == '$' then "$$" else [v[0]]) + EscapeDollars(v[1..])
  }

  predicate StartsPair(v: string) {
    |v| >= 2 && v[0] == '$' && v[1] == '$'
  }

  /** Each pair of dollars, from the left, becomes one. */
  function UnescapeDollars(v: string): string {
    if v == "" then ""
    else if StartsPair(v) then "$" + UnescapeDollars(v[2..])
    else [v[0]] + UnescapeDollars(v[1..])
  }

  function WithoutPairs(v: string): string {
    if v == "" then "" else if StartsPair(v) then WithoutPairs(v[2..]) else [v[0]] + WithoutPairs(v[1..])
  }

  predicate StartsName(c: char) {
    c == '{' || c == '_' || 'a' <= c <= 'z' || 'A' <= c <= 'Z'
  }

  /** A dollar that is not part of a pair, before a name or a brace. */
  predicate HasInterpolation(v: string) {
    var w := WithoutPairs(v);
    exists i :: 0 <= i < |w| - 1 && w[i] == '$' && StartsName(w[i + 1])
  }

  // ---------- Dollars that are not paired ----------

  /** How many dollars end at `i`. */
  ghost function DollarsUpTo(v: string, i: int): nat
    requires i < |v|
    decreases i + 1
  {
    if i < 0 || v[i] != '$' then 0 else 1 + DollarsUpTo(v, i - 1)
  }

  /** The last of an odd number of dollars in a row. */
  ghost predicate Unpaired(v: string, i: int) {
    0 <= i < |v| && v[i] == '$' && (i == |v| - 1 || v[i + 1] != '$') && DollarsUpTo(v, i) % 2 == 1
  }

  /** Such a dollar before a brace, an underscore or a letter. */
  ghost predicate Variable(v: string, i: int) {
    Unpaired(v, i) && i + 1 < |v|
    && (v[i + 1] == '{' || v[i + 1] == '_' || 'a' <= v[i + 1] <= 'z' || 'A' <= v[i + 1] <= 'Z')
  }

  lemma {:induction false} DollarsShifted(front: string, v: string, i: nat)
    requires i < |v| && (front == "$$" || (|front| == 1 && (front[0] != '$' || v[0] != '$')))
    ensures DollarsUpTo(front + v, |front| + i) % 2 == DollarsUpTo(v, i) % 2
    decreases i
  {
    var s := front + v;
    assert s[|front| + i] == v[i];
    if v[i] == '$' {
      if i > 0 {
        DollarsShifted(front, v, i - 1);
      } else if front == "$$" {
        assert s[1] == '$' && s[0] == '$';
        assert DollarsUpTo(s, 0) == 1 && DollarsUpTo(s, 1) == 2;
      } else {
        assert s[0] == front[0];
      }
    }
  }

  lemma UnpairedShifted(front: string, v: string, i: nat)
    requires i < |v| && (front == "$$" || (|front| == 1 && (front[0] != '$' || v[0] != '$')))
    ensures Unpaired(front + v, |front| + i) <==> Unpaired(v, i)
    ensures Variable(front + v, |front| + i) <==> Variable(v, i)
  {
    DollarsShifted(front, v, i);
    hide DollarsUpTo;
    assert (front + v)[|front| + i] == v[i];
    assert i + 1 < |v| ==> (front + v)[|front| + i + 1] == v[i + 1];
  }

  ghost predicate SomeUnpaired(v: string) {
    exists i :: Unpaired(v, i)
  }

  ghost predicate SomeVariable(v: string) {
    exists i :: Variable(v, i)
  }

  /** Only the first character, or neither of the first pair, can be unpaired besides those of the rest. */
  lemma UnpairedFirst(front: string, v: string)
    requires front == "$$" || (|front| == 1 && (front[0] != '$' || v == "" || v[0] != '$'))
    ensures SomeUnpaired(front + v) <==> SomeUnpaired(v) || front == "$"
    ensures SomeVariable(front + v) <==> SomeVariable(v) || (front == "$" && v != "" && StartsName(v[0]))
  {
    var s := front + v;
    forall i: nat | i < |v|
      ensures Unpaired(s, |front| + i) <==> Unpaired(v, i)
      ensures Variable(s, |front| + i) <==> Variable(v, i)
    {
      UnpairedShifted(front, v, i);
    }
    FrontUnpaired(front, v);
    hide Unpaired, DollarsUpTo, Variable, StartsName;
    UnpairedInside(v);
    UnpairedInside(s);
    if i :| Unpaired(s, i) {
      if i >= |front| { assert Unpaired(s, |front| + (i - |front|)) && Unpaired(v, i - |front|); }
    }
    if i :| Variable(s, i) {
      if i >= |front| { assert Variable(s, |front| + (i - |front|)) && Variable(v, i - |front|); }
    }
    if i :| Unpaired(v, i) { assert Unpaired(s, |front| + i); }
    if i :| Variable(v, i) { assert Variable(s, |front| + i); }
    assert front == "$" ==> Unpaired(s, 0);
    assert front == "$" && v != "" && StartsName(v[0]) ==> Variable(s, 0);
  }

  lemma UnpairedInside(v: string)
    ensures forall i :: Unpaired(v, i) ==> 0 <= i < |v|
    ensures forall i :: Variable(v, i) ==> 0 <= i < |v|
  {
  }

  lemma FrontUnpaired(front: string, v: string)
    requires front == "$$" || (|front| == 1 && (front[0] != '$' || v == "" || v[0] != '$'))
    ensures forall i :: 0 <= i < |front| ==> (Unpaired(front + v, i) <==> front == "$" && i == 0)
    ensures forall i :: 0 <= i < |front| ==>
              (Variable(front + v, i) <==> front == "$" && i == 0 && v != "" && StartsName(v[0]))
  {
    var s := front + v;
    assert DollarsUpTo(s, 0) == if front[0] == '$' then 1 else 0;
    if front == "$$" { assert DollarsUpTo(s, 1) == 2; }
    assert v != "" ==> s[|front|] == v[0];
  }

  lemma {:induction false} WithoutPairsStart(v: string)
    requires v != "" && v[0] != '$'
    ensures WithoutPairs(v) != "" && WithoutPairs(v)[0] == v[0]
  {
  }

  lemma InterpolationCons(c: char, w: string)
    ensures (exists i :: 0 <= i < |[c] + w| - 1 && ([c] + w)[i] == '$' && StartsName(([c] + w)[i + 1]))
       <==> (c == '$' && w != "" && StartsName(w[0]))
            || (exists i :: 0 <= i < |w| - 1 && w[i] == '$' && StartsName(w[i + 1]))
  {
    hide StartsName;
    var s := [c] + w;
    if i :| 0 <= i < |w| - 1 && w[i] == '$' && StartsName(w[i + 1]) {
      assert s[i + 1] == w[i] && s[i + 2] == w[i + 1];
    }
    if i :| 0 <= i < |s| - 1 && s[i] == '$' && StartsName(s[i + 1]) {
      if i > 0 { assert w[i - 1] == s[i] && w[i] == s[i + 1]; }
    }
    if c == '$' && w != "" && StartsName(w[0]) { assert s[0] == '$' && s[1] == w[0]; }
  }

  /** What is left without the pairs: a dollar for each one that is not paired. */
  lemma {:induction false} UnpairedIff(v: string)
    ensures '$' in WithoutPairs(v) <==> SomeUnpaired(v)
    ensures HasInterpolation(v) <==> SomeVariable(v)
    decreases |v|
  {
    hide Unpaired, Variable, DollarsUpTo, StartsName;
    UnpairedInside(v);
    if v != "" {
      var k := if StartsPair(v) then 2 else 1;
      assert v == v[..k] + v[k..];
      assert k == 2 ==> v[..k] == "$$";
      UnpairedIff(v[k..]);
      UnpairedFirst(v[..k], v[k..]);
      InterpolationCons(v[0], WithoutPairs(v[k..]));
      if k == 1 && v[0] == '$' && v[1..] != "" { WithoutPairsStart(v[1..]); }
      NothingLeft();
    }
  }

  lemma NothingLeft()
    ensures WithoutPairs("") == ""
  {
  }

  lemma EscapeDollarsFirst(v: string)
    requires v != ""
    ensures var e, rest := EscapeDollars(v), EscapeDollars(v[1..]);
            if v[0] == '$' then StartsPair(e) && e[2..] == rest
            else e != "" && e[0] == v[0] && e[1..] == rest && !StartsPair(e)
  {
  }

  /** Escaping is undone by unescaping, and leaves no dollar outside a pair. */
  lemma {:induction false} DollarsRoundTrip(v: string)
    ensures UnescapeDollars(EscapeDollars(v)) == v
    ensures '$' !in WithoutPairs(EscapeDollars(v))
    ensures !HasInterpolation(EscapeDollars(v))
  {
    if v != "" {
      DollarsRoundTrip(v[1..]);
      EscapeDollarsFirst(v);
      assert v == [v[0]] + v[1..];
    }
  }

  /** Unescaping a label and escaping it again gives it back exactly when all its dollars are paired. */
  lemma {:induction false} DollarsKeptIff(v: string)
    ensures EscapeDollars(UnescapeDollars(v)) == v <==> '$' !in WithoutPairs(v)
    decreases |v|
  {
    if v != "" {
      var k := if StartsPair(v) then 2 else 1;
      DollarsKeptIff(v[k..]);
      var u := UnescapeDollars(v);
      assert u[1..] == UnescapeDollars(v[k..]);
      EscapeDollarsFirst(u);
      assert v == v[..k] + v[k..];
      if StartsPair(v) {
        assert v[..k] == "$$";
      } else {
        assert v[..k] == [v[0]];
        if v[0] == '$' {
          LongerWhenLone(v);
        }
      }
    }
  }

  lemma {:induction false} UnescapeShortens(v: string)
    ensures |EscapeDollars(UnescapeDollars(v))| >= |v|
    decreases |v|
  {
    if v != "" {
      var k := if StartsPair(v) then 2 else 1;
      UnescapeShortens(v[k..]);
      var u := UnescapeDollars(v);
      assert u[1..] == UnescapeDollars(v[k..]);
      EscapeDollarsFirst(u);
    }
  }

  lemma LongerWhenLone(v: string)
    requires v != "" && v[0] == '$' && !StartsPair(v)
    ensures |EscapeDollars(UnescapeDollars(v))| > |v|
  {
    UnescapeShortens(v[1..]);
    var u := UnescapeDollars(v);
    assert u[1..] == UnescapeDollars(v[1..]);
    EscapeDollarsFirst(u);
  }

  // ---------- Merging ----------

  /** An empty label excludes nothing. */
  ghost predicate Excludes(regex: string, text: string) {
    regex != "" && Accepts(regex, text)
  }

  function MergeWudExcludeRegex(current: string, previousManaged: string, nextManaged: string): string {
    if nextManaged == "" then current
    else if current == "" || current == previousManaged then nextManaged
    else if current == nextManaged then current
    else Either(current, nextManaged)
  }

  function Either(a: string, b: string): string {
    "(?:" + a + ")|(?:" + b + ")"
  }

  lemma NoQuantifier(rest: string)
    requires rest == [] || rest[0] == '|'
    ensures rest == [] || !IsQuantifier(rest[0])
  {
  }

  lemma ParseGroup(inner: string, rest: string)
    requires Parse(inner).Some? && (rest == [] || rest[0] == '|')
    ensures ParseSequence("(?:" + (inner + (")" + rest))) == Some(Parsed(Cat(Parse(inner).value, Nothing), rest))
  {
    hide ParseAlternatives;
    hide ParseAtom;
    var s := "(?:" + (inner + (")" + rest));
    NoQuantifier(rest);
    AlternativesExtend(inner, ")" + rest);
    assert s[3..] == inner + (")" + rest);
    assert "" + (")" + rest) == ")" + rest;
    GroupAtom(s, Parse(inner).value, rest);
    OnceOnly(s, Parse(inner).value, rest);
    assert ParseSequence(rest) == Some(Parsed(Nothing, rest));
  }

  lemma ParseEither(a: string, b: string)
    requires Parse(a).Some? && Parse(b).Some?
    ensures Parse(Either(a, b)) == Some(Alt(Cat(Parse(a).value, Nothing), Cat(Parse(b).value, Nothing)))
  {
    hide Parse, ParseSequence, ParseAlternatives;
    var right := "(?:" + (b + (")" + ""));
    EitherText(a, b);
    ParseGroup(b, "");
    ParseGroup(a, "|" + right);
    OneAlternative(right, Cat(Parse(b).value, Nothing), "");
    FirstAlternative(Either(a, b), Cat(Parse(a).value, Nothing), right, Cat(Parse(b).value, Nothing), "");
    WholeAlternatives(Either(a, b), Alt(Cat(Parse(a).value, Nothing), Cat(Parse(b).value, Nothing)));
  }

  lemma WholeAlternatives(s: string, tree: Tree)
    requires ParseAlternatives(s) == Some(Parsed(tree, ""))
    ensures Parse(s) == Some(tree)
  {
  }

  lemma EitherText(a: string, b: string)
    ensures Either(a, b) == "(?:" + (a + (")" + ("|" + ("(?:" + (b + (")" + ""))))))
  {
    var right := "(?:" + b + ")";
    assert right == "(?:" + (b + (")" + ""));
    assert ")|(?:" == ")" + ("|" + "(?:");
    Regroup(a, b);
  }

  lemma Regroup(a: string, b: string)
    ensures "(?:" + a + (")" + ("|" + "(?:")) + b + ")" == "(?:" + (a + (")" + ("|" + ("(?:" + b + ")"))))
  {
  }

  lemma CatNothing(a: Tree, text: string, i: nat, j: nat)
    requires i <= j <= |text|
    ensures Match(Cat(a, Nothing), text, i, j) <==> Match(a, text, i, j)
  {
    CatSplits(a, Nothing, text, i, j);
    assert MatchAt(Nothing, text, j, j);
    if Match(a, text, i, j) {
      assert MatchAt(a, text, i, j);
    }
  }

  /** The merged alternation is a pattern again and accepts what either side accepts. */
  lemma EitherAccepts(a: string, b: string, text: string)
    requires Parse(a).Some? && Parse(b).Some?
    ensures Parse(Either(a, b)).Some?
    ensures Accepts(Either(a, b), text) <==> Accepts(a, text) || Accepts(b, text)
  {
    ParseEither(a, b);
    var left, right := Cat(Parse(a).value, Nothing), Cat(Parse(b).value, Nothing);
    var tree := Alt(left, right);
    hide Parse;
    forall i: nat, j: nat | i <= j <= |text|
      ensures MatchAt(tree, text, i, j) <==>
              MatchAt(Parse(a).value, text, i, j) || MatchAt(Parse(b).value, text, i, j)
    {
      CatNothing(Parse(a).value, text, i, j);
      CatNothing(Parse(b).value, text, i, j);
    }
    hide Match;
    if Test(tree, text) {
      var i, j :| MatchAt(tree, text, i, j);
      assert MatchAt(Parse(a).value, text, i, j) || MatchAt(Parse(b).value, text, i, j);
    }
    if Test(Parse(a).value, text) {
      var i, j :| MatchAt(Parse(a).value, text, i, j);
      assert MatchAt(tree, text, i, j);
    }
    if Test(Parse(b).value, text) {
      var i, j :| MatchAt(Parse(b).value, text, i, j);
      assert MatchAt(tree, text, i, j);
    }
  }

  lemma ExactPatternParses(tags: seq<string>)
    requires tags != []
    ensures Parse(ExactTagsRegex(tags)).Some? && ExactTagsRegex(tags) != ""
  {
    hide Parse;
    var sorted := SortedUnique(tags);
    assert tags[0] in Elements(tags);
    assert sorted != [];
    if |sorted| == 1 {
      TextOfLiterals(sorted[0]);
      ParseAnchored(Literals(sorted[0]));
    } else {
      ParseGroupOfBars(sorted);
    }
  }

  /** Exact patterns as exclusions; no tags exclude nothing. */
  lemma ExactExcludes(tags: seq<string>, text: string)
    ensures Excludes(ExactTagsRegex(tags), text) <==> text in tags
  {
    if tags == [] {
      assert SortedUnique(tags) == [];
    } else {
      ExactPatternParses(tags);
      ExactPatternAccepts(tags, text);
    }
  }

  /** Merging the pattern of a larger managed set excludes what was excluded and the managed set. */
  lemma MergeExcludes(current: string, existing: seq<string>, all: seq<string>, text: string)
    requires Parse(current).Some?
    requires forall t :: t in existing ==> t in all
    ensures var merged := MergeWudExcludeRegex(current, ExactTagsRegex(existing), ExactTagsRegex(all));
            Parse(merged).Some? && (Excludes(merged, text) <==> Excludes(current, text) || text in all)
  {
    hide Accepts, Parse;
    var next := ExactTagsRegex(all);
    ExactExcludes(existing, text);
    ExactExcludes(all, text);
    if all == [] {
      assert SortedUnique(all) == [];
    } else {
      ExactPatternParses(all);
      if current != "" && current != ExactTagsRegex(existing) && current != next {
        EitherAccepts(current, next, text);
        assert Either(current, next) != "";
      }
    }
  }

  // ---------- Renders ----------

  /** One render for one service: the tags already managed there, and the tags being added. */
  datatype Step = Step(existing: seq<string>, added: seq<string>)

  function RenderExclusion(value: string, step: Step): Result<string, string> {
    if HasInterpolation(value) then Raise("label uses a Compose variable")
    else
      var current := UnescapeDollars(value);
      var next := MergeWudExcludeRegex(current, ExactTagsRegex(step.existing),
                                       ExactTagsRegex(step.existing + step.added));
      if current == next then Ok(value) else Ok(EscapeDollars(next))
  }

  function RenderAll(value: string, steps: seq<Step>): Result<string, string>
    decreases |steps|
  {
    if steps == [] then Ok(value)
    else
      var first :- RenderExclusion(value, steps[0]);
      RenderAll(first, steps[1..])
  }

  ghost predicate Tagged(steps: seq<Step>, text: string) {
    exists k :: 0 <= k < |steps| && text in steps[k].existing + steps[k].added
  }

  /**
   Over any sequence of renders the label excludes exactly what it excluded at first and every
   tag that was ever managed or added, and no render after the first meets a Compose variable.
   */
  lemma {:induction false} ExclusionsAccumulate(value: string, steps: seq<Step>, text: string)
    requires Parse(UnescapeDollars(value)).Some?
    ensures RenderAll(value, steps).Ok? <==> steps == [] || !HasInterpolation(value)
    ensures RenderAll(value, steps).Ok? ==>
              var last := UnescapeDollars(RenderAll(value, steps).value);
              Excludes(last, text) <==> Excludes(UnescapeDollars(value), text) || Tagged(steps, text)
    decreases |steps|
  {
    hide Excludes, Parse, HasInterpolation, MergeWudExcludeRegex, ExactTagsRegex, EscapeDollars, UnescapeDollars;
    if steps != [] && !HasInterpolation(value) {
      var step := steps[0];
      var current, all := UnescapeDollars(value), step.existing + step.added;
      var next := MergeWudExcludeRegex(current, ExactTagsRegex(step.existing), ExactTagsRegex(all));
      MergeExcludes(current, step.existing, all, text);
      DollarsRoundTrip(next);
      var first := RenderExclusion(value, step).value;
      assert UnescapeDollars(first) == next && !HasInterpolation(first);
      ExclusionsAccumulate(first, steps[1..], text);
      TaggedFirst(steps, text);
    }
  }

  lemma TaggedFirst(steps: seq<Step>, text: string)
    requires steps != []
    ensures Tagged(steps, text) <==> text in steps[0].existing + steps[0].added || Tagged(steps[1..], text)
  {
    if k :| 0 <= k < |steps| && text in steps[k].existing + steps[k].added {
      if k > 0 {
        assert text in steps[1..][k - 1].existing + steps[1..][k - 1].added;
      }
    }
    if k :| 0 <= k < |steps[1..]| && text in steps[1..][k].existing + steps[1..][k].added {
      assert text in steps[k + 1].existing + steps[k + 1].added;
    }
  }
}
