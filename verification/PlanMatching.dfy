/**
 Matching the targets of the pending file against the images of Compose stacks: every target line
 ends up in exactly one of the matches and the skipped lines, and no match is made twice.
 */
module PlanMatching {
  import opened Ordering

  datatype ServiceImage = ServiceImage(service: string, image: string)
  datatype Stack = Stack(index: int, images: seq<string>, serviceImages: seq<ServiceImage>)
  datatype Target = Target(line: int, first: string, digest: string, desiredTag: string)
  datatype Match = Match(stack: int, target: Target, resolved: string, image: string, service: string)
  datatype Reason = TagUpdatesDisabled | Unmatched
  datatype Skipped = Skipped(line: int, reason: Reason)

  /** What a match is counted by. */
  datatype Key = Key(stack: int, line: int, resolved: string, image: string, service: string)

  function KeyOf(m: Match): Key {
    Key(m.stack, m.target.line, m.resolved, m.image, m.service)
  }

  /** The stacks, the service matcher, and what running containers say an image resolves to. */
  datatype Context = Context(stacks: seq<Stack>, services: (Stack, string, Target) -> Option<seq<string>>,
                             resolve: string -> string, allowTagUpdates: bool)

  predicate Disabled(c: Context, t: Target) {
    t.desiredTag != "" && !c.allowTagUpdates
  }

  /** An image that matches without naming services counts once, for the empty name. */
  function ServiceNames(found: Option<seq<string>>): (names: seq<string>) {
    if found.None? then [] else if found.value == [] then [""] else found.value
  }

  // ---------- What should be matched ----------

  ghost predicate WantedAt(c: Context, t: Target, stack: Stack, image: string, k: Key) {
    && (match c.services(stack, image, t)
        case None => false
        case Some(names) => if names == [] then k.service == "" else k.service in names)
    && k == Key(stack.index, t.line, c.resolve(t.first), image, k.service)
  }

  ghost predicate WantedIn(c: Context, t: Target, stack: Stack, images: seq<string>, k: Key) {
    exists j :: 0 <= j < |images| && WantedAt(c, t, stack, images[j], k)
  }

  ghost predicate Wanted(c: Context, t: Target, stacks: seq<Stack>, k: Key) {
    exists i :: 0 <= i < |stacks| && WantedIn(c, t, stacks[i], stacks[i].images, k)
  }

  lemma WantedInMore(c: Context, t: Target, stack: Stack, images: seq<string>, j: nat, k: Key)
    requires j < |images|
    ensures WantedIn(c, t, stack, images[..j + 1], k) <==>
            WantedIn(c, t, stack, images[..j], k) || WantedAt(c, t, stack, images[j], k)
  {
    if n :| 0 <= n < j && WantedAt(c, t, stack, images[..j][n], k) {
      assert images[..j + 1][n] == images[..j][n];
    }
    var more := images[..j + 1];
    if n :| 0 <= n < |more| && WantedAt(c, t, stack, more[n], k) {
      assert n < j ==> images[..j][n] == more[n];
    }
    assert images[..j + 1][j] == images[j];
  }

  lemma WantedMore(c: Context, t: Target, stacks: seq<Stack>, i: nat, k: Key)
    requires i < |stacks|
    ensures Wanted(c, t, stacks[..i + 1], k) <==>
            Wanted(c, t, stacks[..i], k) || WantedIn(c, t, stacks[i], stacks[i].images, k)
  {
    hide WantedIn;
    if n :| 0 <= n < i && WantedIn(c, t, stacks[..i][n], stacks[..i][n].images, k) {
      assert stacks[..i + 1][n] == stacks[..i][n];
    }
    var more := stacks[..i + 1];
    if n :| 0 <= n < |more| && WantedIn(c, t, more[n], more[n].images, k) {
      assert n < i ==> stacks[..i][n] == more[n];
    }
    assert stacks[..i + 1][i] == stacks[i];
  }

  // ---------- Keys ----------

  ghost function Keys(matches: seq<Match>): set<Key> {
    set m | m in matches :: KeyOf(m)
  }

  ghost predicate DistinctKeys(matches: seq<Match>) {
    forall i, j :: 0 <= i < j < |matches| ==> KeyOf(matches[i]) != KeyOf(matches[j])
  }

  lemma KeysConcat(a: seq<Match>, b: seq<Match>)
    ensures Keys(a + b) == Keys(a) + Keys(b)
    ensures DistinctKeys(a) && DistinctKeys(b) && Keys(a) !! Keys(b) ==> DistinctKeys(a + b)
  {
    forall m | m in a ensures KeyOf(m) in Keys(a) {}
    forall m | m in b ensures KeyOf(m) in Keys(b) {}
    if DistinctKeys(a) && DistinctKeys(b) && Keys(a) !! Keys(b) {
      forall i, j | 0 <= i < j < |a + b| ensures KeyOf((a + b)[i]) != KeyOf((a + b)[j]) {
        if i < |a| <= j {
          assert a[i] in a && b[j - |a|] in b;
        }
      }
    }
  }

  /** New matches for the wanted keys that were not seen. */
  ghost predicate Fresh(matches: seq<Match>, t: Target, before: set<Key>, after: set<Key>) {
    && DistinctKeys(matches) && Keys(matches) == after - before && before <= after
    && forall m :: m in matches ==> m.target == t
  }

  lemma FreshThen(a: seq<Match>, b: seq<Match>, t: Target, first: set<Key>, middle: set<Key>, last: set<Key>)
    requires Fresh(a, t, first, middle) && Fresh(b, t, middle, last)
    ensures Fresh(a + b, t, first, last)
  {
    KeysConcat(a, b);
  }

  // ---------- The order of the results ----------

  /** By stack, line, target, resolved image, written image and service. */
  predicate Before(a: Match, b: Match) {
    if a.stack != b.stack then a.stack < b.stack
    else if a.target.line != b.target.line then a.target.line < b.target.line
    else if a.target.first != b.target.first then Less(a.target.first, b.target.first)
    else if a.resolved != b.resolved then Less(a.resolved, b.resolved)
    else if a.image != b.image then Less(a.image, b.image)
    else Less(a.service, b.service)
  }

  ghost predicate InOrder(matches: seq<Match>) {
    forall i, j :: 0 <= i < j < |matches| ==> !Before(matches[j], matches[i])
  }

  lemma TextTransitive(a: string, b: string, c: string)
    ensures a != b && b != c && Less(a, b) && Less(b, c) ==> Less(a, c) && a != c
    ensures !Less(a, a)
  {
    LessTotal(a, a);
    if a != b && b != c && Less(a, b) && Less(b, c) {
      LessTransitive(a, b, c);
    }
  }

  lemma BeforeTransitive(a: Match, b: Match, c: Match)
    requires Before(a, b) && Before(b, c)
    ensures Before(a, c)
  {
    hide Less;
    TextTransitive(a.target.first, b.target.first, c.target.first);
    TextTransitive(a.resolved, b.resolved, c.resolved);
    TextTransitive(a.image, b.image, c.image);
    if a.service != b.service && b.service != c.service { TextTransitive(a.service, b.service, c.service); }
    NotBeforeItself(a);
    NotBeforeItself(b);
  }

  lemma NotBeforeItself(a: Match)
    ensures !Less(a.service, a.service) && !Before(a, a)
  {
    LessTotal(a.service, a.service);
  }

  /** Behind everything that does not come after it. */
  function InsertMatch(m: Match, s: seq<Match>): seq<Match> {
    if s == [] then [m] else if Before(m, s[0]) then [m] + s else [s[0]] + InsertMatch(m, s[1..])
  }

  lemma {:induction false} InsertMatchOk(m: Match, s: seq<Match>)
    requires InOrder(s)
    ensures InOrder(InsertMatch(m, s)) && multiset(InsertMatch(m, s)) == multiset(s) + multiset{m}
    ensures forall x :: x in InsertMatch(m, s) <==> x in s || x == m
  {
    hide Before;
    if s == [] {
    } else if Before(m, s[0]) {
      forall j | 0 <= j < |s| ensures !Before(s[j], m) {
        if Before(s[j], m) {
          BeforeTransitive(s[j], m, s[0]);
          if j == 0 { NotBeforeItself(s[0]); }
        }
      }
      FirstInOrder(m, s);
    } else {
      InsertMatchOk(m, s[1..]);
      var t := InsertMatch(m, s[1..]);
      hide InsertMatch;
      assert s == [s[0]] + s[1..];
      forall x | x in s[1..] ensures !Before(x, s[0]) {
        var j :| 0 <= j < |s[1..]| && s[1..][j] == x;
        assert s[j + 1] == x;
      }
      FirstInOrder(s[0], t);
    }
  }

  lemma {:induction false} InsertMatchKeys(m: Match, s: seq<Match>)
    requires DistinctKeys(s) && forall x :: x in s ==> KeyOf(x) != KeyOf(m)
    ensures DistinctKeys(InsertMatch(m, s)) && forall x :: x in InsertMatch(m, s) ==> x in s || x == m
  {
    hide Before, KeyOf;
    if s != [] {
      assert s == [s[0]] + s[1..] && s[0] in s;
      if Before(m, s[0]) {
        FirstKey(m, s);
      } else {
        InsertMatchKeys(m, s[1..]);
        forall x | x in s[1..] ensures KeyOf(x) != KeyOf(s[0]) {
          var j :| 0 <= j < |s[1..]| && s[1..][j] == x;
          assert s[j + 1] == x;
        }
        FirstKey(s[0], InsertMatch(m, s[1..]));
      }
    }
  }

  lemma FirstKey(m: Match, s: seq<Match>)
    requires DistinctKeys(s) && forall x :: x in s ==> KeyOf(x) != KeyOf(m)
    ensures DistinctKeys([m] + s)
  {
    hide KeyOf;
  }

  lemma FirstInOrder(m: Match, s: seq<Match>)
    requires InOrder(s) && forall x :: x in s ==> !Before(x, m)
    ensures InOrder([m] + s)
  {
    hide Before;
  }

  /** `matches.sort(key=...)` */
  method SortMatches(matches: seq<Match>) returns (s: seq<Match>)
    ensures InOrder(s) && multiset(s) == multiset(matches)
    ensures (forall m :: m in s <==> m in matches) && Keys(s) == Keys(matches)
    ensures DistinctKeys(matches) ==> DistinctKeys(s)
  {
    hide InsertMatch, Before, KeyOf, DistinctKeys;
    s := [];
    NoKeys();
    for i := 0 to |matches|
      invariant InOrder(s) && multiset(s) == multiset(matches[..i])
      invariant forall m :: m in s <==> m in matches[..i]
      invariant DistinctKeys(matches) ==> DistinctKeys(s)
    {
      assert matches[..i + 1] == matches[..i] + [matches[i]];
      InsertMatchOk(matches[i], s);
      if DistinctKeys(matches) {
        NewKey(matches, i);
        InsertMatchKeys(matches[i], s);
      }
      s := InsertMatch(matches[i], s);
    }
    assert matches[..|matches|] == matches;
  }

  lemma NewKey(matches: seq<Match>, i: nat)
    requires DistinctKeys(matches) && i < |matches|
    ensures forall x :: x in matches[..i] ==> KeyOf(x) != KeyOf(matches[i])
  {
    hide KeyOf;
  }

  lemma NoKeys()
    ensures DistinctKeys([])
  {
  }

  // ---------- The loops ----------

  method DedupedMatchesForServices(c: Context, stack: Stack, t: Target, image: string, names: seq<string>,
                                   before: set<Key>) returns (matches: seq<Match>, seen: set<Key>)
    requires names == ServiceNames(c.services(stack, image, t))
    ensures Fresh(matches, t, before, seen)
    ensures forall k :: k in seen <==> k in before || WantedAt(c, t, stack, image, k)
  {
    matches, seen := [], before;
    for n := 0 to |names|
      invariant Fresh(matches, t, before, seen)
      invariant forall k :: k in seen <==>
                  (k in before
                   || (k.service in names[..n] && k == Key(stack.index, t.line, c.resolve(t.first), image, k.service)))
    {
      var key := Key(stack.index, t.line, c.resolve(t.first), image, names[n]);
      assert names[..n + 1] == names[..n] + [names[n]];
      if key !in seen {
        var m := Match(stack.index, t, c.resolve(t.first), image, names[n]);
        OneMatch(m);
        FreshThen(matches, [m], t, before, seen, seen + {key});
        matches := matches + [m];
        seen := seen + {key};
      }
    }
    assert names[..|names|] == names;
  }

  lemma OneMatch(m: Match)
    ensures Keys([m]) == {KeyOf(m)}
  {
    assert m in [m];
  }

  method MatchesForTarget(c: Context, t: Target, before: set<Key>) returns (matches: seq<Match>, seen: set<Key>)
    ensures Fresh(matches, t, before, seen)
    ensures forall k :: k in seen <==> k in before || Wanted(c, t, c.stacks, k)
  {
    matches, seen := [], before;
    for i := 0 to |c.stacks|
      invariant Fresh(matches, t, before, seen)
      invariant forall k :: k in seen <==> k in before || Wanted(c, t, c.stacks[..i], k)
    {
      var more, after := MatchesInStack(c, t, c.stacks[i], seen);
      forall k ensures k in after <==> k in before || Wanted(c, t, c.stacks[..i + 1], k) {
        WantedMore(c, t, c.stacks, i, k);
      }
      FreshThen(matches, more, t, before, seen, after);
      matches, seen := matches + more, after;
    }
    assert c.stacks[..|c.stacks|] == c.stacks;
  }

  /** The loop over the images of one stack. */
  method MatchesInStack(c: Context, t: Target, stack: Stack, before: set<Key>)
    returns (matches: seq<Match>, seen: set<Key>)
    ensures Fresh(matches, t, before, seen)
    ensures forall k :: k in seen <==> k in before || WantedIn(c, t, stack, stack.images, k)
  {
    matches, seen := [], before;
    for j := 0 to |stack.images|
      invariant Fresh(matches, t, before, seen)
      invariant forall k :: k in seen <==> k in before || WantedIn(c, t, stack, stack.images[..j], k)
    {
      var names := ServiceNames(c.services(stack, stack.images[j], t));
      var more, after := DedupedMatchesForServices(c, stack, t, stack.images[j], names, seen);
      forall k ensures k in after <==> k in before || WantedIn(c, t, stack, stack.images[..j + 1], k) {
        WantedInMore(c, t, stack, stack.images, j, k);
      }
      FreshThen(matches, more, t, before, seen, after);
      matches, seen := matches + more, after;
    }
    assert stack.images[..|stack.images|] == stack.images;
  }

  // ---------- Accounting ----------

  ghost predicate DistinctLines(targets: seq<Target>) {
    forall i, j :: 0 <= i < j < |targets| ==> targets[i].line != targets[j].line
  }

  ghost predicate MatchedLine(matches: seq<Match>, line: int) {
    exists m :: m in matches && m.target.line == line
  }

  ghost predicate SkippedLine(skipped: seq<Skipped>, line: int) {
    exists s :: s in skipped && s.line == line
  }

  ghost predicate OncePerLine(skipped: seq<Skipped>) {
    forall i, j :: 0 <= i < j < |skipped| ==> skipped[i].line != skipped[j].line
  }

  /** Every target is matched or skipped, none is both, and nothing else is either. */
  ghost predicate Partition(targets: seq<Target>, matches: seq<Match>, skipped: seq<Skipped>) {
    && (forall t :: t in targets ==> (MatchedLine(matches, t.line) <==> !SkippedLine(skipped, t.line)))
    && (forall m :: m in matches ==> m.target in targets)
    && (forall s :: s in skipped ==> exists t :: t in targets && t.line == s.line)
    && OncePerLine(skipped)
  }

  /** The keys that matching must produce, and no others. */
  ghost predicate ExactlyWanted(c: Context, targets: seq<Target>, matches: seq<Match>) {
    && DistinctKeys(matches)
    && (forall m :: m in matches ==> !Disabled(c, m.target) && Wanted(c, m.target, c.stacks, KeyOf(m)))
    && (forall t, k :: t in targets && !Disabled(c, t) && Wanted(c, t, c.stacks, k) ==> k in Keys(matches))
  }

  ghost predicate ReasonsOk(c: Context, targets: seq<Target>, skipped: seq<Skipped>) {
    forall s, t :: s in skipped && t in targets && t.line == s.line ==>
      if s.reason.TagUpdatesDisabled? then Disabled(c, t)
      else !Disabled(c, t) && forall k :: !Wanted(c, t, c.stacks, k)
  }

  /** The lines skipped because tag updates are off, in the order of the targets. */
  function DisabledSkips(c: Context, targets: seq<Target>): seq<Skipped> {
    if targets == [] then []
    else
      var t := targets[|targets| - 1];
      DisabledSkips(c, targets[..|targets| - 1]) + if Disabled(c, t) then [Skipped(t.line, TagUpdatesDisabled)] else []
  }

  /** The other lines without a match, in the order of the targets. */
  function UnmatchedSkips(c: Context, targets: seq<Target>, lines: set<int>): seq<Skipped> {
    if targets == [] then []
    else
      var t := targets[|targets| - 1];
      UnmatchedSkips(c, targets[..|targets| - 1], lines)
      + if !Disabled(c, t) && t.line !in lines then [Skipped(t.line, Unmatched)] else []
  }

  lemma SkipsMore(c: Context, targets: seq<Target>, i: nat, lines: set<int>)
    requires i < |targets|
    ensures var t := targets[i];
            && DisabledSkips(c, targets[..i + 1])
               == DisabledSkips(c, targets[..i]) + (if Disabled(c, t) then [Skipped(t.line, TagUpdatesDisabled)] else [])
            && UnmatchedSkips(c, targets[..i + 1], lines)
               == UnmatchedSkips(c, targets[..i], lines)
                  + if !Disabled(c, t) && t.line !in lines then [Skipped(t.line, Unmatched)] else []
  {
    assert targets[..i + 1][..i] == targets[..i] && targets[..i + 1][i] == targets[i];
  }

  lemma WantedLine(c: Context, t: Target, stacks: seq<Stack>, k: Key)
    requires Wanted(c, t, stacks, k)
    ensures k.line == t.line
  {
  }

  lemma {:induction false} DisabledSkipsIff(c: Context, targets: seq<Target>)
    ensures forall s :: s in DisabledSkips(c, targets) <==>
              s.reason.TagUpdatesDisabled? && exists t :: t in targets && Disabled(c, t) && t.line == s.line
    ensures DistinctLines(targets) ==> OncePerLine(DisabledSkips(c, targets))
  {
    hide Disabled;
    if targets != [] {
      var front, t := targets[..|targets| - 1], targets[|targets| - 1];
      assert targets == front + [t];
      DisabledSkipsIff(c, front);
      if DistinctLines(targets) {
        assert DistinctLines(front) && forall u :: u in front ==> u.line != t.line;
      }
    }
  }

  lemma {:induction false} UnmatchedSkipsIff(c: Context, targets: seq<Target>, lines: set<int>)
    ensures forall s :: s in UnmatchedSkips(c, targets, lines) <==>
              s.reason.Unmatched? && exists t :: t in targets && !Disabled(c, t) && t.line !in lines && t.line == s.line
    ensures DistinctLines(targets) ==> OncePerLine(UnmatchedSkips(c, targets, lines))
  {
    hide Disabled;
    if targets != [] {
      var front, t := targets[..|targets| - 1], targets[|targets| - 1];
      assert targets == front + [t];
      UnmatchedSkipsIff(c, front, lines);
      if DistinctLines(targets) {
        assert DistinctLines(front) && forall u :: u in front ==> u.line != t.line;
      }
    }
  }

  lemma SkipsOnce(c: Context, targets: seq<Target>, lines: set<int>)
    requires DistinctLines(targets)
    ensures OncePerLine(DisabledSkips(c, targets) + UnmatchedSkips(c, targets, lines))
  {
    hide DisabledSkips, UnmatchedSkips, Disabled;
    DisabledSkipsIff(c, targets);
    UnmatchedSkipsIff(c, targets, lines);
    var a: seq<Skipped>, b: seq<Skipped> := DisabledSkips(c, targets), UnmatchedSkips(c, targets, lines);
    var all := a + b;
    assert forall x, y :: x in targets && y in targets && x.line == y.line ==> x == y;
    forall i, j | 0 <= i < j < |all| ensures all[i].line != all[j].line {
      if i < |a| <= j {
        assert a[i] in a && b[j - |a|] in b;
      }
    }
  }

  lemma NothingWanted(c: Context)
    ensures ExactlyWanted(c, [], []) && Keys([]) == {}
  {
  }

  lemma DisabledKeeps(c: Context, done: seq<Target>, t: Target, matches: seq<Match>)
    requires ExactlyWanted(c, done, matches) && Disabled(c, t)
    ensures ExactlyWanted(c, done + [t], matches)
  {
    hide Disabled, Wanted, DistinctKeys, Keys;
  }

  /** The loop over the targets: matches, and lines skipped because tag updates are off. */
  method FirstPass(c: Context, targets: seq<Target>) returns (matches: seq<Match>, skipped: seq<Skipped>)
    requires DistinctLines(targets)
    ensures ExactlyWanted(c, targets, matches) && forall m :: m in matches ==> m.target in targets
    ensures skipped == DisabledSkips(c, targets)
  {
    hide ExactlyWanted, Keys;
    matches, skipped := [], [];
    var seen: set<Key> := {};
    NothingWanted(c);
    for i := 0 to |targets|
      invariant ExactlyWanted(c, targets[..i], matches) && Keys(matches) == seen
      invariant forall m :: m in matches ==> m.target in targets[..i]
      invariant skipped == DisabledSkips(c, targets[..i])
    {
      var t := targets[i];
      assert targets[..i + 1] == targets[..i] + [t];
      assert forall u :: u in targets[..i] ==> u.line != t.line;
      SkipsMore(c, targets, i, {});
      hide DisabledSkips, Wanted, DistinctKeys;
      if Disabled(c, t) {
        skipped := skipped + [Skipped(t.line, TagUpdatesDisabled)];
        DisabledKeeps(c, targets[..i], t, matches);
      } else {
        var more, after := MatchesForTarget(c, t, seen);
        OnePassStep(c, targets[..i], t, matches, more, seen, after);
        matches, seen := matches + more, after;
      }
    }
    assert targets[..|targets|] == targets;
  }

  lemma OnePassStep(c: Context, done: seq<Target>, t: Target, matches: seq<Match>, more: seq<Match>,
                    seen: set<Key>, after: set<Key>)
    requires ExactlyWanted(c, done, matches) && Keys(matches) == seen && !Disabled(c, t)
    requires forall m :: m in matches ==> m.target in done
    requires forall u :: u in done ==> u.line != t.line
    requires Fresh(more, t, seen, after)
    requires forall k :: k in after <==> k in seen || Wanted(c, t, c.stacks, k)
    ensures ExactlyWanted(c, done + [t], matches + more) && Keys(matches + more) == after
  {
    hide Wanted;
    KeysConcat(matches, more);
    forall m | m in more ensures Wanted(c, t, c.stacks, KeyOf(m)) {
      assert KeyOf(m) in Keys(more);
    }
  }

  /** `_match_targets` */
  method MatchTargets(c: Context, targets: seq<Target>) returns (matches: seq<Match>, skipped: seq<Skipped>)
    requires DistinctLines(targets)
    ensures Partition(targets, matches, skipped)
    ensures ExactlyWanted(c, targets, matches)
    ensures ReasonsOk(c, targets, skipped)
    ensures InOrder(matches)
    ensures skipped == DisabledSkips(c, targets) + UnmatchedSkips(c, targets, MatchedLines(matches))
  {
    var found, disabled := FirstPass(c, targets);
    hide DisabledSkips, UnmatchedSkips, InOrder, ExactlyWanted, DistinctKeys, Keys, Wanted, Partition, ReasonsOk, Disabled;
    matches := SortMatches(found);
    SortedWanted(c, targets, found, matches);
    skipped := SecondPass(c, targets, matches, disabled);
    ghost var lines := MatchedLines(matches);
    SkipsOnce(c, targets, lines);
    DisabledSkipsIff(c, targets);
    UnmatchedSkipsIff(c, targets, lines);
    Accounted(c, targets, matches, disabled, UnmatchedSkips(c, targets, lines), skipped);
  }

  /** The loop that skips what is neither matched nor skipped yet. */
  method SecondPass(c: Context, targets: seq<Target>, matches: seq<Match>, disabled: seq<Skipped>)
    returns (skipped: seq<Skipped>)
    requires DistinctLines(targets) && disabled == DisabledSkips(c, targets)
    ensures skipped == disabled + UnmatchedSkips(c, targets, MatchedLines(matches))
  {
    hide UnmatchedSkips, Disabled, DisabledSkips;
    skipped := disabled;
    ghost var lines := MatchedLines(matches);
    NoSkips(c, lines);
    for i := 0 to |targets|
      invariant skipped == disabled + UnmatchedSkips(c, targets[..i], lines)
    {
      var t := targets[i];
      SkipsMore(c, targets, i, lines);
      var isMatched := HasMatch(matches, t.line);
      var isSkipped := HasSkip(skipped, t.line);
      SkippedIfDisabled(c, targets, i, lines);
      if !isMatched && !isSkipped {
        skipped := skipped + [Skipped(t.line, Unmatched)];
      }
    }
    assert targets[..|targets|] == targets;
  }

  lemma NoSkips(c: Context, lines: set<int>)
    ensures UnmatchedSkips(c, [], lines) == []
  {
  }

  lemma SortedWanted(c: Context, targets: seq<Target>, found: seq<Match>, matches: seq<Match>)
    requires ExactlyWanted(c, targets, found) && (forall m :: m in matches <==> m in found)
    requires Keys(matches) == Keys(found) && DistinctKeys(matches)
    ensures ExactlyWanted(c, targets, matches)
  {
    hide Wanted, Keys, DistinctKeys;
  }

  /** When the second loop comes to a target, its line is skipped already exactly if its update is disabled. */
  lemma SkippedIfDisabled(c: Context, targets: seq<Target>, i: nat, lines: set<int>)
    requires DistinctLines(targets) && i < |targets|
    ensures SkippedLine(DisabledSkips(c, targets) + UnmatchedSkips(c, targets[..i], lines), targets[i].line) <==>
            Disabled(c, targets[i])
  {
    hide DisabledSkips, UnmatchedSkips, Disabled;
    var t := targets[i];
    DisabledSkipsIff(c, targets);
    UnmatchedSkipsIff(c, targets[..i], lines);
    assert forall u :: u in targets[..i] ==> u.line != t.line;
    assert forall u :: u in targets && u.line == t.line ==> u == t;
    if Disabled(c, t) {
      var s := Skipped(t.line, TagUpdatesDisabled);
      assert s in DisabledSkips(c, targets);
      assert s in DisabledSkips(c, targets) + UnmatchedSkips(c, targets[..i], lines);
    }
  }

  ghost function MatchedLines(matches: seq<Match>): set<int> {
    set m | m in matches :: m.target.line
  }

  method HasMatch(matches: seq<Match>, line: int) returns (r: bool)
    ensures r <==> line in MatchedLines(matches)
  {
    r := exists m :: m in matches && m.target.line == line;
  }

  method HasSkip(skipped: seq<Skipped>, line: int) returns (r: bool)
    ensures r <==> SkippedLine(skipped, line)
  {
    r := exists s :: s in skipped && s.line == line;
  }

  lemma Accounted(c: Context, targets: seq<Target>, matches: seq<Match>, disabled: seq<Skipped>,
                  unmatched: seq<Skipped>, skipped: seq<Skipped>)
    requires DistinctLines(targets) && ExactlyWanted(c, targets, matches)
    requires forall m :: m in matches ==> m.target in targets
    requires forall s :: s in disabled <==>
               s.reason.TagUpdatesDisabled? && exists t :: t in targets && Disabled(c, t) && t.line == s.line
    requires forall s :: s in unmatched <==>
               && s.reason.Unmatched?
               && exists t :: t in targets && !Disabled(c, t) && t.line !in MatchedLines(matches) && t.line == s.line
    requires skipped == disabled + unmatched && OncePerLine(skipped)
    ensures Partition(targets, matches, skipped) && ReasonsOk(c, targets, skipped)
  {
    hide Wanted, Disabled;
    assert forall a, b :: a in targets && b in targets && a.line == b.line ==> a == b;
    forall t | t in targets
      ensures MatchedLine(matches, t.line) <==> !SkippedLine(skipped, t.line)
    {
      LineAccounted(c, targets, matches, disabled, unmatched, skipped, t);
    }
    forall s, t | s in skipped && t in targets && t.line == s.line
      ensures if s.reason.TagUpdatesDisabled? then Disabled(c, t)
              else !Disabled(c, t) && forall k :: !Wanted(c, t, c.stacks, k)
    {
      if s.reason.Unmatched? {
        forall k | Wanted(c, t, c.stacks, k) ensures false {
          WantedIsMatched(c, targets, matches, t, k);
        }
      }
    }
  }

  lemma LineAccounted(c: Context, targets: seq<Target>, matches: seq<Match>, disabled: seq<Skipped>,
                      unmatched: seq<Skipped>, skipped: seq<Skipped>, t: Target)
    requires DistinctLines(targets) && ExactlyWanted(c, targets, matches) && t in targets
    requires forall m :: m in matches ==> m.target in targets
    requires forall s :: s in disabled <==>
               s.reason.TagUpdatesDisabled? && exists t :: t in targets && Disabled(c, t) && t.line == s.line
    requires forall s :: s in unmatched <==>
               && s.reason.Unmatched?
               && exists t :: t in targets && !Disabled(c, t) && t.line !in MatchedLines(matches) && t.line == s.line
    requires skipped == disabled + unmatched
    ensures MatchedLine(matches, t.line) <==> !SkippedLine(skipped, t.line)
  {
    hide Wanted, Disabled, Keys, DistinctKeys;
    assert forall u :: u in targets && u.line == t.line ==> u == t;
    if Disabled(c, t) {
      assert Skipped(t.line, TagUpdatesDisabled) in disabled;
      assert Skipped(t.line, TagUpdatesDisabled) in skipped;
    } else if t.line !in MatchedLines(matches) {
      assert Skipped(t.line, Unmatched) in unmatched;
      assert Skipped(t.line, Unmatched) in skipped;
    }
  }

  lemma WantedIsMatched(c: Context, targets: seq<Target>, matches: seq<Match>, t: Target, k: Key)
    requires ExactlyWanted(c, targets, matches) && t in targets && !Disabled(c, t) && Wanted(c, t, c.stacks, k)
    ensures t.line in MatchedLines(matches)
  {
    WantedLine(c, t, c.stacks, k);
    var m :| m in matches && KeyOf(m) == k;
    assert m.target.line in MatchedLines(matches);
  }

  lemma SameLineSameSkip(skipped: seq<Skipped>, a: Skipped, b: Skipped)
    requires OncePerLine(skipped) && a in skipped && b in skipped && a.line == b.line
    ensures a == b
  {
  }

  /** A target is matched exactly when some image of some stack matches it and its update is allowed. */
  lemma MatchedIffWanted(c: Context, targets: seq<Target>, matches: seq<Match>, t: Target)
    requires DistinctLines(targets) && ExactlyWanted(c, targets, matches) && t in targets
    requires forall m :: m in matches ==> m.target in targets
    ensures MatchedLine(matches, t.line) <==>
            (t.desiredTag == "" || c.allowTagUpdates) && exists k :: Wanted(c, t, c.stacks, k)
  {
    hide Wanted;
    if MatchedLine(matches, t.line) {
      var m :| m in matches && m.target.line == t.line;
      assert m.target == t;
    }
    if !Disabled(c, t) && exists k :: Wanted(c, t, c.stacks, k) {
      var k :| Wanted(c, t, c.stacks, k);
      WantedLine(c, t, c.stacks, k);
      var m :| m in matches && KeyOf(m) == k;
    }
  }
}
