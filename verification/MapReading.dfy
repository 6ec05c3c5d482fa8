/**
 What the map file says, line by line (scripts/update-lsio-upstreams.py): which files are read at
 all, and the entry of every key with its comments.
 */
module MapReading {
  import opened Ordering
  import opened UpstreamMap
  import opened SourceGrammar
  import FlowScanner

  // ---------- Kinds of lines ----------

  predicate CommentLine(line: string) {
    line != "" && line[0] == '#'
  }

  /** The comment without the white space behind it. */
  ghost predicate CommentOf(line: string, comment: string) {
    CommentLine(line)
    && exists after :: AllSpace(after) && line == comment + after
                       && comment != "" && !FlowScanner.IsSpace(comment[|comment| - 1])
  }

  ghost predicate KeyForm(key: string) {
    exists image :: IsName(image) && key == "linuxserver/docker-" + image
  }

  ghost predicate ValueForm(value: string) {
    exists owner, repo :: IsName(owner) && IsName(repo) && value == owner + "/" + repo
  }

  /** `linuxserver/docker-image: Owner/Repo`, with white space behind it. */
  ghost predicate EntryOf(line: string, key: string, value: string) {
    KeyForm(key) && ValueForm(value) && exists after :: AllSpace(after) && line == key + ": " + value + after
  }

  lemma BlankIff(line: string)
    ensures Strip(line) == "" <==> AllSpace(line)
  {
    var after := StripIs(line);
    if AllSpace(line) { StripAllSpace(line); }
  }

  lemma CommentIff(line: string, comment: string)
    ensures CommentOf(line, comment) <==> IsComment(Strip(line)) && Strip(line) == comment
    ensures CommentLine(line) <==> IsComment(Strip(line))
  {
    var rest := StripIs(line);
    assert line != "" && AllSpace(line) ==> FlowScanner.IsSpace(line[0]);
    if after :| AllSpace(after) && line == comment + after
                && comment != "" && !FlowScanner.IsSpace(comment[|comment| - 1]) {
      StripGives(comment, after);
    }
  }

  lemma FormIff(key: string, value: string)
    ensures IsKey(key) <==> KeyForm(key)
    ensures IsValue(value) <==> ValueForm(value)
  {
    hide IsName;
    ValueIff(value);
    var n := |"linuxserver/docker-"|;
    assert "linuxserver/docker-" <= key ==> key == key[..n] + key[n..];
    if image :| IsName(image) && key == "linuxserver/docker-" + image {
      assert key[..n] == "linuxserver/docker-" && key[n..] == image;
    }
  }

  lemma EntryIff(line: string, key: string, value: string)
    ensures ParseEntry(Strip(line)) == Some((key, value)) <==> EntryOf(line, key, value)
  {
    hide IsKey, IsValue, KeyForm, ValueForm, AllSpace;
    var rest := StripIs(line);
    FormIff(key, value);
    if ParseEntry(Strip(line)) == Some((key, value)) { EntryText(Strip(line), key, value); }
    if EntryOf(line, key, value) {
      var after :| AllSpace(after) && line == key + ": " + value + after;
      EntryLineParses(key, value);
      EntryEnds(key, value);
      StripGives(key + ": " + value, after);
    }
  }

  lemma EntryText(line: string, key: string, value: string)
    requires ParseEntry(line) == Some((key, value))
    ensures IsKey(key) && IsValue(value) && line == key + ": " + value
  {
    hide IsKey, IsValue;
    assert line == line[..|key|] + [line[|key|]] + [line[|key| + 1]] + line[|key| + 2..];
  }

  lemma EntryEnds(key: string, value: string)
    requires IsKey(key) && IsValue(value)
    ensures var line := key + ": " + value; line != "" && !FlowScanner.IsSpace(line[|line| - 1])
  {
    hide IsKey, IsValue;
    var line := key + ": " + value;
    EntryLineParses(key, value);
    assert line[|line| - 1] == value[|value| - 1];
  }

  /** No line is of two kinds. */
  lemma OneKind(line: string, key: string, value: string)
    requires EntryOf(line, key, value)
    ensures Strip(line) != "" && !IsComment(Strip(line)) && !CommentLine(line)
  {
    hide IsValue, AllSpace;
    EntryIff(line, key, value);
    EntryText(Strip(line), key, value);
    assert Strip(line)[0] == key[0] && key[0] == KEY_PREFIX[0];
    CommentIff(line, "");
  }

  // ---------- What all lines say ----------

  /** The comments on the lines directly above. */
  ghost predicate CommentsAbove(lines: seq<string>, n: nat, comments: seq<string>) {
    && |comments| <= n <= |lines|
    && (forall k :: 0 <= k < |comments| ==> CommentOf(lines[n - |comments| + k], comments[k]))
    && (|comments| < n ==> !CommentLine(lines[n - |comments| - 1]))
  }

  /** The last entry of the key, with the comments directly above it. */
  ghost predicate SaysLast(lines: seq<string>, key: string, e: MapEntry) {
    e.key == key
    && exists n: nat :: n < |lines| && EntryOf(lines[n], key, e.value) && CommentsAbove(lines, n, e.comments)
                        && forall k, other :: n < k < |lines| ==> !EntryOf(lines[k], key, other)
  }

  ghost predicate Readable(line: string) {
    AllSpace(line) || CommentLine(line) || exists key, value :: EntryOf(line, key, value)
  }

  /** The entries and the waiting comments after the lines. */
  datatype Progress = Progress(entries: map<string, MapEntry>, pending: seq<string>)

  ghost predicate Says(lines: seq<string>, p: Progress) {
    && CommentsAbove(lines, |lines|, p.pending)
    && forall key, e :: (key in p.entries && p.entries[key] == e) <==> SaysLast(lines, key, e)
  }

  lemma NotCut(lines: seq<string>, n: nat, comments: seq<string>, k: nat)
    requires CommentsAbove(lines, n, comments)
    ensures k < |comments| ==> CommentLine(lines[n - k - 1])
  {
    if k < |comments| { assert CommentOf(lines[n - |comments| + (|comments| - k - 1)], comments[|comments| - k - 1]); }
  }

  lemma CommentsUnique(lines: seq<string>, n: nat, a: seq<string>, b: seq<string>)
    requires CommentsAbove(lines, n, a) && CommentsAbove(lines, n, b)
    ensures a == b
  {
    NotCut(lines, n, a, |b|);
    NotCut(lines, n, b, |a|);
    assert |a| == |b|;
    forall k | 0 <= k < |a| ensures a[k] == b[k] {
      CommentIff(lines[n - |a| + k], a[k]);
      CommentIff(lines[n - |a| + k], b[k]);
    }
  }

  lemma CommentsInFront(front: seq<string>, line: string, n: nat, comments: seq<string>)
    requires n <= |front|
    ensures CommentsAbove(front + [line], n, comments) <==> CommentsAbove(front, n, comments)
  {
    hide CommentOf, CommentLine;
    assert forall k :: 0 <= k < n ==> (front + [line])[k] == front[k];
  }

  /** A new line either is the last entry of the key or leaves what was said. */
  lemma SaysStep(front: seq<string>, line: string, key: string, e: MapEntry)
    ensures SaysLast(front + [line], key, e) <==>
            || (e.key == key && EntryOf(line, key, e.value) && CommentsAbove(front, |front|, e.comments))
            || ((forall other :: !EntryOf(line, key, other)) && SaysLast(front, key, e))
  {
    hide EntryOf, CommentsAbove;
    var lines, last := front + [line], |front|;
    CommentsInFront(front, line, last, e.comments);
    if SaysLast(lines, key, e) {
      var n: nat :| n < |lines| && EntryOf(lines[n], key, e.value) && CommentsAbove(lines, n, e.comments)
                    && forall k, other :: n < k < |lines| ==> !EntryOf(lines[k], key, other);
      if n < last {
        CommentsInFront(front, line, n, e.comments);
        assert lines[last] == line && forall k :: 0 <= k < last ==> lines[k] == front[k];
      }
    }
    if SaysLast(front, key, e) && forall other :: !EntryOf(line, key, other) {
      var n: nat :| n < |front| && EntryOf(front[n], key, e.value) && CommentsAbove(front, n, e.comments)
                    && forall k, other :: n < k < |front| ==> !EntryOf(front[k], key, other);
      CommentsInFront(front, line, n, e.comments);
      assert lines[n] == front[n] && forall k :: n < k < last ==> lines[k] == front[k];
    }
    if e.key == key && EntryOf(line, key, e.value) && CommentsAbove(front, last, e.comments) {
      assert lines[last] == line;
    }
  }

  lemma NoEntrySays(front: seq<string>, line: string, p: Progress, pending: seq<string>)
    requires Says(front, p) && (forall key, value :: !EntryOf(line, key, value))
    requires CommentsAbove(front + [line], |front| + 1, pending)
    ensures Says(front + [line], p.(pending := pending))
  {
    hide EntryOf, CommentsAbove, SaysLast;
    forall key, e ensures SaysLast(front + [line], key, e) <==> SaysLast(front, key, e) {
      SaysStep(front, line, key, e);
    }
  }

  lemma EntrySays(front: seq<string>, line: string, p: Progress, key: string, value: string)
    requires Says(front, p) && EntryOf(line, key, value)
    ensures Says(front + [line], Progress(p.entries[key := MapEntry(key, value, p.pending)], []))
  {
    hide EntryOf, CommentsAbove, SaysLast;
    var entries := p.entries[key := MapEntry(key, value, p.pending)];
    forall k, e ensures (k in entries && entries[k] == e) <==> SaysLast(front + [line], k, e) {
      SaysStep(front, line, k, e);
      SameEntry(line, key, value);
      if k == key && SaysLast(front + [line], k, e) { CommentsUnique(front, |front|, p.pending, e.comments); }
    }
    OneKind(line, key, value);
    NothingAbove(front, line);
  }

  lemma SameEntry(line: string, key: string, value: string)
    requires EntryOf(line, key, value)
    ensures forall k, v :: EntryOf(line, k, v) ==> k == key && v == value
  {
    hide EntryOf;
    EntryIff(line, key, value);
    forall k, v | EntryOf(line, k, v) ensures k == key && v == value {
      EntryIff(line, k, v);
    }
  }

  lemma NothingAbove(front: seq<string>, line: string)
    requires !CommentLine(line)
    ensures CommentsAbove(front + [line], |front| + 1, [])
  {
    assert (front + [line])[|front|] == line;
  }

  lemma OneMoreAbove(front: seq<string>, line: string, comments: seq<string>, comment: string)
    requires CommentsAbove(front, |front|, comments) && CommentOf(line, comment)
    ensures CommentsAbove(front + [line], |front| + 1, comments + [comment])
  {
    hide CommentOf, CommentLine;
    var lines, n := front + [line], |front| + 1;
    var all := comments + [comment];
    assert lines[|front|] == line && forall k :: 0 <= k < |front| ==> lines[k] == front[k];
    forall k | 0 <= k < |all| ensures CommentOf(lines[n - |all| + k], all[k]) {
      if k < |comments| { assert all[k] == comments[k] && lines[n - |all| + k] == front[|front| - |comments| + k]; }
    }
  }

  // ---------- Reading ----------

  /** Reading goes on from what the lines in front say. */
  lemma {:induction false} ReadingSays(front: seq<string>, rest: seq<string>, p: Progress)
    requires Says(front, p)
    ensures var r := ReadLines(rest, p.entries, p.pending);
            && (r.Ok? <==> forall line :: line in rest ==> Readable(line))
            && (r.Ok? ==> forall key, e :: (key in r.value && r.value[key] == e) <==> SaysLast(front + rest, key, e))
    decreases |rest|
  {
    hide Says, SaysLast, Readable, ReadLines;
    if rest == [] {
      assert front + rest == front;
      NothingToRead(front, p);
    } else {
      var line := rest[0];
      var next := ReadOne(front, line, rest[1..], p);
      assert front + [line] + rest[1..] == front + rest;
      assert rest == [line] + rest[1..];
      if next.Some? {
        ReadingSays(front + [line], rest[1..], next.value);
      }
    }
  }

  lemma NothingToRead(front: seq<string>, p: Progress)
    requires Says(front, p)
    ensures ReadLines([], p.entries, p.pending) == Ok(p.entries)
    ensures forall key, e :: (key in p.entries && p.entries[key] == e) <==> SaysLast(front, key, e)
  {
    hide SaysLast, CommentsAbove;
  }

  lemma ReadOne(front: seq<string>, line: string, rest: seq<string>, p: Progress) returns (next: Option<Progress>)
    requires Says(front, p)
    ensures next.Some? <==> Readable(line)
    ensures next.Some? ==> Says(front + [line], next.value)
                           && ReadLines([line] + rest, p.entries, p.pending)
                           == ReadLines(rest, next.value.entries, next.value.pending)
    ensures next.None? ==> ReadLines([line] + rest, p.entries, p.pending).Raise?
  {
    hide Says, Readable, ReadLines, CommentOf, CommentsAbove;
    next := NextOf(line, p);
    ReadStep(line, rest, p);
    BlankIff(line);
    CommentIff(line, Strip(line));
    KindIs(line);
    if Strip(line) == "" {
      NoEntryHere(line);
      NothingAbove(front, line);
      NoEntrySays(front, line, p, []);
    } else if IsComment(Strip(line)) {
      NoEntryHere(line);
      PendingAbove(front, p);
      OneMoreAbove(front, line, p.pending, Strip(line));
      NoEntrySays(front, line, p, p.pending + [Strip(line)]);
    } else if ParseEntry(Strip(line)).Some? {
      var (key, value) := ParseEntry(Strip(line)).value;
      EntryIff(line, key, value);
      EntrySays(front, line, p, key, value);
    }
  }

  lemma PendingAbove(front: seq<string>, p: Progress)
    requires Says(front, p)
    ensures CommentsAbove(front, |front|, p.pending)
  {
    hide CommentsAbove, SaysLast;
  }

  function NextOf(line: string, p: Progress): Option<Progress> {
    var l := Strip(line);
    if l == "" then Some(p.(pending := []))
    else if IsComment(l) then Some(p.(pending := p.pending + [l]))
    else if ParseEntry(l).None? then None
    else
      var (key, value) := ParseEntry(l).value;
      Some(Progress(p.entries[key := MapEntry(key, value, p.pending)], []))
  }

  lemma ReadStep(line: string, rest: seq<string>, p: Progress)
    ensures var next, r := NextOf(line, p), ReadLines([line] + rest, p.entries, p.pending);
            if next.Some? then r == ReadLines(rest, next.value.entries, next.value.pending) else r.Raise?
  {
    hide Strip, ParseEntry;
    assert ([line] + rest)[1..] == rest;
  }

  lemma KindIs(line: string)
    ensures Readable(line) <==> Strip(line) == "" || IsComment(Strip(line)) || ParseEntry(Strip(line)).Some?
  {
    hide EntryOf, ParseEntry, Strip, AllSpace;
    BlankIff(line);
    CommentIff(line, "");
    if ParseEntry(Strip(line)).Some? {
      EntryIff(line, ParseEntry(Strip(line)).value.0, ParseEntry(Strip(line)).value.1);
    }
    if key, value :| EntryOf(line, key, value) { EntryIff(line, key, value); }
  }

  lemma NoEntryHere(line: string)
    requires Strip(line) == "" || IsComment(Strip(line))
    ensures forall key, value :: !EntryOf(line, key, value)
  {
    hide EntryOf;
    forall key, value ensures !EntryOf(line, key, value) {
      if EntryOf(line, key, value) { OneKind(line, key, value); }
    }
  }

  /** A file is read if and only if each line is blank, a comment or an entry. */
  lemma ReadMapOkIff(text: string)
    ensures ReadMap(text).Ok? <==> forall line :: line in PlainLines(text) ==> Readable(line)
  {
    hide Readable, PlainLines;
    NothingSaid();
    ReadingSays([], PlainLines(text), Progress(map[], []));
  }

  /** Each key has the value of its last entry and the comments directly above that entry. */
  lemma ReadMapSays(text: string, key: string, e: MapEntry)
    requires ReadMap(text).Ok?
    ensures key in ReadMap(text).value && ReadMap(text).value[key] == e <==> SaysLast(PlainLines(text), key, e)
  {
    hide SaysLast, PlainLines;
    NothingSaid();
    ReadingSays([], PlainLines(text), Progress(map[], []));
    assert [] + PlainLines(text) == PlainLines(text);
  }

  lemma NothingSaid()
    ensures Says([], Progress(map[], []))
  {
  }
}
