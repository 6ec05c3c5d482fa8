/**
 The scans the upstream script builds, from local checkouts or from GitHub, and when the map it
 writes from one is current (scripts/update-lsio-upstreams.py).
 */
module UpstreamSources {
  import opened Ordering
  import opened TextTail
  import opened UpstreamMap
  import FlowScanner

  // ---------- Reading one repository ----------

  /** A repository and the text of its files by name. */
  datatype Repo = Repo(name: string, files: map<string, string>)

  function LeftStrip(s: string): (r: string)
    ensures |r| <= |s| && (r != "" ==> !FlowScanner.IsSpace(r[0]))
  {
    if s != "" && FlowScanner.IsSpace(s[0]) then LeftStrip(s[1..]) else s
  }

  /** A value in one pair of quotes of the same kind, without them. */
  function Unquoted(value: string): string {
    if |value| >= 2 && value[0] == value[|value| - 1] && value[0] in "'\"" then value[1..|value| - 1] else value
  }

  /** The `project_url` of the first line that is not indented and has one. */
  function ProjectUrl(lines: seq<string>): Option<string> {
    if lines == [] then None
    else
      var line, k := lines[0], IndexOf(':', lines[0]);
      if (line != "" && line[0] in " \t") || k == |line| || line[..k] != "project_url" then ProjectUrl(lines[1..])
      else Some(Unquoted(LeftStrip(Strip(line[k + 1..]))))
  }

  const GITHUB_URL := "https://" + "github.com/"

  /** `Owner/Repo` of a project URL; a slash at the end is dropped. */
  function GithubProject(url: string): Option<string> {
    if !(GITHUB_URL <= url) then None
    else
      var path := url[|GITHUB_URL|..];
      var project := if path != "" && path[|path| - 1] == '/' then path[..|path| - 1] else path;
      if IsValue(project) then Some(project) else None
  }

  function ProjectOf(lines: seq<string>): Option<string> {
    var url := ProjectUrl(lines);
    if url.Some? then GithubProject(url.value) else None
  }

  predicate IsQuote(c: char) {
    c == '\'' || c == '"'
  }

  function QuoteAt(s: string): (n: nat)
    ensures n <= |s| && (n < |s| ==> IsQuote(s[n])) && forall i :: 0 <= i < n ==> !IsQuote(s[i])
  {
    if s == "" || IsQuote(s[0]) then 0 else 1 + QuoteAt(s[1..])
  }

  datatype Setting = Setting(name: string, value: string)

  /** `- NAME = 'value'`, with white space wherever it does not matter. */
  function JenkinsSetting(line: string): Option<Setting> {
    var item := LeftStrip(line);
    if item == "" || item[0] != '-' then None else Assignment(LeftStrip(item[1..]))
  }

  function Assignment(text: string): Option<Setting> {
    if "EXT_USER" <= text || "EXT_REPO" <= text then Assigned(text[..8], LeftStrip(text[8..])) else None
  }

  function Assigned(name: string, text: string): Option<Setting> {
    if text == "" || text[0] != '=' then None else QuotedSetting(name, LeftStrip(text[1..]))
  }

  function QuotedSetting(name: string, text: string): Option<Setting> {
    if text == "" || !IsQuote(text[0]) then None
    else
      var n := QuoteAt(text[1..]);
      if n == 0 || n == |text| - 1 || LeftStrip(text[n + 2..]) != "" then None
      else Some(Setting(name, text[1..n + 1]))
  }

  /** The settings of all lines; a later one replaces an earlier one of the same name. */
  function JenkinsSettings(lines: seq<string>): map<string, string> {
    if lines == [] then map[]
    else
      var settings, last := JenkinsSettings(lines[..|lines| - 1]), JenkinsSetting(lines[|lines| - 1]);
      if last.Some? then settings[last.value.name := last.value.value] else settings
  }

  function JenkinsRepo(settings: map<string, string>): Option<string> {
    if "EXT_USER" in settings && "EXT_REPO" in settings && settings["EXT_USER"] != "" && settings["EXT_REPO"] != ""
    then Some(settings["EXT_USER"] + "/" + settings["EXT_REPO"])
    else None
  }

  /** The loop over the lines of `jenkins-vars.yml`. */
  method ExtractJenkinsExtRepo(text: string) returns (r: Option<string>)
    ensures r == JenkinsRepo(JenkinsSettings(PlainLines(text)))
  {
    hide JenkinsSetting, PlainLines;
    var lines := PlainLines(text);
    var values: map<string, string> := map[];
    for n := 0 to |lines|
      invariant values == JenkinsSettings(lines[..n])
    {
      assert lines[..n + 1][..n] == lines[..n] && lines[..n + 1][n] == lines[n];
      var found := JenkinsSetting(lines[n]);
      if found.Some? {
        values := values[found.value.name := found.value.value];
      }
    }
    assert lines[..|lines|] == lines;
    return JenkinsRepo(values);
  }

  const README_VARS := "readme-vars.yml"
  const JENKINS_VARS := "jenkins-vars.yml"

  function UpstreamRepo(filename: string, text: string): Option<string> {
    var lines := PlainLines(text);
    var project := ProjectOf(lines);
    if project.Some? || filename != JENKINS_VARS then project else JenkinsRepo(JenkinsSettings(lines))
  }

  /** The first of the two files that names an upstream. */
  function ReadSourceRepo(files: map<string, string>, names: seq<string>): Option<string> {
    if names == [] then None
    else
      var found := if names[0] in files then UpstreamRepo(names[0], files[names[0]]) else None;
      if found.Some? then found else ReadSourceRepo(files, names[1..])
  }

  function Upstream(repo: Repo): Option<string> {
    ReadSourceRepo(repo.files, [README_VARS, JENKINS_VARS])
  }

  // ---------- The two producers ----------

  const DOCKER := "docker-"
  const ORGANISATION := "linuxserver/"

  function KeyOf(repo: Repo): string {
    ORGANISATION + repo.name
  }

  function AddRepo(scan: SourceScan, repo: Repo): SourceScan {
    var upstream := Upstream(repo);
    SourceScan(scan.seen + {KeyOf(repo)},
               if upstream.Some? then scan.entries[KeyOf(repo) := upstream.value] else scan.entries)
  }

  function ScanOf(repos: seq<Repo>): SourceScan {
    if repos == [] then SourceScan({}, map[])
    else AddRepo(ScanOf(repos[..|repos| - 1]), repos[|repos| - 1])
  }

  function DockerRepos(repos: seq<Repo>): seq<Repo> {
    if repos == [] then []
    else (if DOCKER <= repos[0].name then [repos[0]] else []) + DockerRepos(repos[1..])
  }

  /** What every scan of the script has: each scanned key is a seen one, and no value has a line break. */
  ghost predicate FromScript(scan: SourceScan) {
    && scan.entries.Keys <= scan.seen
    && forall key :: key in scan.entries ==> scan.entries[key] != "" && NoBreaks(scan.entries[key])
  }

  /** `source_entries_from_dir`: one checkout, or the checkouts in a directory. */
  method SourceEntriesFromDir(root: Repo, children: seq<Repo>) returns (scan: SourceScan)
    ensures scan == ScanOf(if DOCKER <= root.name then [root] else DockerRepos(children))
    ensures FromScript(scan)
  {
    hide Upstream, ScanOf, DockerRepos, FromScript;
    var repos := if DOCKER <= root.name then [root] else DockerRepos(children);
    NothingScanned(repos);
    var seen: set<string>, entries: map<string, string> := {}, map[];
    for n := 0 to |repos|
      invariant SourceScan(seen, entries) == ScanOf(repos[..n])
    {
      ScanStep(repos, n);
      var key := ORGANISATION + repos[n].name;
      seen := seen + {key};
      var upstream := Upstream(repos[n]);
      if upstream.Some? {
        entries := entries[key := upstream.value];
      }
    }
    assert repos[..|repos|] == repos;
    scan := SourceScan(seen, entries);
    ScansAreFromScript(repos);
  }

  /** `source_entries_from_github`, over the repositories that the service lists. */
  method SourceEntriesFromGithub(listed: seq<Repo>) returns (scan: SourceScan)
    ensures scan == ScanOf(DockerRepos(listed)) && FromScript(scan)
  {
    hide Upstream, ScanOf, DockerRepos, FromScript;
    var repos := DockerRepos(listed);
    NothingScanned(repos);
    scan := SourceScan({}, map[]);
    for n := 0 to |repos|
      invariant scan == ScanOf(repos[..n])
    {
      ScanStep(repos, n);
      scan := scan.(seen := scan.seen + {ORGANISATION + repos[n].name});
      var entry := SourceEntry(repos[n]);
      if entry.Some? {
        scan := scan.(entries := scan.entries[entry.value.0 := entry.value.1]);
      }
    }
    assert repos[..|repos|] == repos;
    ScansAreFromScript(repos);
  }

  lemma NothingScanned(repos: seq<Repo>)
    ensures ScanOf(repos[..0]) == SourceScan({}, map[])
  {
  }

  lemma ScanStep(repos: seq<Repo>, n: nat)
    requires n < |repos|
    ensures ScanOf(repos[..n + 1]) == AddRepo(ScanOf(repos[..n]), repos[n])
  {
    hide AddRepo;
    assert repos[..n + 1][..n] == repos[..n] && repos[..n + 1][n] == repos[n];
  }

  /** `source_entry_from_github_repo` */
  function SourceEntry(repo: Repo): Option<(string, string)> {
    var upstream := Upstream(repo);
    if upstream.None? then None else Some((ORGANISATION + repo.name, upstream.value))
  }

  // ---------- What they find ----------

  lemma SliceHasNoBreaks(s: string, i: nat, j: nat)
    requires NoBreaks(s) && i <= j <= |s|
    ensures NoBreaks(s[i..j]) && NoBreaks(s[i..])
  {
    forall n | 0 <= n < |s| - i ensures !IsLineBreak(s[i..][n]) {
      assert s[i..][n] == s[i + n];
    }
  }

  lemma {:induction false} LeftStripIsSlice(s: string)
    ensures |LeftStrip(s)| <= |s| && LeftStrip(s) == s[|s| - |LeftStrip(s)|..]
  {
    if s != "" && FlowScanner.IsSpace(s[0]) {
      LeftStripIsSlice(s[1..]);
      assert s[1..][|s| - 1 - |LeftStrip(s)|..] == s[|s| - |LeftStrip(s)|..];
    }
  }

  lemma LeftStripHasNoBreaks(s: string)
    requires NoBreaks(s)
    ensures NoBreaks(LeftStrip(s))
  {
    LeftStripIsSlice(s);
    SliceHasNoBreaks(s, |s| - |LeftStrip(s)|, |s|);
  }

  lemma SettingHasNoBreaks(line: string)
    requires NoBreaks(line) && JenkinsSetting(line).Some?
    ensures NoBreaks(JenkinsSetting(line).value.value) && JenkinsSetting(line).value.value != ""
  {
    hide NoBreaks, LeftStrip;
    var item := LeftStrip(line);
    LeftStripHasNoBreaks(line);
    SliceHasNoBreaks(item, 1, |item|);
    var text := LeftStrip(item[1..]);
    LeftStripHasNoBreaks(item[1..]);
    SliceHasNoBreaks(text, 8, |text|);
    var sign := LeftStrip(text[8..]);
    LeftStripHasNoBreaks(text[8..]);
    SliceHasNoBreaks(sign, 1, |sign|);
    var quoted := LeftStrip(sign[1..]);
    LeftStripHasNoBreaks(sign[1..]);
    SliceHasNoBreaks(quoted, 1, QuoteAt(quoted[1..]) + 1);
  }

  predicate PlainSettings(settings: map<string, string>) {
    forall name :: name in settings ==> NoBreaks(settings[name])
  }

  lemma {:induction false} SettingsHaveNoBreaks(lines: seq<string>)
    requires forall l :: l in lines ==> NoBreaks(l)
    ensures PlainSettings(JenkinsSettings(lines))
  {
    if lines != [] {
      var front, last := lines[..|lines| - 1], lines[|lines| - 1];
      assert last in lines && forall l :: l in front ==> l in lines;
      SettingsHaveNoBreaks(front);
      if JenkinsSetting(last).Some? { SettingHasNoBreaks(last); }
      hide JenkinsSetting, NoBreaks;
    }
  }

  lemma ValueHasNoBreaks(value: string)
    requires IsValue(value)
    ensures value != "" && NoBreaks(value)
  {
    ValueCharacters(value);
    forall i | 0 <= i < |value| ensures !IsLineBreak(value[i]) {
      NameCharPlain(value[i]);
    }
  }

  lemma JenkinsRepoFits(settings: map<string, string>)
    requires JenkinsRepo(settings).Some? && PlainSettings(settings)
    ensures JenkinsRepo(settings).value != "" && NoBreaks(JenkinsRepo(settings).value)
  {
    var user, repo := settings["EXT_USER"], settings["EXT_REPO"];
    assert NoBreaks(user) && NoBreaks(repo);
    var value := user + "/" + repo;
    forall i | 0 <= i < |value| ensures !IsLineBreak(value[i]) {
      if i < |user| {
        assert value[i] == user[i];
      } else if i > |user| {
        assert value[i] == repo[i - |user| - 1];
      }
    }
  }

  /** A project URL gives `Owner/Repo`; the Jenkins settings give any text on one line round a slash. */
  lemma UpstreamFits(filename: string, text: string)
    requires UpstreamRepo(filename, text).Some?
    ensures var upstream := UpstreamRepo(filename, text).value;
            upstream != "" && NoBreaks(upstream) && (filename != JENKINS_VARS ==> IsValue(upstream))
  {
    hide *;
    var lines := PlainLines(text);
    AllLinesPlain(text);
    UpstreamIs(filename, text);
    if ProjectOf(lines).Some? {
      ProjectFits(lines);
    } else {
      SettingsHaveNoBreaks(lines);
      JenkinsRepoFits(JenkinsSettings(lines));
    }
  }

  lemma AllLinesPlain(text: string)
    ensures forall l :: l in PlainLines(text) ==> NoBreaks(l)
  {
    hide PlainLines;
    PlainLinesHaveNoBreaks(text);
  }

  lemma UpstreamIs(filename: string, text: string)
    ensures var lines := PlainLines(text);
            UpstreamRepo(filename, text) == if ProjectOf(lines).Some? || filename != JENKINS_VARS then ProjectOf(lines)
                                            else JenkinsRepo(JenkinsSettings(lines))
  {
    hide PlainLines, ProjectOf, JenkinsRepo, JenkinsSettings;
  }

  lemma ProjectFits(lines: seq<string>)
    requires ProjectOf(lines).Some?
    ensures IsValue(ProjectOf(lines).value) && ProjectOf(lines).value != "" && NoBreaks(ProjectOf(lines).value)
  {
    hide ProjectUrl, NoBreaks, IsValue;
    ValueHasNoBreaks(ProjectOf(lines).value);
  }

  lemma {:induction false} ReadRepoFits(files: map<string, string>, names: seq<string>)
    requires ReadSourceRepo(files, names).Some?
    ensures ReadSourceRepo(files, names).value != "" && NoBreaks(ReadSourceRepo(files, names).value)
  {
    hide UpstreamRepo, NoBreaks;
    if names[0] in files && UpstreamRepo(names[0], files[names[0]]).Some? {
      UpstreamFits(names[0], files[names[0]]);
    } else {
      ReadRepoFits(files, names[1..]);
    }
  }

  /** Every scan of repositories has seen the keys of its entries. */
  lemma {:induction false} ScansAreFromScript(repos: seq<Repo>)
    ensures FromScript(ScanOf(repos))
    ensures ScanOf(repos).seen == set repo | repo in repos :: KeyOf(repo)
  {
    hide Upstream, NoBreaks, KeyOf;
    if repos != [] {
      var front, last := repos[..|repos| - 1], repos[|repos| - 1];
      assert repos == front + [last];
      ScansAreFromScript(front);
      if Upstream(last).Some? { UpstreamOk(last); }
    }
  }

  lemma UpstreamOk(repo: Repo)
    requires Upstream(repo).Some?
    ensures Upstream(repo).value != "" && NoBreaks(Upstream(repo).value)
  {
    ReadRepoFits(repo.files, [README_VARS, JENKINS_VARS]);
  }

  // ---------- Whether a written map is current ----------

  predicate EntryFits(key: string, value: string) {
    IsKey(key) && IsValue(value)
  }

  /** The check right after a write: the file is readable and nothing is reported. */
  ghost predicate CurrentAfterWrite(current: map<string, MapEntry>, source: SourceScan) {
    var read := ReadMap(RenderMap(Built(current, source)));
    read.Ok? && CompareEntries(read.value, source) == NO_DRIFT
  }

  /** An entry with a key as it should be, and any value on one line. */
  predicate OneLine(key: string, e: MapEntry) {
    e.key == key && IsKey(key) && NoBreaks(e.value) && forall c :: c in e.comments ==> CommentOk(c)
  }

  lemma OneLineHasNoBreaks(e: MapEntry)
    requires OneLine(e.key, e)
    ensures NoBreaks(EntryLine(e))
  {
    var line, key := EntryLine(e), e.key;
    KeyCharacters(key);
    forall i | 0 <= i < |line| ensures !IsLineBreak(line[i]) {
      if i < |key| {
        assert line[i] == key[i];
        NameCharPlain(key[i]);
      } else if i >= |key| + 2 {
        assert line[i] == e.value[i - |key| - 2];
      }
    }
  }

  lemma OneLineEntry(e: MapEntry)
    requires OneLine(e.key, e)
    ensures Strip(EntryLine(e)) != "" && !IsComment(Strip(EntryLine(e)))
    ensures var parsed := ParseEntry(Strip(EntryLine(e)));
            parsed.Some? ==> parsed.value.0 == e.key && Strip(EntryLine(e)) == e.key + ": " + parsed.value.1
  {
    var line, key := EntryLine(e), e.key;
    assert line == key + (": " + e.value);
    assert IsKey(key) && key + ":" <= line;
    hide *;
    StripKeepsKey(key, ": " + e.value);
    ParsedBehindKey(key, Strip(line), line);
  }

  lemma ParsedBehindKey(key: string, stripped: string, line: string)
    requires IsKey(key) && key <= stripped && key[0] == 'l' && stripped <= line && key + ":" <= line
    ensures stripped != "" && !IsComment(stripped)
    ensures var parsed := ParseEntry(stripped);
            parsed.Some? ==> parsed.value.0 == key && stripped == key + ": " + parsed.value.1
  {
    hide IsKey, IsValue, IndexOf;
    KeyCharacters(key);
    assert stripped[0] == key[0];
    if ParseEntry(stripped).Some? {
      if |stripped| > |key| { assert stripped[|key|] == line[|key|] == (key + ":")[|key|]; }
      FirstColon(key, stripped);
      Rejoined(stripped, |key|);
    }
  }

  lemma Rejoined(s: string, n: nat)
    requires n + 1 < |s| && s[n] == ':' && s[n + 1] == ' '
    ensures s == s[..n] + ": " + s[n + 2..]
  {
  }

  lemma FirstColon(key: string, stripped: string)
    requires IsKey(key) && key <= stripped && ParseEntry(stripped).Some?
    requires |stripped| > |key| ==> stripped[|key|] == ':'
    ensures IndexOf(':', stripped) == |key|
  {
    KeyCharacters(key);
    var n := IndexOf(':', stripped);
    assert forall i :: 0 <= i < |key| ==> stripped[i] == key[i] && key[i] != ':';
  }

  /** Stripping on the right keeps every start that does not end in white space. */
  lemma {:induction false} StripKeepsStart(start: string, line: string)
    requires start <= line && start != "" && !FlowScanner.IsSpace(start[|start| - 1])
    ensures start <= Strip(line)
    decreases |line|
  {
    hide FlowScanner.IsSpace;
    if FlowScanner.IsSpace(line[|line| - 1]) {
      assert |start| < |line|;
      StripKeepsStart(start, line[..|line| - 1]);
    }
  }

  lemma StripKeepsKey(key: string, rest: string)
    requires IsKey(key)
    ensures key <= Strip(key + rest) && key[0] == 'l'
  {
    hide Strip, IsKey;
    KeyCharacters(key);
    KeyEnds(key);
    StripKeepsStart(key, key + rest);
  }

  lemma KeyEnds(key: string)
    requires IsKey(key)
    ensures key != "" && !FlowScanner.IsSpace(key[|key| - 1])
  {
    KeyCharacters(key);
    NameCharPlain(key[|key| - 1]);
  }

  lemma ReadOneLine(e: MapEntry, rest: seq<string>, entries: map<string, MapEntry>)
    requires OneLine(e.key, e)
    ensures var r := ReadLines(e.comments + [EntryLine(e)] + rest, entries, []);
            var parsed := ParseEntry(Strip(EntryLine(e)));
            r == if parsed.None? then Raise("invalid upstream map line")
                 else ReadLines(rest, entries[e.key := MapEntry(e.key, parsed.value.1, e.comments)], [])
  {
    var line := EntryLine(e);
    ReadComments(e.comments, [line] + rest, entries, []);
    assert e.comments + [line] + rest == e.comments + ([line] + rest);
    assert [] + e.comments == e.comments;
    OneLineEntry(e);
    hide Strip, ParseEntry, EntryLine, IsComment, OneLine;
    assert ([line] + rest)[1..] == rest;
  }

  /** Reading the rendered entries gives them back, stripped on the right, or fails. */
  ghost predicate ReadBack(entries: map<string, MapEntry>, keys: seq<string>, read: map<string, MapEntry>) {
    forall key :: key in keys ==>
      key in entries && key in read && read[key].comments == entries[key].comments
      && Strip(EntryLine(entries[key])) == key + ": " + read[key].value
  }

  lemma {:induction false} ReadOneLines(entries: map<string, MapEntry>, keys: seq<string>, done: map<string, MapEntry>)
    requires forall key :: key in keys ==> key in entries && OneLine(key, entries[key])
    requires Increasing(keys)
    ensures var r := ReadLines(EntryLines(entries, keys), done, []);
            r.Ok? ==> ReadBack(entries, keys, r.value)
                      && forall key :: key in done && key !in keys ==> key in r.value && r.value[key] == done[key]
    decreases |keys|
  {
    hide OneLine, Strip, ParseEntry, EntryLine, IsComment, ReadLines, Less;
    if keys == [] {
      ReadNothing(done, []);
    } else {
      var e, rest := entries[keys[0]], keys[1..];
      assert OneLine(keys[0], e) by { assert keys[0] in keys; }
      KeyOfOneLine(keys[0], e);
      ReadOneLine(e, EntryLines(entries, rest), done);
      OneLineEntry(e);
      FirstIsNotLater(keys);
      var parsed := ParseEntry(Strip(EntryLine(e)));
      if parsed.Some? {
        var more := done[e.key := MapEntry(e.key, parsed.value.1, e.comments)];
        assert forall key :: key in rest ==> key in keys;
        ReadOneLines(entries, rest, more);
        var r := ReadLines(EntryLines(entries, rest), more, []);
        if r.Ok? {
          assert more[e.key] == r.value[e.key] && keys[..1] == [e.key];
          ReadBackFirst(entries, keys, r.value);
        }
      }
    }
  }

  lemma KeyOfOneLine(key: string, e: MapEntry)
    requires OneLine(key, e)
    ensures e.key == key
  {
  }

  lemma ReadBackFirst(entries: map<string, MapEntry>, keys: seq<string>, read: map<string, MapEntry>)
    requires keys != [] && ReadBack(entries, keys[..1], read) && ReadBack(entries, keys[1..], read)
    ensures ReadBack(entries, keys, read)
  {
    hide Strip, EntryLine;
    assert keys == keys[..1] + keys[1..];
  }

  lemma FirstIsNotLater(keys: seq<string>)
    requires Increasing(keys) && keys != []
    ensures keys[0] !in keys[1..]
  {
    LessTotal(keys[0], keys[0]);
  }

  lemma {:induction false} OneLinesHaveNoBreaks(entries: map<string, MapEntry>, keys: seq<string>)
    requires forall key :: key in keys ==> key in entries && OneLine(key, entries[key])
    ensures forall l :: l in EntryLines(entries, keys) ==> NoBreaks(l)
    decreases |keys|
  {
    if keys != [] {
      var e := entries[keys[0]];
      assert OneLine(keys[0], e) by { assert keys[0] in keys; }
      KeyOfOneLine(keys[0], e);
      OneLineHasNoBreaks(e);
      CommentsHaveNoBreaks(e);
      hide NoBreaks, OneLine, EntryLine;
      OneLinesHaveNoBreaks(entries, keys[1..]);
    }
  }

  lemma CommentsHaveNoBreaks(e: MapEntry)
    requires OneLine(e.key, e)
    ensures forall l :: l in e.comments ==> NoBreaks(l)
  {
    forall l | l in e.comments ensures NoBreaks(l) {
      assert CommentOk(l);
    }
  }

  lemma HeaderHasNoBreaks()
    ensures forall l :: l in HEADER + [""] ==> NoBreaks(l)
    ensures forall l :: l in HEADER ==> CommentOk(l)
  {
    hide HEADER;
    HeaderOk();
    forall l | l in HEADER ensures NoBreaks(l) {
      assert LineOk(l);
    }
  }

  /** A rendered map of such entries, read again. */
  lemma ReadRendered(entries: map<string, MapEntry>)
    requires forall key :: key in entries ==> OneLine(key, entries[key])
    ensures var r := ReadMap(RenderMap(entries)); r.Ok? ==> ReadBack(entries, SortedKeys(entries.Keys), r.value)
  {
    hide OneLine, EntryLines, ReadLines, HEADER, NoBreaks, CommentOk;
    var keys := SortedKeys(entries.Keys);
    assert forall k :: k in keys <==> k in Elements(keys);
    var body := EntryLines(entries, keys);
    HeaderHasNoBreaks();
    OneLinesHaveNoBreaks(entries, keys);
    LinesOfJoined(HEADER + [""] + body);
    HeaderIsSkipped(HEADER, body);
    ReadOneLines(entries, keys, map[]);
  }

  lemma BuiltOneLine(current: map<string, MapEntry>, source: SourceScan)
    requires WellFormed(current) && FromScript(source)
    requires forall key :: key in source.entries ==> IsKey(key)
    ensures forall key :: key in Built(current, source) ==> OneLine(key, Built(current, source)[key])
  {
    hide IsKey, IsValue, NoBreaks, CommentOk;
    forall key | key in Built(current, source) ensures OneLine(key, Built(current, source)[key]) {
      if key in current {
        assert UpstreamMap.EntryOk(key, current[key]);
        ValueHasNoBreaks(current[key].value);
      }
    }
  }

  /** Scanned entries that no override stands for. */
  predicate Taken(current: map<string, MapEntry>, source: SourceScan, key: string) {
    key in source.entries && !(key in current && current[key].IsOverride())
  }

  ghost predicate AllFit(current: map<string, MapEntry>, source: SourceScan) {
    forall key :: Taken(current, source, key) ==> EntryFits(key, source.entries[key])
  }

  /** When all taken entries fit, the file reads back as written and nothing is reported. */
  lemma FittingIsCurrent(current: map<string, MapEntry>, source: SourceScan)
    requires WellFormed(current) && FromScript(source) && AllFit(current, source)
    ensures ReadMap(RenderMap(Built(current, source))) == Ok(Built(current, source))
    ensures CurrentAfterWrite(current, source)
  {
    var built := Built(current, source);
    assert WellFormed(built) by {
      hide IsKey, IsValue, CommentOk;
      forall key | key in built ensures UpstreamMap.EntryOk(key, built[key]) {
        if key in current {
          assert UpstreamMap.EntryOk(key, current[key]);
        }
        if Taken(current, source, key) { assert EntryFits(key, source.entries[key]); }
      }
    }
    RoundTripIff(built);
    hide RenderMap, ReadMap, WellFormed, IsKey, IsValue, NoBreaks;
    var drift := CompareEntries(built, source);
    assert drift.missing == {} && drift.changed == {} && drift.removed == {};
  }

  lemma ReportedKeys(read: map<string, MapEntry>, source: SourceScan, key: string)
    requires CompareEntries(read, source) == NO_DRIFT && key in source.entries
    ensures key in read && (read[key].IsOverride() || read[key].value == source.entries[key])
  {
    var drift := CompareEntries(read, source);
    assert key !in drift.missing && key !in drift.changed;
  }

  /** A file that is current has only keys and values that fit. */
  lemma CurrentIsFitting(current: map<string, MapEntry>, source: SourceScan)
    requires WellFormed(current) && FromScript(source) && CurrentAfterWrite(current, source)
    ensures AllFit(current, source)
  {
    hide RenderMap, ReadMap, IsKey, IsValue, CompareEntries, NoBreaks, CommentOk, EntryLine;
    var built := Built(current, source);
    var read := ReadMap(RenderMap(built)).value;
    WellFormedWhenRead(RenderMap(built));
    forall key | key in source.entries ensures IsKey(key) {
      ReportedKeys(read, source, key);
      assert UpstreamMap.EntryOk(key, read[key]);
    }
    BuiltOneLine(current, source);
    ReadRendered(built);
    forall key | Taken(current, source, key) ensures EntryFits(key, source.entries[key]) {
      ReportedKeys(read, source, key);
      assert UpstreamMap.EntryOk(key, read[key]);
      assert key in Elements(SortedKeys(built.Keys));
      assert read[key].comments == built[key].comments == [];
    }
  }

  /**
   For every scan the script builds: straight after a write the map is readable and current if and
   only if every entry taken from the scan has a key and a value of the entry syntax.
   */
  lemma WrittenMapIsCurrentIff(current: map<string, MapEntry>, source: SourceScan)
    requires WellFormed(current) && FromScript(source)
    ensures CurrentAfterWrite(current, source) <==> AllFit(current, source)
  {
    if AllFit(current, source) { FittingIsCurrent(current, source); }
    if CurrentAfterWrite(current, source) { CurrentIsFitting(current, source); }
  }

  // ---------- A value that does not fit ----------

  predicate Quotable(s: string) {
    s != "" && forall i :: 0 <= i < |s| ==> !IsQuote(s[i]) && !IsLineBreak(s[i])
  }

  lemma QuoteBehind(s: string, rest: string)
    requires forall i :: 0 <= i < |s| ==> !IsQuote(s[i])
    ensures QuoteAt(s + "'" + rest) == |s|
  {
    var t := s + "'" + rest;
    var n := QuoteAt(t);
    assert t[|s|] == '\'' && forall i :: 0 <= i < |s| ==> t[i] == s[i];
  }

  lemma QuotedIsRead(name: string, value: string)
    requires Quotable(value)
    ensures QuotedSetting(name, "'" + (value + "'")) == Some(Setting(name, value))
  {
    var quoted := "'" + (value + "'");
    QuoteBehind(value, "");
    assert quoted[1..] == value + "'" + "" && quoted[1..|value| + 1] == value && quoted[|value| + 2..] == "";
  }

  /** White space before the rest is skipped, and none stands before these characters. */
  lemma StripsTo(rest: string)
    requires rest != "" && !FlowScanner.IsSpace(rest[0])
    ensures LeftStrip(rest) == rest && LeftStrip(" " + rest) == rest
  {
    assert (" " + rest)[1..] == rest;
  }

  lemma AssignmentIsRead(name: string, value: string)
    requires (name == "EXT_USER" || name == "EXT_REPO") && Quotable(value)
    ensures Assignment(name + ("='" + (value + "'"))) == Some(Setting(name, value))
  {
    var quoted := "'" + (value + "'");
    QuotedIsRead(name, value);
    StripsTo(quoted);
    StripsTo("=" + quoted);
    assert "='" + (value + "'") == "=" + quoted;
    assert |name| == 8;
    hide *;
    NamedText(name, quoted);
    AssignedIsRead(name, quoted);
    AssignmentOf(name, "=" + quoted);
  }

  lemma NamedText(name: string, rest: string)
    ensures ("=" + rest)[1..] == rest
  {
  }

  lemma AssignedIsRead(name: string, quoted: string)
    requires LeftStrip(quoted) == quoted
    ensures Assigned(name, "=" + quoted) == QuotedSetting(name, quoted)
  {
    hide QuotedSetting, LeftStrip;
    NamedText(name, quoted);
  }

  lemma AssignmentOf(name: string, rest: string)
    requires (name == "EXT_USER" || name == "EXT_REPO") && |name| == 8 && LeftStrip(rest) == rest
    ensures Assignment(name + rest) == Assigned(name, rest)
  {
    hide Assigned, LeftStrip;
    CutName(name, rest);
  }

  lemma CutName(name: string, rest: string)
    ensures name <= name + rest && (name + rest)[..|name|] == name && (name + rest)[|name|..] == rest
  {
  }

  lemma SettingLine(line: string, name: string, value: string)
    requires (name == "EXT_USER" || name == "EXT_REPO") && Quotable(value)
    requires line == "- " + (name + ("='" + (value + "'")))
    ensures JenkinsSetting(line) == Some(Setting(name, value))
  {
    hide *;
    var text := name + ("='" + (value + "'"));
    assert line[0] == '-' && text[0] == 'E';
    AssignmentIsRead(name, value);
    StripsToPlain(line);
    StripsToPlain(text);
    NextText(line, text);
    SettingOf(line, text);
  }

  lemma StripsToPlain(rest: string)
    requires rest != "" && (rest[0] == '-' || rest[0] == 'E')
    ensures LeftStrip(rest) == rest && LeftStrip(" " + rest) == rest
  {
    StripsTo(rest);
  }

  lemma NextText(line: string, text: string)
    requires line == "- " + text
    ensures line[0] == '-' && line[1..] == " " + text
  {
  }

  lemma SettingOf(line: string, text: string)
    requires line != "" && line[0] == '-' && line[1..] == " " + text
    requires LeftStrip(line) == line && LeftStrip(" " + text) == text
    ensures JenkinsSetting(line) == Assignment(text)
  {
    hide Assignment, LeftStrip;
  }

  lemma TwoLines(a: string, b: string)
    requires NoBreaks(a) && NoBreaks(b) && b != ""
    ensures PlainLines(a + "\n" + b) == [a, b]
  {
    LineLengthOf(a, b);
    var s := a + "\n" + b;
    assert s[..|a| + 1] == a + "\n" && s[|a| + 1..] == b;
    BreakGoes(a);
    LastPlainLine(b);
  }

  lemma {:induction false} LengthWithoutBreak(b: string)
    requires NoBreaks(b)
    ensures LineLength(b) == |b|
  {
    if b != "" {
      SliceHasNoBreaks(b, 1, |b|);
      LengthWithoutBreak(b[1..]);
    }
  }

  lemma LastPlainLine(b: string)
    requires NoBreaks(b) && b != ""
    ensures PlainLines(b) == [b]
  {
    LengthWithoutBreak(b);
    assert b[..|b|] == b && b[|b|..] == "" && WithoutBreak(b) == b;
  }

  /** The settings file of one user and one repository, whatever they are. */
  function SettingsFile(user: string, repo: string): string {
    ("- " + ("EXT_USER" + ("='" + (user + "'")))) + "\n" + ("- " + ("EXT_REPO" + ("='" + (repo + "'"))))
  }

  lemma SettingsFileRead(user: string, repo: string)
    requires Quotable(user) && Quotable(repo)
    ensures JenkinsRepo(JenkinsSettings(PlainLines(SettingsFile(user, repo)))) == Some(user + "/" + repo)
    ensures ProjectOf(PlainLines(SettingsFile(user, repo))).None?
  {
    var a, b := "- " + ("EXT_USER" + ("='" + (user + "'"))), "- " + ("EXT_REPO" + ("='" + (repo + "'")));
    SettingLine(a, "EXT_USER", user);
    SettingLine(b, "EXT_REPO", repo);
    SettingHasNoBreaksLine("EXT_USER", user);
    SettingHasNoBreaksLine("EXT_REPO", repo);
    assert |a| > 2 && |b| > 2 && a[0] == '-' && b[0] == '-';
    hide *;
    TwoLines(a, b);
    NoProject(a, b);
    TwoSettings(a, b, user, repo);
    SettingsText(user, repo);
  }

  lemma SettingsText(user: string, repo: string)
    ensures SettingsFile(user, repo)
         == ("- " + ("EXT_USER" + ("='" + (user + "'")))) + "\n" + ("- " + ("EXT_REPO" + ("='" + (repo + "'"))))
  {
  }

  lemma TwoSettings(a: string, b: string, user: string, repo: string)
    requires JenkinsSetting(a) == Some(Setting("EXT_USER", user)) && JenkinsSetting(b) == Some(Setting("EXT_REPO", repo))
    requires user != "" && repo != ""
    ensures JenkinsRepo(JenkinsSettings([a, b])) == Some(user + "/" + repo)
  {
    hide JenkinsSetting;
    assert [a, b][..1] == [a] && [a][..0] == [];
    assert JenkinsSettings([a]) == map["EXT_USER" := user];
    assert JenkinsSettings([a, b]) == map["EXT_USER" := user]["EXT_REPO" := repo];
    assert "EXT_USER"[4] == 'U' && "EXT_REPO"[4] == 'R';
  }

  lemma SettingHasNoBreaksLine(name: string, value: string)
    requires (name == "EXT_USER" || name == "EXT_REPO") && Quotable(value)
    ensures NoBreaks("- " + (name + ("='" + (value + "'"))))
  {
    assert NoBreaks("EXT_USER") && NoBreaks("EXT_REPO") && NoBreaks("- ") && NoBreaks("='") && NoBreaks("'");
  }

  lemma NoProject(a: string, b: string)
    requires |a| > 2 && |b| > 2 && a[0] == '-' && b[0] == '-'
    ensures ProjectOf([a, b]) == None
  {
    assert "project_url"[0] == 'p';
    assert [a, b][1..] == [b] && [b][1..] == [];
    assert ProjectUrl([b]) == None;
  }

  /** Jenkins settings may hold any text in quotes; with a space in it the written map is unreadable. */
  lemma SpaceMakesMapUnreadable()
    ensures var scan := ScanOf([Repo("docker-x", map[JENKINS_VARS := SettingsFile("a b", "c")])]);
            && FromScript(scan) && scan.entries == map["linuxserver/docker-x" := "a b/c"]
            && ReadMap(RenderMap(Built(map[], scan))).Raise? && !CurrentAfterWrite(map[], scan)
  {
    hide Upstream, ReadMap, RenderMap;
    var repo := Repo("docker-x", map[JENKINS_VARS := SettingsFile("a b", "c")]);
    var scan := ScanOf([repo]);
    ScansAreFromScript([repo]);
    SampleUpstream(repo);
    assert [repo][..0] == [] && KeyOf(repo) == "linuxserver/docker-x";
    assert scan.entries == map["linuxserver/docker-x" := "a b/c"];
    SampleDoesNotFit();
    UnreadableValue(scan, "linuxserver/docker-x", "a b/c");
  }

  lemma SampleUpstream(repo: Repo)
    requires repo == Repo("docker-x", map[JENKINS_VARS := SettingsFile("a b", "c")])
    ensures Upstream(repo) == Some("a b/c")
  {
    assert "a b" + "/" + "c" == "a b/c" && Quotable("a b") && Quotable("c");
    hide *;
    SettingsFileRead("a b", "c");
    UpstreamIs(JENKINS_VARS, SettingsFile("a b", "c"));
    UpstreamOf(repo, SettingsFile("a b", "c"));
  }

  lemma UpstreamOf(repo: Repo, text: string)
    requires repo.files == map[JENKINS_VARS := text]
    ensures Upstream(repo) == UpstreamRepo(JENKINS_VARS, text)
  {
    hide UpstreamRepo, ReadSourceRepo;
    FileNames();
    OnlyJenkins(repo.files, text);
  }

  lemma FileNames()
    ensures README_VARS != JENKINS_VARS
  {
    assert README_VARS[0] == 'r' && JENKINS_VARS[0] == 'j';
  }

  lemma OnlyJenkins(files: map<string, string>, text: string)
    requires files == map[JENKINS_VARS := text] && README_VARS != JENKINS_VARS
    ensures ReadSourceRepo(files, [README_VARS, JENKINS_VARS]) == UpstreamRepo(JENKINS_VARS, text)
  {
    hide UpstreamRepo;
    assert [README_VARS, JENKINS_VARS][1..] == [JENKINS_VARS] && [JENKINS_VARS][1..] == [];
    assert README_VARS !in files;
    assert ReadSourceRepo(files, []) == None;
    assert ReadSourceRepo(files, [JENKINS_VARS]) == UpstreamRepo(JENKINS_VARS, text);
  }

  lemma SampleDoesNotFit()
    ensures !IsValue("a b/c") && NoBreaks("a b/c") && IsKey("linuxserver/docker-x")
  {
    var v := "a b/c";
    assert v[1..] == " b/c" && v[2..] == "b/c" && v[3..] == "/c";
    assert IndexOf('/', "/c") == 0 && IndexOf('/', "b/c") == 1 && IndexOf('/', " b/c") == 2;
    assert v[..3][1] == ' ';
    assert "linuxserver/docker-x"[|KEY_PREFIX|..] == "x";
  }

  /** A value that does not fit and does not end in white space cannot be read back at all. */
  lemma UnreadableValue(scan: SourceScan, key: string, value: string)
    requires FromScript(scan) && scan.entries == map[key := value] && IsKey(key) && !IsValue(value)
    requires value != "" && !FlowScanner.IsSpace(value[|value| - 1])
    ensures ReadMap(RenderMap(Built(map[], scan))).Raise?
    ensures !CurrentAfterWrite(map[], scan)
  {
    hide RenderMap, ReadMap, IsKey, IsValue, NoBreaks, CommentOk;
    var built := Built(map[], scan);
    var read := ReadMap(RenderMap(built));
    WellFormedWhenRead(RenderMap(built));
    BuiltOneLine(map[], scan);
    ReadRendered(built);
    if read.Ok? {
      assert key in Elements(SortedKeys(built.Keys)) && built[key] == MapEntry(key, value, []);
      assert UpstreamMap.EntryOk(key, read.value[key]);
      var line := key + ": " + value;
      assert Strip(line) == line && line == key + ": " + read.value[key].value;
      SameBehind(key + ": ", value, read.value[key].value);
    }
  }

  lemma SameBehind(front: string, a: string, b: string)
    requires front + a == front + b
    ensures a == b
  {
    assert (front + a)[|front|..] == a && (front + b)[|front|..] == b;
  }
}
