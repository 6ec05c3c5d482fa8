/**
 The lines of a repository's settings files that name its upstream
 (scripts/update-lsio-upstreams.py), as grammars instead of scans.
 */
module SourceGrammar {
  import opened Ordering
  import opened UpstreamMap
  import opened UpstreamSources
  import FlowScanner

  ghost predicate AllSpace(s: string) {
    forall i :: 0 <= i < |s| ==> FlowScanner.IsSpace(s[i])
  }

  ghost predicate Trimmed(s: string) {
    s != "" ==> !FlowScanner.IsSpace(s[0]) && !FlowScanner.IsSpace(s[|s| - 1])
  }

  // ---------- White space ----------

  lemma {:induction false} StripIs(s: string) returns (after: string)
    ensures s == Strip(s) + after && AllSpace(after)
  {
    if s != "" && FlowScanner.IsSpace(s[|s| - 1]) {
      var rest := StripIs(s[..|s| - 1]);
      after := rest + [s[|s| - 1]];
      assert s == s[..|s| - 1] + [s[|s| - 1]];
    } else {
      after := "";
    }
  }

  lemma {:induction false} LeftStripIs(s: string) returns (before: string)
    ensures s == before + LeftStrip(s) && AllSpace(before)
  {
    if s != "" && FlowScanner.IsSpace(s[0]) {
      var rest := LeftStripIs(s[1..]);
      before := [s[0]] + rest;
      assert s == [s[0]] + s[1..];
    } else {
      before := "";
    }
  }

  lemma {:induction false} StripGives(s: string, after: string)
    requires AllSpace(after) && (s != "" ==> !FlowScanner.IsSpace(s[|s| - 1]))
    ensures Strip(s + after) == s
  {
    if after == "" {
      assert s + after == s;
    } else {
      var n := |after| - 1;
      assert (s + after)[|s + after| - 1] == after[n] && (s + after)[..|s + after| - 1] == s + after[..n];
      StripGives(s, after[..n]);
    }
  }

  lemma {:induction false} LeftStripGives(before: string, s: string)
    requires AllSpace(before) && (s != "" ==> !FlowScanner.IsSpace(s[0]))
    ensures LeftStrip(before + s) == s
  {
    if before == "" {
      assert before + s == s;
    } else {
      assert (before + s)[0] == before[0] && (before + s)[1..] == before[1..] + s;
      LeftStripGives(before[1..], s);
    }
  }

  lemma {:induction false} StripAllSpace(s: string)
    requires AllSpace(s)
    ensures Strip(s) == ""
  {
    if s != "" { StripAllSpace(s[..|s| - 1]); }
  }

  /** `str.strip()` */
  lemma TrimIff(s: string, value: string)
    ensures LeftStrip(Strip(s)) == value <==>
            exists before, after :: AllSpace(before) && AllSpace(after) && s == before + value + after && Trimmed(value)
  {
    if LeftStrip(Strip(s)) == value {
      var after := StripIs(s);
      var before := LeftStripIs(Strip(s));
      EndOfStripped(before, value, Strip(s));
      assert s == before + value + after;
    }
    if before, after :| AllSpace(before) && AllSpace(after) && s == before + value + after && Trimmed(value) {
      TrimGives(before, value, after);
    }
  }

  lemma EndOfStripped(before: string, value: string, s: string)
    requires s == before + value && (s != "" ==> !FlowScanner.IsSpace(s[|s| - 1]))
    requires value != "" ==> !FlowScanner.IsSpace(value[0])
    ensures Trimmed(value)
  {
    if value != "" { assert s[|s| - 1] == value[|value| - 1]; }
  }

  lemma TrimGives(before: string, value: string, after: string)
    requires AllSpace(before) && AllSpace(after) && Trimmed(value)
    ensures LeftStrip(Strip(before + value + after)) == value
  {
    if value == "" {
      StripAllSpace(before + value + after);
    } else {
      assert (before + value)[|before + value| - 1] == value[|value| - 1];
      StripGives(before + value, after);
      LeftStripGives(before, value);
    }
  }

  // ---------- The project URL ----------

  /** In one pair of quotes of the same kind, or without. */
  ghost predicate UrlOf(value: string, url: string) {
    || value == "'" + url + "'"
    || value == "\"" + url + "\""
    || (value == url && !(|value| >= 2 && IsQuote(value[0]) && value[|value| - 1] == value[0]))
  }

  /** A line that is not indented and gives the URL. */
  ghost predicate UrlLine(line: string, url: string) {
    exists before, value, after ::
      && AllSpace(before) && AllSpace(after) && Trimmed(value) && UrlOf(value, url)
      && line == "project_url:" + (before + value + after)
  }

  lemma UnquotedIff(value: string, url: string)
    ensures UrlOf(value, url) <==> Unquoted(value) == url
  {
    if |value| >= 2 {
      assert value[0] in "'\"" <==> IsQuote(value[0]);
      assert value == [value[0]] + value[1..|value| - 1] + [value[|value| - 1]];
      if value == "'" + url + "'" || value == "\"" + url + "\"" {
        assert value[1..|value| - 1] == url;
      }
    }
  }

  lemma ColonAt(key: string, rest: string)
    requires ':' !in key
    ensures IndexOf(':', key + ":" + rest) == |key|
  {
    var line := key + ":" + rest;
    var n := IndexOf(':', line);
    assert line[|key|] == ':';
    forall i | 0 <= i < |key| ensures line[i] != ':' {
      assert line[i] == key[i];
    }
  }

  /** Scanning a line that gives a URL, and any other. */
  lemma ProjectUrlStep(lines: seq<string>)
    requires lines != []
    ensures ProjectUrl(lines) == if "project_url:" <= lines[0] then Some(Unquoted(LeftStrip(Strip(lines[0][12..]))))
                                 else ProjectUrl(lines[1..])
  {
    hide Unquoted, LeftStrip, Strip, IndexOf;
    var line := lines[0];
    var k := IndexOf(':', line);
    if "project_url:" <= line {
      KeyHasNoColon();
      assert "project_url" + ":" == "project_url:" && line == "project_url" + ":" + line[12..];
      ColonAt("project_url", line[12..]);
      assert line[..11] == "project_url" && line[0] == "project_url"[0];
    } else {
      assert k < |line| ==> line[..k + 1] == line[..k] + ":";
      assert "project_url" + ":" == "project_url:";
    }
  }

  lemma KeyHasNoColon()
    ensures ':' !in "project_url"
  {
  }

  lemma UrlLineIff(line: string, url: string)
    ensures UrlLine(line, url) <==>
            "project_url:" <= line && Unquoted(LeftStrip(Strip(line[12..]))) == url
  {
    hide Strip, LeftStrip, Unquoted, UrlOf, AllSpace, Trimmed;
    if "project_url:" <= line {
      var value := LeftStrip(Strip(line[12..]));
      TrimIff(line[12..], value);
      UnquotedIff(value, url);
      assert line == "project_url:" + line[12..];
    }
    if before, value, after :| AllSpace(before) && AllSpace(after) && Trimmed(value) && UrlOf(value, url)
                               && line == "project_url:" + (before + value + after) {
      assert line[12..] == before + value + after;
      TrimIff(line[12..], value);
      UnquotedIff(value, url);
    }
  }

  ghost predicate FirstUrl(lines: seq<string>, url: string) {
    exists i: nat :: i < |lines| && UrlLine(lines[i], url) && forall j, u :: 0 <= j < i ==> !UrlLine(lines[j], u)
  }

  lemma UrlFirst(lines: seq<string>, url: string)
    requires lines != []
    ensures FirstUrl(lines, url) <==>
            UrlLine(lines[0], url) || ((forall u :: !UrlLine(lines[0], u)) && FirstUrl(lines[1..], url))
  {
    hide UrlLine;
    var rest := lines[1..];
    if i: nat :| i < |lines| && UrlLine(lines[i], url) && forall j, u :: 0 <= j < i ==> !UrlLine(lines[j], u) {
      if i > 0 {
        assert rest[i - 1] == lines[i] && forall j :: 0 <= j < i - 1 ==> rest[j] == lines[j + 1];
      }
    }
    if (forall u :: !UrlLine(lines[0], u)) && FirstUrl(rest, url) {
      var i: nat :| i < |rest| && UrlLine(rest[i], url) && forall j, u :: 0 <= j < i ==> !UrlLine(rest[j], u);
      assert lines[i + 1] == rest[i] && forall j :: 1 <= j < i + 1 ==> lines[j] == rest[j - 1];
    }
  }

  /** The URL that is found is that of the first such line. */
  lemma {:induction false} ProjectUrlIff(lines: seq<string>, url: string)
    ensures ProjectUrl(lines) == Some(url) <==> FirstUrl(lines, url)
  {
    hide *;
    NoUrl(url);
    if lines != [] {
      UrlFirst(lines, url);
      ProjectUrlStep(lines);
      forall u ensures UrlLine(lines[0], u) <==>
                       "project_url:" <= lines[0] && Unquoted(LeftStrip(Strip(lines[0][12..]))) == u
      {
        UrlLineIff(lines[0], u);
      }
      if "project_url:" <= lines[0] { UrlLineIff(lines[0], Unquoted(LeftStrip(Strip(lines[0][12..])))); }
      ProjectUrlIff(lines[1..], url);
    }
  }

  lemma NoUrl(url: string)
    ensures !FirstUrl([], url) && ProjectUrl([]) == None
  {
  }

  lemma ValueIff(s: string)
    ensures IsValue(s) <==> exists owner, name :: IsName(owner) && IsName(name) && s == owner + "/" + name
  {
    var k := IndexOf('/', s);
    if IsValue(s) {
      assert s == s[..k] + "/" + s[k + 1..];
    }
    if owner, name :| IsName(owner) && IsName(name) && s == owner + "/" + name {
      assert s[|owner|] == '/' && forall i :: 0 <= i < |owner| ==> s[i] == owner[i];
      assert s[..|owner|] == owner && s[|owner| + 1..] == name;
    }
  }

  lemma ValueEnds(s: string)
    requires IsValue(s)
    ensures s != "" && s[|s| - 1] != '/'
  {
    var k := IndexOf('/', s);
    assert s[|s| - 1] == s[k + 1..][|s| - k - 2];
  }

  /** Owner and repository of a GitHub URL, with or without a slash at its end. */
  lemma GithubProjectIff(url: string, project: string)
    ensures GithubProject(url) == Some(project) <==>
            && (exists owner, name :: IsName(owner) && IsName(name) && project == owner + "/" + name)
            && (url == "https://github.com/" + project || url == "https://github.com/" + project + "/")
  {
    hide IsValue, IsName;
    ValueIff(project);
    GithubUrl();
    if IsValue(project) { ValueEnds(project); }
    if GITHUB_URL <= url {
      var path := url[|GITHUB_URL|..];
      assert url == GITHUB_URL + path;
      if path != "" && path[|path| - 1] == '/' {
        assert path == path[..|path| - 1] + "/";
        assert GITHUB_URL + path == GITHUB_URL + path[..|path| - 1] + "/";
      }
    }
    assert (GITHUB_URL + project)[|GITHUB_URL|..] == project;
    assert (GITHUB_URL + project + "/")[|GITHUB_URL|..] == project + "/" && (project + "/")[..|project|] == project;
  }

  lemma GithubUrl()
    ensures GITHUB_URL == "https://github.com/"
  {
  }

  // ---------- Jenkins settings ----------

  /** A quoted text and white space. */
  ghost predicate QuotedValue(text: string, value: string) {
    exists open, close, after ::
      && IsQuote(open) && IsQuote(close) && AllSpace(after)
      && value != "" && (forall i :: 0 <= i < |value| ==> !IsQuote(value[i]))
      && text == [open] + value + [close] + after
  }

  ghost predicate Assigns(text: string, value: string) {
    exists gap, rest :: AllSpace(gap) && QuotedValue(rest, value) && text == "=" + (gap + rest)
  }

  ghost predicate NameAssigned(text: string, name: string, value: string) {
    (name == "EXT_USER" || name == "EXT_REPO")
    && exists gap, rest :: AllSpace(gap) && Assigns(rest, value) && text == name + (gap + rest)
  }

  /** `- EXT_USER = 'value'` or `- EXT_REPO = 'value'`, with white space where it does not matter. */
  ghost predicate SettingLine(line: string, name: string, value: string) {
    exists before, gap, rest ::
      AllSpace(before) && AllSpace(gap) && NameAssigned(rest, name, value) && line == before + ("-" + (gap + rest))
  }

  lemma LeftStripEmpty(s: string)
    ensures LeftStrip(s) == "" <==> AllSpace(s)
  {
    var before := LeftStripIs(s);
    if LeftStrip(s) == "" { assert s == before; }
    if AllSpace(s) {
      assert s + "" == s;
      LeftStripGives(s, "");
    }
  }

  lemma QuotesAreNoSpace(c: char)
    ensures IsQuote(c) || c == '=' || c == '-' || c == 'E' ==> !FlowScanner.IsSpace(c)
  {
  }

  lemma QuotedIff(name: string, text: string, value: string)
    ensures QuotedSetting(name, text) == Some(Setting(name, value)) <==> QuotedValue(text, value)
  {
    hide AllSpace, LeftStrip, IsQuote;
    if text != "" && IsQuote(text[0]) {
      var n := QuoteAt(text[1..]);
      if 0 < n < |text| - 1 {
        assert text == [text[0]] + text[1..n + 1] + [text[n + 1]] + text[n + 2..];
        LeftStripEmpty(text[n + 2..]);
        assert text[1..][n] == text[n + 1] && forall i :: 0 <= i < n ==> text[1..n + 1][i] == text[1..][i];
      }
    }
    if open, close, after :| IsQuote(open) && IsQuote(close) && AllSpace(after) && value != ""
                             && (forall i :: 0 <= i < |value| ==> !IsQuote(value[i]))
                             && text == [open] + value + [close] + after {
      QuotedGives(open, value, close, after);
      LeftStripEmpty(after);
    }
  }

  lemma QuotedGives(open: char, value: string, close: char, after: string)
    requires IsQuote(open) && IsQuote(close) && forall i :: 0 <= i < |value| ==> !IsQuote(value[i])
    ensures var text := [open] + value + [close] + after;
            && text[0] == open && QuoteAt(text[1..]) == |value|
            && text[1..|value| + 1] == value && text[|value| + 2..] == after
  {
    var text := [open] + value + [close] + after;
    assert text[1..] == value + [close] + after;
    assert (value + [close] + after)[|value|] == close;
    assert forall i :: 0 <= i < |value| ==> (value + [close] + after)[i] == value[i];
  }

  lemma AssignedIff(name: string, text: string, value: string)
    ensures Assigned(name, text) == Some(Setting(name, value)) <==> Assigns(text, value)
  {
    hide AllSpace, LeftStrip, QuotedSetting, QuotedValue, FlowScanner.IsSpace;
    if text != "" && text[0] == '=' {
      assert text == "=" + text[1..];
      QuotedIff(name, LeftStrip(text[1..]), value);
      var gap := LeftStripIs(text[1..]);
    }
    if gap, rest :| AllSpace(gap) && QuotedValue(rest, value) && text == "=" + (gap + rest) {
      assert text[0] == '=' && text[1..] == gap + rest;
      QuotedStarts(rest, value);
      LeftStripGives(gap, rest);
      QuotedIff(name, rest, value);
    }
  }

  lemma QuotedStarts(rest: string, value: string)
    requires QuotedValue(rest, value)
    ensures rest != "" && !FlowScanner.IsSpace(rest[0])
  {
    QuotesAreNoSpace(rest[0]);
  }

  lemma AssignsStarts(rest: string, value: string)
    requires Assigns(rest, value)
    ensures rest != "" && !FlowScanner.IsSpace(rest[0])
  {
    hide QuotedValue, AllSpace;
    QuotesAreNoSpace('=');
  }

  lemma NameStarts(rest: string, name: string, value: string)
    requires NameAssigned(rest, name, value)
    ensures rest != "" && !FlowScanner.IsSpace(rest[0])
  {
    hide Assigns, AllSpace;
    QuotesAreNoSpace('E');
  }

  lemma NamesAre(text: string, name: string, rest: string)
    requires (name == "EXT_USER" || name == "EXT_REPO") && text == name + rest
    ensures |name| == 8 && text[..8] == name && text[8..] == rest
  {
  }

  lemma NameAssignedIff(text: string, name: string, value: string)
    ensures Assignment(text) == Some(Setting(name, value)) <==> NameAssigned(text, name, value)
  {
    hide AllSpace, LeftStrip, Assigned, Assigns, FlowScanner.IsSpace;
    if "EXT_USER" <= text || "EXT_REPO" <= text {
      assert text == text[..8] + text[8..];
      AssignedIff(text[..8], LeftStrip(text[8..]), value);
      AssignedName(text[..8], LeftStrip(text[8..]));
      var gap := LeftStripIs(text[8..]);
    }
    if (name == "EXT_USER" || name == "EXT_REPO") && NameAssigned(text, name, value) {
      var gap, rest :| AllSpace(gap) && Assigns(rest, value) && text == name + (gap + rest);
      NamesAre(text, name, gap + rest);
      AssignsStarts(rest, value);
      LeftStripGives(gap, rest);
      AssignedIff(name, rest, value);
    }
  }

  lemma AssignedName(name: string, text: string)
    ensures Assigned(name, text).Some? ==> Assigned(name, text).value.name == name
  {
  }

  /** Which lines are settings, and of what. */
  lemma JenkinsSettingIff(line: string, name: string, value: string)
    ensures JenkinsSetting(line) == Some(Setting(name, value)) <==> SettingLine(line, name, value)
  {
    hide AllSpace, LeftStrip, Assignment, NameAssigned, FlowScanner.IsSpace;
    var item := LeftStrip(line);
    if item != "" && item[0] == '-' {
      assert item == "-" + item[1..];
      NameAssignedIff(LeftStrip(item[1..]), name, value);
      var before := LeftStripIs(line);
      var gap := LeftStripIs(item[1..]);
    }
    if before, gap, rest :| AllSpace(before) && AllSpace(gap) && NameAssigned(rest, name, value)
                            && line == before + ("-" + (gap + rest)) {
      QuotesAreNoSpace('-');
      LeftStripGives(before, "-" + (gap + rest));
      assert item[1..] == gap + rest;
      NameStarts(rest, name, value);
      LeftStripGives(gap, rest);
      NameAssignedIff(rest, name, value);
    }
  }

  /** The last setting of the name. */
  ghost predicate LastSetting(lines: seq<string>, name: string, value: string) {
    exists i: nat :: i < |lines| && SettingLine(lines[i], name, value)
                     && forall j, other :: i < j < |lines| ==> !SettingLine(lines[j], name, other)
  }

  lemma LastSettingStep(lines: seq<string>, name: string, value: string)
    requires lines != []
    ensures var n := |lines| - 1;
            LastSetting(lines, name, value) <==>
              SettingLine(lines[n], name, value)
              || ((forall other :: !SettingLine(lines[n], name, other)) && LastSetting(lines[..n], name, value))
  {
    hide SettingLine;
    var n := |lines| - 1;
    if LastSetting(lines, name, value) {
      var i: nat :| i < |lines| && SettingLine(lines[i], name, value)
                    && forall j, other :: i < j < |lines| ==> !SettingLine(lines[j], name, other);
      if i < n { assert lines[..n][i] == lines[i]; }
    }
    if LastSetting(lines[..n], name, value) && forall other :: !SettingLine(lines[n], name, other) {
      var i: nat :| i < n && SettingLine(lines[..n][i], name, value)
                    && forall j, other :: i < j < n ==> !SettingLine(lines[..n][j], name, other);
      assert forall j :: i < j < n ==> lines[..n][j] == lines[j];
    }
  }

  /** The settings that count are the last ones of their names. */
  lemma {:induction false} JenkinsSettingsIff(lines: seq<string>, name: string, value: string)
    ensures name in JenkinsSettings(lines) && JenkinsSettings(lines)[name] == value <==> LastSetting(lines, name, value)
  {
    hide SettingLine, LastSetting, JenkinsSetting;
    if lines == [] {
      NoSetting(name, value);
    } else {
      var n := |lines| - 1;
      LastSettingStep(lines, name, value);
      JenkinsSettingsIff(lines[..n], name, value);
      forall other ensures JenkinsSetting(lines[n]) == Some(Setting(name, other)) <==> SettingLine(lines[n], name, other) {
        JenkinsSettingIff(lines[n], name, other);
      }
    }
  }

  lemma NoSetting(name: string, value: string)
    ensures !LastSetting([], name, value)
  {
  }

  // ---------- The upstream of a repository ----------

  /** The GitHub project that a file's project URL names. */
  ghost predicate NamesProject(text: string, project: string) {
    exists url :: FirstUrl(PlainLines(text), url) && GithubProject(url) == Some(project)
  }

  /** The user and the repository of the Jenkins settings. */
  ghost predicate NamesJenkins(text: string, project: string) {
    exists user, name ::
      && LastSetting(PlainLines(text), "EXT_USER", user) && LastSetting(PlainLines(text), "EXT_REPO", name)
      && user != "" && name != "" && project == user + "/" + name
  }

  lemma ProjectIff(text: string, project: string)
    ensures ProjectOf(PlainLines(text)) == Some(project) <==> NamesProject(text, project)
  {
    hide FirstUrl, GithubProject, PlainLines, ProjectUrl;
    var lines := PlainLines(text);
    if ProjectUrl(lines).Some? { ProjectUrlIff(lines, ProjectUrl(lines).value); }
    if url :| FirstUrl(lines, url) && GithubProject(url) == Some(project) { ProjectUrlIff(lines, url); }
  }

  lemma JenkinsIff(text: string, project: string)
    ensures JenkinsRepo(JenkinsSettings(PlainLines(text))) == Some(project) <==> NamesJenkins(text, project)
  {
    hide LastSetting, PlainLines, JenkinsSettings;
    var lines := PlainLines(text);
    var settings := JenkinsSettings(lines);
    if "EXT_USER" in settings { JenkinsSettingsIff(lines, "EXT_USER", settings["EXT_USER"]); }
    if "EXT_REPO" in settings { JenkinsSettingsIff(lines, "EXT_REPO", settings["EXT_REPO"]); }
    if user, name :| LastSetting(lines, "EXT_USER", user) && LastSetting(lines, "EXT_REPO", name)
                     && user != "" && name != "" && project == user + "/" + name {
      JenkinsSettingsIff(lines, "EXT_USER", user);
      JenkinsSettingsIff(lines, "EXT_REPO", name);
    }
  }

  ghost predicate FileGives(repo: Repo, file: string, project: string) {
    file in repo.files && NamesProject(repo.files[file], project)
  }

  /** The project of the readme variables, else that of the Jenkins variables, else the Jenkins settings. */
  lemma UpstreamIff(repo: Repo, project: string)
    ensures Upstream(repo) == Some(project) <==>
            || FileGives(repo, "readme-vars.yml", project)
            || ((forall p :: !FileGives(repo, "readme-vars.yml", p))
                && (FileGives(repo, "jenkins-vars.yml", project)
                    || ((forall p :: !FileGives(repo, "jenkins-vars.yml", p))
                        && "jenkins-vars.yml" in repo.files && NamesJenkins(repo.files["jenkins-vars.yml"], project))))
  {
    hide NamesProject, NamesJenkins, UpstreamRepo, Upstream, InFile;
    ReadBoth(repo);
    var first, second := InFile(repo, "readme-vars.yml"), InFile(repo, "jenkins-vars.yml");
    InFileIff(repo, "readme-vars.yml", project);
    InFileIff(repo, "jenkins-vars.yml", project);
    if first.Some? { InFileIff(repo, "readme-vars.yml", first.value); }
    if second.Some? { InFileIff(repo, "jenkins-vars.yml", second.value); }
    NoneInFile(repo, "readme-vars.yml");
  }

  function InFile(repo: Repo, file: string): Option<string> {
    if file in repo.files then UpstreamRepo(file, repo.files[file]) else None
  }

  lemma ReadBoth(repo: Repo)
    ensures var first := InFile(repo, "readme-vars.yml");
            Upstream(repo) == if first.Some? then first else InFile(repo, "jenkins-vars.yml")
  {
    hide UpstreamRepo;
    var names := [README_VARS, JENKINS_VARS];
    assert names[1..] == [JENKINS_VARS] && names[1..][1..] == [];
    assert ReadSourceRepo(repo.files, []) == None;
    assert ReadSourceRepo(repo.files, [JENKINS_VARS]) == InFile(repo, "jenkins-vars.yml");
  }

  lemma InFileIff(repo: Repo, file: string, project: string)
    requires file == "readme-vars.yml" || file == "jenkins-vars.yml"
    ensures InFile(repo, file) == Some(project) <==>
            FileGives(repo, file, project)
            || ((forall p :: !FileGives(repo, file, p)) && file in repo.files
                && file == "jenkins-vars.yml" && NamesJenkins(repo.files[file], project))
  {
    hide NamesProject, NamesJenkins, UpstreamRepo;
    if file in repo.files {
      FileIff(file, repo.files[file]);
      if p :| NamesProject(repo.files[file], p) { assert FileGives(repo, file, p); }
    }
  }

  lemma NoneInFile(repo: Repo, file: string)
    requires file == "readme-vars.yml"
    ensures InFile(repo, file).None? ==> forall p :: !FileGives(repo, file, p)
  {
    hide InFile, FileGives;
    forall p ensures InFile(repo, file).None? ==> !FileGives(repo, file, p) {
      InFileIff(repo, file, p);
    }
  }

  lemma FileIff(file: string, text: string)
    requires file == "readme-vars.yml" || file == "jenkins-vars.yml"
    ensures forall project ::
              UpstreamRepo(file, text) == Some(project) <==>
              NamesProject(text, project)
              || ((forall p :: !NamesProject(text, p)) && file == "jenkins-vars.yml" && NamesJenkins(text, project))
  {
    hide NamesProject, NamesJenkins, ProjectOf, JenkinsRepo, JenkinsSettings, PlainLines;
    forall project
      ensures ProjectOf(PlainLines(text)) == Some(project) <==> NamesProject(text, project)
      ensures JenkinsRepo(JenkinsSettings(PlainLines(text))) == Some(project) <==> NamesJenkins(text, project)
    {
      ProjectIff(text, project);
      JenkinsIff(text, project);
    }
  }

  /** With different names, the scan has exactly the repositories that name an upstream, each with its own. */
  lemma {:induction false} ScanEntriesAre(repos: seq<Repo>)
    requires forall i, j :: 0 <= i < j < |repos| ==> repos[i].name != repos[j].name
    ensures forall repo :: repo in repos ==>
              if Upstream(repo).Some? then "linuxserver/" + repo.name in ScanOf(repos).entries
                                           && ScanOf(repos).entries["linuxserver/" + repo.name] == Upstream(repo).value
              else "linuxserver/" + repo.name !in ScanOf(repos).entries
    ensures forall key :: key in ScanOf(repos).entries ==> exists repo :: repo in repos && key == "linuxserver/" + repo.name
  {
    hide Upstream;
    if repos != [] {
      var front, last := repos[..|repos| - 1], repos[|repos| - 1];
      assert repos == front + [last];
      ScanEntriesAre(front);
      forall repo | repo in front ensures "linuxserver/" + repo.name != "linuxserver/" + last.name {
        var i :| 0 <= i < |front| && front[i] == repo;
        assert repos[i].name != repos[|repos| - 1].name;
        assert ("linuxserver/" + repo.name)[12..] == repo.name && ("linuxserver/" + last.name)[12..] == last.name;
      }
    }
  }

  /** Only the repositories that are named so are scanned, and all of them. */
  lemma {:induction false} DockerReposAre(repos: seq<Repo>)
    ensures forall repo :: repo in DockerRepos(repos) <==> repo in repos && "docker-" <= repo.name
  {
    if repos != [] {
      DockerReposAre(repos[1..]);
      assert repos == [repos[0]] + repos[1..];
    }
  }
}
