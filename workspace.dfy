/** The workspace file: the projects listed in `workspace.yaml`, the alias a
    project is shown under, and the text `renderWorkspaceYAML` writes when the
    workspace is saved. The reader at the end takes the rendered text back to
    the projects, with the same defaults the loader applies to omitted keys:
    type `local`, no host, no alias, enabled. */
module Workspace {
  import opened Text
  import opened Quoting

  /** `WorkspaceProject` (its UUID, used only to identify rows in the editor,
      is left out). `kind` is the project's `type`: `"local"` or `"remote"`. */
  datatype WorkspaceProject = WorkspaceProject(path: string, kind: string, host: string, alias: string, enabled: bool)

  // ---------------------------------------------------------------------------
  // effectiveAlias

  predicate IsSlash(c: char) { c == '/' }

  /** The text after the last `/` (all of it when there is none). */
  function AfterLastSlash(s: string): (r: string)
    ensures |r| <= |s| && r == s[|s| - |r|..]
    ensures '/' !in r
    ensures |r| == |s| || s[|s| - |r| - 1] == '/'
    decreases |s|
  {
    if |s| == 0 then ""
    else if s[|s| - 1] == '/' then ""
    else
      var r := AfterLastSlash(s[..|s| - 1]) + [s[|s| - 1]];
      assert s[..|s| - 1][|s| - |r|..] + [s[|s| - 1]] == s[|s| - |r|..];
      r
  }

  /** `URL(fileURLWithPath: path).lastPathComponent`: trailing slashes do not
      count, a path of slashes only is `/`, otherwise the last component. */
  function LastPathComponent(path: string): string
  {
    var t := TrimEnd(path, IsSlash);
    if t == "" then "/" else AfterLastSlash(t)
  }

  /** `c` is the component of `path` starting at `k`: a non-empty run of
      characters other than `/` that starts the path or follows a `/`, and
      after which the path has slashes only. */
  predicate ComponentAt(path: string, c: string, k: nat)
  {
    && k + |c| <= |path| && c != "" && '/' !in c && path[k..k + |c|] == c
    && (k == 0 || path[k - 1] == '/')
    && (forall j :: k + |c| <= j < |path| ==> path[j] == '/')
  }

  /** The last component of a path that has a character other than `/` is
      its last run of such characters; a path of slashes only gives `/`. */
  lemma LastPathComponentSpec(path: string)
    ensures (forall i :: 0 <= i < |path| ==> path[i] == '/') ==> LastPathComponent(path) == "/"
    ensures (exists i :: 0 <= i < |path| && path[i] != '/') ==>
      exists k: nat :: ComponentAt(path, LastPathComponent(path), k)
  {
    var t := TrimEnd(path, IsSlash);
    TrimEndSpec(path, IsSlash);
    var c := LastPathComponent(path);
    if t == "" {
      forall i | 0 <= i < |path| ensures path[i] == '/' {
        assert IsSlash(path[i]);
      }
    } else {
      var k := |t| - |c|;
      assert c == AfterLastSlash(t);
      assert t[|t| - 1] != '/';
      assert path[k..k + |c|] == c by {
        assert t[k..] == c;
        assert path[..|t|] == t;
      }
      assert c != "";
      assert k == 0 || path[k - 1] == '/' by {
        if k > 0 {
          assert t[k - 1] == '/';
        }
      }
      forall j | k + |c| <= j < |path| ensures path[j] == '/' {
        assert IsSlash(path[j]);
      }
      assert ComponentAt(path, c, k);
    }
  }

  /** A last component is its own last component. */
  lemma LastPathComponentIdempotent(path: string)
    ensures LastPathComponent(LastPathComponent(path)) == LastPathComponent(path)
  {
    var t := TrimEnd(path, IsSlash);
    TrimEndSpec(path, IsSlash);
    if t == "" {
      assert TrimEnd("/", IsSlash) == TrimEnd("", IsSlash);
    } else {
      var c := AfterLastSlash(t);
      assert t[|t| - 1] != '/';
      assert c[|c| - 1] == t[|t| - 1];
      assert TrimEnd(c, IsSlash) == c;
      AfterLastSlashFree(c);
    }
  }

  lemma {:induction false} AfterLastSlashFree(s: string)
    requires '/' !in s
    ensures AfterLastSlash(s) == s
  {
  }

  /** `effectiveAlias`: the alias as written when it is not blank, otherwise
      the last component of the trimmed path, or `(unnamed)` for a blank
      path. */
  function EffectiveAlias(p: WorkspaceProject): string
  {
    if TrimAll(p.alias) != "" then p.alias
    else
      var trimmed := TrimAll(p.path);
      if trimmed == "" then "(unnamed)" else LastPathComponent(trimmed)
  }

  /** Every project has a name to show: the alias is never empty, and it is
      one path component, or `/`, whenever the project has no alias. */
  lemma EffectiveAliasShown(p: WorkspaceProject)
    ensures EffectiveAlias(p) != ""
    ensures TrimAll(p.alias) == "" && TrimAll(p.path) != "" ==>
      var a := EffectiveAlias(p); a == "/" || '/' !in a
  {
    var trimmed := TrimAll(p.path);
    if TrimAll(p.alias) == "" && trimmed != "" {
      var t := TrimEnd(trimmed, IsSlash);
      if t != "" {
        TrimEndSpec(trimmed, IsSlash);
        assert t[|t| - 1] != '/';
        assert AfterLastSlash(t) != "";
      }
    }
  }

  // ---------------------------------------------------------------------------
  // renderWorkspaceYAML

  const TypeRemoteLine: string := "    type: remote"
  const EnabledFalseLine: string := "    enabled: false"
  const PathKey: string := "  - path: "
  const HostKey: string := "    host: "
  const AliasKey: string := "    alias: "

  /** The lines written for one project: its path always, type and host only
      for a remote project, the trimmed alias only when not blank, and
      `enabled` only when false. */
  function ProjectLines(p: WorkspaceProject): seq<string>
  {
    [PathKey + YamlQuote(p.path)] + TypePart(p) + AliasPart(p) + EnabledPart(p)
  }

  function TypePart(p: WorkspaceProject): seq<string>
  {
    if p.kind == "remote" then [TypeRemoteLine, HostKey + YamlQuote(TrimAll(p.host))] else []
  }

  function AliasPart(p: WorkspaceProject): seq<string>
  {
    if TrimAll(p.alias) != "" then [AliasKey + YamlQuote(TrimAll(p.alias))] else []
  }

  function EnabledPart(p: WorkspaceProject): seq<string>
  {
    if !p.enabled then [EnabledFalseLine] else []
  }

  function AllLines(ps: seq<WorkspaceProject>): seq<string>
    decreases |ps|
  {
    if |ps| == 0 then [] else ProjectLines(ps[0]) + AllLines(ps[1..])
  }

  lemma {:induction false} AllLinesSnoc(ps: seq<WorkspaceProject>, p: WorkspaceProject)
    ensures AllLines(ps + [p]) == AllLines(ps) + ProjectLines(p)
    decreases |ps|
  {
    if |ps| == 0 {
      assert [p][1..] == [];
      assert ProjectLines(p) + [] == ProjectLines(p);
    } else {
      assert (ps + [p])[1..] == ps[1..] + [p];
      AllLinesSnoc(ps[1..], p);
    }
  }

  /** The text of `workspace.yaml`: the `projects:` line, then each project's
      lines in order, every line ended by a newline. */
  function WorkspaceYAML(ps: seq<WorkspaceProject>): string
  {
    Join(["projects:"] + AllLines(ps), "\n") + "\n"
  }

  /** `renderWorkspaceYAML`. */
  method RenderWorkspaceYAML(projects: seq<WorkspaceProject>) returns (yaml: string)
    ensures yaml == WorkspaceYAML(projects)
  {
    var lines: seq<string> := ["projects:"];
    for i := 0 to |projects|
      invariant lines == ["projects:"] + AllLines(projects[..i])
    {
      var project := projects[i];
      var block := [PathKey + YamlQuote(project.path)];
      if project.kind == "remote" {
        block := block + [TypeRemoteLine];
        var host := TrimAll(project.host);
        block := block + [HostKey + YamlQuote(host)];
      }
      assert block == [PathKey + YamlQuote(project.path)] + TypePart(project);
      var alias := TrimAll(project.alias);
      if alias != "" {
        block := block + [AliasKey + YamlQuote(alias)];
      }
      assert block == [PathKey + YamlQuote(project.path)] + TypePart(project) + AliasPart(project);
      if !project.enabled {
        block := block + [EnabledFalseLine];
      }
      RenderStep(projects, i, lines, block);
      lines := lines + block;
    }
    assert projects[..|projects|] == projects;
    yaml := Join(lines, "\n") + "\n";
  }

  lemma RenderStep(ps: seq<WorkspaceProject>, i: nat, lines: seq<string>, block: seq<string>)
    requires i < |ps| && block == ProjectLines(ps[i])
    requires lines == ["projects:"] + AllLines(ps[..i])
    ensures lines + block == ["projects:"] + AllLines(ps[..i + 1])
  {
    var pre, p := ps[..i], ps[i];
    assert ps[..i + 1] == pre + [p];
    AllLinesSnoc(pre, p);
    Assoc(["projects:"], AllLines(pre), block);
  }

  lemma Assoc(a: seq<string>, b: seq<string>, c: seq<string>)
    ensures a + b + c == a + (b + c)
  {
  }

  // ---------------------------------------------------------------------------
  // Reading the file back

  /** What a project is after a save and a load: a type other than `remote`
      becomes `local`, a host is kept (trimmed) only for a remote project, the
      alias is trimmed. */
  function Stored(p: WorkspaceProject): WorkspaceProject
  {
    var remote := p.kind == "remote";
    WorkspaceProject(p.path, if remote then "remote" else "local",
      if remote then TrimAll(p.host) else "", TrimAll(p.alias), p.enabled)
  }

  function StoredAll(ps: seq<WorkspaceProject>): (r: seq<WorkspaceProject>)
    ensures |r| == |ps|
    decreases |ps|
  {
    if |ps| == 0 then [] else [Stored(ps[0])] + StoredAll(ps[1..])
  }

  /** The quoted value of a line that starts with `key`. */
  function ValueAfter(line: string, key: string): Option<string>
  {
    if key <= line then ReadYamlQuoted(line[|key|..]) else None
  }

  /** The type and host of a project, and the lines after them. */
  function TakeType(ls: seq<string>): (r: Option<(string, string, seq<string>)>)
    ensures r.Some? ==> |r.value.2| <= |ls|
  {
    if |ls| > 0 && ls[0] == TypeRemoteLine then
      if |ls| < 2 then None
      else match ValueAfter(ls[1], HostKey)
        case None => None
        case Some(h) => Some(("remote", h, ls[2..]))
    else Some(("local", "", ls))
  }

  function TakeAlias(ls: seq<string>): (r: Option<(string, seq<string>)>)
    ensures r.Some? ==> |r.value.1| <= |ls|
  {
    if |ls| > 0 && AliasKey <= ls[0] then
      match ValueAfter(ls[0], AliasKey)
      case None => None
      case Some(a) => Some((a, ls[1..]))
    else Some(("", ls))
  }

  function TakeEnabled(ls: seq<string>): (r: (bool, seq<string>))
    ensures |r.1| <= |ls|
  {
    if |ls| > 0 && ls[0] == EnabledFalseLine then (false, ls[1..]) else (true, ls)
  }

  /** The projects of the lines after `projects:`; none when a line is not
      where a project's keys can be. */
  function ReadEntries(ls: seq<string>): Option<seq<WorkspaceProject>>
    decreases |ls|
  {
    if |ls| == 0 then Some([])
    else match ValueAfter(ls[0], PathKey)
      case None => None
      case Some(path) =>
        match TakeType(ls[1..])
        case None => None
        case Some((kind, host, r1)) =>
          match TakeAlias(r1)
          case None => None
          case Some((alias, r2)) =>
            var (enabled, r3) := TakeEnabled(r2);
            match ReadEntries(r3)
            case None => None
            case Some(rest) => Some([WorkspaceProject(path, kind, host, alias, enabled)] + rest)
  }

  function ReadWorkspace(yaml: string): Option<seq<WorkspaceProject>>
  {
    var parts := Split(yaml, '\n');
    if |parts| >= 2 && parts[0] == "projects:" && parts[|parts| - 1] == "" then
      ReadEntries(parts[1..|parts| - 1])
    else None
  }

  predicate OneLine(p: WorkspaceProject)
  {
    OnYamlLine(p.path) && OnYamlLine(p.host) && OnYamlLine(p.alias)
  }

  lemma KeyedValue(key: string, v: string)
    requires OnYamlLine(v)
    ensures ValueAfter(key + YamlQuote(v), key) == Some(v)
  {
    assert (key + YamlQuote(v))[|key|..] == YamlQuote(v);
    YamlQuoteRoundTrip(v);
  }

  lemma TrimOneLine(s: string)
    requires OnYamlLine(s)
    ensures OnYamlLine(TrimAll(s))
  {
    TrimByIsSlice(s, IsSpace);
  }

  /** The line that starts a project is none of the lines of its keys. */
  lemma PathLineDistinct(line: string)
    requires PathKey <= line
    ensures line != TypeRemoteLine && line != EnabledFalseLine && !(AliasKey <= line)
  {
    assert line[2] == '-';
  }

  lemma AliasLineDistinct(line: string)
    requires AliasKey <= line
    ensures line != TypeRemoteLine
  {
    assert line[4] == 'a';
  }

  /** Read after its lines, a project's keys give the stored project. */
  lemma ProjectReadsBack(p: WorkspaceProject, rest: seq<string>)
    requires OneLine(p)
    requires rest == [] || PathKey <= rest[0]
    ensures ReadEntries(ProjectLines(p) + rest) ==
      match ReadEntries(rest)
      case None => None
      case Some(tail) => Some([Stored(p)] + tail)
  {
    var r3 := EnabledPart(p) + rest;
    var r2 := AliasPart(p) + r3;
    var r1 := TypePart(p) + r2;
    var ls := ProjectLines(p) + rest;
    LinesOfProject(p, rest);
    KeyedValue(PathKey, p.path);
    NextLines(p, rest);
    TypeReadsBack(p, r2);
    AliasReadsBack(p, r3);
    EnabledReadsBack(p, rest);
    var q := Stored(p);
    EntryStep(ls, q.path, q.kind, q.host, r2, q.alias, r3, q.enabled, rest);
  }

  /** After each part of a project's lines comes a line the reader of that
      part does not take. */
  lemma NextLines(p: WorkspaceProject, rest: seq<string>)
    requires rest == [] || PathKey <= rest[0]
    ensures rest == [] || rest[0] != EnabledFalseLine
    ensures var r3 := EnabledPart(p) + rest; r3 == [] || !(AliasKey <= r3[0])
    ensures var r2 := AliasPart(p) + (EnabledPart(p) + rest); r2 == [] || r2[0] != TypeRemoteLine
  {
    if rest != [] {
      PathLineDistinct(rest[0]);
    }
    assert !(AliasKey <= EnabledFalseLine) && EnabledFalseLine != TypeRemoteLine by {
      assert EnabledFalseLine[4] == 'e';
    }
    if AliasPart(p) != [] {
      AliasLineDistinct(AliasPart(p)[0]);
    }
  }

  lemma LinesOfProject(p: WorkspaceProject, rest: seq<string>)
    ensures var ls := ProjectLines(p) + rest;
      |ls| > 0 && ls[0] == PathKey + YamlQuote(p.path)
      && ls[1..] == TypePart(p) + (AliasPart(p) + (EnabledPart(p) + rest))
  {
  }

  /** One project read off the front of the lines. */
  lemma EntryStep(ls: seq<string>, path: string, kind: string, host: string, r1: seq<string>,
                  alias: string, r2: seq<string>, enabled: bool, r3: seq<string>)
    requires |ls| > 0 && ValueAfter(ls[0], PathKey) == Some(path)
    requires TakeType(ls[1..]) == Some((kind, host, r1))
    requires TakeAlias(r1) == Some((alias, r2))
    requires TakeEnabled(r2) == (enabled, r3)
    ensures ReadEntries(ls) ==
      match ReadEntries(r3)
      case None => None
      case Some(tail) => Some([WorkspaceProject(path, kind, host, alias, enabled)] + tail)
  {
  }

  lemma TypeReadsBack(p: WorkspaceProject, r2: seq<string>)
    requires OnYamlLine(p.host)
    requires r2 == [] || r2[0] != TypeRemoteLine
    ensures TakeType(TypePart(p) + r2) == Some((Stored(p).kind, Stored(p).host, r2))
  {
    if p.kind == "remote" {
      TrimOneLine(p.host);
      KeyedValue(HostKey, TrimAll(p.host));
      var ls := TypePart(p) + r2;
      assert ls[0] == TypeRemoteLine && ls[1] == HostKey + YamlQuote(TrimAll(p.host));
      assert ls[2..] == r2;
    } else {
      assert TypePart(p) + r2 == r2;
    }
  }

  lemma AliasReadsBack(p: WorkspaceProject, r3: seq<string>)
    requires OnYamlLine(p.alias)
    requires r3 == [] || !(AliasKey <= r3[0])
    ensures TakeAlias(AliasPart(p) + r3) == Some((TrimAll(p.alias), r3))
  {
    if TrimAll(p.alias) != "" {
      TrimOneLine(p.alias);
      KeyedValue(AliasKey, TrimAll(p.alias));
      var ls := AliasPart(p) + r3;
      assert ls[0] == AliasKey + YamlQuote(TrimAll(p.alias));
      assert ls[1..] == r3;
    } else {
      assert AliasPart(p) + r3 == r3;
    }
  }

  lemma EnabledReadsBack(p: WorkspaceProject, rest: seq<string>)
    requires rest == [] || rest[0] != EnabledFalseLine
    ensures TakeEnabled(EnabledPart(p) + rest) == (p.enabled, rest)
  {
    if !p.enabled {
      assert (EnabledPart(p) + rest)[1..] == rest;
    } else {
      assert EnabledPart(p) + rest == rest;
    }
  }

  /** Projects read back from the lines of all projects. */
  lemma {:induction false} EntriesReadBack(ps: seq<WorkspaceProject>)
    requires forall i :: 0 <= i < |ps| ==> OneLine(ps[i])
    ensures ReadEntries(AllLines(ps)) == Some(StoredAll(ps))
    decreases |ps|
  {
    if |ps| > 0 {
      EntriesReadBack(ps[1..]);
      var rest := AllLines(ps[1..]);
      if |ps| > 1 {
        assert rest == ProjectLines(ps[1]) + AllLines(ps[2..]) by {
          assert ps[1..][1..] == ps[2..];
        }
      }
      ProjectReadsBack(ps[0], rest);
    }
  }

  lemma {:induction false} JoinNewline(lines: seq<string>)
    requires |lines| >= 1
    ensures Join(lines, "\n") + "\n" == Join(lines + [""], "\n")
    decreases |lines|
  {
    if |lines| == 1 {
      assert (lines + [""])[1..] == [""];
    } else {
      JoinNewline(lines[1..]);
      assert (lines + [""])[1..] == lines[1..] + [""];
    }
  }

  /** Lines ended by newlines split back into the lines and an empty rest. */
  lemma SplitEndedLines(lines: seq<string>)
    requires |lines| >= 1
    requires forall i :: 0 <= i < |lines| ==> '\n' !in lines[i]
    ensures Split(Join(lines, "\n") + "\n", '\n') == lines + [""]
  {
    JoinNewline(lines);
    var parts := lines + [""];
    assert forall i :: 0 <= i < |parts| ==> '\n' !in parts[i] by {
      forall i | 0 <= i < |parts| ensures '\n' !in parts[i] {
        if i < |lines| {
          assert parts[i] == lines[i];
        }
      }
    }
    SplitJoin(parts, '\n');
  }

  /** Loading a saved workspace gives back the projects, in order, as
      `Stored` describes them, when no path, host or alias holds a line
      break. */
  lemma WorkspaceRoundTrip(ps: seq<WorkspaceProject>)
    requires forall i :: 0 <= i < |ps| ==> OneLine(ps[i])
    ensures ReadWorkspace(WorkspaceYAML(ps)) == Some(StoredAll(ps))
  {
    var body := AllLines(ps);
    AllLinesOneLine(ps);
    HeaderOneLine(body);
    SplitEndedLines(["projects:"] + body);
    ReadWorkspaceOf(WorkspaceYAML(ps), body);
    EntriesReadBack(ps);
  }

  lemma HeaderOneLine(body: seq<string>)
    requires NoLineBreaks(body)
    ensures var lines := ["projects:"] + body; forall i :: 0 <= i < |lines| ==> '\n' !in lines[i]
  {
    var lines := ["projects:"] + body;
    forall i | 0 <= i < |lines| ensures '\n' !in lines[i] {
      if i > 0 {
        assert lines[i] == body[i - 1];
      }
    }
  }

  lemma ReadWorkspaceOf(yaml: string, body: seq<string>)
    requires Split(yaml, '\n') == ["projects:"] + body + [""]
    ensures ReadWorkspace(yaml) == ReadEntries(body)
  {
    var parts := Split(yaml, '\n');
    assert parts[1..|parts| - 1] == body;
  }

  predicate NoLineBreaks(ls: seq<string>)
  {
    forall i :: 0 <= i < |ls| ==> '\n' !in ls[i]
  }

  lemma {:induction false} AllLinesOneLine(ps: seq<WorkspaceProject>)
    requires forall i :: 0 <= i < |ps| ==> OneLine(ps[i])
    ensures NoLineBreaks(AllLines(ps))
    decreases |ps|
  {
    if |ps| > 0 {
      AllLinesOneLine(ps[1..]);
      ProjectLinesOneLine(ps[0]);
      NoLineBreaksConcat(ProjectLines(ps[0]), AllLines(ps[1..]));
    }
  }

  lemma ProjectLinesOneLine(p: WorkspaceProject)
    requires OneLine(p)
    ensures NoLineBreaks(ProjectLines(p))
  {
    YamlQuoteOneLine(p.path);
    var path := [PathKey + YamlQuote(p.path)];
    assert NoLineBreaks(path);
    TypePartOneLine(p);
    AliasPartOneLine(p);
    assert NoLineBreaks(EnabledPart(p));
    NoLineBreaksConcat(path, TypePart(p));
    NoLineBreaksConcat(path + TypePart(p), AliasPart(p));
    NoLineBreaksConcat(path + TypePart(p) + AliasPart(p), EnabledPart(p));
  }

  lemma TypePartOneLine(p: WorkspaceProject)
    requires OnYamlLine(p.host)
    ensures NoLineBreaks(TypePart(p))
  {
    TrimOneLine(p.host);
    YamlQuoteOneLine(TrimAll(p.host));
  }

  lemma AliasPartOneLine(p: WorkspaceProject)
    requires OnYamlLine(p.alias)
    ensures NoLineBreaks(AliasPart(p))
  {
    TrimOneLine(p.alias);
    YamlQuoteOneLine(TrimAll(p.alias));
  }

  lemma NoLineBreaksConcat(a: seq<string>, b: seq<string>)
    requires NoLineBreaks(a) && NoLineBreaks(b)
    ensures NoLineBreaks(a + b)
  {
    forall i | 0 <= i < |a + b| ensures '\n' !in (a + b)[i] {
      if i >= |a| {
        assert (a + b)[i] == b[i - |a|];
      }
    }
  }
}
