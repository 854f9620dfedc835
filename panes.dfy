/** Reading the workspace's panes into columns (`loadLiveColumns`): every
    `|`-delimited pane record is parsed, records are grouped per `@column`
    into a builder, and the builders are ordered left to right. */
module PaneReader {
  import opened Text

  /** The list-panes format: column, role, project, remote host, remote path,
      width, left offset and pane id. */
  const LiveFormat: string :=
    "#{@column}|#{@role}|#{@project}|#{@remote_host}|#{@remote_path}|#{pane_width}|#{pane_left}|#{pane_id}"

  const ClaudePrefix: string := "claude-p"
  const CodexPrefix: string := "codex-p"
  const YaziPrefix: string := "yazi-p"
  const TerminalPrefix: string := "terminal-p"
  const SshScheme: string := "ssh://"

  datatype PaneRecord = PaneRecord(
    column: int, role: string, project: string, remoteHost: string,
    remotePath: string, width: int, left: int, paneID: string)

  /** One record line. Lines with fewer than eight fields, or whose first field
      is not a positive `Int`, are dropped; an unparsable width counts as 0 and
      an unparsable left offset as `Int.max`. */
  function ParseRecord(line: string): (r: Option<PaneRecord>)
    ensures r.Some? ==> r.value.column > 0 && r.value.left <= INT_MAX
  {
    var parts := Split(line, '|');
    if |parts| < 8 then None
    else match ParseInt(parts[0])
      case None => None
      case Some(col) =>
        if col <= 0 then None
        else Some(PaneRecord(col, parts[1], parts[2], parts[3], parts[4],
                             ParseIntOr(parts[5], 0), ParseIntOr(parts[6], INT_MAX), parts[7]))
  }

  /** The records of the given lines, in order (`compactMap` over the lines). */
  function ParseRecords(lines: seq<string>): seq<PaneRecord>
  {
    if |lines| == 0 then []
    else
      ParseRecords(lines[..|lines| - 1]) +
      (match ParseRecord(lines[|lines| - 1]) case Some(r) => [r] case None => [])
  }

  lemma {:induction false} ParseRecordsConcat(a: seq<string>, b: seq<string>)
    ensures ParseRecords(a + b) == ParseRecords(a) + ParseRecords(b)
    decreases |b|
  {
    if |b| == 0 {
      assert a + b == a;
    } else {
      var b', last := b[..|b| - 1], b[|b| - 1];
      ParseRecordsConcat(a, b');
      assert (a + b)[..|a + b| - 1] == a + b' && (a + b)[|a + b| - 1] == last;
      var r := match ParseRecord(last) case Some(r) => [r] case None => [];
      assert ParseRecords(a + b) == ParseRecords(a + b') + r;
      assert ParseRecords(b) == ParseRecords(b') + r;
    }
  }

  /** A line with fewer than eight fields, or without a positive column,
      contributes nothing: the records, and so the columns built from them, are
      those of the remaining lines. */
  lemma {:induction false} MalformedLineIgnored(before: seq<string>, bad: string, after: seq<string>)
    requires |Split(bad, '|')| < 8 ||
             ParseInt(Split(bad, '|')[0]).None? ||
             ParseInt(Split(bad, '|')[0]).value <= 0
    ensures ParseRecords(before + [bad] + after) == ParseRecords(before + after)
    ensures Group(ParseRecords(before + [bad] + after)) == Group(ParseRecords(before + after))
  {
    ParseRecordsConcat(before + [bad], after);
    ParseRecordsConcat(before, [bad]);
    ParseRecordsConcat(before, after);
    assert [bad][..0] == [];
  }

  predicate IsPrimary(role: string)
  {
    ClaudePrefix <= role || CodexPrefix <= role
  }

  /** The per-column aggregate (`Builder`). `left` starts at the `Int.max`
      sentinel, `hostLabel` at "local". */
  datatype Builder = Builder(
    column: int, projectPath: string, hostLabel: string, width: int, left: int,
    claude: Option<string>, codex: Option<string>, yazi: Option<string>, terminal: Option<string>)

  function NewBuilder(col: int): Builder
  {
    Builder(col, "", "local", 0, INT_MAX, None, None, None, None)
  }

  predicate IsRemote(r: PaneRecord)
  {
    SshScheme <= r.project || r.remoteHost != "" || r.remotePath != ""
  }

  /** The path of an `ssh://host/path` project: everything from the first `/`
      after every "ssh://" has been removed; the current path when there is no `/`. */
  function SshPath(project: string, current: string): string
  {
    var stripped := ReplaceAll(project, SshScheme, "");
    if '/' in stripped then stripped[IndexOf(stripped, '/')..] else current
  }

  /** Project path and host label derived from one record: the label is
      "local" exactly for a local record, and nothing but path and label
      changes. */
  function Identify(b: Builder, r: PaneRecord): (e: Builder)
    ensures e.hostLabel == "local" <==> !IsRemote(r)
    ensures e == b.(projectPath := e.projectPath, hostLabel := e.hostLabel)
  {
    if IsRemote(r) then
      b.(hostLabel := if r.remoteHost == "" then "remote" else "remote@" + r.remoteHost,
         projectPath := if r.remotePath != "" then r.remotePath
                        else if SshScheme <= r.project then SshPath(r.project, b.projectPath)
                        else b.projectPath)
    else b.(hostLabel := "local", projectPath := r.project)
  }

  /** One record folded into its column's builder: the column stays, the
      left offset never grows and only a claude/codex pane lowers it, and the
      width is kept or becomes the record's positive width. */
  function Absorb(b: Builder, r: PaneRecord): (e: Builder)
    ensures e.column == b.column
    ensures e.left <= b.left && (e.left == b.left || (IsPrimary(r.role) && e.left == r.left))
    ensures e.width == b.width || (r.width > 0 && e.width == r.width)
  {
    var b1 := if r.width > 0 then b.(width := r.width) else b;
    var b2 := if IsPrimary(r.role) && r.left < b1.left then b1.(left := r.left) else b1;
    var b3 := if IsPrimary(r.role) || b2.projectPath == "" then Identify(b2, r) else b2;
    b3.(claude := if ClaudePrefix <= r.role then Some(r.paneID) else b3.claude,
        codex := if CodexPrefix <= r.role then Some(r.paneID) else b3.codex,
        yazi := if YaziPrefix <= r.role then Some(r.paneID) else b3.yazi,
        terminal := if TerminalPrefix <= r.role then Some(r.paneID) else b3.terminal)
  }

  /** The `grouped` dictionary after folding in all records in order: each
      builder is filed under its own column. */
  function Group(rs: seq<PaneRecord>): (g: map<int, Builder>)
    ensures forall c :: c in g ==> g[c].column == c
  {
    if |rs| == 0 then map[]
    else
      var m := Group(rs[..|rs| - 1]);
      var r := rs[|rs| - 1];
      m[r.column := Absorb(if r.column in m then m[r.column] else NewBuilder(r.column), r)]
  }

  /** The loop body of `loadLiveColumns` for one parsed record: the column's
      builder updated field by field. */
  method AbsorbRecord(entry0: Builder, r: PaneRecord) returns (entry: Builder)
    ensures entry == Absorb(entry0, r)
  {
    entry := entry0;
    if r.width > 0 { entry := entry.(width := r.width); }
    if IsPrimary(r.role) && r.left < entry.left { entry := entry.(left := r.left); }
    ghost var b2 := entry;
    if IsPrimary(r.role) || entry.projectPath == "" {
      entry := IdentifyRecord(entry, r);
    }
    assert entry == if IsPrimary(r.role) || b2.projectPath == "" then Identify(b2, r) else b2;
    if ClaudePrefix <= r.role { entry := entry.(claude := Some(r.paneID)); }
    if CodexPrefix <= r.role { entry := entry.(codex := Some(r.paneID)); }
    if YaziPrefix <= r.role { entry := entry.(yazi := Some(r.paneID)); }
    if TerminalPrefix <= r.role { entry := entry.(terminal := Some(r.paneID)); }
  }

  method IdentifyRecord(entry0: Builder, r: PaneRecord) returns (entry: Builder)
    ensures entry == Identify(entry0, r)
  {
    entry := entry0;
    if IsRemote(r) {
      entry := entry.(hostLabel := if r.remoteHost == "" then "remote" else "remote@" + r.remoteHost);
      if r.remotePath != "" {
        entry := entry.(projectPath := r.remotePath);
      } else if SshScheme <= r.project {
        var stripped := ReplaceAll(r.project, SshScheme, "");
        if '/' in stripped {
          entry := entry.(projectPath := stripped[IndexOf(stripped, '/')..]);
        }
      }
    } else {
      entry := entry.(hostLabel := "local", projectPath := r.project);
    }
  }

  lemma ParseRecordsStep(lines: seq<string>, i: nat)
    requires i < |lines|
    ensures ParseRecords(lines[..i + 1]) == ParseRecords(lines[..i]) +
      (match ParseRecord(lines[i]) case Some(r) => [r] case None => [])
  {
    assert lines[..i + 1][..i] == lines[..i];
  }

  /** One more record updates its column's builder and no other. */
  lemma GroupSnoc(rs: seq<PaneRecord>, r: PaneRecord)
    ensures Group(rs + [r]) ==
      Group(rs)[r.column := Absorb(if r.column in Group(rs) then Group(rs)[r.column] else NewBuilder(r.column), r)]
  {
    assert (rs + [r])[..|rs|] == rs;
  }

  /** Loop over the listed lines, updating the builder of each record's column. */
  method GroupPanes(lines: seq<string>) returns (grouped: map<int, Builder>)
    ensures grouped == Group(ParseRecords(lines))
  {
    grouped := map[];
    var i := 0;
    while i < |lines|
      invariant 0 <= i <= |lines|
      invariant grouped == Group(ParseRecords(lines[..i]))
    {
      ghost var rs := ParseRecords(lines[..i]);
      var parsed := ParseRecord(lines[i]);
      ParseRecordsStep(lines, i);
      if parsed.Some? {
        var r := parsed.value;
        GroupSnoc(rs, r);
        var entry := if r.column in grouped then grouped[r.column] else NewBuilder(r.column);
        entry := AbsorbRecord(entry, r);
        grouped := grouped[r.column := entry];
      } else {
        assert rs + [] == rs;
      }
      i := i + 1;
    }
    assert lines[..|lines|] == lines;
  }

  // ---------------------------------------------------------------------------
  // What the grouping computes

  /** Exactly one builder per distinct column among the records, and each
      builder carries its own column number. */
  lemma {:induction false} GroupKeys(rs: seq<PaneRecord>)
    ensures Group(rs).Keys == set r | r in rs :: r.column
    ensures forall c :: c in Group(rs) ==> Group(rs)[c].column == c
  {
    if |rs| > 0 {
      var init := rs[..|rs| - 1];
      var r := rs[|rs| - 1];
      var m := Group(init);
      GroupKeys(init);
      ColumnsSnoc(init, r);
      assert rs == init + [r];
      AbsorbColumn(if r.column in m then m[r.column] else NewBuilder(r.column), r);
    }
  }

  lemma {:induction false} ColumnsSnoc(rs: seq<PaneRecord>, r: PaneRecord)
    ensures (set x | x in rs + [r] :: x.column) == (set x | x in rs :: x.column) + {r.column}
  {
    assert forall x :: x in rs + [r] <==> x in rs || x == r;
  }

  lemma {:induction false} AbsorbColumn(b: Builder, r: PaneRecord)
    ensures Absorb(b, r).column == b.column
  {
  }

  /** A column's left offset is the least left offset among its `claude-p` and
      `codex-p` records; it stays at the `Int.max` sentinel when the column has
      no such record. */
  lemma {:induction false} GroupLeft(rs: seq<PaneRecord>, c: int)
    requires c in Group(rs)
    ensures var l := Group(rs)[c].left;
      && l <= INT_MAX
      && (forall i :: 0 <= i < |rs| && rs[i].column == c && IsPrimary(rs[i].role) ==> l <= rs[i].left)
      && (l == INT_MAX || exists i :: 0 <= i < |rs| && rs[i].column == c && IsPrimary(rs[i].role) && rs[i].left == l)
  {
    GroupLeftBound(rs, c);
    GroupLeftAttained(rs, c);
  }

  /** The builder of the column before the last record is folded in. */
  function Previous(rs: seq<PaneRecord>, c: int): Builder
    requires rs != []
  {
    var m := Group(rs[..|rs| - 1]);
    if c in m then m[c] else NewBuilder(c)
  }

  /** The last record changes the column's left offset only as `LeftStep` says. */
  lemma {:induction false} GroupLeftStep(rs: seq<PaneRecord>, c: int)
    requires c in Group(rs)
    ensures var b := Previous(rs, c); var r := rs[|rs| - 1];
      Group(rs)[c].left == if r.column == c && IsPrimary(r.role) && r.left < b.left then r.left else b.left
  {
    var r := rs[|rs| - 1];
    if r.column == c {
      LeftStep(Previous(rs, c), r);
    }
  }

  lemma {:induction false} GroupLeftBound(rs: seq<PaneRecord>, c: int)
    requires c in Group(rs)
    ensures var l := Group(rs)[c].left;
      && l <= INT_MAX
      && (forall i :: 0 <= i < |rs| && rs[i].column == c && IsPrimary(rs[i].role) ==> l <= rs[i].left)
  {
    var n := |rs| - 1;
    var init := rs[..n];
    if c in Group(init) {
      GroupLeftBound(init, c);
    } else {
      GroupAbsent(init, c);
    }
    GroupLeftStep(rs, c);
    LeftBoundStep(rs, init, c, Previous(rs, c).left, Group(rs)[c].left);
  }

  /** The bound of `GroupLeftBound` carried over one more record. */
  lemma {:induction false} LeftBoundStep(rs: seq<PaneRecord>, init: seq<PaneRecord>, c: int, before: int, l: int)
    requires |rs| > 0 && init == rs[..|rs| - 1]
    requires var r := rs[|rs| - 1];
      l == if r.column == c && IsPrimary(r.role) && r.left < before then r.left else before
    requires before <= INT_MAX
    requires forall i :: 0 <= i < |init| && init[i].column == c && IsPrimary(init[i].role) ==> before <= init[i].left
    ensures l <= INT_MAX
    ensures forall i :: 0 <= i < |rs| && rs[i].column == c && IsPrimary(rs[i].role) ==> l <= rs[i].left
  {
    forall i | 0 <= i < |rs| && rs[i].column == c && IsPrimary(rs[i].role) ensures l <= rs[i].left {
      if i < |init| {
        assert rs[i] == init[i];
      }
    }
  }

  lemma {:induction false} GroupLeftAttained(rs: seq<PaneRecord>, c: int)
    requires c in Group(rs)
    ensures var l := Group(rs)[c].left;
      l == INT_MAX || exists i :: 0 <= i < |rs| && rs[i].column == c && IsPrimary(rs[i].role) && rs[i].left == l
  {
    var n := |rs| - 1;
    var init := rs[..n];
    GroupLeftStep(rs, c);
    var l := Group(rs)[c].left;
    if l != INT_MAX && l != Previous(rs, c).left {
      assert rs[n].column == c && IsPrimary(rs[n].role) && rs[n].left == l;
    } else if l != INT_MAX {
      assert c in Group(init);
      GroupLeftAttained(init, c);
      var i :| 0 <= i < n && init[i].column == c && IsPrimary(init[i].role) && init[i].left == l;
      assert rs[i] == init[i];
    }
  }

  /** A column absent from the grouping has no record. */
  lemma {:induction false} GroupAbsent(rs: seq<PaneRecord>, c: int)
    requires c !in Group(rs)
    ensures forall i :: 0 <= i < |rs| ==> rs[i].column != c
  {
    GroupKeys(rs);
    forall i | 0 <= i < |rs| ensures rs[i].column != c {
      assert rs[i] in rs;
    }
  }

  /** Folding in one record lowers the left offset to that of a primary
      record below it, and changes it in no other case. */
  lemma {:induction false} LeftStep(b: Builder, r: PaneRecord)
    ensures Absorb(b, r).left == if IsPrimary(r.role) && r.left < b.left then r.left else b.left
  {
  }

  /** `v` is the value `V` of the last record of column `c` satisfying `P`, or
      `dflt` when no record of that column satisfies `P`. */
  ghost predicate LastWins<T>(rs: seq<PaneRecord>, c: int, P: PaneRecord -> bool, V: PaneRecord -> T, v: T, dflt: T)
  {
    || (v == dflt && forall i :: 0 <= i < |rs| && rs[i].column == c ==> !P(rs[i]))
    || (exists i :: 0 <= i < |rs| && rs[i].column == c && P(rs[i]) && v == V(rs[i]) &&
         forall j :: i < j < |rs| && rs[j].column == c ==> !P(rs[j]))
  }

  lemma {:induction false} LastWinsExtend<T>(rs: seq<PaneRecord>, r: PaneRecord, c: int, P: PaneRecord -> bool, V: PaneRecord -> T, v: T, dflt: T)
    requires LastWins(rs, c, P, V, v, dflt)
    requires r.column != c || !P(r)
    ensures LastWins(rs + [r], c, P, V, v, dflt)
  {
    var rs' := rs + [r];
    assert forall i :: 0 <= i < |rs| ==> rs'[i] == rs[i];
    if !(v == dflt && forall i :: 0 <= i < |rs| && rs[i].column == c ==> !P(rs[i])) {
      var i :| 0 <= i < |rs| && rs[i].column == c && P(rs[i]) && v == V(rs[i]) &&
        forall j :: i < j < |rs| && rs[j].column == c ==> !P(rs[j]);
      assert rs'[i] == rs[i];
    }
  }

  /** Any builder field that each record either overwrites (when `P` holds of
      it, with `V`) or leaves alone ends up holding the value of the last
      such record of the column. */
  lemma {:induction false} GroupLastWins<T>(rs: seq<PaneRecord>, c: int, P: PaneRecord -> bool, V: PaneRecord -> T, F: Builder -> T)
    requires c in Group(rs)
    requires forall b, r :: F(Absorb(b, r)) == if P(r) then V(r) else F(b)
    ensures LastWins(rs, c, P, V, F(Group(rs)[c]), F(NewBuilder(c)))
  {
    var n := |rs| - 1;
    var init := rs[..n];
    var r := rs[n];
    var v := F(Group(rs)[c]);
    GroupAt(rs, c);
    if r.column == c && P(r) {
      LastWinsAtLast(rs, c, P, V, v, F(NewBuilder(c)));
    } else if c in Group(init) {
      assert v == F(Group(init)[c]);
      GroupLastWins(init, c, P, V, F);
      LastWinsExtend(init, r, c, P, V, v, F(NewBuilder(c)));
      assert init + [r] == rs;
    } else {
      GroupKeys(init);
      assert forall i :: 0 <= i < n ==> init[i].column != c;
      assert forall i :: 0 <= i < n ==> rs[i] == init[i];
      LastWinsFirst(rs, c, P, V, F(NewBuilder(c)));
    }
  }

  /** The builder of a column after the last record, one step of `Group`. */
  lemma GroupAt(rs: seq<PaneRecord>, c: int)
    requires c in Group(rs)
    ensures |rs| > 0
    ensures var init := rs[..|rs| - 1]; var r := rs[|rs| - 1];
      (r.column != c ==> c in Group(init) && Group(rs)[c] == Group(init)[c]) &&
      (r.column == c ==> Group(rs)[c] == Absorb(if c in Group(init) then Group(init)[c] else NewBuilder(c), r))
  {
  }

  /** The last record of the column sets the value. */
  lemma LastWinsAtLast<T>(rs: seq<PaneRecord>, c: int, P: PaneRecord -> bool, V: PaneRecord -> T, v: T, dflt: T)
    requires |rs| > 0 && rs[|rs| - 1].column == c && P(rs[|rs| - 1]) && v == V(rs[|rs| - 1])
    ensures LastWins(rs, c, P, V, v, dflt)
  {
  }

  /** A column whose only record is the last one, which does not set the
      value, keeps the default. */
  lemma LastWinsFirst<T>(rs: seq<PaneRecord>, c: int, P: PaneRecord -> bool, V: PaneRecord -> T, dflt: T)
    requires |rs| > 0 && !P(rs[|rs| - 1])
    requires forall i :: 0 <= i < |rs| - 1 ==> rs[i].column != c
    ensures LastWins(rs, c, P, V, dflt, dflt)
  {
  }

  /** A column's width is that of its last record reporting a positive width,
      and 0 when none does. */
  lemma {:induction false} GroupWidth(rs: seq<PaneRecord>, c: int)
    requires c in Group(rs)
    ensures LastWins(rs, c, (r: PaneRecord) => r.width > 0, (r: PaneRecord) => r.width, Group(rs)[c].width, 0)
  {
    GroupLastWins(rs, c, (r: PaneRecord) => r.width > 0, (r: PaneRecord) => r.width, (b: Builder) => b.width);
  }

  /** The pane id a builder holds for one of the four role prefixes. */
  function Slot(b: Builder, prefix: string): Option<string>
  {
    if prefix == ClaudePrefix then b.claude
    else if prefix == CodexPrefix then b.codex
    else if prefix == YaziPrefix then b.yazi
    else b.terminal
  }

  predicate IsSlotPrefix(prefix: string)
  {
    prefix == ClaudePrefix || prefix == CodexPrefix || prefix == YaziPrefix || prefix == TerminalPrefix
  }

  /** Each of the four pane slots holds the pane id of the last record of the
      column whose role starts with that slot's prefix, and is empty when there
      is none. */
  lemma {:induction false} GroupSlot(rs: seq<PaneRecord>, c: int, prefix: string)
    requires c in Group(rs) && IsSlotPrefix(prefix)
    ensures LastWins(rs, c, (r: PaneRecord) => prefix <= r.role, (r: PaneRecord) => Some(r.paneID),
                     Slot(Group(rs)[c], prefix), None)
  {
    GroupLastWins(rs, c, (r: PaneRecord) => prefix <= r.role, (r: PaneRecord) => Some(r.paneID),
                  (b: Builder) => Slot(b, prefix));
  }

  /** A pane whose role is neither `claude-p` nor `codex-p` never overrides a
      column's project path, host label or left offset once the path is set. */
  lemma {:induction false} AuxiliaryKeepsIdentity(rs: seq<PaneRecord>, r: PaneRecord)
    requires !IsPrimary(r.role)
    requires r.column in Group(rs) && Group(rs)[r.column].projectPath != ""
    ensures var before := Group(rs)[r.column];
      var after := Group(rs + [r])[r.column];
      after.projectPath == before.projectPath && after.hostLabel == before.hostLabel &&
      after.left == before.left
  {
    assert (rs + [r])[..|rs|] == rs;
  }

  /** A `claude-p`/`codex-p` pane of a local project always sets the column's
      project path to its `@project` tag and its host label to "local", while
      an auxiliary pane does so only when the path is still empty. */
  lemma {:induction false} LocalPaneSetsPath(rs: seq<PaneRecord>, r: PaneRecord)
    requires !IsRemote(r)
    ensures var after := Group(rs + [r])[r.column];
      (IsPrimary(r.role) || r.column !in Group(rs) || Group(rs)[r.column].projectPath == "") ==>
        after.projectPath == r.project && after.hostLabel == "local"
  {
    assert (rs + [r])[..|rs|] == rs;
  }

  /** `p` is the end of `s` that starts at its first `/`. */
  predicate FromFirstSlash(p: string, s: string)
  {
    0 < |p| <= |s| && p[0] == '/' && p == s[|s| - |p|..] && '/' !in s[..|s| - |p|]
  }

  lemma SshPathFromFirstSlash(project: string, current: string)
    requires '/' in ReplaceAll(project, SshScheme, "")
    ensures FromFirstSlash(SshPath(project, current), ReplaceAll(project, SshScheme, ""))
  {
    var stripped := ReplaceAll(project, SshScheme, "");
    var k := IndexOf(stripped, '/');
    assert stripped[k..][0] == '/';
    assert stripped[|stripped| - |stripped[k..]|..] == stripped[k..];
  }

  /** The host label and path a remote record gives a builder. */
  lemma IdentifyRemote(b: Builder, r: PaneRecord)
    requires IsRemote(r)
    ensures var after := Identify(b, r);
      var stripped := ReplaceAll(r.project, SshScheme, "");
      after.hostLabel == (if r.remoteHost == "" then "remote" else "remote@" + r.remoteHost)
      && (r.remotePath != "" ==> after.projectPath == r.remotePath)
      && (r.remotePath == "" && SshScheme <= r.project && '/' in stripped ==>
            FromFirstSlash(after.projectPath, stripped))
      && (r.remotePath == "" && (!(SshScheme <= r.project) || '/' !in stripped) ==>
            after.projectPath == b.projectPath)
  {
    if r.remotePath == "" && SshScheme <= r.project && '/' in ReplaceAll(r.project, SshScheme, "") {
      SshPathFromFirstSlash(r.project, b.projectPath);
    }
  }

  /** Absorbing a record takes its identity from `Identify` when the pane is a
      claude/codex pane or the path is still empty, and otherwise keeps it. */
  lemma AbsorbIdentity(b: Builder, r: PaneRecord)
    ensures var after := Absorb(b, r);
      if IsPrimary(r.role) || b.projectPath == "" then
        after.projectPath == Identify(b, r).projectPath && after.hostLabel == Identify(b, r).hostLabel
      else
        after.projectPath == b.projectPath && after.hostLabel == b.hostLabel
  {
  }

  /** A remote pane (an `ssh://` project, a remote host or a remote path) that
      may set the column's identity labels the column "remote", or
      "remote@<host>" when it names its host. Its remote path, when it has one,
      becomes the column's path; otherwise an `ssh://` project gives the part
      of the project, with every "ssh://" removed, that runs from its first
      `/`; otherwise the path stays as it was. A pane that may not set the
      identity leaves path and label alone. */
  lemma {:induction false} RemotePaneSetsPath(rs: seq<PaneRecord>, r: PaneRecord)
    requires IsRemote(r)
    ensures var g := Group(rs);
      var before := if r.column in g then g[r.column] else NewBuilder(r.column);
      var after := Group(rs + [r])[r.column];
      var stripped := ReplaceAll(r.project, SshScheme, "");
      if IsPrimary(r.role) || before.projectPath == "" then
        after.hostLabel == (if r.remoteHost == "" then "remote" else "remote@" + r.remoteHost)
        && (r.remotePath != "" ==> after.projectPath == r.remotePath)
        && (r.remotePath == "" && SshScheme <= r.project && '/' in stripped ==>
              FromFirstSlash(after.projectPath, stripped))
        && (r.remotePath == "" && (!(SshScheme <= r.project) || '/' !in stripped) ==>
              after.projectPath == before.projectPath)
      else
        after.projectPath == before.projectPath && after.hostLabel == before.hostLabel
  {
    assert (rs + [r])[..|rs|] == rs;
    var g := Group(rs);
    var before := if r.column in g then g[r.column] else NewBuilder(r.column);
    assert Group(rs + [r])[r.column] == Absorb(before, r);
    AbsorbIdentity(before, r);
    IdentifyRemote(before, r);
  }

  // ---------------------------------------------------------------------------
  // Ordering the columns

  /** Visual order: by left offset, then by column number. */
  predicate Before(a: Builder, b: Builder)
  {
    a.left < b.left || (a.left == b.left && a.column < b.column)
  }

  ghost predicate Sorted(s: seq<Builder>)
  {
    forall i, j :: 0 <= i < j < |s| ==> !Before(s[j], s[i])
  }

  function Insert(s: seq<Builder>, b: Builder): (r: seq<Builder>)
    requires Sorted(s)
    ensures Sorted(r) && multiset(r) == multiset(s) + multiset{b}
  {
    if s == [] then [b]
    else if Before(s[0], b) then
      var t := Insert(s[1..], b);
      InsertHead(s, b, t);
      [s[0]] + t
    else [b] + s
  }

  /** The head of a sorted sequence goes before the insertion into its tail. */
  lemma {:induction false} InsertHead(s: seq<Builder>, b: Builder, t: seq<Builder>)
    requires s != [] && Sorted(s) && Before(s[0], b)
    requires Sorted(t) && multiset(t) == multiset(s[1..]) + multiset{b}
    ensures Sorted([s[0]] + t) && multiset([s[0]] + t) == multiset(s) + multiset{b}
  {
    assert s == [s[0]] + s[1..];
    forall k | 0 <= k < |t| ensures !Before(t[k], s[0]) {
      assert t[k] in multiset(t);
      if t[k] != b {
        assert t[k] in multiset(s[1..]);
        var j :| 0 <= j < |s[1..]| && s[1..][j] == t[k];
        assert s[j + 1] == t[k];
      }
    }
    forall i, j | 0 <= i < j < |[s[0]] + t| ensures !Before(([s[0]] + t)[j], ([s[0]] + t)[i]) {
      if i > 0 {
        assert ([s[0]] + t)[i] == t[i - 1] && ([s[0]] + t)[j] == t[j - 1];
      } else {
        assert ([s[0]] + t)[j] == t[j - 1];
      }
    }
  }

  /** `sorted(by:)` with the visual-order comparator. */
  function SortBuilders(bs: seq<Builder>): (r: seq<Builder>)
    ensures Sorted(r) && multiset(r) == multiset(bs)
  {
    if bs == [] then []
    else
      assert bs == bs[..|bs| - 1] + [bs[|bs| - 1]];
      Insert(SortBuilders(bs[..|bs| - 1]), bs[|bs| - 1])
  }

  predicate DistinctColumns(s: seq<Builder>)
  {
    forall i, j :: 0 <= i < j < |s| ==> s[i].column != s[j].column
  }

  function Columns(s: seq<Builder>): set<int>
  {
    set x | x in s :: x.column
  }

  lemma {:induction false} DistinctCons(x: Builder, t: seq<Builder>)
    requires DistinctColumns(t) && x.column !in Columns(t)
    ensures DistinctColumns([x] + t)
  {
    var s := [x] + t;
    forall i, j | 0 <= i < j < |s| ensures s[i].column != s[j].column {
      assert s[j] == t[j - 1];
      if i > 0 { assert s[i] == t[i - 1]; } else { assert t[j - 1] in t; }
    }
  }

  lemma {:induction false} DistinctTail(s: seq<Builder>)
    requires DistinctColumns(s) && s != []
    ensures DistinctColumns(s[1..]) && s[0].column !in Columns(s[1..])
  {
    assert forall i :: 0 <= i < |s| - 1 ==> s[1..][i] == s[i + 1];
    forall x | x in s[1..] ensures x.column != s[0].column {
      var i :| 0 <= i < |s| - 1 && s[1..][i] == x;
    }
  }

  lemma {:induction false} ColumnsOfMembers(r: seq<Builder>, s: seq<Builder>, b: Builder)
    requires forall x :: x in r <==> x in s || x == b
    ensures Columns(r) == Columns(s) + {b.column}
  {
  }

  lemma {:induction false} InsertMembers(s: seq<Builder>, b: Builder)
    requires Sorted(s)
    ensures forall x :: x in Insert(s, b) <==> x in s || x == b
  {
    var r := Insert(s, b);
    assert forall x :: x in r <==> x in multiset(r);
    assert forall x :: x in s <==> x in multiset(s);
  }

  lemma {:induction false} InsertColumns(s: seq<Builder>, b: Builder)
    requires Sorted(s) && DistinctColumns(s) && b.column !in Columns(s)
    ensures DistinctColumns(Insert(s, b)) && Columns(Insert(s, b)) == Columns(s) + {b.column}
    decreases |s|
  {
    InsertMembers(s, b);
    ColumnsOfMembers(Insert(s, b), s, b);
    if s != [] && Before(s[0], b) {
      var t := Insert(s[1..], b);
      DistinctTail(s);
      assert Columns(s[1..]) <= Columns(s) by {
        assert forall x :: x in s[1..] ==> x in s;
      }
      InsertColumns(s[1..], b);
      assert s[0].column != b.column by {
        assert s[0] in s;
      }
      DistinctCons(s[0], t);
    } else if s != [] {
      DistinctCons(b, s);
    }
  }

  /** The builders before the last have distinct columns, none of them the
      last builder's. */
  lemma {:induction false} DistinctInitColumns(bs: seq<Builder>)
    requires DistinctColumns(bs) && bs != []
    ensures var init := bs[..|bs| - 1]; var b := bs[|bs| - 1];
      DistinctColumns(init) && b.column !in Columns(init) && Columns(bs) == Columns(init) + {b.column}
  {
    var init := bs[..|bs| - 1];
    var b := bs[|bs| - 1];
    assert forall x :: x in bs <==> x in init || x == b by {
      assert bs == init + [b];
    }
    ColumnsOfMembers(bs, init, b);
    assert DistinctColumns(init);
    forall x | x in init ensures x.column != b.column {
      var i :| 0 <= i < |init| && init[i] == x;
      assert bs[i] == x;
    }
  }

  lemma {:induction false} SortColumns(bs: seq<Builder>)
    requires DistinctColumns(bs)
    ensures DistinctColumns(SortBuilders(bs)) && Columns(SortBuilders(bs)) == Columns(bs)
    decreases |bs|
  {
    if bs != [] {
      var init := bs[..|bs| - 1];
      var b := bs[|bs| - 1];
      DistinctInitColumns(bs);
      SortColumns(init);
      InsertColumns(SortBuilders(init), b);
    }
  }

  /** The listing of distinct columns is strictly ascending by left offset,
      ties broken by column number, holds every column once, and no others. */
  lemma {:induction false} SortedListing(bs: seq<Builder>)
    requires DistinctColumns(bs)
    ensures var s := SortBuilders(bs);
      && |s| == |bs|
      && Columns(s) == Columns(bs)
      && (forall i, j :: 0 <= i < j < |s| ==>
            s[i].left < s[j].left || (s[i].left == s[j].left && s[i].column < s[j].column))
  {
    SortColumns(bs);
    var s := SortBuilders(bs);
    assert |s| == |multiset(s)| == |multiset(bs)| == |bs|;
  }

  /** `grouped.values.sorted(by:)`: the builders of the dictionary, each once,
      in visual order (each builder is stored under its own column). */
  ghost predicate IsListing(s: seq<Builder>, m: map<int, Builder>)
  {
    DistinctColumns(s) && Sorted(s) && forall b :: b in s <==> b.column in m && m[b.column] == b
  }

  /** Sorting the builders in the order the dictionary yields them gives its listing. */
  lemma {:induction false} SortedValues(vals: seq<Builder>, m: map<int, Builder>)
    requires DistinctColumns(vals) && forall b :: b in vals <==> b.column in m && m[b.column] == b
    ensures IsListing(SortBuilders(vals), m)
  {
    SortColumns(vals);
    var s := SortBuilders(vals);
    assert forall b :: b in s <==> b in multiset(s);
    assert forall b :: b in vals <==> b in multiset(vals);
  }

  /** A dictionary has one listing only, so the columns shown do not depend on
      the order in which `grouped.values` yields the builders. */
  lemma {:induction false} ListingUnique(s: seq<Builder>, t: seq<Builder>)
    requires DistinctColumns(s) && DistinctColumns(t) && Sorted(s) && Sorted(t)
    requires forall b :: b in s <==> b in t
    ensures s == t
    decreases |s|
  {
    if s == [] {
      HeadMember(t);
    } else {
      assert s[0] in s && s[0] in t;
      var i :| 0 <= i < |t| && t[i] == s[0];
      assert t[0] in t && t[0] in s;
      var j :| 0 <= j < |s| && s[j] == t[0];
      SortedHead(s, j);
      SortedHead(t, i);
      assert s[0] == t[0];
      TailListing(s);
      TailListing(t);
      ListingUnique(s[1..], t[1..]);
      assert s == [s[0]] + s[1..] && t == [t[0]] + t[1..];
    }
  }

  lemma {:induction false} HeadMember(t: seq<Builder>)
    ensures |t| > 0 ==> t[0] in t
  {
  }

  /** No element after the head of a sorted sequence with distinct columns goes before it. */
  lemma {:induction false} SortedHead(s: seq<Builder>, j: int)
    requires DistinctColumns(s) && Sorted(s) && 0 <= j < |s|
    ensures j > 0 ==> !Before(s[j], s[0]) && s[j].column != s[0].column
  {
  }

  /** The tail of a sorted sequence with distinct columns is one too, and holds
      every element but the head. */
  lemma {:induction false} TailListing(s: seq<Builder>)
    requires DistinctColumns(s) && Sorted(s) && s != []
    ensures DistinctColumns(s[1..]) && Sorted(s[1..])
    ensures forall b :: b in s[1..] <==> b in s && b != s[0]
  {
    DistinctTail(s);
    assert forall i :: 0 <= i < |s| - 1 ==> s[1..][i] == s[i + 1];
    assert s == [s[0]] + s[1..];
  }

  /** The fields of a column as the view model shows it. `id` is the fresh
      token standing for the column's `UUID`. */
  datatype LiveColumn = LiveColumn(
    id: nat, column: int, projectPath: string, hostLabel: string, width: int, left: int,
    claude: Option<string>, codex: Option<string>, yazi: Option<string>, terminal: Option<string>)

  function ToLive(b: Builder, id: nat): LiveColumn
  {
    LiveColumn(id, b.column, b.projectPath, b.hostLabel, b.width,
               if b.left == INT_MAX then 0 else b.left, b.claude, b.codex, b.yazi, b.terminal)
  }

  /** `newData`: the sorted builders as columns, numbered from the token `first`. */
  function FreshColumns(bs: seq<Builder>, first: nat): (cs: seq<LiveColumn>)
    ensures |cs| == |bs|
    ensures forall i :: 0 <= i < |bs| ==> cs[i] == ToLive(bs[i], first + i)
  {
    seq(|bs|, i requires 0 <= i < |bs| => ToLive(bs[i], first + i))
  }

  /** A column without `claude-p`/`codex-p` panes is shown with left offset 0;
      otherwise with the least left offset of those panes, unless that is the
      `Int.max` sentinel itself. */
  lemma {:induction false} ReportedLeft(rs: seq<PaneRecord>, c: int, id: nat)
    requires c in Group(rs)
    ensures (forall i :: 0 <= i < |rs| && rs[i].column == c ==> !IsPrimary(rs[i].role)) ==>
      ToLive(Group(rs)[c], id).left == 0
    ensures forall i :: 0 <= i < |rs| && rs[i].column == c && IsPrimary(rs[i].role) && rs[i].left < INT_MAX ==>
      ToLive(Group(rs)[c], id).left <= rs[i].left
  {
    GroupLeft(rs, c);
  }

  /** The builders of a dictionary keyed by column, in the unspecified order
      `grouped.values` yields them. */
  method ValuesOf(m: map<int, Builder>) returns (vals: seq<Builder>)
    requires forall k :: k in m ==> m[k].column == k
    ensures |vals| == |m|
    ensures forall k :: k in m ==> m[k] in vals
    ensures forall i :: 0 <= i < |vals| ==> vals[i].column in m && m[vals[i].column] == vals[i]
    ensures forall i, j :: 0 <= i < j < |vals| ==> vals[i].column != vals[j].column
    ensures forall b :: b in vals <==> b.column in m && m[b.column] == b
  {
    vals := [];
    var rest := m.Keys;
    while rest != {}
      invariant rest <= m.Keys
      invariant |vals| + |rest| == |m.Keys|
      invariant forall i :: 0 <= i < |vals| ==> vals[i].column in m && vals[i].column !in rest && m[vals[i].column] == vals[i]
      invariant forall k :: k in m && k !in rest ==> m[k] in vals
      invariant forall i, j :: 0 <= i < j < |vals| ==> vals[i].column != vals[j].column
      decreases |rest|
    {
      var k := Choose(rest);
      vals := vals + [m[k]];
      rest := rest - {k};
    }
    assert |m.Keys| == |m|;
  }
}
