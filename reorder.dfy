/** The parts of the column reorder (`moveColumn`) that work on values: the
    workspace pane listing, the lookup of a pane by role, the metadata read
    from a claude pane, the test whether `swap-pane` moved the panes, the
    `@project` tag repair and the relocation of a pane that has no partner. */
module Reorder {
  import opened Text
  import opened Gateway
  import PaneReader

  const PaneListFormat: string := "#{pane_id}|#{@role}|#{@column}"
  const SourceMetaFormat: string := "#{@project}|#{@remote_host}|#{@remote_path}|#{pane_left}"
  const TargetMetaFormat: string := "#{@project}|#{@remote_host}|#{@remote_path}"
  const LeftFormat: string := "#{pane_left}"

  const ProjectKey: string := "@project"
  const RemoteHostKey: string := "@remote_host"
  const RemotePathKey: string := "@remote_path"

  // ---------------------------------------------------------------------------
  // The pane listing (`listWorkspacePanesAsync`)

  datatype PaneInfo = PaneInfo(paneID: string, role: string, column: Option<int>)

  /** A line with at least three fields; a column that is not an `Int` is absent. */
  function ParsePaneInfo(line: string): Option<PaneInfo>
  {
    var parts := Split(line, '|');
    if |parts| < 3 then None else Some(PaneInfo(parts[0], parts[1], ParseInt(parts[2])))
  }

  function ParsePanes(lines: seq<string>): (ps: seq<PaneInfo>)
    ensures |ps| <= |lines|
  {
    if |lines| == 0 then []
    else
      ParsePanes(lines[..|lines| - 1]) +
      (match ParsePaneInfo(lines[|lines| - 1]) case Some(p) => [p] case None => [])
  }

  /** The panes a listing result stands for: none when the command failed. */
  function PanesOf(r: CommandResult): seq<PaneInfo>
  {
    if r.exitCode != 0 then [] else ParsePanes(Lines(r.stdout))
  }

  /** The line tmux prints for a pane in `PaneListFormat`; an unset `@column`
      prints as nothing. */
  function PaneLine(p: PaneInfo): string
  {
    p.paneID + "|" + p.role + "|" + (match p.column case Some(c) => IntToString(c) case None => "")
  }

  predicate Printable(p: PaneInfo)
  {
    && '|' !in p.paneID && '|' !in p.role && '\n' !in p.paneID && '\n' !in p.role
    && (p.column.Some? ==> INT_MIN <= p.column.value <= INT_MAX)
  }

  /** A printed pane line reads back as the pane. */
  lemma PaneLineRoundTrip(p: PaneInfo)
    requires Printable(p)
    ensures ParsePaneInfo(PaneLine(p)) == Some(p)
  {
    var col := match p.column case Some(c) => IntToString(c) case None => "";
    if p.column.Some? {
      ParseIntToString(p.column.value, INT_MIN, INT_MAX);
      NoBarInNumber(p.column.value);
    }
    SplitThree(p.paneID, p.role, col, '|');
  }

  lemma {:induction false} NoBarInNumber(n: int)
    ensures '|' !in IntToString(n) && '\n' !in IntToString(n)
  {
    var d := NatToString(if n < 0 then -n else n);
    assert forall i :: 0 <= i < |d| ==> IsDigit(d[i]);
    if n < 0 {
      assert IntToString(n) == "-" + d;
      assert forall i :: 1 <= i < |"-" + d| ==> ("-" + d)[i] == d[i - 1];
    }
  }

  /** Listing the panes and reading the listing back gives the panes. */
  lemma {:induction false} ListingRoundTrip(ps: seq<PaneInfo>)
    requires forall i :: 0 <= i < |ps| ==> Printable(ps[i])
    ensures PanesOf(CommandResult(0, Output(seq(|ps|, i requires 0 <= i < |ps| => PaneLine(ps[i]))), "")) == ps
  {
    var lines := seq(|ps|, i requires 0 <= i < |ps| => PaneLine(ps[i]));
    forall i | 0 <= i < |lines| ensures lines[i] != "" && '\n' !in lines[i] {
      var c := match ps[i].column case Some(c) => IntToString(c) case None => "";
      if ps[i].column.Some? { NoBarInNumber(ps[i].column.value); }
      assert lines[i] == ps[i].paneID + "|" + ps[i].role + "|" + c;
      assert lines[i][|ps[i].paneID|] == '|';
    }
    LinesOfOutput(lines);
    ParseLinesRoundTrip(ps, lines);
  }

  lemma {:induction false} ParseLinesRoundTrip(ps: seq<PaneInfo>, lines: seq<string>)
    requires forall i :: 0 <= i < |ps| ==> Printable(ps[i])
    requires |lines| == |ps| && forall i :: 0 <= i < |ps| ==> lines[i] == PaneLine(ps[i])
    ensures ParsePanes(lines) == ps
  {
    if |ps| > 0 {
      var n := |ps| - 1;
      var init, initLines := ps[..n], lines[..n];
      assert forall i :: 0 <= i < n ==> init[i] == ps[i] && initLines[i] == lines[i];
      ParseLinesRoundTrip(init, initLines);
      PaneLineRoundTrip(ps[n]);
      LastPane(lines, ps[n]);
      DropLast(ps);
    }
  }

  lemma DropLast<T>(s: seq<T>)
    requires s != []
    ensures s[..|s| - 1] + [s[|s| - 1]] == s
  {
  }

  lemma {:induction false} LastPane(lines: seq<string>, p: PaneInfo)
    requires lines != [] && ParsePaneInfo(lines[|lines| - 1]) == Some(p)
    ensures ParsePanes(lines) == ParsePanes(lines[..|lines| - 1]) + [p]
  {
  }

  /** The index of the first pane with the role. */
  function FirstWithRole(role: string, panes: seq<PaneInfo>): (k: Option<nat>)
    ensures k.Some? ==> k.value < |panes| && panes[k.value].role == role
    ensures k.Some? ==> forall j :: 0 <= j < k.value ==> panes[j].role != role
    ensures k.None? ==> forall j :: 0 <= j < |panes| ==> panes[j].role != role
  {
    if |panes| == 0 then None
    else if panes[0].role == role then Some(0)
    else match FirstWithRole(role, panes[1..])
      case None => None
      case Some(k) => Some(k + 1)
  }

  /** `paneID(forRole:)`: the id of the first pane with the role. */
  function PaneIdForRole(role: string, panes: seq<PaneInfo>): (id: Option<string>)
    ensures id.None? <==> forall j :: 0 <= j < |panes| ==> panes[j].role != role
    ensures id.Some? ==> exists j :: 0 <= j < |panes| && panes[j].role == role && panes[j].paneID == id.value &&
                                     forall i :: 0 <= i < j ==> panes[i].role != role
  {
    match FirstWithRole(role, panes)
    case None => None
    case Some(k) => Some(panes[k].paneID)
  }

  // ---------------------------------------------------------------------------
  // Metadata of a claude pane and the move test

  datatype Meta = Meta(project: string, remoteHost: string, remotePath: string, left: int)

  function Field(parts: seq<string>, i: nat): string
  {
    if |parts| > i then parts[i] else ""
  }

  /** The `display-message` reply, trimmed and split at '|'; missing fields
      are empty and a missing or non-numeric left offset is -1. */
  function ParseMeta(stdout: string): Meta
  {
    var parts := Split(TrimAll(stdout), '|');
    Meta(Field(parts, 0), Field(parts, 1), Field(parts, 2),
         if |parts| > 3 then ParseIntOr(parts[3], -1) else -1)
  }

  /** The reply tmux prints for `SourceMetaFormat`. */
  function MetaLine(m: Meta): string
  {
    m.project + "|" + m.remoteHost + "|" + m.remotePath + "|" + IntToString(m.left)
  }

  /** Reading back the printed metadata of a pane gives it back. */
  lemma {:induction false} MetaRoundTrip(m: Meta)
    requires '|' !in m.project && '|' !in m.remoteHost && '|' !in m.remotePath
    requires m.project == "" || !IsSpace(m.project[0])
    requires INT_MIN <= m.left <= INT_MAX
    ensures ParseMeta(MetaLine(m) + "\n") == m
  {
    MetaLineTrimmed(m);
    MetaLineSplit(m);
    ParseIntToString(m.left, INT_MIN, INT_MAX);
  }

  lemma {:induction false} MetaLineSplit(m: Meta)
    requires '|' !in m.project && '|' !in m.remoteHost && '|' !in m.remotePath
    ensures Split(MetaLine(m), '|') == [m.project, m.remoteHost, m.remotePath, IntToString(m.left)]
  {
    var l := IntToString(m.left);
    NoBarInNumber(m.left);
    assert [m.project, m.remoteHost, m.remotePath, l][1..] == [m.remoteHost, m.remotePath, l];
    assert [m.remoteHost, m.remotePath, l][1..] == [m.remotePath, l];
    assert [m.remotePath, l][1..] == [l];
    assert Join([m.remotePath, l], "|") == m.remotePath + "|" + l;
    assert Join([m.remoteHost, m.remotePath, l], "|") == m.remoteHost + "|" + m.remotePath + "|" + l;
    assert Join([m.project, m.remoteHost, m.remotePath, l], "|") == MetaLine(m);
    SplitJoin([m.project, m.remoteHost, m.remotePath, l], '|');
  }

  /** The printed line starts with a non-space and ends in a digit, so the
      reader's trim takes off exactly the final newline. */
  lemma {:induction false} MetaLineTrimmed(m: Meta)
    requires m.project == "" || !IsSpace(m.project[0])
    ensures TrimAll(MetaLine(m) + "\n") == MetaLine(m)
  {
    var line := MetaLine(m);
    var d := NatToString(if m.left < 0 then -m.left else m.left);
    assert line[|line| - 1] == d[|d| - 1];
    assert IsDigit(d[|d| - 1]);
    if m.project == "" {
      assert line[0] == '|';
    } else {
      assert line[0] == m.project[0];
    }
    TrimByTrailing(line, "\n", IsSpace);
  }

  /** The claude pane's left offset read after the swap: -1 when unreadable. */
  function ParseLeft(stdout: string): int
  {
    ParseIntOr(TrimAll(stdout), -1)
  }

  /** Whether `swap-pane` moved the panes themselves: the source claude pane's
      left offset changed and both offsets were read. */
  predicate PanesMoved(leftBefore: int, leftAfter: int)
  {
    leftAfter != leftBefore && leftAfter >= 0 && leftBefore >= 0
  }

  /** An unreadable offset on either side counts as "not moved". */
  lemma {:induction false} UnreadableMeansNotMoved(leftBefore: int, leftAfter: int)
    ensures leftBefore == -1 || leftAfter == -1 || leftBefore == leftAfter ==> !PanesMoved(leftBefore, leftAfter)
    ensures !PanesMoved(leftBefore, leftAfter) && leftBefore >= 0 && leftAfter >= 0 ==> leftBefore == leftAfter
  {
  }

  // ---------------------------------------------------------------------------
  // Tag repair (`swapProjectTagsAsync`)

  function TagWrites(pane: string, m: Meta): seq<Command>
  {
    [SetPaneOption(pane, ProjectKey, m.project),
     SetPaneOption(pane, RemoteHostKey, m.remoteHost),
     SetPaneOption(pane, RemotePathKey, m.remotePath)]
  }

  /** The metadata a listed pane is given: a source-column pane the target's,
      a target-column pane the source's, any other pane none. */
  function Wanted(p: PaneInfo, src: int, tgt: int, srcMeta: Meta, tgtMeta: Meta): Option<Meta>
  {
    match p.column
    case None => None
    case Some(c) => if c == src then Some(tgtMeta) else if c == tgt then Some(srcMeta) else None
  }

  /** The writes, pane by pane in listing order. */
  function RepairWrites(panes: seq<PaneInfo>, src: int, tgt: int, srcMeta: Meta, tgtMeta: Meta): seq<Command>
  {
    if |panes| == 0 then []
    else
      var p := panes[|panes| - 1];
      RepairWrites(panes[..|panes| - 1], src, tgt, srcMeta, tgtMeta) + TailWrites(p, src, tgt, srcMeta, tgtMeta)
  }

  /** The pane options as tmux keeps them: pane id to option name to value. */
  type Store = map<string, map<string, string>>

  function Options(st: Store, pane: string): map<string, string>
  {
    if pane in st then st[pane] else map[]
  }

  /** A `set-option -pt` that takes effect; other commands leave options alone. */
  function Step(st: Store, c: Command): Store
  {
    match c
    case SetPaneOption(pane, key, value) => st[pane := Options(st, pane)[key := value]]
    case _ => st
  }

  function Apply(st: Store, cs: seq<Command>): Store
  {
    if |cs| == 0 then st else Step(Apply(st, cs[..|cs| - 1]), cs[|cs| - 1])
  }

  lemma {:induction false} ApplyConcat(st: Store, a: seq<Command>, b: seq<Command>)
    ensures Apply(st, a + b) == Apply(Apply(st, a), b)
    decreases |b|
  {
    if |b| == 0 {
      assert a + b == a;
    } else {
      var n := |b| - 1;
      ApplyConcat(st, a, b[..n]);
      assert (a + b)[..|a + b| - 1] == a + b[..n];
    }
  }

  /** `m`'s three project tags on top of the options `o`. */
  function WithMeta(o: map<string, string>, m: Meta): map<string, string>
  {
    o[ProjectKey := m.project][RemoteHostKey := m.remoteHost][RemotePathKey := m.remotePath]
  }

  lemma {:induction false} ApplyTagWrites(st: Store, pane: string, m: Meta)
    ensures var st' := Apply(st, TagWrites(pane, m));
      && pane in st' && st'[pane] == WithMeta(Options(st, pane), m)
      && forall x :: x != pane ==> (x in st' <==> x in st) && (x in st ==> st'[x] == st[x])
  {
    var w := TagWrites(pane, m);
    assert w[..2][..1][..0] == [];
    assert Apply(st, w[..1]) == Step(st, w[0]);
    assert Apply(st, w[..2]) == Step(Step(st, w[0]), w[1]);
  }

  predicate DistinctIds(panes: seq<PaneInfo>)
  {
    forall i, j :: 0 <= i < j < |panes| ==> panes[i].paneID != panes[j].paneID
  }

  /** The others' tags, for the step that appends `p` to `init`. */
  function TailWrites(p: PaneInfo, src: int, tgt: int, srcMeta: Meta, tgtMeta: Meta): seq<Command>
  {
    match Wanted(p, src, tgt, srcMeta, tgtMeta) case Some(m) => TagWrites(p.paneID, m) case None => []
  }

  lemma {:induction false} RepairSplit(panes: seq<PaneInfo>, src: int, tgt: int, srcMeta: Meta, tgtMeta: Meta, st: Store)
    requires |panes| > 0
    ensures var n := |panes| - 1;
      Apply(st, RepairWrites(panes, src, tgt, srcMeta, tgtMeta)) ==
      Apply(Apply(st, RepairWrites(panes[..n], src, tgt, srcMeta, tgtMeta)), TailWrites(panes[n], src, tgt, srcMeta, tgtMeta))
  {
    var n := |panes| - 1;
    ApplyConcat(st, RepairWrites(panes[..n], src, tgt, srcMeta, tgtMeta), TailWrites(panes[n], src, tgt, srcMeta, tgtMeta));
  }

  /** The writes for one pane tag that pane when it wants tags and leave
      every other pane alone. */
  lemma {:induction false} TailStep(st: Store, p: PaneInfo, src: int, tgt: int, srcMeta: Meta, tgtMeta: Meta, x: string)
    ensures var st' := Apply(st, TailWrites(p, src, tgt, srcMeta, tgtMeta));
      var w := Wanted(p, src, tgt, srcMeta, tgtMeta);
      && (w.Some? && x == p.paneID ==> x in st' && st'[x] == WithMeta(Options(st, x), w.value))
      && (w.None? || x != p.paneID ==> (x in st' <==> x in st) && (x in st ==> st'[x] == st[x]))
  {
    var w := Wanted(p, src, tgt, srcMeta, tgtMeta);
    if w.Some? {
      ApplyTagWrites(st, p.paneID, w.value);
    } else {
      assert TailWrites(p, src, tgt, srcMeta, tgtMeta) == [];
    }
  }

  /** Panes the repair does not want to tag keep their options (and their absence). */
  lemma {:induction false} RepairKeepsOthers(panes: seq<PaneInfo>, src: int, tgt: int, srcMeta: Meta, tgtMeta: Meta, st: Store, x: string)
    requires Untouched(x, panes, src, tgt, srcMeta, tgtMeta)
    ensures var st' := Apply(st, RepairWrites(panes, src, tgt, srcMeta, tgtMeta));
      (x in st' <==> x in st) && (x in st ==> st'[x] == st[x])
  {
    if |panes| > 0 {
      var n := |panes| - 1;
      var init := panes[..n];
      var p := panes[n];
      assert Untouched(x, init, src, tgt, srcMeta, tgtMeta) by {
        assert forall i :: 0 <= i < n ==> init[i] == panes[i];
      }
      RepairKeepsOthers(init, src, tgt, srcMeta, tgtMeta, st, x);
      RepairSplit(panes, src, tgt, srcMeta, tgtMeta, st);
      var st1 := Apply(st, RepairWrites(init, src, tgt, srcMeta, tgtMeta));
      assert x == p.paneID ==> Wanted(p, src, tgt, srcMeta, tgtMeta).None?;
      TailStep(st1, p, src, tgt, srcMeta, tgtMeta, x);
    }
  }

  /** Panes the repair wants to tag end up with the wanted tags on top of
      their other options. */
  lemma {:induction false} RepairSetsWanted(panes: seq<PaneInfo>, src: int, tgt: int, srcMeta: Meta, tgtMeta: Meta, st: Store, i: nat)
    requires DistinctIds(panes)
    requires i < |panes| && Wanted(panes[i], src, tgt, srcMeta, tgtMeta).Some?
    ensures var st' := Apply(st, RepairWrites(panes, src, tgt, srcMeta, tgtMeta));
      panes[i].paneID in st' &&
      st'[panes[i].paneID] == WithMeta(Options(st, panes[i].paneID), Wanted(panes[i], src, tgt, srcMeta, tgtMeta).value)
  {
    var n := |panes| - 1;
    var init := panes[..n];
    var p := panes[n];
    var x := panes[i].paneID;
    RepairSplit(panes, src, tgt, srcMeta, tgtMeta, st);
    var st1 := Apply(st, RepairWrites(init, src, tgt, srcMeta, tgtMeta));
    TailStep(st1, p, src, tgt, srcMeta, tgtMeta, x);
    DistinctInit(panes, src, tgt, srcMeta, tgtMeta);
    if i < n {
      assert init[i] == panes[i];
      RepairSetsWanted(init, src, tgt, srcMeta, tgtMeta, st, i);
    } else {
      RepairKeepsOthers(init, src, tgt, srcMeta, tgtMeta, st, x);
      assert Options(st1, x) == Options(st, x);
    }
  }

  /** Dropping the last pane keeps the ids distinct, and no other pane has
      the id of the last one. */
  lemma {:induction false} DistinctInit(panes: seq<PaneInfo>, src: int, tgt: int, srcMeta: Meta, tgtMeta: Meta)
    requires panes != [] && DistinctIds(panes)
    ensures var n := |panes| - 1;
      && DistinctIds(panes[..n])
      && (forall a :: 0 <= a < n ==> panes[a].paneID != panes[n].paneID)
      && Untouched(panes[n].paneID, panes[..n], src, tgt, srcMeta, tgtMeta)
  {
    var n := |panes| - 1;
    var init := panes[..n];
    assert forall a :: 0 <= a < n ==> init[a] == panes[a];
  }

  /** When every write takes effect, each source-column pane carries the
      target's project tags and each target-column pane the source's, every
      other option of those panes is kept, and every other pane is untouched. */
  lemma {:induction false} RepairEffect(panes: seq<PaneInfo>, src: int, tgt: int, srcMeta: Meta, tgtMeta: Meta, st: Store)
    requires DistinctIds(panes)
    ensures var st' := Apply(st, RepairWrites(panes, src, tgt, srcMeta, tgtMeta));
      && (forall i :: 0 <= i < |panes| && Wanted(panes[i], src, tgt, srcMeta, tgtMeta).Some? ==>
            panes[i].paneID in st' &&
            st'[panes[i].paneID] == WithMeta(Options(st, panes[i].paneID), Wanted(panes[i], src, tgt, srcMeta, tgtMeta).value))
      && (forall x :: Untouched(x, panes, src, tgt, srcMeta, tgtMeta) ==>
            (x in st' <==> x in st) && (x in st ==> st'[x] == st[x]))
  {
    forall i | 0 <= i < |panes| && Wanted(panes[i], src, tgt, srcMeta, tgtMeta).Some? {
      RepairSetsWanted(panes, src, tgt, srcMeta, tgtMeta, st, i);
    }
    forall x | Untouched(x, panes, src, tgt, srcMeta, tgtMeta) {
      RepairKeepsOthers(panes, src, tgt, srcMeta, tgtMeta, st, x);
    }
  }

  /** No listed pane wanting new tags has the id `x`. */
  predicate Untouched(x: string, panes: seq<PaneInfo>, src: int, tgt: int, srcMeta: Meta, tgtMeta: Meta)
  {
    forall i :: 0 <= i < |panes| && panes[i].paneID == x ==> Wanted(panes[i], src, tgt, srcMeta, tgtMeta).None?
  }

  predicate IsTagKey(k: string)
  {
    k == ProjectKey || k == RemoteHostKey || k == RemotePathKey
  }

  predicate OnlyTagWrites(ws: seq<Command>)
  {
    forall i :: 0 <= i < |ws| ==> ws[i].SetPaneOption? && IsTagKey(ws[i].key)
  }

  /** Only `@project`, `@remote_host` and `@remote_path` are written. */
  lemma {:induction false} RepairWritesOnlyTags(panes: seq<PaneInfo>, src: int, tgt: int, srcMeta: Meta, tgtMeta: Meta)
    ensures OnlyTagWrites(RepairWrites(panes, src, tgt, srcMeta, tgtMeta))
  {
    if |panes| > 0 {
      var n := |panes| - 1;
      RepairWritesOnlyTags(panes[..n], src, tgt, srcMeta, tgtMeta);
      var prev := RepairWrites(panes[..n], src, tgt, srcMeta, tgtMeta);
      var tail := TailWrites(panes[n], src, tgt, srcMeta, tgtMeta);
      assert OnlyTagWrites(tail);
      assert RepairWrites(panes, src, tgt, srcMeta, tgtMeta) == prev + tail;
    }
  }

  // ---------------------------------------------------------------------------
  // Relocating a pane above the codex pane (`relocatePaneAboveCodexAsync`)

  /** A placeholder split above the codex pane; when that yields a pane id, a
      swap with it and then, whatever the swap did, the placeholder's removal. */
  predicate RelocateTrace(pane: string, codex: string, t: seq<Exchange>, ok: bool)
  {
    && |t| >= 1 && t[0].cmd == SplitWindowAbove(codex)
    && var placeholder := TrimAll(t[0].result.stdout);
       if t[0].result.exitCode != 0 || placeholder == "" then |t| == 1 && !ok
       else
         && |t| == 3 && t[1].cmd == SwapPane(pane, placeholder) && t[2].cmd == KillPane(placeholder)
         && ok == (t[1].result.exitCode == 0)
  }

  method Relocate(mux: Mux, pane: string, codex: string) returns (ok: bool)
    modifies mux
    ensures old(mux.log) <= mux.log && RelocateTrace(pane, codex, mux.log[|old(mux.log)|..], ok)
  {
    ghost var start := mux.log;
    var create := mux.Run(SplitWindowAbove(codex));
    ghost var t := [Exchange(SplitWindowAbove(codex), create)];
    assert mux.log == start + t;
    var placeholder := TrimAll(create.stdout);
    ok := false;
    if create.exitCode != 0 || placeholder == "" {
    } else {
      var swap := mux.Run(SwapPane(pane, placeholder));
      var kill := mux.Run(KillPane(placeholder));
      t := t + [Exchange(SwapPane(pane, placeholder), swap)] + [Exchange(KillPane(placeholder), kill)];
      ok := swap.exitCode == 0;
    }
    assert mux.log[|start|..] == t;
  }

  // ---------------------------------------------------------------------------
  // The swap protocol (`moveColumn` up to the rebalance)

  const AgentsActiveText: string := "Reorder disabled while agent panes are active"
  const NoPanesText: string := "Reorder failed: workspace panes not found"
  const MissingPanesText: string := "Reorder failed: required panes not found"
  const FailedPrefix: string := "Reorder failed: "

  function RoleFor(prefix: string, column: int): string
  {
    prefix + IntToString(column)
  }

  /** The four panes a reorder cannot do without. */
  datatype Primaries = Primaries(claudeSource: string, claudeTarget: string, codexSource: string, codexTarget: string)

  /** The required panes, found by role; none when any one of them is missing. */
  function FindPrimaries(panes: seq<PaneInfo>, src: int, tgt: int): (p: Option<Primaries>)
    ensures p.None? <==>
      || PaneIdForRole(RoleFor(PaneReader.ClaudePrefix, src), panes).None?
      || PaneIdForRole(RoleFor(PaneReader.ClaudePrefix, tgt), panes).None?
      || PaneIdForRole(RoleFor(PaneReader.CodexPrefix, src), panes).None?
      || PaneIdForRole(RoleFor(PaneReader.CodexPrefix, tgt), panes).None?
  {
    match (PaneIdForRole(RoleFor(PaneReader.ClaudePrefix, src), panes),
           PaneIdForRole(RoleFor(PaneReader.ClaudePrefix, tgt), panes),
           PaneIdForRole(RoleFor(PaneReader.CodexPrefix, src), panes),
           PaneIdForRole(RoleFor(PaneReader.CodexPrefix, tgt), panes))
    case (Some(cs), Some(ct), Some(xs), Some(xt)) => Some(Primaries(cs, ct, xs, xt))
    case _ => None
  }

  /** The optional yazi and terminal panes of both columns. */
  datatype Auxiliary = Auxiliary(yaziSource: Option<string>, yaziTarget: Option<string>,
                                 terminalSource: Option<string>, terminalTarget: Option<string>)

  function FindAuxiliary(panes: seq<PaneInfo>, src: int, tgt: int): Auxiliary
  {
    Auxiliary(PaneIdForRole(RoleFor(PaneReader.YaziPrefix, src), panes),
              PaneIdForRole(RoleFor(PaneReader.YaziPrefix, tgt), panes),
              PaneIdForRole(RoleFor(PaneReader.TerminalPrefix, src), panes),
              PaneIdForRole(RoleFor(PaneReader.TerminalPrefix, tgt), panes))
  }

  /** The claude panes are swapped first; the codex panes only when that succeeded. */
  predicate SwapsTrace(p: Primaries, t: seq<Exchange>)
  {
    && |t| >= 1 && t[0].cmd == SwapPane(p.claudeSource, p.claudeTarget)
    && if t[0].result.exitCode != 0 then |t| == 1
       else |t| == 2 && t[1].cmd == SwapPane(p.codexSource, p.codexTarget)
  }

  /** One kind of optional pane: swapped when both columns have one, moved
      above the codex pane of its own column when only one has, and left
      alone otherwise. */
  predicate AuxTrace(source: Option<string>, target: Option<string>, codexSource: string, codexTarget: string, t: seq<Exchange>)
  {
    if source.Some? && target.Some? then |t| == 1 && t[0].cmd == SwapPane(source.value, target.value)
    else if source.Some? then RelocateTrace(source.value, codexSource, t, true) || RelocateTrace(source.value, codexSource, t, false)
    else if target.Some? then RelocateTrace(target.value, codexTarget, t, true) || RelocateTrace(target.value, codexTarget, t, false)
    else t == []
  }

  /** `swapProjectTagsAsync`: a fresh pane listing, then the tag writes for it. */
  predicate RepairTrace(src: int, tgt: int, srcMeta: Meta, tgtMeta: Meta, t: seq<Exchange>)
  {
    && |t| >= 1 && t[0].cmd == ListPanes(WorkspaceWindow, PaneListFormat)
    && CommandsOf(t[1..]) == RepairWrites(PanesOf(t[0].result), src, tgt, srcMeta, tgtMeta)
  }

  /** The exchanges of one reorder, stage by stage; a stage not reached is empty. */
  datatype ReorderRun = ReorderRun(
    agents: Exchange, listing: seq<Exchange>, meta: seq<Exchange>, swaps: seq<Exchange>,
    yazi: seq<Exchange>, terminal: seq<Exchange>, check: seq<Exchange>, repair: seq<Exchange>)

  function ReorderTraceOf(run: ReorderRun): seq<Exchange>
  {
    [run.agents] + run.listing + StagesOf(run)
  }

  /** The exchanges from the metadata reads on. */
  function StagesOf(run: ReorderRun): seq<Exchange>
  {
    run.meta + run.swaps + AfterSwapsOf(run)
  }

  /** The exchanges after the primary swaps. */
  function AfterSwapsOf(run: ReorderRun): seq<Exchange>
  {
    run.yazi + run.terminal + run.check + run.repair
  }

  /** Whether the source claude pane's left offset changed across the swap. */
  function Moved(run: ReorderRun): bool
    requires |run.meta| >= 1 && |run.check| >= 1
  {
    PanesMoved(ParseMeta(run.meta[0].result.stdout).left, ParseLeft(run.check[0].result.stdout))
  }

  /** The metadata of both claude panes, read before any swap. */
  predicate MetaReads(p: Primaries, t: seq<Exchange>)
  {
    && |t| == 2
    && t[0].cmd == DisplayMessage(p.claudeSource, SourceMetaFormat)
    && t[1].cmd == DisplayMessage(p.claudeTarget, TargetMetaFormat)
  }

  /** After both primary swaps: the optional panes, the second left offset
      read and, when the panes did not move, the tag repair. */
  predicate AfterSwaps(src: int, tgt: int, p: Primaries, aux: Auxiliary, run: ReorderRun)
  {
    && |run.meta| == 2
    && AuxTrace(aux.yaziSource, aux.yaziTarget, p.codexSource, p.codexTarget, run.yazi)
    && AuxTrace(aux.terminalSource, aux.terminalTarget, p.codexSource, p.codexTarget, run.terminal)
    && |run.check| == 1 && run.check[0].cmd == DisplayMessage(p.claudeSource, LeftFormat)
    && (Moved(run) ==> run.repair == [])
    && (!Moved(run) ==>
          RepairTrace(src, tgt, ParseMeta(run.meta[0].result.stdout), ParseMeta(run.meta[1].result.stdout), run.repair))
  }

  /** The stages from the metadata reads on, once the required panes are known. */
  predicate SwapStages(src: int, tgt: int, p: Primaries, aux: Auxiliary, run: ReorderRun, stop: Option<string>)
  {
    && MetaReads(p, run.meta)
    && SwapsTrace(p, run.swaps)
    && (!AllSucceeded(run.swaps) ==>
          && stop == Some(FailedPrefix + TrimmedError(run.swaps[|run.swaps| - 1].result))
          && AfterSwapsOf(run) == [])
    && (AllSucceeded(run.swaps) ==> stop == None && AfterSwaps(src, tgt, p, aux, run))
  }

  /** The stages after a successful listing. */
  predicate ListedStages(src: int, tgt: int, panes: seq<PaneInfo>, run: ReorderRun, stop: Option<string>)
  {
    if panes == [] || FindPrimaries(panes, src, tgt).None? then
      && stop == Some(if panes == [] then NoPanesText else MissingPanesText)
      && StagesOf(run) == []
    else
      SwapStages(src, tgt, FindPrimaries(panes, src, tgt).value, FindAuxiliary(panes, src, tgt), run, stop)
  }

  /** The reorder protocol. It refuses, issuing nothing further, when agent
      panes are active, when the listing shows no panes and when a required
      pane is missing; it aborts after a failed primary swap; otherwise it
      moves the optional panes, reads the left offset again and repairs the
      project tags when the panes did not move. `stop` is the status it
      stopped with, `None` when it reached the end. */
  predicate ReorderProtocol(src: int, tgt: int, run: ReorderRun, stop: Option<string>)
  {
    && run.agents.cmd == ShowEnvironment(Session, AgentsMarker)
    && if run.agents.result.exitCode == 0 then
         stop == Some(AgentsActiveText) && run.listing == [] && StagesOf(run) == []
       else
         && |run.listing| == 1 && run.listing[0].cmd == ListPanes(WorkspaceWindow, PaneListFormat)
         && ListedStages(src, tgt, PanesOf(run.listing[0].result), run, stop)
  }

  /** The two primary swaps; the codex swap only after the claude swap
      succeeded. `failed` is the result of the swap that failed, if any. */
  method SwapPrimaries(mux: Mux, p: Primaries) returns (failed: Option<CommandResult>)
    modifies mux
    ensures old(mux.log) <= mux.log
    ensures var t := mux.log[|old(mux.log)|..];
      && SwapsTrace(p, t)
      && (failed.None? <==> AllSucceeded(t))
      && (failed.Some? ==> failed.value == t[|t| - 1].result)
  {
    ghost var start := mux.log;
    var first := mux.Run(SwapPane(p.claudeSource, p.claudeTarget));
    ghost var t := [Exchange(SwapPane(p.claudeSource, p.claudeTarget), first)];
    assert mux.log == start + t;
    failed := Some(first);
    if first.exitCode == 0 {
      var second := mux.Run(SwapPane(p.codexSource, p.codexTarget));
      t := t + [Exchange(SwapPane(p.codexSource, p.codexTarget), second)];
      failed := if second.exitCode != 0 then Some(second) else None;
    }
    assert mux.log[|start|..] == t;
  }

  method MoveAuxiliary(mux: Mux, source: Option<string>, target: Option<string>, codexSource: string, codexTarget: string)
    modifies mux
    ensures old(mux.log) <= mux.log && AuxTrace(source, target, codexSource, codexTarget, mux.log[|old(mux.log)|..])
  {
    ghost var start := mux.log;
    if source.Some? && target.Some? {
      var _ := mux.Run(SwapPane(source.value, target.value));
      assert mux.log[|start|..] == [mux.log[|start|]];
    } else if source.Some? {
      var _ := Relocate(mux, source.value, codexSource);
    } else if target.Some? {
      var _ := Relocate(mux, target.value, codexTarget);
    }
  }

  method SwapProjectTags(mux: Mux, src: int, tgt: int, srcMeta: Meta, tgtMeta: Meta)
    modifies mux
    ensures old(mux.log) <= mux.log && RepairTrace(src, tgt, srcMeta, tgtMeta, mux.log[|old(mux.log)|..])
  {
    ghost var start := mux.log;
    var listing := mux.Run(ListPanes(WorkspaceWindow, PaneListFormat));
    ghost var mid := mux.log;
    mux.RunAll(RepairWrites(PanesOf(listing), src, tgt, srcMeta, tgtMeta));
    assert mux.log[|start|..][1..] == mux.log[|mid|..];
    assert mux.log[|start|..][0] == mux.log[|start|];
  }

  /** The optional panes, the second offset read and the tag repair. */
  method FinishSwap(mux: Mux, src: int, tgt: int, p: Primaries, aux: Auxiliary, srcMeta: Meta, tgtMeta: Meta,
                    ghost run0: ReorderRun)
    returns (ghost run: ReorderRun)
    requires |run0.meta| == 2
    requires srcMeta == ParseMeta(run0.meta[0].result.stdout) && tgtMeta == ParseMeta(run0.meta[1].result.stdout)
    modifies mux
    ensures run == run0.(yazi := run.yazi, terminal := run.terminal, check := run.check, repair := run.repair)
    ensures mux.log == old(mux.log) + AfterSwapsOf(run)
    ensures AfterSwaps(src, tgt, p, aux, run)
  {
    ghost var start := mux.log;
    MoveAuxiliary(mux, aux.yaziSource, aux.yaziTarget, p.codexSource, p.codexTarget);
    ghost var yazi := mux.log[|start|..];
    assert mux.log == start + yazi;
    ghost var m1 := mux.log;
    MoveAuxiliary(mux, aux.terminalSource, aux.terminalTarget, p.codexSource, p.codexTarget);
    ghost var terminal := mux.log[|m1|..];
    Extended(start, yazi, m1, mux.log);
    ghost var m2 := mux.log;
    var check := mux.Run(DisplayMessage(p.claudeSource, LeftFormat));
    ghost var checks := mux.log[|m2|..];
    assert checks == [Exchange(DisplayMessage(p.claudeSource, LeftFormat), check)];
    Extended(start, yazi + terminal, m2, mux.log);
    ghost var m3 := mux.log;
    var leftAfter := ParseLeft(check.stdout);
    if !PanesMoved(srcMeta.left, leftAfter) {
      SwapProjectTags(mux, src, tgt, srcMeta, tgtMeta);
    }
    ghost var repair := mux.log[|m3|..];
    Extended(start, yazi + terminal + checks, m3, mux.log);
    run := run0.(yazi := yazi, terminal := terminal, check := checks, repair := repair);
  }

  /** From the metadata reads on, once the required panes are known. */
  method SwapStagesRun(mux: Mux, src: int, tgt: int, p: Primaries, aux: Auxiliary, ghost run0: ReorderRun)
    returns (stop: Option<string>, ghost run: ReorderRun)
    modifies mux
    ensures run.agents == run0.agents && run.listing == run0.listing
    ensures mux.log == old(mux.log) + StagesOf(run)
    ensures SwapStages(src, tgt, p, aux, run, stop)
  {
    ghost var start := mux.log;
    var srcReply := mux.Run(DisplayMessage(p.claudeSource, SourceMetaFormat));
    var tgtReply := mux.Run(DisplayMessage(p.claudeTarget, TargetMetaFormat));
    var srcMeta := ParseMeta(srcReply.stdout);
    var tgtMeta := ParseMeta(tgtReply.stdout);
    ghost var meta := [Exchange(DisplayMessage(p.claudeSource, SourceMetaFormat), srcReply),
                       Exchange(DisplayMessage(p.claudeTarget, TargetMetaFormat), tgtReply)];
    assert mux.log == start + meta;
    ghost var m1 := mux.log;
    var failed := SwapPrimaries(mux, p);
    ghost var swaps := mux.log[|m1|..];
    Extended(start, meta, m1, mux.log);
    run := run0.(meta := meta, swaps := swaps, yazi := [], terminal := [], check := [], repair := []);
    if failed.Some? {
      assert StagesOf(run) == meta + swaps;
      return Some(FailedPrefix + TrimmedError(failed.value)), run;
    }
    ghost var m2 := mux.log;
    run := FinishSwap(mux, src, tgt, p, aux, srcMeta, tgtMeta, run);
    Extended(start, meta + swaps, m2, mux.log);
    stop := None;
  }

  /** `moveColumn` from the agents check to the tag repair. */
  method ReorderPanes(mux: Mux, src: int, tgt: int) returns (stop: Option<string>, ghost run: ReorderRun)
    modifies mux
    ensures mux.log == old(mux.log) + ReorderTraceOf(run)
    ensures ReorderProtocol(src, tgt, run, stop)
  {
    ghost var start := mux.log;
    var agents := mux.Run(ShowEnvironment(Session, AgentsMarker));
    run := ReorderRun(Exchange(ShowEnvironment(Session, AgentsMarker), agents), [], [], [], [], [], [], []);
    if agents.exitCode == 0 {
      return Some(AgentsActiveText), run;
    }
    var listing := mux.Run(ListPanes(WorkspaceWindow, PaneListFormat));
    run := run.(listing := [Exchange(ListPanes(WorkspaceWindow, PaneListFormat), listing)]);
    ghost var head := [run.agents] + run.listing;
    assert mux.log == start + head;
    var panes := PanesOf(listing);
    if panes == [] {
      return Some(NoPanesText), run;
    }
    var primaries := FindPrimaries(panes, src, tgt);
    if primaries.None? {
      return Some(MissingPanesText), run;
    }
    ghost var mid := mux.log;
    stop, run := SwapStagesRun(mux, src, tgt, primaries.value, FindAuxiliary(panes, src, tgt), run);
    Extended(start, head, mid, mux.log);
  }

  // ---------------------------------------------------------------------------
  // What the protocol guarantees

  /** Every text a reorder stops with starts with "Reorder ". */
  const StopPrefix: string := "Reorder "

  lemma {:induction false} StopTexts(src: int, tgt: int, run: ReorderRun, stop: Option<string>)
    requires ReorderProtocol(src, tgt, run, stop)
    ensures stop.Some? ==> StopPrefix <= stop.value
  {
    if stop.Some? && run.agents.result.exitCode != 0 {
      var panes := PanesOf(run.listing[0].result);
      if panes != [] && FindPrimaries(panes, src, tgt).Some? {
        assert stop.value == FailedPrefix + TrimmedError(run.swaps[|run.swaps| - 1].result);
      }
    }
  }

  /** A reorder changes nothing exactly when it never reaches the primary
      swaps, and then it stopped with one of the three refusals after at most
      two reads. */
  lemma {:induction false} RefusalChangesNothing(src: int, tgt: int, run: ReorderRun, stop: Option<string>)
    requires ReorderProtocol(src, tgt, run, stop)
    ensures ReadOnly(ReorderTraceOf(run)) <==> run.swaps == []
    ensures run.swaps == [] ==>
      && |ReorderTraceOf(run)| <= 2
      && (stop == Some(AgentsActiveText) || stop == Some(NoPanesText) || stop == Some(MissingPanesText))
  {
    var t := ReorderTraceOf(run);
    if run.swaps == [] {
      RefusalStages(src, tgt, run, stop);
      assert t == [run.agents] + run.listing;
    } else {
      FailedSwapAborts(src, tgt, run, stop);
      FirstSwapInTrace(run);
      assert Mutating(t[1 + |run.listing| + |run.meta|].cmd);
    }
  }

  /** A reorder that never swapped issued nothing after the listing, and
      stopped with one of the three refusals. */
  lemma {:induction false} RefusalStages(src: int, tgt: int, run: ReorderRun, stop: Option<string>)
    requires ReorderProtocol(src, tgt, run, stop)
    requires run.swaps == []
    ensures StagesOf(run) == []
    ensures run.listing == [] || (|run.listing| == 1 && run.listing[0].cmd == ListPanes(WorkspaceWindow, PaneListFormat))
    ensures stop == Some(AgentsActiveText) || stop == Some(NoPanesText) || stop == Some(MissingPanesText)
  {
    if run.agents.result.exitCode != 0 {
      var panes := PanesOf(run.listing[0].result);
      if !(panes == [] || FindPrimaries(panes, src, tgt).None?) {
        assert false;
      }
    }
  }

  /** Where the first primary swap sits in the trace of a reorder. */
  lemma {:induction false} FirstSwapInTrace(run: ReorderRun)
    requires run.swaps != []
    ensures |ReorderTraceOf(run)| > 1 + |run.listing| + |run.meta|
    ensures ReorderTraceOf(run)[1 + |run.listing| + |run.meta|] == run.swaps[0]
  {
    assert StagesOf(run)[|run.meta|] == run.swaps[0];
  }

  /** The codex panes are swapped only after the claude panes were; a failed
      primary swap is the last command of the reorder and its error is the
      status; when both succeed the reorder runs to its end. */
  lemma {:induction false} FailedSwapAborts(src: int, tgt: int, run: ReorderRun, stop: Option<string>)
    requires ReorderProtocol(src, tgt, run, stop)
    requires run.swaps != []
    ensures run.swaps[0].cmd.SwapPane? && (|run.swaps| == 2 <==> run.swaps[0].result.exitCode == 0)
    ensures !AllSucceeded(run.swaps) ==>
      && stop == Some(FailedPrefix + TrimmedError(run.swaps[|run.swaps| - 1].result))
      && var t := ReorderTraceOf(run);
         t[|t| - 1] == run.swaps[|run.swaps| - 1] && t[|t| - 1].result.exitCode != 0
    ensures AllSucceeded(run.swaps) <==> stop == None
  {
    var panes := PanesOf(run.listing[0].result);
    assert panes != [] && FindPrimaries(panes, src, tgt).Some?;
    var p := FindPrimaries(panes, src, tgt).value;
    SwapOutcome(src, tgt, p, FindAuxiliary(panes, src, tgt), run, stop);
    if !AllSucceeded(run.swaps) {
      EndsWithSwaps(run);
    }
  }

  /** A reorder that stopped after the primary swaps ends with the last of them. */
  lemma {:induction false} EndsWithSwaps(run: ReorderRun)
    requires run.swaps != [] && AfterSwapsOf(run) == []
    ensures var t := ReorderTraceOf(run); |t| >= 1 && t[|t| - 1] == run.swaps[|run.swaps| - 1]
  {
    assert StagesOf(run) == run.meta + run.swaps;
  }

  lemma {:induction false} SwapOutcome(src: int, tgt: int, p: Primaries, aux: Auxiliary, run: ReorderRun, stop: Option<string>)
    requires SwapStages(src, tgt, p, aux, run, stop)
    ensures |run.swaps| == 2 <==> run.swaps[0].result.exitCode == 0
    ensures !AllSucceeded(run.swaps) ==>
      && run.swaps[|run.swaps| - 1].result.exitCode != 0 && AfterSwapsOf(run) == []
      && stop == Some(FailedPrefix + TrimmedError(run.swaps[|run.swaps| - 1].result))
    ensures AllSucceeded(run.swaps) <==> stop == None
  {
  }

  /** Once the panes are swapped, the project tags are repaired exactly when
      the source claude pane did not change its left offset. */
  lemma {:induction false} RepairExactlyWhenNotMoved(src: int, tgt: int, run: ReorderRun)
    requires ReorderProtocol(src, tgt, run, None)
    ensures |run.meta| == 2 && |run.check| == 1
    ensures run.repair != [] <==> !Moved(run)
    ensures run.repair != [] ==>
      RepairTrace(src, tgt, ParseMeta(run.meta[0].result.stdout), ParseMeta(run.meta[1].result.stdout), run.repair)
  {
    var panes := PanesOf(run.listing[0].result);
    assert panes != [] && FindPrimaries(panes, src, tgt).Some?;
  }
}
