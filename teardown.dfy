/** The teardown controller behind "Stop" and "Kill": which sessions it
    targets, the keys it sends to each pane, the discovery of the processes
    the panes started, and the order of its phases. */
module Teardown {
  import opened Text
  import opened Gateway

  const SessionListFormat: string := "#{session_name}:#{@tproj}"
  const PaneRoleFormat: string := "#{pane_id}:#{@role}"
  const PanePidFormat: string := "#{pane_pid}"

  // ---------------------------------------------------------------------------
  // Sessions tagged `@tproj=true` (`getTprojSessions`)

  /** A listed line `name:tag` names a tproj session when the tag after the
      first ':' is exactly "true". */
  function SessionOf(line: string): Option<string>
  {
    var parts := SplitOnce(line, ':');
    if |parts| == 2 && parts[1] == "true" then Some(parts[0]) else None
  }

  function SessionsIn(lines: seq<string>): (ss: seq<string>)
    ensures |ss| <= |lines|
  {
    if |lines| == 0 then []
    else
      SessionsIn(lines[..|lines| - 1]) +
      (match SessionOf(lines[|lines| - 1]) case Some(s) => [s] case None => [])
  }

  function ParseSessions(r: CommandResult): seq<string>
  {
    if r.exitCode != 0 then [] else SessionsIn(Lines(r.stdout))
  }

  /** The first ':' of `s + ":" + t` is the one after `s` when `s` has none. */
  lemma {:induction false} SplitOnceAt(s: string, t: string)
    requires ':' !in s
    ensures SplitOnce(s + ":" + t, ':') == [s, t]
  {
    var line := s + ":" + t;
    assert line[|s|] == ':';
    var parts := SplitOnce(line, ':');
    var k := |parts[0]|;
    assert line == parts[0] + [':'] + parts[1];
    assert line[k] == ':';
    assert !(k < |s|);
    assert !(k > |s|);
    assert parts[0] == line[..k] == s;
    assert parts[1] == line[k + 1..] == t;
  }

  /** A line names session `s` exactly when it reads `s:true` and `s` has no ':'. */
  lemma {:induction false} SessionOfIff(line: string, s: string)
    ensures SessionOf(line) == Some(s) <==> line == s + ":true" && ':' !in s
  {
    if line == s + ":true" && ':' !in s {
      SplitOnceAt(s, "true");
    }
  }

  lemma {:induction false} SessionsInIff(lines: seq<string>, s: string)
    ensures s in SessionsIn(lines) <==> s + ":true" in lines && ':' !in s
  {
    if |lines| > 0 {
      var n := |lines| - 1;
      SessionsInIff(lines[..n], s);
      SessionOfIff(lines[n], s);
      assert lines == lines[..n] + [lines[n]];
      if s + ":true" in lines && ':' !in s && s + ":true" !in lines[..n] {
        assert lines[n] == s + ":true";
      }
    }
  }

  /** The sessions found are exactly the names listed with the tag "true". */
  lemma {:induction false} ParseSessionsIff(r: CommandResult, s: string)
    ensures s in ParseSessions(r) <==> r.exitCode == 0 && s + ":true" in Lines(r.stdout) && ':' !in s
  {
    SessionsInIff(Lines(r.stdout), s);
  }

  // ---------------------------------------------------------------------------
  // Keys sent to the panes of a session

  datatype PaneRole = PaneRole(id: string, role: string)

  /** A `pane_id:role` line; the role may itself contain ':'. */
  function PaneRoleOf(line: string): Option<PaneRole>
  {
    var parts := SplitOnce(line, ':');
    if |parts| == 2 then Some(PaneRole(parts[0], parts[1])) else None
  }

  /** A line without ':' is dropped; one with it splits at the first ':'. */
  lemma {:induction false} PaneRoleOfLine(id: string, role: string)
    requires ':' !in id
    ensures PaneRoleOf(id + ":" + role) == Some(PaneRole(id, role))
    ensures PaneRoleOf(id) == None
  {
    SplitOnceAt(id, role);
  }

  function PaneRoles(lines: seq<string>): seq<PaneRole>
  {
    if |lines| == 0 then []
    else
      PaneRoles(lines[..|lines| - 1]) +
      (match PaneRoleOf(lines[|lines| - 1]) case Some(p) => [p] case None => [])
  }

  /** `C-c` interrupts the agents, `q` quits the file manager. */
  function SignalKey(role: string): (k: Option<string>)
    ensures WantsExit(role) ==> k == Some("C-c")
    ensures k == Some("q") <==> "yazi" <= role
    ensures k.None? <==> !("claude" <= role || "codex" <= role || "agent" <= role || "yazi" <= role)
  {
    if "claude" <= role || "codex" <= role || "agent" <= role then
      assert role[0] != 'y';
      Some("C-c")
    else if "yazi" <= role then Some("q")
    else None
  }

  /** The panes that are asked to end their conversation with `/exit`. */
  predicate WantsExit(role: string)
  {
    "claude" <= role || "agent" <= role
  }

  function SignalWrites(panes: seq<PaneRole>): seq<Command>
  {
    if |panes| == 0 then []
    else
      var p := panes[|panes| - 1];
      SignalWrites(panes[..|panes| - 1]) +
      (match SignalKey(p.role) case Some(k) => [SendKeys(p.id, k, "")] case None => [])
  }

  function ExitWrites(panes: seq<PaneRole>): seq<Command>
  {
    if |panes| == 0 then []
    else
      var p := panes[|panes| - 1];
      ExitWrites(panes[..|panes| - 1]) + (if WantsExit(p.role) then [SendKeys(p.id, "/exit", "Enter")] else [])
  }

  /** A pane is sent key `k` exactly when its role calls for it; no key is
      sent with a terminator. */
  lemma {:induction false} SignalWritesIff(panes: seq<PaneRole>, c: Command)
    ensures c in SignalWrites(panes) <==>
      c.SendKeys? && c.terminator == "" &&
      exists i :: 0 <= i < |panes| && panes[i].id == c.pane && SignalKey(panes[i].role) == Some(c.keys)
  {
    if |panes| > 0 {
      var n := |panes| - 1;
      SignalWritesIff(panes[..n], c);
      assert forall i :: 0 <= i < n ==> panes[..n][i] == panes[i];
      if c.SendKeys? && c.terminator == "" &&
         (exists i :: 0 <= i < |panes| && panes[i].id == c.pane && SignalKey(panes[i].role) == Some(c.keys)) {
        var i :| 0 <= i < |panes| && panes[i].id == c.pane && SignalKey(panes[i].role) == Some(c.keys);
        if i < n {
          assert panes[..n][i] == panes[i];
        }
      }
    }
  }

  /** `/exit` goes to exactly the claude and agent panes. */
  lemma {:induction false} ExitWritesIff(panes: seq<PaneRole>, c: Command)
    ensures c in ExitWrites(panes) <==>
      c.SendKeys? && c.keys == "/exit" && c.terminator == "Enter" &&
      exists i :: 0 <= i < |panes| && panes[i].id == c.pane && WantsExit(panes[i].role)
  {
    if |panes| > 0 {
      var n := |panes| - 1;
      ExitWritesIff(panes[..n], c);
      assert forall i :: 0 <= i < n ==> panes[..n][i] == panes[i];
      if c.SendKeys? && c.keys == "/exit" && c.terminator == "Enter" &&
         (exists i :: 0 <= i < |panes| && panes[i].id == c.pane && WantsExit(panes[i].role)) {
        var i :| 0 <= i < |panes| && panes[i].id == c.pane && WantsExit(panes[i].role);
        if i < n {
          assert panes[..n][i] == panes[i];
        }
      }
    }
  }

  /** Every pane asked to `/exit` was interrupted first, and a pane whose
      role starts with "yazi" only ever receives `q`. */
  lemma {:induction false} ExitFollowsInterrupt(role: string)
    ensures WantsExit(role) ==> SignalKey(role) == Some("C-c")
    ensures "yazi" <= role ==> !WantsExit(role) && SignalKey(role) == Some("q")
  {
    if "yazi" <= role {
      assert role[0] == 'y';
    }
  }

  // ---------------------------------------------------------------------------
  // Descendant processes (`collectSessionDescendants`)

  /** The pids in a listing: one per line, lines that are not an `Int32` dropped. */
  function ParsePids(stdout: string): (pids: seq<int>)
    ensures forall i :: 0 <= i < |pids| ==> INT32_MIN <= pids[i] <= INT32_MAX
  {
    PidsIn(Lines(stdout))
  }

  function PidsIn(lines: seq<string>): (pids: seq<int>)
    ensures |pids| <= |lines|
    ensures forall i :: 0 <= i < |pids| ==> INT32_MIN <= pids[i] <= INT32_MAX
  {
    if |lines| == 0 then []
    else
      PidsIn(lines[..|lines| - 1]) +
      (match ParseInt32(lines[|lines| - 1]) case Some(p) => [p] case None => [])
  }

  /** What `pgrep -P pid` answers for each pid asked; a pid missing from the
      table is one pgrep finds no children for. */
  type PgrepReplies = map<int, CommandResult>

  /** The child relation, pid to the children pgrep lists for it. */
  type ChildTable = map<int, seq<int>>

  predicate Int32Pids(table: ChildTable)
  {
    forall p :: p in table ==> forall i :: 0 <= i < |table[p]| ==> INT32_MIN <= table[p][i] <= INT32_MAX
  }

  /** A failed `pgrep` (no children) contributes nothing. */
  function ChildTableOf(pgrep: PgrepReplies): (table: ChildTable)
    ensures Int32Pids(table)
    ensures forall p :: p in table <==> p in pgrep && pgrep[p].exitCode == 0
  {
    map p | p in pgrep && pgrep[p].exitCode == 0 :: ParsePids(pgrep[p].stdout)
  }

  function ChildrenOf(table: ChildTable, p: int): seq<int>
  {
    if p in table then table[p] else []
  }

  /** The pid at `i + 1` is a child of the one at `i`. */
  predicate Edge(table: ChildTable, path: seq<int>, i: nat)
    requires i + 1 < |path|
  {
    path[i + 1] in ChildrenOf(table, path[i])
  }

  /** A chain of child edges. */
  predicate IsChain(table: ChildTable, path: seq<int>)
  {
    forall i: nat :: i + 1 < |path| ==> Edge(table, path, i)
  }

  /** `x` is a child, grandchild, ... of one of the roots. */
  ghost predicate Reachable(table: ChildTable, roots: seq<int>, x: int)
  {
    exists path :: |path| >= 2 && path[0] in roots && path[|path| - 1] == x && IsChain(table, path)
  }

  predicate InInt32(x: int) { INT32_MIN <= x <= INT32_MAX }

  /** Every pid a reply can name. */
  ghost function Universe(): set<int>
  {
    set x: int | INT32_MIN <= x <= INT32_MAX && InInt32(x)
  }

  lemma {:induction false} ChildReachable(table: ChildTable, roots: seq<int>, p: int, c: int)
    requires p in roots || Reachable(table, roots, p)
    requires c in ChildrenOf(table, p)
    ensures Reachable(table, roots, c)
  {
    if p in roots {
      assert Edge(table, [p, c], 0);
      assert IsChain(table, [p, c]);
    } else {
      var path :| |path| >= 2 && path[0] in roots && path[|path| - 1] == p && IsChain(table, path);
      var longer := path + [c];
      forall i: nat | i + 1 < |longer| ensures Edge(table, longer, i) {
        assert longer[i] == if i < |path| then path[i] else c;
        if i + 1 < |path| {
          assert Edge(table, path, i);
          assert longer[i + 1] == path[i + 1];
        }
      }
      assert longer[0] == path[0];
    }
  }

  /** Every child of `p` has been found. */
  ghost predicate ChildrenFound(table: ChildTable, p: int, found: set<int>)
  {
    forall c :: c in ChildrenOf(table, p) ==> c in found
  }

  ghost predicate Closed(table: ChildTable, queried: seq<int>, found: set<int>)
  {
    forall k :: 0 <= k < |queried| ==> ChildrenFound(table, queried[k], found)
  }

  lemma {:induction false} ChainFound(table: ChildTable, roots: seq<int>, found: set<int>, queried: seq<int>, path: seq<int>, k: nat)
    requires Closed(table, queried, found)
    requires forall x :: x in roots ==> x in queried
    requires forall x :: x in found ==> x in queried
    requires IsChain(table, path) && |path| >= 1 && path[0] in roots
    requires 1 <= k < |path|
    ensures path[k] in found
  {
    var prev := path[k - 1];
    if k > 1 {
      ChainFound(table, roots, found, queried, path, k - 1);
    }
    assert prev in queried;
    var j :| 0 <= j < |queried| && queried[j] == prev;
    assert ChildrenFound(table, queried[j], found);
    assert Edge(table, path, k - 1);
    assert path[k] in ChildrenOf(table, queried[j]);
    var c := path[k];
    assert c in ChildrenOf(table, queried[j]) ==> c in found;
  }

  lemma {:induction false} StrictSubsetCard(a: set<int>, b: set<int>)
    requires a < b
    ensures |a| < |b|
  {
    assert b == a + (b - a);
    assert b - a != {} by {
      assert a != b;
    }
  }

  predicate NoDuplicates(s: seq<int>)
  {
    forall i, j :: 0 <= i < j < |s| ==> s[i] != s[j]
  }

  /** One round of the search: each child not found before is recorded and
      queued, once, in the order pgrep lists them. */
  method AddChildren(children: seq<int>, found: set<int>, queue: seq<int>)
    returns (found': set<int>, queue': seq<int>, ghost added: seq<int>)
    ensures forall x :: x in found' <==> x in found || x in children
    ensures queue' == queue + added
    ensures NoDuplicates(added)
    ensures forall x :: x in added <==> x in children && x !in found
  {
    found', queue', added := found, queue, [];
    var i := 0;
    while i < |children|
      invariant 0 <= i <= |children|
      invariant forall x :: x in found' <==> x in found || x in children[..i]
      invariant queue' == queue + added
      invariant NoDuplicates(added)
      invariant forall x :: x in added <==> x in children[..i] && x !in found
    {
      var child := children[i];
      assert children[..i + 1] == children[..i] + [child];
      if child !in found' {
        found' := found' + {child};
        added := added + [child];
        queue' := queue' + [child];
      }
      i := i + 1;
    }
    assert children[..i] == children;
  }

  lemma {:induction false} NoDuplicatesConcat(a: seq<int>, b: seq<int>)
    requires NoDuplicates(a) && NoDuplicates(b)
    requires forall x :: x in b ==> x !in a
    ensures NoDuplicates(a + b)
  {
    forall i, j | 0 <= i < j < |a + b| ensures (a + b)[i] != (a + b)[j] {
      if j < |a| {
        assert (a + b)[j] == a[j] && (a + b)[i] == a[i];
      } else if i < |a| {
        assert (a + b)[j] == b[j - |a|] && (a + b)[i] == a[i];
        assert b[j - |a|] in b;
      } else {
        assert (a + b)[j] == b[j - |a|] && (a + b)[i] == b[i - |a|];
      }
    }
  }

  lemma {:induction false} NoDuplicatesCard(s: seq<int>)
    requires NoDuplicates(s)
    ensures |set x | x in s| == |s|
  {
    if |s| > 0 {
      var n := |s| - 1;
      NoDuplicatesCard(s[..n]);
      assert (set x | x in s) == (set x | x in s[..n]) + {s[n]} by {
        assert s == s[..n] + [s[n]];
      }
      assert s[n] !in s[..n];
    }
  }

  /** What holds between rounds of the search: the pids asked about and the
      queue together are the pane pids followed by the pids found, in the
      order found, each found once; every pid found is reachable; every child
      of a pid asked about has been found. */
  ghost predicate SearchState(table: ChildTable, roots: seq<int>, queried: seq<int>, queue: seq<int>, found: set<int>, order: seq<int>)
  {
    && queried + queue == roots + order
    && NoDuplicates(order)
    && (forall x :: x in found <==> x in order)
    && found <= Universe()
    && (forall x :: x in found ==> Reachable(table, roots, x))
    && Closed(table, queried, found)
  }

  lemma {:induction false} StepReachable(table: ChildTable, roots: seq<int>, current: int, found0: set<int>, found: set<int>)
    requires Int32Pids(table)
    requires current in roots || Reachable(table, roots, current)
    requires found0 <= Universe() && forall x :: x in found0 ==> Reachable(table, roots, x)
    requires forall x :: x in found <==> x in found0 || x in ChildrenOf(table, current)
    ensures found <= Universe() && forall x :: x in found ==> Reachable(table, roots, x)
  {
    forall x | x in found ensures x in Universe() && Reachable(table, roots, x) {
      if x !in found0 {
        assert x in table[current];
        ChildReachable(table, roots, current, x);
      }
    }
  }

  lemma {:induction false} StepClosed(table: ChildTable, queried: seq<int>, current: int, found0: set<int>, found: set<int>)
    requires Closed(table, queried, found0)
    requires forall x :: x in found <==> x in found0 || x in ChildrenOf(table, current)
    ensures Closed(table, queried + [current], found)
  {
    forall k | 0 <= k < |queried + [current]| ensures ChildrenFound(table, (queried + [current])[k], found) {
      if k < |queried| {
        assert ChildrenFound(table, queried[k], found0);
      }
    }
  }

  lemma {:induction false} StepMeasure(found0: set<int>, found: set<int>, added: seq<int>)
    requires found0 <= found <= Universe()
    requires forall x :: x in added <==> x in found && x !in found0
    ensures added != [] ==> |Universe() - found| < |Universe() - found0|
    ensures added == [] ==> found == found0
  {
    if added != [] {
      assert added[0] in Universe() - found0 && added[0] !in Universe() - found;
      StrictSubsetCard(Universe() - found, Universe() - found0);
    } else {
      forall x ensures x in found <==> x in found0 {
        assert x !in added;
      }
    }
  }

  lemma {:induction false} SearchStep(table: ChildTable, roots: seq<int>, queried: seq<int>, queue0: seq<int>, found0: set<int>, order: seq<int>,
                   found: set<int>, queue: seq<int>, added: seq<int>)
    requires Int32Pids(table)
    requires SearchState(table, roots, queried, queue0, found0, order) && queue0 != []
    requires forall x :: x in found <==> x in found0 || x in ChildrenOf(table, queue0[0])
    requires queue == queue0[1..] + added
    requires NoDuplicates(added)
    requires forall x :: x in added <==> x in ChildrenOf(table, queue0[0]) && x !in found0
    ensures SearchState(table, roots, queried + [queue0[0]], queue, found, order + added)
    ensures added != [] ==> |Universe() - found| < |Universe() - found0|
    ensures added == [] ==> found == found0 && |queue| < |queue0|
  {
    var current := queue0[0];
    var queried' := queried + [current];
    var order' := order + added;
    assert queried' + queue == roots + order' by {
      assert queue0 == [current] + queue0[1..];
      assert queried' + queue == (queried + queue0) + added;
    }
    assert NoDuplicates(order') by {
      NoDuplicatesConcat(order, added);
    }
    assert forall x :: x in found <==> x in order';
    assert found <= Universe() && forall x :: x in found ==> Reachable(table, roots, x) by {
      assert current in roots || current in order by {
        assert (roots + order)[|queried|] == current;
      }
      StepReachable(table, roots, current, found0, found);
    }
    assert Closed(table, queried', found) by {
      StepClosed(table, queried, current, found0, found);
    }
    StepMeasure(found0, found, added);
  }

  lemma {:induction false} SearchDone(table: ChildTable, roots: seq<int>, queried: seq<int>, found: set<int>, order: seq<int>)
    requires SearchState(table, roots, queried, [], found, order)
    ensures forall x :: x in found <==> Reachable(table, roots, x)
    ensures |queried| == |roots| + |found| && queried[..|roots|] == roots
    ensures NoDuplicates(queried[|roots|..])
    ensures forall x :: x in found <==> x in queried[|roots|..]
  {
    assert queried == roots + order;
    forall x | Reachable(table, roots, x) ensures x in found {
      var path :| |path| >= 2 && path[0] in roots && path[|path| - 1] == x && IsChain(table, path);
      ChainFound(table, roots, found, queried, path, |path| - 1);
    }
    assert queried[..|roots|] == roots;
    assert queried[|roots|..] == order;
    NoDuplicatesCard(order);
    assert found == set x | x in order;
  }

  /** The breadth-first search over `pgrep -P`: `queried` lists the pids asked
      about, in order. Its result is exactly the pids reachable from the pane
      pids by one or more child edges; after the pane pids themselves, each
      pid is queued, and asked about, once. */
  method CollectDescendants(table: ChildTable, panePids: seq<int>) returns (found: set<int>, queried: seq<int>)
    requires Int32Pids(table)
    ensures forall x :: x in found <==> Reachable(table, panePids, x)
    ensures |queried| == |panePids| + |found| && queried[..|panePids|] == panePids
    ensures NoDuplicates(queried[|panePids|..])
    ensures forall x :: x in found <==> x in queried[|panePids|..]
  {
    found := {};
    queried := [];
    ghost var order: seq<int> := [];
    var queue := panePids;
    while queue != []
      invariant SearchState(table, panePids, queried, queue, found, order)
      decreases |Universe() - found|, |queue|
    {
      var current := queue[0];
      var children := ChildrenOf(table, current);
      ghost var found0, queue0 := found, queue;
      ghost var added;
      found, queue, added := AddChildren(children, found, queue[1..]);
      SearchStep(table, panePids, queried, queue0, found0, order, found, queue, added);
      order := order + added;
      queried := queried + [current];
    }
    SearchDone(table, panePids, queried, found, order);
  }

  // ---------------------------------------------------------------------------
  // The phases, as commands issued through the gateway

  /** `getTprojSessions`: one `list-sessions`. */
  method ListTprojSessions(mux: Mux) returns (sessions: seq<string>)
    modifies mux
    ensures |mux.log| == |old(mux.log)| + 1 && mux.log[..|old(mux.log)|] == old(mux.log)
    ensures mux.log[|mux.log| - 1].cmd == ListSessions(SessionListFormat)
    ensures sessions == ParseSessions(mux.log[|mux.log| - 1].result)
  {
    var r := mux.Run(ListSessions(SessionListFormat));
    sessions := ParseSessions(r);
  }

  /** The pane pids of one `pane_pid` listing per session; a failed listing gives none. */
  function PidsOf(t: seq<Exchange>): seq<int>
  {
    if |t| == 0 then []
    else
      var e := t[|t| - 1];
      PidsOf(t[..|t| - 1]) + (if e.result.exitCode == 0 then ParsePids(e.result.stdout) else [])
  }

  predicate PidListing(sessions: seq<string>, t: seq<Exchange>)
  {
    |t| == |sessions| && forall i :: 0 <= i < |t| ==> t[i].cmd == ListSessionPanes(sessions[i], PanePidFormat)
  }

  /** The first half of `collectSessionDescendants`: the pane pids of every session. */
  method ListPanePids(mux: Mux, sessions: seq<string>) returns (pids: seq<int>)
    modifies mux
    ensures old(mux.log) <= mux.log
    ensures PidListing(sessions, mux.log[|old(mux.log)|..]) && pids == PidsOf(mux.log[|old(mux.log)|..])
  {
    pids := [];
    ghost var start := mux.log;
    ghost var t: seq<Exchange> := [];
    var i := 0;
    while i < |sessions|
      invariant 0 <= i <= |sessions|
      invariant mux.log == start + t
      invariant PidListing(sessions[..i], t) && pids == PidsOf(t)
    {
      var r := mux.Run(ListSessionPanes(sessions[i], PanePidFormat));
      PidListingStep(sessions, i, t, Exchange(ListSessionPanes(sessions[i], PanePidFormat), r));
      t := t + [Exchange(ListSessionPanes(sessions[i], PanePidFormat), r)];
      if r.exitCode == 0 {
        pids := pids + ParsePids(r.stdout);
      }
      i := i + 1;
    }
    assert sessions[..i] == sessions;
    assert mux.log[|start|..] == t;
  }

  lemma {:induction false} PidListingStep(sessions: seq<string>, i: int, t: seq<Exchange>, e: Exchange)
    requires 0 <= i < |sessions| && PidListing(sessions[..i], t)
    requires e.cmd == ListSessionPanes(sessions[i], PanePidFormat)
    ensures PidListing(sessions[..i + 1], t + [e])
    ensures PidsOf(t + [e]) == PidsOf(t) + (if e.result.exitCode == 0 then ParsePids(e.result.stdout) else [])
  {
    assert (t + [e])[..|t|] == t;
  }

  /** One session's graceful phase: its `pane_id:role` listing and, when that
      succeeds, the interrupt keys followed by the `/exit` commands. */
  predicate SignalTrace(session: string, t: seq<Exchange>)
  {
    && |t| >= 1 && t[0].cmd == ListSessionPanes(session, PaneRoleFormat)
    && if t[0].result.exitCode != 0 then |t| == 1
       else
         var panes := PaneRoles(Lines(t[0].result.stdout));
         CommandsOf(t[1..]) == SignalWrites(panes) + ExitWrites(panes)
  }

  /** The interrupt keys for every pane, then `/exit` for every pane that takes it. */
  method SignalPanes(mux: Mux, panes: seq<PaneRole>)
    modifies mux
    ensures old(mux.log) <= mux.log
    ensures CommandsOf(mux.log[|old(mux.log)|..]) == SignalWrites(panes) + ExitWrites(panes)
  {
    ghost var start := mux.log;
    mux.RunAll(SignalWrites(panes));
    ghost var mid := mux.log;
    mux.RunAll(ExitWrites(panes));
    assert mux.log[|start|..] == mid[|start|..] + mux.log[|mid|..];
    CommandsOfConcat(mid[|start|..], mux.log[|mid|..]);
  }

  method SignalSession(mux: Mux, session: string)
    modifies mux
    ensures old(mux.log) <= mux.log && SignalTrace(session, mux.log[|old(mux.log)|..])
  {
    ghost var start := mux.log;
    var r := mux.Run(ListSessionPanes(session, PaneRoleFormat));
    if r.exitCode == 0 {
      ghost var mid := mux.log;
      SignalPanes(mux, PaneRoles(Lines(r.stdout)));
      assert mux.log[|start|..][1..] == mux.log[|mid|..];
    }
  }

  lemma {:induction false} FlattenSnoc(segs: seq<seq<Exchange>>, seg: seq<Exchange>)
    ensures Flatten(segs + [seg]) == Flatten(segs) + seg
  {
    assert (segs + [seg])[..|segs|] == segs;
  }

  /** Phase 1 for every session in turn. */
  method SignalSessions(mux: Mux, sessions: seq<string>) returns (ghost segs: seq<seq<Exchange>>)
    modifies mux
    ensures mux.log == old(mux.log) + Flatten(segs)
    ensures |segs| == |sessions| && forall i :: 0 <= i < |segs| ==> SignalTrace(sessions[i], segs[i])
  {
    ghost var start := mux.log;
    segs := [];
    var i := 0;
    while i < |sessions|
      invariant 0 <= i <= |sessions|
      invariant mux.log == start + Flatten(segs)
      invariant |segs| == i && forall k :: 0 <= k < i ==> SignalTrace(sessions[k], segs[k])
    {
      ghost var before := mux.log;
      SignalSession(mux, sessions[i]);
      ghost var seg := mux.log[|before|..];
      Extended(start, Flatten(segs), before, mux.log);
      FlattenSnoc(segs, seg);
      segs := segs + [seg];
      i := i + 1;
    }
  }

  /** One poll round: a `has-session` per session, in order. */
  predicate PollRound(sessions: seq<string>, r: seq<Exchange>)
  {
    |r| == |sessions| && forall i :: 0 <= i < |r| ==> r[i].cmd == HasSession(sessions[i])
  }

  /** Every session answered that it no longer exists. */
  predicate AllGone(r: seq<Exchange>)
  {
    forall i :: 0 <= i < |r| ==> r[i].result.exitCode != 0
  }

  /** At most `rounds` rounds; only the last may find every session gone, and
      the polling stops early only because it did. */
  predicate PollRun(sessions: seq<string>, rounds: nat, rs: seq<seq<Exchange>>)
  {
    && |rs| <= rounds
    && (forall i :: 0 <= i < |rs| ==> PollRound(sessions, rs[i]))
    && (forall i :: 0 <= i < |rs| - 1 ==> !AllGone(rs[i]))
    && (|rs| < rounds ==> |rs| > 0 && AllGone(rs[|rs| - 1]))
  }

  method PollRoundOnce(mux: Mux, sessions: seq<string>) returns (allGone: bool)
    modifies mux
    ensures old(mux.log) <= mux.log && PollRound(sessions, mux.log[|old(mux.log)|..])
    ensures allGone == AllGone(mux.log[|old(mux.log)|..])
  {
    ghost var start := mux.log;
    ghost var t: seq<Exchange> := [];
    allGone := true;
    var i := 0;
    while i < |sessions|
      invariant 0 <= i <= |sessions|
      invariant mux.log == start + t && PollRound(sessions[..i], t)
      invariant allGone == AllGone(t)
    {
      var r := mux.Run(HasSession(sessions[i]));
      PollStep(sessions, i, t, Exchange(HasSession(sessions[i]), r));
      t := t + [Exchange(HasSession(sessions[i]), r)];
      allGone := allGone && r.exitCode != 0;
      i := i + 1;
    }
    assert sessions[..i] == sessions;
    assert mux.log[|start|..] == t;
  }

  lemma {:induction false} PollStep(sessions: seq<string>, i: int, t: seq<Exchange>, e: Exchange)
    requires 0 <= i < |sessions| && PollRound(sessions[..i], t) && e.cmd == HasSession(sessions[i])
    ensures PollRound(sessions[..i + 1], t + [e])
    ensures AllGone(t + [e]) <==> AllGone(t) && e.result.exitCode != 0
  {
    assert forall k :: 0 <= k < |t| ==> (t + [e])[k] == t[k];
  }

  /** Phase 2: poll until every session is gone, for at most `rounds` rounds
      (the three-second deadline). */
  method Poll(mux: Mux, sessions: seq<string>, rounds: nat) returns (ghost rs: seq<seq<Exchange>>)
    modifies mux
    ensures mux.log == old(mux.log) + Flatten(rs)
    ensures PollRun(sessions, rounds, rs)
  {
    ghost var start := mux.log;
    rs := [];
    var k := 0;
    while k < rounds
      invariant 0 <= k <= rounds && |rs| == k
      invariant mux.log == start + Flatten(rs)
      invariant forall i :: 0 <= i < |rs| ==> PollRound(sessions, rs[i]) && !AllGone(rs[i])
    {
      ghost var before := mux.log;
      var gone := PollRoundOnce(mux, sessions);
      ghost var r := mux.log[|before|..];
      Extended(start, Flatten(rs), before, mux.log);
      FlattenSnoc(rs, r);
      rs := rs + [r];
      if gone {
        return;
      }
      k := k + 1;
    }
  }

  function TermCommands(pids: seq<int>): (cs: seq<Command>)
    ensures |cs| == |pids| && forall i :: 0 <= i < |pids| ==> cs[i] == SignalTerm(pids[i])
  {
    seq(|pids|, i requires 0 <= i < |pids| => SignalTerm(pids[i]))
  }

  /** `killSurvivingDescendants`: one SIGTERM per pid of the set, in the set's
      own (unspecified) order. */
  method SignalEach(mux: Mux, pids: set<int>) returns (ghost order: seq<int>)
    modifies mux
    ensures old(mux.log) <= mux.log && CommandsOf(mux.log[|old(mux.log)|..]) == TermCommands(order)
    ensures NoDuplicates(order) && forall x :: x in order <==> x in pids
  {
    var pidOrder := Enumerate(pids);
    order := pidOrder;
    mux.RunAll(TermCommands(pidOrder));
  }

  /** The order in which iterating over a set visits its elements: each once,
      in an order the set does not fix. */
  method Enumerate(pids: set<int>) returns (order: seq<int>)
    ensures NoDuplicates(order) && forall x :: x in order <==> x in pids
  {
    order := [];
    var rest := pids;
    while rest != {}
      invariant NoDuplicates(order) && forall x :: x in order <==> x in pids && x !in rest
      invariant rest <= pids
      decreases |rest|
    {
      var p := Choose(rest);
      ChooseStep(order, pids, rest, p);
      order := order + [p];
      rest := rest - {p};
    }
  }

  /** Taking `p` out of the pids still to signal and appending it to the order. */
  lemma {:induction false} ChooseStep(order: seq<int>, pids: set<int>, rest: set<int>, p: int)
    requires NoDuplicates(order) && (forall x :: x in order <==> x in pids && x !in rest)
    requires p in rest && rest <= pids
    ensures NoDuplicates(order + [p]) && forall x :: x in order + [p] <==> x in pids && x !in rest - {p}
  {
    NoDuplicatesConcat(order, [p]);
  }

  /** `cleanupOrphanedMcp`: the orphan scan and, when it succeeds, a SIGTERM
      per pid it lists. */
  predicate OrphanTrace(t: seq<Exchange>)
  {
    && |t| >= 1 && t[0].cmd == ListOrphanedMcp
    && if t[0].result.exitCode != 0 then |t| == 1
       else CommandsOf(t[1..]) == TermCommands(ParsePids(t[0].result.stdout))
  }

  method CleanupOrphans(mux: Mux)
    modifies mux
    ensures old(mux.log) <= mux.log && OrphanTrace(mux.log[|old(mux.log)|..])
  {
    ghost var start := mux.log;
    var r := mux.Run(ListOrphanedMcp);
    if r.exitCode == 0 {
      ghost var mid := mux.log;
      mux.RunAll(TermCommands(ParsePids(r.stdout)));
      assert mux.log[|start|..][1..] == mux.log[|mid|..];
    }
  }

  function KillCommands(sessions: seq<string>): (cs: seq<Command>)
    ensures |cs| == |sessions| && forall i :: 0 <= i < |sessions| ==> cs[i] == KillSession(sessions[i])
  {
    seq(|sessions|, i requires 0 <= i < |sessions| => KillSession(sessions[i]))
  }

  // ---------------------------------------------------------------------------
  // A whole teardown and the order of its phases

  /** The exchanges of one stop or kill, phase by phase. A kill has no
      graceful phase and no polling. */
  datatype TeardownRun = TeardownRun(
    list: Exchange,
    pidLists: seq<Exchange>,
    signals: seq<seq<Exchange>>,
    polls: seq<seq<Exchange>>,
    pkill: Exchange,
    kills: seq<Exchange>,
    descendants: seq<int>,
    terms: seq<Exchange>,
    orphans: seq<Exchange>,
    remove: Exchange)

  function TraceOf(run: TeardownRun): seq<Exchange>
  {
    [run.list] + run.pidLists + Flatten(run.signals) + Flatten(run.polls) + [run.pkill] +
    run.kills + run.terms + run.orphans + [run.remove]
  }

  function SessionsOf(run: TeardownRun): seq<string>
  {
    ParseSessions(run.list.result)
  }

  /** What `stopSession` (`graceful`) and `killSession` do once sessions were
      found: the pane pids are listed first; a stop then interrupts and exits
      each session's agents and polls; the team watcher is killed, then every
      session; then each descendant the search found, from the pgrep replies,
      gets one SIGTERM; then the orphaned MCP servers; then the marker file goes. */
  ghost predicate WellFormedTeardown(run: TeardownRun, pgrep: PgrepReplies, graceful: bool, rounds: nat)
  {
    && PhaseShape(run, graceful, rounds)
    && NoDuplicates(run.descendants)
    && (forall x :: x in run.descendants <==> Reachable(ChildTableOf(pgrep), PidsOf(run.pidLists), x))
  }

  /** The commands of each phase of a teardown, whatever the descendants are. */
  predicate PhaseShape(run: TeardownRun, graceful: bool, rounds: nat)
  {
    var sessions := SessionsOf(run);
    && run.list.cmd == ListSessions(SessionListFormat)
    && sessions != []
    && PidListing(sessions, run.pidLists)
    && (graceful ==>
         && |run.signals| == |sessions|
         && (forall i :: 0 <= i < |sessions| ==> SignalTrace(sessions[i], run.signals[i]))
         && PollRun(sessions, rounds, run.polls))
    && (!graceful ==> run.signals == [] && run.polls == [])
    && run.pkill.cmd == PkillTeamWatcher
    && CommandsOf(run.kills) == KillCommands(sessions)
    && CommandsOf(run.terms) == TermCommands(run.descendants)
    && OrphanTrace(run.orphans)
    && run.remove.cmd == RemoveDeadAgentsFile
  }

  /** The phase a command belongs to. */
  function Phase(c: Command): nat
  {
    match c
    case ListSessions(_) => 0
    case ListSessionPanes(_, f) => if f == PanePidFormat then 1 else 2
    case SendKeys(_, _, _) => 2
    case HasSession(_) => 3
    case PkillTeamWatcher => 4
    case KillSession(_) => 5
    case SignalTerm(_) => 6
    case ListOrphanedMcp => 6
    case RemoveDeadAgentsFile => 7
    case _ => 8
  }

  predicate InPhase(t: seq<Exchange>, k: nat)
  {
    forall i :: 0 <= i < |t| ==> Phase(t[i].cmd) == k
  }

  predicate PhasesUpTo(t: seq<Exchange>, k: nat)
  {
    forall i :: 0 <= i < |t| ==> Phase(t[i].cmd) <= k
  }

  /** No command of a later phase comes before one of an earlier phase. */
  predicate InPhaseOrder(t: seq<Exchange>)
  {
    forall i, j :: 0 <= i < j < |t| ==> Phase(t[i].cmd) <= Phase(t[j].cmd)
  }

  lemma {:induction false} AppendPhase(a: seq<Exchange>, b: seq<Exchange>, k: nat, m: nat)
    requires InPhaseOrder(a) && PhasesUpTo(a, k) && k <= m && InPhase(b, m)
    ensures InPhaseOrder(a + b) && PhasesUpTo(a + b, m)
  {
    forall i, j | 0 <= i < j < |a + b| ensures Phase((a + b)[i].cmd) <= Phase((a + b)[j].cmd) {
      if j < |a| {
        assert (a + b)[i] == a[i] && (a + b)[j] == a[j];
      } else if i < |a| {
        assert (a + b)[i] == a[i] && (a + b)[j] == b[j - |a|];
      } else {
        assert (a + b)[i] == b[i - |a|] && (a + b)[j] == b[j - |a|];
      }
    }
    forall i | 0 <= i < |a + b| ensures Phase((a + b)[i].cmd) <= m {
      if i < |a| {
        assert (a + b)[i] == a[i];
      } else {
        assert (a + b)[i] == b[i - |a|];
      }
    }
  }

  lemma {:induction false} CommandsInPhase(t: seq<Exchange>, cs: seq<Command>, k: nat)
    requires CommandsOf(t) == cs && forall i :: 0 <= i < |cs| ==> Phase(cs[i]) == k
    ensures InPhase(t, k)
  {
    forall i | 0 <= i < |t| ensures Phase(t[i].cmd) == k {
      assert CommandsOf(t)[i] == t[i].cmd;
    }
  }

  lemma {:induction false} FlattenInPhase(segs: seq<seq<Exchange>>, k: nat)
    requires forall i :: 0 <= i < |segs| ==> InPhase(segs[i], k)
    ensures InPhase(Flatten(segs), k)
  {
    if |segs| > 0 {
      var n := |segs| - 1;
      FlattenInPhase(segs[..n], k);
      var f := Flatten(segs[..n]);
      assert Flatten(segs) == f + segs[n];
      forall i | 0 <= i < |f + segs[n]| ensures Phase((f + segs[n])[i].cmd) == k {
        if i < |f| {
          assert (f + segs[n])[i] == f[i];
        } else {
          assert (f + segs[n])[i] == segs[n][i - |f|];
        }
      }
    }
  }

  lemma {:induction false} KeysArePhase2(panes: seq<PaneRole>)
    ensures forall i :: 0 <= i < |SignalWrites(panes) + ExitWrites(panes)| ==> Phase((SignalWrites(panes) + ExitWrites(panes))[i]) == 2
  {
    var sw := SignalWrites(panes);
    var ew := ExitWrites(panes);
    forall i | 0 <= i < |sw + ew| ensures Phase((sw + ew)[i]) == 2 {
      if i < |sw| {
        assert (sw + ew)[i] == sw[i];
        SignalWritesIff(panes, sw[i]);
      } else {
        assert (sw + ew)[i] == ew[i - |sw|];
        ExitWritesIff(panes, ew[i - |sw|]);
      }
    }
  }

  lemma {:induction false} SignalTraceInPhase(session: string, t: seq<Exchange>)
    requires SignalTrace(session, t)
    ensures InPhase(t, 2)
  {
    if t[0].result.exitCode == 0 {
      var panes := PaneRoles(Lines(t[0].result.stdout));
      KeysArePhase2(panes);
      CommandsInPhase(t[1..], SignalWrites(panes) + ExitWrites(panes), 2);
      forall i | 0 <= i < |t| ensures Phase(t[i].cmd) == 2 {
        if i > 0 {
          assert t[i] == t[1..][i - 1];
        }
      }
    }
  }

  lemma {:induction false} OrphanTraceInPhase(t: seq<Exchange>)
    requires OrphanTrace(t)
    ensures InPhase(t, 6)
  {
    assert Phase(t[0].cmd) == 6;
    if t[0].result.exitCode == 0 {
      TermsInPhase(t[1..], ParsePids(t[0].result.stdout));
      forall i | 0 <= i < |t| ensures Phase(t[i].cmd) == 6 {
        if i > 0 {
          assert t[i] == t[1..][i - 1];
        }
      }
    }
  }

  lemma {:induction false} KillsInPhase(t: seq<Exchange>, sessions: seq<string>)
    requires CommandsOf(t) == KillCommands(sessions)
    ensures InPhase(t, 5)
  {
    CommandsInPhase(t, KillCommands(sessions), 5);
  }

  lemma {:induction false} TermsInPhase(t: seq<Exchange>, pids: seq<int>)
    requires CommandsOf(t) == TermCommands(pids)
    ensures InPhase(t, 6)
  {
    CommandsInPhase(t, TermCommands(pids), 6);
  }

  lemma {:induction false} PiecesInPhaseOrder(run: TeardownRun)
    requires run.list.cmd.ListSessions? && run.pkill.cmd == PkillTeamWatcher && run.remove.cmd == RemoveDeadAgentsFile
    requires InPhase(run.pidLists, 1) && InPhase(Flatten(run.signals), 2) && InPhase(Flatten(run.polls), 3)
    requires InPhase(run.kills, 5) && InPhase(run.terms, 6) && InPhase(run.orphans, 6)
    ensures InPhaseOrder(TraceOf(run))
  {
    var t0 := [run.list];
    var t1 := t0 + run.pidLists;
    AppendPhase(t0, run.pidLists, 0, 1);
    var t2 := t1 + Flatten(run.signals);
    AppendPhase(t1, Flatten(run.signals), 1, 2);
    var t3 := t2 + Flatten(run.polls);
    AppendPhase(t2, Flatten(run.polls), 2, 3);
    var t4 := t3 + [run.pkill];
    AppendPhase(t3, [run.pkill], 3, 4);
    var t5 := t4 + run.kills;
    AppendPhase(t4, run.kills, 4, 5);
    var t6 := t5 + run.terms;
    AppendPhase(t5, run.terms, 5, 6);
    var t7 := t6 + run.orphans;
    AppendPhase(t6, run.orphans, 6, 6);
    AppendPhase(t7, [run.remove], 6, 7);
  }

  lemma {:induction false} SignalsInPhase(sessions: seq<string>, signals: seq<seq<Exchange>>)
    requires |signals| <= |sessions|
    requires forall i :: 0 <= i < |signals| ==> SignalTrace(sessions[i], signals[i])
    ensures InPhase(Flatten(signals), 2)
  {
    forall i | 0 <= i < |signals| ensures InPhase(signals[i], 2) {
      SignalTraceInPhase(sessions[i], signals[i]);
    }
    FlattenInPhase(signals, 2);
  }

  lemma {:induction false} PollsInPhase(sessions: seq<string>, polls: seq<seq<Exchange>>)
    requires forall i :: 0 <= i < |polls| ==> PollRound(sessions, polls[i])
    ensures InPhase(Flatten(polls), 3)
  {
    forall i | 0 <= i < |polls| ensures InPhase(polls[i], 3) {
      assert PollRound(sessions, polls[i]);
    }
    FlattenInPhase(polls, 3);
  }

  /** The phases of a stop or kill never interleave: the session list, the
      pane pid lists, the keys, the polls, the team-watcher kill, the session
      kills, the SIGTERMs and the marker removal come in that order. */
  lemma {:induction false} TeardownInPhaseOrder(run: TeardownRun, pgrep: PgrepReplies, graceful: bool, rounds: nat)
    requires WellFormedTeardown(run, pgrep, graceful, rounds)
    ensures InPhaseOrder(TraceOf(run))
  {
    ShapeInPhaseOrder(run, graceful, rounds);
  }

  lemma {:induction false} ShapeInPhaseOrder(run: TeardownRun, graceful: bool, rounds: nat)
    requires PhaseShape(run, graceful, rounds)
    ensures InPhaseOrder(TraceOf(run))
  {
    ShapeEnds(run, graceful, rounds);
    ShapeGraceful(run, graceful, rounds);
    ShapeForced(run, graceful, rounds);
    PiecesInPhaseOrder(run);
  }

  /** The single commands of a teardown shape and its pane pid listings. */
  lemma {:induction false} ShapeEnds(run: TeardownRun, graceful: bool, rounds: nat)
    requires PhaseShape(run, graceful, rounds)
    ensures run.list.cmd.ListSessions? && run.pkill.cmd == PkillTeamWatcher && run.remove.cmd == RemoveDeadAgentsFile
    ensures InPhase(run.pidLists, 1)
  {
    PidListingInPhase(SessionsOf(run), run.pidLists);
  }

  lemma {:induction false} PidListingInPhase(sessions: seq<string>, t: seq<Exchange>)
    requires PidListing(sessions, t)
    ensures InPhase(t, 1)
  {
    forall i | 0 <= i < |t| ensures Phase(t[i].cmd) == 1 {
      assert t[i].cmd == ListSessionPanes(sessions[i], PanePidFormat);
    }
  }

  /** The graceful phases of a teardown shape: the keys, then the polls. */
  lemma {:induction false} ShapeGraceful(run: TeardownRun, graceful: bool, rounds: nat)
    requires PhaseShape(run, graceful, rounds)
    ensures InPhase(Flatten(run.signals), 2) && InPhase(Flatten(run.polls), 3)
  {
    var sessions := SessionsOf(run);
    SignalsInPhase(sessions, run.signals);
    PollsInPhase(sessions, run.polls);
  }

  /** The forced phases of a teardown shape: the kills, the SIGTERMs, the orphans. */
  lemma {:induction false} ShapeForced(run: TeardownRun, graceful: bool, rounds: nat)
    requires PhaseShape(run, graceful, rounds)
    ensures InPhase(run.kills, 5) && InPhase(run.terms, 6) && InPhase(run.orphans, 6)
  {
    KillsInPhase(run.kills, SessionsOf(run));
    TermsInPhase(run.terms, run.descendants);
    OrphanTraceInPhase(run.orphans);
  }

  /** `TraceOf`, cut into the listings, the graceful phases and the forced ones. */
  lemma {:induction false} TraceSplit(run: TeardownRun)
    ensures TraceOf(run) ==
      ([run.list] + run.pidLists) + (Flatten(run.signals) + Flatten(run.polls)) +
      ([run.pkill] + run.kills + run.terms + run.orphans + [run.remove])
  {
  }

  // ---------------------------------------------------------------------------
  // `stopSession` and `killSession`, up to their status text

  /** `collectSessionDescendants`: the pane pids of every session, then the
      processes reachable from them through the pgrep replies. */
  method SessionDescendants(mux: Mux, sessions: seq<string>, pgrep: PgrepReplies)
    returns (ghost pidLists: seq<Exchange>, descendants: set<int>)
    modifies mux
    ensures mux.log == old(mux.log) + pidLists && PidListing(sessions, pidLists)
    ensures forall x :: x in descendants <==> Reachable(ChildTableOf(pgrep), PidsOf(pidLists), x)
  {
    ghost var start := mux.log;
    var pids := ListPanePids(mux, sessions);
    pidLists := mux.log[|start|..];
    var queried;
    descendants, queried := CollectDescendants(ChildTableOf(pgrep), pids);
  }

  /** Phases 1 and 2 of `stopSession`: interrupt and exit every session's
      agents, then poll until the sessions are gone; `killSession` skips both. */
  method GracefulPhases(mux: Mux, sessions: seq<string>, graceful: bool, rounds: nat)
    returns (ghost signals: seq<seq<Exchange>>, ghost polls: seq<seq<Exchange>>)
    modifies mux
    ensures mux.log == old(mux.log) + (Flatten(signals) + Flatten(polls))
    ensures graceful ==>
      && |signals| == |sessions| && (forall i :: 0 <= i < |sessions| ==> SignalTrace(sessions[i], signals[i]))
      && PollRun(sessions, rounds, polls)
    ensures !graceful ==> signals == [] && polls == []
  {
    if !graceful {
      signals, polls := [], [];
      assert Flatten(signals) + Flatten(polls) == [];
      return;
    }
    ghost var start := mux.log;
    signals := SignalSessions(mux, sessions);
    ghost var mid := mux.log;
    polls := Poll(mux, sessions, rounds);
    Extended(start, Flatten(signals), mid, mux.log);
  }

  /** What a stop and a kill both end with: the team watcher, every session,
      the surviving descendants, the orphaned MCP servers and the marker file. */
  method ForcedPhases(mux: Mux, sessions: seq<string>, descendants: set<int>)
    returns (ghost pkill: Exchange, ghost kills: seq<Exchange>, ghost order: seq<int>,
             ghost terms: seq<Exchange>, ghost orphans: seq<Exchange>, ghost remove: Exchange)
    modifies mux
    ensures mux.log == old(mux.log) + ([pkill] + kills + terms + orphans + [remove])
    ensures pkill.cmd == PkillTeamWatcher && CommandsOf(kills) == KillCommands(sessions)
    ensures NoDuplicates(order) && (forall x :: x in order <==> x in descendants)
    ensures CommandsOf(terms) == TermCommands(order)
    ensures OrphanTrace(orphans) && remove.cmd == RemoveDeadAgentsFile
  {
    ghost var start := mux.log;
    var r := mux.Run(PkillTeamWatcher);
    pkill := Exchange(PkillTeamWatcher, r);
    ghost var m1 := mux.log;
    mux.RunAll(KillCommands(sessions));
    kills := mux.log[|m1|..];
    Extended(start, [pkill], m1, mux.log);
    ghost var m2 := mux.log;
    order := SignalEach(mux, descendants);
    terms := mux.log[|m2|..];
    Extended(start, [pkill] + kills, m2, mux.log);
    ghost var m3 := mux.log;
    CleanupOrphans(mux);
    orphans := mux.log[|m3|..];
    Extended(start, [pkill] + kills + terms, m3, mux.log);
    var r2 := mux.Run(RemoveDeadAgentsFile);
    remove := Exchange(RemoveDeadAgentsFile, r2);
  }

  /** The log before and after a teardown: the session listing alone when it
      shows no tproj session, the whole well-formed teardown otherwise. */
  ghost predicate TeardownOutcome(before: seq<Exchange>, after: seq<Exchange>, pgrep: PgrepReplies, graceful: bool, rounds: nat,
                                  found: bool, run: TeardownRun)
  {
    && run.list.cmd == ListSessions(SessionListFormat)
    && (found <==> SessionsOf(run) != [])
    && (!found ==> after == before + [run.list])
    && (found ==> after == before + TraceOf(run) && WellFormedTeardown(run, pgrep, graceful, rounds))
  }

  /** `stopSession` (`graceful`) and `killSession` (not): when no tproj session
      is listed nothing else is issued; otherwise the whole teardown runs. The
      pgrep replies stand for the process table at the time of the search. */
  method Teardown(mux: Mux, pgrep: PgrepReplies, graceful: bool, rounds: nat) returns (found: bool, ghost run: TeardownRun)
    modifies mux
    ensures TeardownOutcome(old(mux.log), mux.log, pgrep, graceful, rounds, found, run)
  {
    ghost var start := mux.log;
    var sessions := ListTprojSessions(mux);
    ghost var list := mux.log[|mux.log| - 1];
    assert mux.log == start + [list];
    run := TeardownRun(list, [], [], [], list, [], [], [], [], list);
    if sessions == [] {
      return false, run;
    }
    found := true;
    ghost var m1 := mux.log;
    ghost var pidLists: seq<Exchange>;
    var descendants;
    pidLists, descendants := SessionDescendants(mux, sessions, pgrep);
    Extended(start, [list], m1, mux.log);
    ghost var m2 := mux.log;
    ghost var signals: seq<seq<Exchange>>, polls: seq<seq<Exchange>>;
    signals, polls := GracefulPhases(mux, sessions, graceful, rounds);
    Extended(start, [list] + pidLists, m2, mux.log);
    ghost var m3 := mux.log;
    ghost var pkill: Exchange, kills: seq<Exchange>, order: seq<int>;
    ghost var terms: seq<Exchange>, orphans: seq<Exchange>, remove: Exchange;
    pkill, kills, order, terms, orphans, remove := ForcedPhases(mux, sessions, descendants);
    Extended(start, [list] + pidLists + (Flatten(signals) + Flatten(polls)), m3, mux.log);
    run := TeardownRun(list, pidLists, signals, polls, pkill, kills, order, terms, orphans, remove);
    TraceSplit(run);
  }

  /** Every tproj session is killed, whether or not the polling saw it go. */
  lemma {:induction false} EverySessionKilled(run: TeardownRun, pgrep: PgrepReplies, graceful: bool, rounds: nat, s: string)
    requires WellFormedTeardown(run, pgrep, graceful, rounds)
    requires s in SessionsOf(run)
    ensures exists i :: 0 <= i < |run.kills| && run.kills[i].cmd == KillSession(s)
  {
    var sessions := SessionsOf(run);
    var k :| 0 <= k < |sessions| && sessions[k] == s;
    assert CommandsOf(run.kills)[k] == run.kills[k].cmd;
  }
}
