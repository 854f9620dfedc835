/** The external command gateway. Every tmux call, the column rebalance
    script, `pkill`, the SIGTERMs sent with `kill(2)` and the removal of the
    dead-agents marker are recorded, in order, as a `Command` together with
    the result the environment gave back. The environment itself (tmux and
    the operating system) is an oracle: a total function from the exchanges
    so far and the next command to its result. */
module Gateway {
  import opened Text

  /** The tmux session the app manages and its one window. */
  const Session: string := "tproj-workspace"
  const WorkspaceWindow: string := "tproj-workspace:dev"
  /** Session-level environment marker that blocks reordering. */
  const AgentsMarker: string := "TPROJ_AGENTS_ACTIVE"

  datatype Command =
    | ListPanes(target: string, format: string)           // tmux list-panes -t target -F format
    | ListSessionPanes(session: string, format: string)   // tmux list-panes -s -t session -F format
    | ListSessions(format: string)                        // tmux list-sessions -F format
    | ShowEnvironment(session: string, name: string)      // tmux show-environment -t session name
    | DisplayMessage(pane: string, format: string)        // tmux display-message -t pane -p format
    | HasSession(session: string)                         // tmux has-session -t session
    | SetPaneOption(pane: string, key: string, value: string)  // tmux set-option -pt pane key value
    | SwapPane(source: string, target: string)            // tmux swap-pane -s source -t target
    | SplitWindowAbove(anchor: string)                    // tmux split-window -v -b -t anchor -c /tmp -l 25% -P -F #{pane_id}
    | KillPane(pane: string)                              // tmux kill-pane -t pane
    | KillSession(session: string)                        // tmux kill-session -t session
    | SendKeys(pane: string, keys: string, terminator: string)  // tmux send-keys -t pane keys terminator
    | RebalanceColumns(session: string)                   // ~/bin/rebalance-workspace-columns session
    | PkillTeamWatcher                                    // pkill -TERM -f bin/team-watcher
    | SignalTerm(pid: int)                                // kill(pid, SIGTERM)
    | ListOrphanedMcp                                     // ps scan for MCP servers re-parented to pid 1
    | RemoveDeadAgentsFile                                // remove /tmp/tproj-dead-agents

  /** Exit status and captured output streams of one command. */
  datatype CommandResult = CommandResult(exitCode: int, stdout: string, stderr: string)

  datatype Exchange = Exchange(cmd: Command, result: CommandResult)

  function CommandsOf(log: seq<Exchange>): (cmds: seq<Command>)
    ensures |cmds| == |log|
    ensures forall i :: 0 <= i < |log| ==> cmds[i] == log[i].cmd
  {
    if |log| == 0 then [] else CommandsOf(log[..|log| - 1]) + [log[|log| - 1].cmd]
  }

  lemma {:induction false} CommandsOfConcat(a: seq<Exchange>, b: seq<Exchange>)
    ensures CommandsOf(a + b) == CommandsOf(a) + CommandsOf(b)
  {
    var l := CommandsOf(a + b);
    var r := CommandsOf(a) + CommandsOf(b);
    assert |l| == |r|;
    forall i | 0 <= i < |l| ensures l[i] == r[i] {
      if i < |a| {
        assert (a + b)[i] == a[i];
      } else {
        assert (a + b)[i] == b[i - |a|];
      }
    }
  }

  /** A log that grew from `start + acc` is `start` followed by `acc` and what was added. */
  lemma {:induction false} Extended(start: seq<Exchange>, acc: seq<Exchange>, before: seq<Exchange>, after: seq<Exchange>)
    requires before == start + acc && before <= after
    ensures after == start + (acc + after[|before|..])
  {
    assert after == before + after[|before|..];
  }

  /** What a log gained since `start`, when its first new exchange was `e`. */
  lemma {:induction false} FirstThenRest(start: seq<Exchange>, e: Exchange, mid: seq<Exchange>, after: seq<Exchange>)
    requires mid == start + [e] && mid <= after
    ensures |after[|start|..]| >= 1 && after[|start|..][0] == e && after[|start|..][1..] == after[|mid|..]
  {
    assert after[|start|..] == [e] + after[|mid|..];
  }

  /** The exchanges of consecutive segments of a trace, in order. */
  function Flatten(segs: seq<seq<Exchange>>): seq<Exchange>
  {
    if |segs| == 0 then [] else Flatten(segs[..|segs| - 1]) + segs[|segs| - 1]
  }

  /** The recorded conversation with the environment. */
  class Mux {
    const respond: (seq<Exchange>, Command) -> CommandResult
    var log: seq<Exchange>

    constructor (respond: (seq<Exchange>, Command) -> CommandResult)
      ensures this.respond == respond && log == []
    {
      this.respond := respond;
      log := [];
    }

    /** Issues one command and records it with its result. */
    method Run(c: Command) returns (r: CommandResult)
      modifies this
      ensures log == old(log) + [Exchange(c, r)]
      ensures r == respond(old(log), c)
    {
      r := respond(log, c);
      log := log + [Exchange(c, r)];
    }

    /** Issues the commands one after the other, whatever their results. */
    method RunAll(cs: seq<Command>)
      modifies this
      ensures old(log) <= log && CommandsOf(log[|old(log)|..]) == cs
    {
      var _ := RunAllChecked(cs);
    }

    /** Issues the commands one after the other, whatever their results, and
        reports whether every one of them exited with status 0. */
    method RunAllChecked(cs: seq<Command>) returns (ok: bool)
      modifies this
      ensures old(log) <= log && CommandsOf(log[|old(log)|..]) == cs
      ensures ok == AllSucceeded(log[|old(log)|..])
    {
      ghost var start := log;
      ghost var t: seq<Exchange> := [];
      ok := true;
      var i := 0;
      while i < |cs|
        invariant 0 <= i <= |cs|
        invariant log == start + t && CommandsOf(t) == cs[..i]
        invariant ok == AllSucceeded(t)
      {
        var r := Run(cs[i]);
        SnocStep(t, Exchange(cs[i], r), cs, i);
        t := t + [Exchange(cs[i], r)];
        ok := ok && r.exitCode == 0;
        i := i + 1;
      }
      assert cs[..i] == cs;
      assert log[|start|..] == t;
    }
  }

  /** One more exchange for the next command of `cs`. */
  lemma SnocStep(t: seq<Exchange>, e: Exchange, cs: seq<Command>, i: int)
    requires 0 <= i < |cs| && CommandsOf(t) == cs[..i] && e.cmd == cs[i]
    ensures CommandsOf(t + [e]) == cs[..i + 1]
    ensures AllSucceeded(t + [e]) <==> AllSucceeded(t) && e.result.exitCode == 0
  {
    assert (t + [e])[..|t|] == t;
    assert cs[..i + 1] == cs[..i] + [cs[i]];
    AllSucceededConcat(t, [e]);
  }

  /** Every command of the trace exited with status 0. */
  predicate AllSucceeded(t: seq<Exchange>)
  {
    forall i :: 0 <= i < |t| ==> t[i].result.exitCode == 0
  }

  lemma {:induction false} AllSucceededConcat(a: seq<Exchange>, b: seq<Exchange>)
    ensures AllSucceeded(a + b) <==> AllSucceeded(a) && AllSucceeded(b)
  {
    assert forall i :: 0 <= i < |a| ==> (a + b)[i] == a[i];
    assert forall i :: 0 <= i < |b| ==> (a + b)[|a| + i] == b[i];
  }

  /** Commands that change the layout, the processes or the file system;
      every other command only reads. */
  predicate Mutating(c: Command)
  {
    !(c.ListPanes? || c.ListSessionPanes? || c.ListSessions? || c.ShowEnvironment? ||
      c.DisplayMessage? || c.HasSession? || c.ListOrphanedMcp?)
  }

  predicate ReadOnly(t: seq<Exchange>)
  {
    forall i :: 0 <= i < |t| ==> !Mutating(t[i].cmd)
  }

  /** `trimmedError`: the error stream, or the output stream when the error
      stream is empty, without surrounding whitespace and newlines. */
  function TrimmedError(r: CommandResult): string
  {
    TrimAll(if r.stderr == "" then r.stdout else r.stderr)
  }

  /** The status text built from a failed command is empty exactly when the
      stream it is built from is nothing but whitespace, and it is taken from
      stdout only when stderr is empty. */
  lemma {:induction false} TrimmedErrorSource(r: CommandResult)
    ensures var src := if r.stderr == "" then r.stdout else r.stderr;
      (TrimmedError(r) == "" <==> forall i :: 0 <= i < |src| ==> IsSpace(src[i]))
    ensures r.stderr != "" && !IsSpace(r.stderr[0]) ==> TrimmedError(r)[0] == r.stderr[0]
  {
    var src := if r.stderr == "" then r.stdout else r.stderr;
    TrimByIsSlice(src, IsSpace);
  }
}
