/** The view model of the tproj window: the live column list, the status
    line and the busy flag, kept in step with the tmux workspace through the
    gateway. Each `UUID()` the view model draws is a fresh token from a
    counter. */
module App {
  import opened Text
  import opened Gateway
  import opened PaneReader
  import IdentityMerge
  import Renumber
  import Reorder
  import Teardown

  const ReadyText: string := "Ready"
  const NoSessionsText: string := "No tproj sessions found"
  const StoppedText: string := "Session stopped"
  const KilledText: string := "Session killed"
  const DropFailedPrefix: string := "Drop failed: "
  const ErrorSeparator: string := " | "

  function SwappedText(src: int, tgt: int): string
  {
    "Swapped #" + IntToString(src) + " and #" + IntToString(tgt)
  }

  function RemovedText(column: int): string
  {
    "Removed column " + IntToString(column)
  }

  function MissingInfoText(column: int): string
  {
    "Missing pane info for column " + IntToString(column)
  }

  // ---------------------------------------------------------------------------
  // Identities

  /** Every id is below the next fresh token, and no id occurs twice. */
  predicate IdsBelow(cs: seq<LiveColumn>, next: nat)
  {
    && (forall i :: 0 <= i < |cs| ==> cs[i].id < next)
    && (forall i, j :: 0 <= i < j < |cs| ==> cs[i].id != cs[j].id)
  }

  /** `refreshColumnIdentities`: the same columns, each under a fresh id. */
  function Renewed(cs: seq<LiveColumn>, first: nat): (r: seq<LiveColumn>)
    ensures |r| == |cs|
  {
    seq(|cs|, i requires 0 <= i < |cs| => cs[i].(id := first + i))
  }

  /** Renewing keeps every field but the id and the order, and gives ids that
      are pairwise distinct and unlike any id handed out before. */
  lemma {:induction false} RenewedFresh(cs: seq<LiveColumn>, first: nat)
    ensures var r := Renewed(cs, first);
      && IdsBelow(r, first + |cs|)
      && (forall i :: 0 <= i < |cs| ==> r[i].(id := cs[i].id) == cs[i] && r[i].id >= first)
  {
  }

  // ---------------------------------------------------------------------------
  // `loadLiveColumns`

  /** What a reload yields from the listing's result: nothing when the listing
      failed; otherwise the listing of the grouped records, under fresh ids
      from `first`, merged with the previous columns. */
  ghost predicate LoadedFrom(previous: seq<LiveColumn>, r: CommandResult, first: nat, listing: seq<Builder>,
                             cs: seq<LiveColumn>, next: nat)
  {
    if r.exitCode != 0 then cs == [] && next == first
    else
      && IsListing(listing, Group(ParseRecords(Lines(r.stdout))))
      && cs == IdentityMerge.Merge(previous, FreshColumns(listing, first))
      && next == first + |listing|
  }

  /** One reload: the listing exchange, the sorted builders, and the columns
      and next token it leaves. */
  datatype Reload = Reload(load: Exchange, listing: seq<Builder>, columns: seq<LiveColumn>, next: nat)

  ghost predicate Reloaded(previous: seq<LiveColumn>, first: nat, rl: Reload)
  {
    && rl.load.cmd == ListPanes(WorkspaceWindow, LiveFormat)
    && LoadedFrom(previous, rl.load.result, first, rl.listing, rl.columns, rl.next)
  }

  /** The columns a reload shows depend on the listing's output only, not on
      the order in which the dictionary of builders yields its values. */
  lemma {:induction false} LoadedDeterministic(previous: seq<LiveColumn>, r: CommandResult, first: nat,
                                               l1: seq<Builder>, c1: seq<LiveColumn>, n1: nat,
                                               l2: seq<Builder>, c2: seq<LiveColumn>, n2: nat)
    requires LoadedFrom(previous, r, first, l1, c1, n1) && LoadedFrom(previous, r, first, l2, c2, n2)
    ensures c1 == c2 && n1 == n2
  {
    if r.exitCode == 0 {
      var m := Group(ParseRecords(Lines(r.stdout)));
      forall b ensures b in l1 <==> b in l2 {
        assert b in l1 <==> b.column in m && m[b.column] == b;
      }
      ListingUnique(l1, l2);
    }
  }

  /** A reload keeps the ids distinct and below the next token: fresh columns
      get new tokens, and a previous id is taken over at most once. */
  lemma {:induction false} LoadedKeepsIds(previous: seq<LiveColumn>, r: CommandResult, first: nat, listing: seq<Builder>,
                                          cs: seq<LiveColumn>, next: nat)
    requires LoadedFrom(previous, r, first, listing, cs, next) && IdsBelow(previous, first)
    ensures IdsBelow(cs, next)
  {
    if r.exitCode == 0 {
      var incoming := FreshColumns(listing, first);
      IdentityMerge.MergeDistinct(previous, incoming);
      var used := IdentityMerge.MergeAll(previous, incoming).used;
      assert forall x :: x in used ==> x < first;
    }
  }

  /** The pure part of `loadLiveColumns`, from the listing's result on. */
  method ReadColumns(previous: seq<LiveColumn>, r: CommandResult, first: nat)
    returns (cs: seq<LiveColumn>, next: nat, ghost listing: seq<Builder>)
    requires IdsBelow(previous, first)
    ensures LoadedFrom(previous, r, first, listing, cs, next) && IdsBelow(cs, next)
  {
    if r.exitCode != 0 {
      return [], first, [];
    }
    var grouped := GroupPanes(Lines(r.stdout));
    GroupKeys(ParseRecords(Lines(r.stdout)));
    var vals := ValuesOf(grouped);
    SortedValues(vals, grouped);
    var sorted := SortBuilders(vals);
    listing := sorted;
    cs := IdentityMerge.MergeIdentities(previous, FreshColumns(sorted, first));
    next := first + |sorted|;
    LoadedKeepsIds(previous, r, first, listing, cs, next);
  }

  // ---------------------------------------------------------------------------
  // The optimistic swap of `moveColumn`

  /** `liveColumns.firstIndex(where: { $0.column == c })`. */
  function IndexOfColumn(cs: seq<LiveColumn>, c: int): (k: Option<nat>)
    ensures k.Some? ==> k.value < |cs| && cs[k.value].column == c && forall j :: 0 <= j < k.value ==> cs[j].column != c
    ensures k.None? ==> forall j :: 0 <= j < |cs| ==> cs[j].column != c
  {
    if |cs| == 0 then None
    else if cs[0].column == c then Some(0)
    else match IndexOfColumn(cs[1..], c)
      case None => None
      case Some(k) => Some(k + 1)
  }

  /** The list shown while a reorder runs: the two columns change places and
      each position keeps its column number. Without both columns the list
      stays as it is. */
  function OptimisticSwap(cs: seq<LiveColumn>, src: int, tgt: int): seq<LiveColumn>
  {
    match (IndexOfColumn(cs, src), IndexOfColumn(cs, tgt))
    case (Some(i), Some(j)) =>
      var updated := cs[i := cs[j]][j := cs[i]];
      updated[i := updated[i].(column := src)][j := updated[j].(column := tgt)]
    case _ => cs
  }

  /** The optimistic swap exchanges the contents of the two positions and
      keeps every column number where it was. */
  lemma {:induction false} OptimisticSwapSpec(cs: seq<LiveColumn>, src: int, tgt: int)
    requires src != tgt
    ensures var r := OptimisticSwap(cs, src, tgt);
      && |r| == |cs|
      && (forall k :: 0 <= k < |cs| ==> r[k].column == cs[k].column)
      && (IndexOfColumn(cs, src).None? || IndexOfColumn(cs, tgt).None? ==> r == cs)
      && (IndexOfColumn(cs, src).Some? && IndexOfColumn(cs, tgt).Some? ==>
            var i := IndexOfColumn(cs, src).value;
            var j := IndexOfColumn(cs, tgt).value;
            && r[i] == cs[j].(column := src) && r[j] == cs[i].(column := tgt)
            && forall k :: 0 <= k < |cs| && k != i && k != j ==> r[k] == cs[k])
  {
    if IndexOfColumn(cs, src).Some? && IndexOfColumn(cs, tgt).Some? {
      assert IndexOfColumn(cs, src).value != IndexOfColumn(cs, tgt).value;
    }
  }

  /** The optimistic swap only moves ids between positions, so they stay
      distinct and below the next token. */
  lemma {:induction false} SwapKeepsIds(cs: seq<LiveColumn>, src: int, tgt: int, next: nat)
    requires src != tgt && IdsBelow(cs, next)
    ensures IdsBelow(OptimisticSwap(cs, src, tgt), next)
  {
    var r := OptimisticSwap(cs, src, tgt);
    if IndexOfColumn(cs, src).Some? && IndexOfColumn(cs, tgt).Some? {
      var i := IndexOfColumn(cs, src).value;
      var j := IndexOfColumn(cs, tgt).value;
      assert i != j;
      assert forall k :: 0 <= k < |cs| ==> r[k].id == cs[if k == i then j else if k == j then i else k].id;
    }
  }

  // ---------------------------------------------------------------------------
  // `removeColumn`

  /** A column can be dropped only when its claude or its codex pane is known. */
  predicate Removable(c: LiveColumn)
  {
    c.claude.Some? || c.codex.Some?
  }

  function KillsOf(pane: Option<string>): seq<Command>
  {
    if pane.Some? then [KillPane(pane.value)] else []
  }

  /** The kills of a drop: codex, claude, yazi, then terminal, each when known. */
  function PaneKills(c: LiveColumn): (r: seq<Command>)
    ensures |r| <= 4
    ensures forall x :: x in r ==> x.KillPane?
    ensures Removable(c) ==> r != []
  {
    KillsOf(c.codex) + KillsOf(c.claude) + KillsOf(c.yazi) + KillsOf(c.terminal)
  }

  /** The error text of every failed command of a trace, in order. */
  function ErrorsOf(t: seq<Exchange>): seq<string>
  {
    if |t| == 0 then [] else ErrorsOf(t[..|t| - 1]) + ErrorOf(t[|t| - 1])
  }

  function ErrorOf(e: Exchange): seq<string>
  {
    if e.result.exitCode != 0 then [TrimmedError(e.result)] else []
  }

  function DropStatus(column: int, errors: seq<string>): string
  {
    if errors == [] then RemovedText(column) else DropFailedPrefix + Join(errors, ErrorSeparator)
  }

  lemma {:induction false} ErrorsOfConcat(a: seq<Exchange>, b: seq<Exchange>)
    ensures ErrorsOf(a + b) == ErrorsOf(a) + ErrorsOf(b)
    decreases |b|
  {
    if |b| > 0 {
      var n := |b| - 1;
      assert (a + b)[..|a + b| - 1] == a + b[..n] && (a + b)[|a + b| - 1] == b[n];
      ErrorsOfConcat(a, b[..n]);
      assert ErrorsOf(a + b) == ErrorsOf(a) + ErrorsOf(b[..n]) + ErrorOf(b[n]);
    } else {
      assert a + b == a;
    }
  }

  /** No error is collected exactly when every command succeeded. */
  lemma {:induction false} ErrorsEmptyIff(t: seq<Exchange>)
    ensures ErrorsOf(t) == [] <==> AllSucceeded(t)
    decreases |t|
  {
    if |t| > 0 {
      var n := |t| - 1;
      ErrorsEmptyIff(t[..n]);
      AllSucceededConcat(t[..n], [t[n]]);
      assert t == t[..n] + [t[n]];
    }
  }

  /** A drop reports "Removed column" exactly when every kill succeeded, and
      "Drop failed" with the collected errors otherwise. */
  lemma {:induction false} DropStatusIff(column: int, t: seq<Exchange>)
    ensures DropStatus(column, ErrorsOf(t)) == RemovedText(column) <==> AllSucceeded(t)
  {
    ErrorsEmptyIff(t);
    if !AllSucceeded(t) {
      assert DropStatus(column, ErrorsOf(t))[0] == 'D';
    }
  }

  /** Every known pane of the column is killed once and no other pane. */
  lemma {:induction false} PaneKillsSpec(c: LiveColumn, p: string)
    ensures KillPane(p) in PaneKills(c) <==> c.codex == Some(p) || c.claude == Some(p) || c.yazi == Some(p) || c.terminal == Some(p)
    ensures forall x :: x in PaneKills(c) ==> x.KillPane?
    ensures Removable(c) ==> PaneKills(c) != []
  {
  }

  method KillIfPresent(mux: Mux, pane: Option<string>) returns (errors: seq<string>)
    modifies mux
    ensures old(mux.log) <= mux.log
    ensures CommandsOf(mux.log[|old(mux.log)|..]) == KillsOf(pane) && errors == ErrorsOf(mux.log[|old(mux.log)|..])
  {
    ghost var start := mux.log;
    errors := [];
    if pane.Some? {
      var res := mux.Run(KillPane(pane.value));
      ghost var e := Exchange(KillPane(pane.value), res);
      assert mux.log[|start|..] == [e];
      assert [e][..0] == [];
      if res.exitCode != 0 {
        errors := [TrimmedError(res)];
      }
    } else {
      assert mux.log[|start|..] == [];
    }
  }

  /** Appending the trace of one more kill. */
  lemma {:induction false} KillSegment(t: seq<Exchange>, seg: seq<Exchange>, cs: seq<Command>, pane: Option<string>)
    requires CommandsOf(t) == cs && CommandsOf(seg) == KillsOf(pane)
    ensures CommandsOf(t + seg) == cs + KillsOf(pane) && ErrorsOf(t + seg) == ErrorsOf(t) + ErrorsOf(seg)
  {
    CommandsOfConcat(t, seg);
    ErrorsOfConcat(t, seg);
  }

  /** The four kills of `removeColumn`, each error collected in order. */
  method KillColumnPanes(mux: Mux, c: LiveColumn) returns (errors: seq<string>, ghost t: seq<Exchange>)
    modifies mux
    ensures mux.log == old(mux.log) + t && CommandsOf(t) == PaneKills(c) && errors == ErrorsOf(t)
  {
    ghost var start := mux.log;
    errors := KillIfPresent(mux, c.codex);
    t := mux.log[|start|..];
    ghost var before := mux.log;
    var e := KillIfPresent(mux, c.claude);
    ghost var seg := mux.log[|before|..];
    Extended(start, t, before, mux.log);
    KillSegment(t, seg, KillsOf(c.codex), c.claude);
    t, errors := t + seg, errors + e;
    before := mux.log;
    e := KillIfPresent(mux, c.yazi);
    seg := mux.log[|before|..];
    Extended(start, t, before, mux.log);
    KillSegment(t, seg, KillsOf(c.codex) + KillsOf(c.claude), c.yazi);
    t, errors := t + seg, errors + e;
    before := mux.log;
    e := KillIfPresent(mux, c.terminal);
    seg := mux.log[|before|..];
    Extended(start, t, before, mux.log);
    KillSegment(t, seg, KillsOf(c.codex) + KillsOf(c.claude) + KillsOf(c.yazi), c.terminal);
    t, errors := t + seg, errors + e;
  }

  // ---------------------------------------------------------------------------
  // The rebalance and renumbering both `moveColumn` and `removeColumn` end with

  predicate RenormalizeTrace(t: seq<Exchange>, ordered: seq<int>, ok: bool)
  {
    |t| >= 1 && t[0].cmd == RebalanceColumns(Session) && Renumber.NormalizeTrace(t[1..], ordered, ok)
  }

  method Renormalize(mux: Mux) returns (ghost t: seq<Exchange>, ghost ordered: seq<int>, ghost ok: bool)
    modifies mux
    ensures mux.log == old(mux.log) + t && RenormalizeTrace(t, ordered, ok)
  {
    ghost var start := mux.log;
    var _ := mux.Run(RebalanceColumns(Session));
    ghost var mid := mux.log;
    var normalized;
    normalized, ordered := Renumber.Normalize(mux);
    ok := normalized;
    t := mux.log[|start|..];
    assert t[1..] == mux.log[|mid|..];
  }

  /** The kills of a column's panes, then the rebalance and renumbering. */
  method ClearColumn(mux: Mux, c: LiveColumn)
    returns (errors: seq<string>, ghost kills: seq<Exchange>, ghost renorm: seq<Exchange>, ghost ordered: seq<int>, ghost ok: bool)
    modifies mux
    ensures mux.log == old(mux.log) + kills + renorm
    ensures CommandsOf(kills) == PaneKills(c) && errors == ErrorsOf(kills)
    ensures RenormalizeTrace(renorm, ordered, ok)
  {
    errors, kills := KillColumnPanes(mux, c);
    renorm, ordered, ok := Renormalize(mux);
  }

  // ---------------------------------------------------------------------------
  // Why a reorder reports what it reports

  /** A reorder reports "Swapped" exactly when the protocol ran to its end;
      every refusal and abort keeps its own text. */
  lemma {:induction false} SwappedOnlyWhenCompleted(src: int, tgt: int, run: Reorder.ReorderRun, stop: Option<string>)
    requires Reorder.ReorderProtocol(src, tgt, run, stop)
    ensures (if stop.None? then SwappedText(src, tgt) else stop.value) == SwappedText(src, tgt) <==> stop.None?
  {
    Reorder.StopTexts(src, tgt, run, stop);
    if stop.Some? {
      assert stop.value[0] == Reorder.StopPrefix[0] == 'R';
      assert SwappedText(src, tgt)[0] == 'S';
    }
  }

  // ---------------------------------------------------------------------------
  // The view model

  class AppViewModel {
    var liveColumns: seq<LiveColumn>
    var statusText: string
    var isBusy: bool
    /** The next fresh token handed out for a `UUID()`. */
    var nextToken: nat
    const mux: Mux

    ghost predicate Valid()
      reads this
    {
      IdsBelow(liveColumns, nextToken)
    }

    constructor (mux: Mux)
      ensures this.mux == mux && liveColumns == [] && statusText == ReadyText && !isBusy && nextToken == 0
      ensures Valid()
    {
      this.mux := mux;
      liveColumns := [];
      statusText := ReadyText;
      isBusy := false;
      nextToken := 0;
    }

    /** `loadLiveColumns`. */
    method LoadLiveColumns() returns (ghost rl: Reload)
      requires Valid()
      modifies this, mux
      ensures mux.log == old(mux.log) + [rl.load] && Reloaded(old(liveColumns), old(nextToken), rl)
      ensures liveColumns == rl.columns && nextToken == rl.next
      ensures statusText == old(statusText) && isBusy == old(isBusy)
      ensures Valid()
    {
      var r := mux.Run(ListPanes(WorkspaceWindow, LiveFormat));
      var cs, next, listing := ReadColumns(liveColumns, r, nextToken);
      rl := Reload(Exchange(ListPanes(WorkspaceWindow, LiveFormat), r), listing, cs, next);
      liveColumns, nextToken := cs, next;
    }

    /** `refreshColumnIdentities`. */
    method RefreshColumnIdentities()
      requires Valid()
      modifies this
      ensures liveColumns == Renewed(old(liveColumns), old(nextToken))
      ensures nextToken == old(nextToken) + |old(liveColumns)|
      ensures statusText == old(statusText) && isBusy == old(isBusy)
      ensures Valid()
    {
      RenewedFresh(liveColumns, nextToken);
      liveColumns, nextToken := Renewed(liveColumns, nextToken), nextToken + |liveColumns|;
    }

    /** `moveColumn`: nothing happens for a column onto itself or while busy.
        Otherwise the list is swapped optimistically and the reorder protocol
        runs; when it completes the columns are rebalanced and renumbered, the
        list is reloaded and renewed and the status says "Swapped"; when it
        stops the status is the stop's text and the list is reloaded. */
    method MoveColumn(src: int, tgt: int)
      returns (ghost run: Reorder.ReorderRun, ghost stop: Option<string>, ghost renorm: seq<Exchange>,
               ghost ordered: seq<int>, ghost ok: bool, ghost rl: Reload)
      requires Valid()
      modifies this, mux
      ensures src == tgt || old(isBusy) ==>
        && mux.log == old(mux.log) && liveColumns == old(liveColumns) && nextToken == old(nextToken)
        && statusText == old(statusText) && isBusy == old(isBusy)
      ensures src != tgt && !old(isBusy) ==>
        && Reorder.ReorderProtocol(src, tgt, run, stop)
        && mux.log == old(mux.log) + Reorder.ReorderTraceOf(run) + renorm + [rl.load]
        && (stop.Some? ==> renorm == [])
        && (stop.None? ==> RenormalizeTrace(renorm, ordered, ok))
        && Reloaded(OptimisticSwap(old(liveColumns), src, tgt), old(nextToken), rl)
        && liveColumns == (if stop.None? then Renewed(rl.columns, rl.next) else rl.columns)
        && nextToken == (if stop.None? then rl.next + |rl.columns| else rl.next)
        && statusText == (if stop.None? then SwappedText(src, tgt) else stop.value)
        && !isBusy
      ensures Valid()
    {
      var none := Exchange(PkillTeamWatcher, CommandResult(0, "", ""));
      run := Reorder.ReorderRun(none, [], [], [], [], [], [], []);
      stop, renorm, ordered, ok := None, [], [], false;
      rl := Reload(none, [], liveColumns, nextToken);
      if src == tgt || isBusy {
        return;
      }
      SwapKeepsIds(liveColumns, src, tgt, nextToken);
      var shown := OptimisticSwap(liveColumns, src, tgt);
      ghost var first := nextToken;
      liveColumns := shown;
      isBusy := true;
      run, stop, renorm, ordered, ok, rl := ReorderAndReload(src, tgt, shown, first);
    }

    /** The part of `moveColumn` after the optimistic swap: the reorder
        protocol and then its end, with `isBusy` cleared on every path. */
    method ReorderAndReload(src: int, tgt: int, ghost shown: seq<LiveColumn>, ghost first: nat)
      returns (ghost run: Reorder.ReorderRun, ghost stop: Option<string>, ghost renorm: seq<Exchange>,
               ghost ordered: seq<int>, ghost ok: bool, ghost rl: Reload)
      requires Valid() && liveColumns == shown && nextToken == first
      modifies this, mux
      ensures Reorder.ReorderProtocol(src, tgt, run, stop)
      ensures mux.log == old(mux.log) + Reorder.ReorderTraceOf(run) + renorm + [rl.load]
      ensures stop.Some? ==> renorm == []
      ensures stop.None? ==> RenormalizeTrace(renorm, ordered, ok)
      ensures Reloaded(shown, first, rl)
      ensures liveColumns == (if stop.None? then Renewed(rl.columns, rl.next) else rl.columns)
      ensures nextToken == (if stop.None? then rl.next + |rl.columns| else rl.next)
      ensures statusText == (if stop.None? then SwappedText(src, tgt) else stop.value)
      ensures !isBusy && Valid()
    {
      var stopped;
      stopped, run := Reorder.ReorderPanes(mux, src, tgt);
      stop := stopped;
      renorm, ordered, ok, rl := FinishMove(src, tgt, stopped, shown, first);
    }

    /** The end of `moveColumn`, once the reorder protocol returned: after a
        completed reorder the rebalance and renumbering, the reload, the
        renewed identities and the "Swapped" status; after a stop, its text
        and the reload. */
    method FinishMove(src: int, tgt: int, stop: Option<string>, ghost shown: seq<LiveColumn>, ghost first: nat)
      returns (ghost renorm: seq<Exchange>, ghost ordered: seq<int>, ghost ok: bool, ghost rl: Reload)
      requires Valid() && liveColumns == shown && nextToken == first
      modifies this, mux
      ensures mux.log == old(mux.log) + renorm + [rl.load]
      ensures stop.Some? ==> renorm == []
      ensures stop.None? ==> RenormalizeTrace(renorm, ordered, ok)
      ensures Reloaded(shown, first, rl)
      ensures liveColumns == (if stop.None? then Renewed(rl.columns, rl.next) else rl.columns)
      ensures nextToken == (if stop.None? then rl.next + |rl.columns| else rl.next)
      ensures statusText == (if stop.None? then SwappedText(src, tgt) else stop.value)
      ensures !isBusy && Valid()
    {
      renorm, ordered, ok := [], [], false;
      if stop.None? {
        renorm, ordered, ok := Renormalize(mux);
      }
      rl := LoadLiveColumns();
      if stop.None? {
        RefreshColumnIdentities();
        statusText := SwappedText(src, tgt);
      } else {
        statusText := stop.value;
      }
      isBusy := false;
    }

    /** `removeColumn`: a column without claude and codex panes is refused
        with a status naming it. Otherwise its known panes are killed, the
        columns rebalanced and renumbered, the status set from the collected
        errors, and the list reloaded. */
    method RemoveColumn(column: LiveColumn)
      returns (ghost kills: seq<Exchange>, ghost renorm: seq<Exchange>, ghost ordered: seq<int>, ghost ok: bool,
               ghost rl: Reload)
      requires Valid()
      modifies this, mux
      ensures !Removable(column) ==>
        && statusText == MissingInfoText(column.column)
        && mux.log == old(mux.log) && liveColumns == old(liveColumns) && nextToken == old(nextToken)
        && isBusy == old(isBusy)
      ensures Removable(column) ==>
        && mux.log == old(mux.log) + kills + renorm + [rl.load]
        && CommandsOf(kills) == PaneKills(column)
        && RenormalizeTrace(renorm, ordered, ok)
        && Reloaded(old(liveColumns), old(nextToken), rl) && liveColumns == rl.columns && nextToken == rl.next
        && statusText == DropStatus(column.column, ErrorsOf(kills))
        && !isBusy
      ensures Valid()
    {
      var none := Exchange(PkillTeamWatcher, CommandResult(0, "", ""));
      kills, renorm, ordered, ok := [], [], [], false;
      rl := Reload(none, [], liveColumns, nextToken);
      if !Removable(column) {
        statusText := MissingInfoText(column.column);
        return;
      }
      kills, renorm, ordered, ok, rl := DropColumn(column, liveColumns, nextToken);
    }

    /** The part of `removeColumn` after the check for the required panes. */
    method DropColumn(column: LiveColumn, ghost shown: seq<LiveColumn>, ghost first: nat)
      returns (ghost kills: seq<Exchange>, ghost renorm: seq<Exchange>, ghost ordered: seq<int>, ghost ok: bool,
               ghost rl: Reload)
      requires Valid() && liveColumns == shown && nextToken == first
      modifies this, mux
      ensures mux.log == old(mux.log) + kills + renorm + [rl.load]
      ensures CommandsOf(kills) == PaneKills(column)
      ensures RenormalizeTrace(renorm, ordered, ok)
      ensures Reloaded(shown, first, rl) && liveColumns == rl.columns && nextToken == rl.next
      ensures statusText == DropStatus(column.column, ErrorsOf(kills))
      ensures !isBusy && Valid()
    {
      isBusy := true;
      var errors;
      errors, kills, renorm, ordered, ok := ClearColumn(mux, column);
      statusText := DropStatus(column.column, errors);
      isBusy := false;
      rl := LoadLiveColumns();
    }

    /** `stopSession` (`graceful`) and `killSession`: the teardown, then the
        status and an empty column list. */
    method EndSession(pgrep: Teardown.PgrepReplies, graceful: bool, rounds: nat)
      returns (ghost found: bool, ghost run: Teardown.TeardownRun)
      modifies this, mux
      ensures Teardown.TeardownOutcome(old(mux.log), mux.log, pgrep, graceful, rounds, found, run)
      ensures statusText == (if !found then NoSessionsText else if graceful then StoppedText else KilledText)
      ensures liveColumns == [] && nextToken == old(nextToken) && !isBusy
      ensures Valid()
    {
      isBusy := true;
      var any;
      any, run := Teardown.Teardown(mux, pgrep, graceful, rounds);
      found := any;
      statusText := if !any then NoSessionsText else if graceful then StoppedText else KilledText;
      liveColumns := [];
      isBusy := false;
    }

    /** `stopSession`. */
    method StopSession(pgrep: Teardown.PgrepReplies, rounds: nat) returns (ghost found: bool, ghost run: Teardown.TeardownRun)
      modifies this, mux
      ensures Teardown.TeardownOutcome(old(mux.log), mux.log, pgrep, true, rounds, found, run)
      ensures statusText == (if found then StoppedText else NoSessionsText)
      ensures liveColumns == [] && nextToken == old(nextToken) && !isBusy
      ensures Valid()
    {
      found, run := EndSession(pgrep, true, rounds);
    }

    /** `killSession`: no graceful phases. */
    method KillSession(pgrep: Teardown.PgrepReplies) returns (ghost found: bool, ghost run: Teardown.TeardownRun)
      modifies this, mux
      ensures Teardown.TeardownOutcome(old(mux.log), mux.log, pgrep, false, 0, found, run)
      ensures statusText == (if found then KilledText else NoSessionsText)
      ensures liveColumns == [] && nextToken == old(nextToken) && !isBusy
      ensures Valid()
    {
      found, run := EndSession(pgrep, false, 0);
    }
  }
}
