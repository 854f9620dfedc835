/** Keeping column identities stable across refreshes: each freshly read
    column with a non-empty project path takes over the id of the first
    previous column with the same path whose id has not been taken yet. */
module IdentityMerge {
  import opened Text
  import opened PaneReader

  /** The index of the first previous column with project path `path` whose id
      is not in `used` (`liveColumns.first(where:)`). */
  function FirstUnused(previous: seq<LiveColumn>, path: string, used: set<nat>): (k: Option<nat>)
    ensures k.Some? ==> k.value < |previous| && previous[k.value].projectPath == path && previous[k.value].id !in used
    ensures k.Some? ==> forall j :: 0 <= j < k.value ==> previous[j].projectPath != path || previous[j].id in used
    ensures k.None? ==> forall j :: 0 <= j < |previous| ==> previous[j].projectPath != path || previous[j].id in used
  {
    if |previous| == 0 then None
    else if previous[0].projectPath == path && previous[0].id !in used then Some(0)
    else match FirstUnused(previous[1..], path, used)
      case None => None
      case Some(k) => Some(k + 1)
  }

  /** One incoming column merged against the previous list, with the ids taken so far. */
  function MergeOne(previous: seq<LiveColumn>, used: set<nat>, d: LiveColumn): (LiveColumn, set<nat>)
  {
    if d.projectPath == "" then (d, used)
    else match FirstUnused(previous, d.projectPath, used)
      case None => (d, used)
      case Some(j) => (d.(id := previous[j].id), used + {previous[j].id})
  }

  /** The merged list and the set `used` of ids taken over from `previous`. */
  datatype Merged = Merged(columns: seq<LiveColumn>, used: set<nat>)

  function MergeAll(previous: seq<LiveColumn>, incoming: seq<LiveColumn>): (r: Merged)
    ensures |r.columns| == |incoming|
    ensures forall i :: 0 <= i < |incoming| ==> r.columns[i] == incoming[i].(id := r.columns[i].id)
    ensures forall x :: x in r.used ==> exists j :: 0 <= j < |previous| && previous[j].id == x
  {
    if |incoming| == 0 then Merged([], {})
    else
      var prior := MergeAll(previous, incoming[..|incoming| - 1]);
      var (c, used) := MergeOne(previous, prior.used, incoming[|incoming| - 1]);
      Merged(prior.columns + [c], used)
  }

  /** The merged columns: one per incoming column, in order, each with its
      data and possibly another id. */
  function Merge(previous: seq<LiveColumn>, incoming: seq<LiveColumn>): (r: seq<LiveColumn>)
    ensures |r| == |incoming|
    ensures forall i :: 0 <= i < |r| ==> r[i] == incoming[i].(id := r[i].id)
  {
    MergeAll(previous, incoming).columns
  }

  /** The merge loop: `merged` and `used` are built one incoming column at a time. */
  method MergeIdentities(previous: seq<LiveColumn>, incoming: seq<LiveColumn>) returns (merged: seq<LiveColumn>)
    ensures merged == Merge(previous, incoming)
  {
    var used: set<nat> := {};
    merged := [];
    var i := 0;
    while i < |incoming|
      invariant 0 <= i <= |incoming|
      invariant Merged(merged, used) == MergeAll(previous, incoming[..i])
    {
      assert incoming[..i + 1][..i] == incoming[..i];
      var data := incoming[i];
      var existing := if data.projectPath == "" then None else FirstUnused(previous, data.projectPath, used);
      if existing.Some? {
        var j := existing.value;
        used := used + {previous[j].id};
        merged := merged + [data.(id := previous[j].id)];
      } else {
        merged := merged + [data];
      }
      i := i + 1;
    }
    assert incoming[..|incoming|] == incoming;
  }

  function Ids(cs: seq<LiveColumn>): set<nat>
  {
    set c | c in cs :: c.id
  }

  /** The merged list has the incoming list's length and order, and every field
      but the id comes from the incoming column. A column keeps its incoming id, or
      takes over the id of a previous column with the same non-empty project
      path. */
  lemma {:induction false} MergeShape(previous: seq<LiveColumn>, incoming: seq<LiveColumn>)
    ensures var m := Merge(previous, incoming);
      && |m| == |incoming|
      && (forall i :: 0 <= i < |incoming| ==> m[i] == incoming[i].(id := m[i].id))
      && (forall i :: 0 <= i < |incoming| ==>
            (|| m[i].id == incoming[i].id
             || (incoming[i].projectPath != "" &&
                 exists j :: 0 <= j < |previous| && previous[j].id == m[i].id && previous[j].projectPath == incoming[i].projectPath)))
    decreases |incoming|
  {
    if |incoming| > 0 {
      var init := incoming[..|incoming| - 1];
      MergeShape(previous, init);
      var m0 := MergeAll(previous, init).columns;
      var u0 := MergeAll(previous, init).used;
      var d := incoming[|incoming| - 1];
      var m := Merge(previous, incoming);
      assert m == m0 + [MergeOne(previous, u0, d).0];
      forall i | 0 <= i < |incoming| ensures m[i].id == incoming[i].id ||
            (incoming[i].projectPath != "" &&
             exists j :: 0 <= j < |previous| && previous[j].id == m[i].id && previous[j].projectPath == incoming[i].projectPath)
      {
        if i < |init| {
          assert m[i] == m0[i] && incoming[i] == init[i];
        } else if d.projectPath != "" && FirstUnused(previous, d.projectPath, u0).Some? {
          var j := FirstUnused(previous, d.projectPath, u0).value;
          assert m[i].id == previous[j].id;
        }
      }
    }
  }

  /** With incoming ids that are pairwise distinct and unlike every previous id,
      no id occurs twice in the merged list: a previous id is taken over at
      most once. Every taken-over id is in `used`. */
  lemma {:induction false} MergeDistinct(previous: seq<LiveColumn>, incoming: seq<LiveColumn>)
    requires forall i, j :: 0 <= i < j < |incoming| ==> incoming[i].id != incoming[j].id
    requires forall i, j :: 0 <= i < |incoming| && 0 <= j < |previous| ==> incoming[i].id != previous[j].id
    ensures var m := MergeAll(previous, incoming).columns;
      var used := MergeAll(previous, incoming).used;
      && (forall i, j :: 0 <= i < j < |m| ==> m[i].id != m[j].id)
      && (forall i :: 0 <= i < |m| ==> m[i].id == incoming[i].id || m[i].id in used)
    decreases |incoming|
  {
    if |incoming| > 0 {
      var n := |incoming| - 1;
      var init := incoming[..n];
      MergeDistinct(previous, init);
      var m0 := MergeAll(previous, init).columns;
      var u0 := MergeAll(previous, init).used;
      var d := incoming[n];
      var (c, u1) := MergeOne(previous, u0, d);
      var m := m0 + [c];
      assert MergeAll(previous, incoming) == Merged(m, u1);
      assert forall i :: 0 <= i < n ==> m[i] == m0[i] && incoming[i] == init[i];
      assert u0 <= u1;
      forall i | 0 <= i < n ensures m[i].id != c.id {
        if c.id == d.id {
          // c keeps its incoming id, which is neither an earlier incoming id nor a previous one.
          if m[i].id in u0 {
            var j :| 0 <= j < |previous| && previous[j].id == m[i].id;
          }
        } else {
          var j := FirstUnused(previous, d.projectPath, u0).value;
          assert c.id == previous[j].id && c.id !in u0;
          if m[i].id == init[i].id {
            assert incoming[i].id != previous[j].id;
          }
        }
      }
    }
  }

  /** Each incoming column left with its own id despite a non-empty path finds
      every previous column of that path already taken by an earlier one. */
  lemma {:induction false} UnmatchedMeansTaken(previous: seq<LiveColumn>, incoming: seq<LiveColumn>)
    requires |incoming| > 0
    ensures var n := |incoming| - 1;
      var used := MergeAll(previous, incoming[..n]).used;
      var c := Merge(previous, incoming)[n];
      incoming[n].projectPath != "" && c.id == incoming[n].id && incoming[n].id !in Ids(previous) ==>
        forall j :: 0 <= j < |previous| && previous[j].projectPath == incoming[n].projectPath ==> previous[j].id in used
  {
    var n := |incoming| - 1;
    var used := MergeAll(previous, incoming[..n]).used;
    var d := incoming[n];
    if d.projectPath != "" && FirstUnused(previous, d.projectPath, used).Some? {
      var j := FirstUnused(previous, d.projectPath, used).value;
      assert previous[j] in previous;
    }
  }

  /** Stability: when previous ids are distinct and the path of `previous[j]`
      is unique among previous columns, the first incoming column with that path
      keeps `previous[j]`'s id. */
  lemma {:induction false} StableIdentity(previous: seq<LiveColumn>, incoming: seq<LiveColumn>, j: nat, i: nat)
    requires j < |previous| && i < |incoming|
    requires forall a, b :: 0 <= a < b < |previous| ==> previous[a].id != previous[b].id
    requires previous[j].projectPath != "" && previous[j].projectPath == incoming[i].projectPath
    requires forall k :: 0 <= k < |previous| && k != j ==> previous[k].projectPath != previous[j].projectPath
    requires forall k :: 0 <= k < i ==> incoming[k].projectPath != incoming[i].projectPath
    ensures Merge(previous, incoming)[i].id == previous[j].id
  {
    var path := incoming[i].projectPath;
    var pre := incoming[..i];
    UsedPaths(previous, pre);
    var u0 := MergeAll(previous, pre).used;
    forall x | x in u0 ensures x != previous[j].id {
      var k :| 0 <= k < |previous| && previous[k].id == x && SharesPath(previous[k], pre);
      var f :| 0 <= f < |pre| && previous[k].projectPath == pre[f].projectPath;
      assert pre[f] == incoming[f];
      assert k != j;
    }
    assert FirstUnused(previous, path, u0) == Some(j);
    MergePrefix(previous, incoming, i);
  }

  ghost predicate SharesPath(c: LiveColumn, cs: seq<LiveColumn>)
  {
    exists f :: 0 <= f < |cs| && c.projectPath == cs[f].projectPath
  }

  /** Every id taken over comes from a previous column whose path is that of
      some incoming column. */
  lemma {:induction false} UsedPaths(previous: seq<LiveColumn>, incoming: seq<LiveColumn>)
    ensures forall x :: x in MergeAll(previous, incoming).used ==>
      exists k :: 0 <= k < |previous| && previous[k].id == x && SharesPath(previous[k], incoming)
    decreases |incoming|
  {
    if |incoming| > 0 {
      var n := |incoming| - 1;
      var init := incoming[..n];
      UsedPaths(previous, init);
      var m0 := MergeAll(previous, init).columns;
      var u0 := MergeAll(previous, init).used;
      var d := incoming[n];
      forall x | x in MergeAll(previous, incoming).used
        ensures exists k :: 0 <= k < |previous| && previous[k].id == x && SharesPath(previous[k], incoming)
      {
        if x in u0 {
          var k :| 0 <= k < |previous| && previous[k].id == x && SharesPath(previous[k], init);
          var f :| 0 <= f < |init| && previous[k].projectPath == init[f].projectPath;
          assert incoming[f] == init[f];
        } else {
          var k := FirstUnused(previous, d.projectPath, u0).value;
          assert previous[k].id == x && previous[k].projectPath == incoming[n].projectPath;
        }
      }
    }
  }

  /** The merged column at `i` depends only on the first `i + 1` incoming columns. */
  lemma {:induction false} MergePrefix(previous: seq<LiveColumn>, incoming: seq<LiveColumn>, i: nat)
    requires i < |incoming|
    ensures Merge(previous, incoming)[i] == MergeOne(previous, MergeAll(previous, incoming[..i]).used, incoming[i]).0
    decreases |incoming|
  {
    var n := |incoming| - 1;
    if i < n {
      MergePrefix(previous, incoming[..n], i);
      assert incoming[..n][..i] == incoming[..i];
    } else {
      assert incoming[..n] == incoming[..i];
    }
  }
}
