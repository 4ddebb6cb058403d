/** `ultra::memory::SnapshotChain` and `SnapshotPersistence`. The content of a state graph is any
    value of type `G`; taking a snapshot and rebuilding the graph from it are inverse. */
module Snapshots {
  import opened Decimals

  const MAX_SNAPSHOTS_RETAINED: nat := 3

  datatype StateSnapshot<G> = StateSnapshot(id: nat, snapshotId: string, branchId: string, graph: G)

  // ----- the chain as a sequence -----

  function Capped<T>(s: seq<T>): (r: seq<T>)
    ensures |r| <= MAX_SNAPSHOTS_RETAINED
    ensures |s| <= MAX_SNAPSHOTS_RETAINED ==> r == s
  {
    if |s| <= MAX_SNAPSHOTS_RETAINED then s else s[|s| - MAX_SNAPSHOTS_RETAINED..]
  }

  /** Capping before each append is as good as capping at the end. */
  lemma CappedTwice<T>(s: seq<T>, i: nat)
    requires i < |s|
    ensures Capped(Capped(s[..i]) + [s[i]]) == Capped(s[..i + 1])
  {
    assert s[..i + 1] == s[..i] + [s[i]];
  }

  /** The first snapshot with this id, if any. */
  function FindId<G>(s: seq<StateSnapshot<G>>, id: nat): (r: Option<StateSnapshot<G>>)
    ensures r.Some? ==> r.value in s && r.value.id == id
    ensures r.None? ==> forall x :: x in s ==> x.id != id
  {
    if s == [] then None else if s[0].id == id then Some(s[0]) else FindId(s[1..], id)
  }

  function FindName<G>(s: seq<StateSnapshot<G>>, name: string): (r: Option<StateSnapshot<G>>)
    ensures r.Some? ==> r.value in s && r.value.snapshotId == name
    ensures r.None? ==> forall x :: x in s ==> x.snapshotId != name
  {
    if s == [] then None else if s[0].snapshotId == name then Some(s[0]) else FindName(s[1..], name)
  }

  /** Callers take id 0 for "not found". */
  predicate HasId<G>(s: seq<StateSnapshot<G>>, id: nat) {
    FindId(s, id).Some? && id != 0
  }

  predicate HasName<G>(s: seq<StateSnapshot<G>>, name: string) {
    var found := FindName(s, name);
    found.Some? && found.value.id != 0
  }

  /** Everything up to the first snapshot with this id. */
  function CutAfter<G>(s: seq<StateSnapshot<G>>, id: nat): (r: seq<StateSnapshot<G>>)
    ensures |r| <= |s| && forall x :: x in r ==> x in s
    ensures FindId(s, id).Some? ==> r != [] && r[|r| - 1] == FindId(s, id).value
  {
    if s == [] then [] else if s[0].id == id then [s[0]] else [s[0]] + CutAfter(s[1..], id)
  }

  /** The first snapshot with this id ends what is left, and everything before it stays. */
  lemma {:induction false} CutAfterFirst<G>(s: seq<StateSnapshot<G>>, id: nat, i: nat)
    requires i < |s| && s[i].id == id && forall j :: 0 <= j < i ==> s[j].id != id
    ensures FindId(s, id) == Some(s[i]) && CutAfter(s, id) == s[..i + 1]
  {
    if i > 0 {
      CutAfterFirst(s[1..], id, i - 1);
      assert s[..i + 1] == [s[0]] + s[1..][..i];
    }
  }

  class SnapshotChain<G> {
    var snapshots: seq<StateSnapshot<G>>

    constructor ()
      ensures snapshots == []
    {
      snapshots := [];
    }

    method Append(snapshot: StateSnapshot<G>)
      modifies this
      ensures snapshots == Capped(old(snapshots) + [snapshot])
    {
      snapshots := snapshots + [snapshot];
      EnforceRetentionCap();
    }

    method EnforceRetentionCap()
      modifies this
      ensures snapshots == Capped(old(snapshots))
    {
      while |snapshots| > MAX_SNAPSHOTS_RETAINED
        invariant |snapshots| <= |old(snapshots)|
        invariant |old(snapshots)| <= MAX_SNAPSHOTS_RETAINED ==> snapshots == old(snapshots)
        invariant |old(snapshots)| > MAX_SNAPSHOTS_RETAINED ==> |snapshots| >= MAX_SNAPSHOTS_RETAINED
        invariant snapshots == old(snapshots)[|old(snapshots)| - |snapshots|..]
      {
        snapshots := snapshots[1..];
      }
    }

    /** Keeps the snapshot with this id as the newest; false when there is none. */
    method Rollback(id: nat) returns (found: bool)
      modifies this
      ensures found == FindId(old(snapshots), id).Some?
      ensures snapshots == if found then CutAfter(old(snapshots), id) else old(snapshots)
    {
      found := FindId(snapshots, id).Some?;
      if found {
        snapshots := CutAfter(snapshots, id);
      }
    }

    method Clear()
      modifies this
      ensures snapshots == []
    {
      snapshots := [];
    }

    /** Clears and re-appends; a history from a chain is short enough to come back whole. */
    method Restore(history: seq<StateSnapshot<G>>)
      modifies this
      ensures snapshots == Capped(history)
    {
      Clear();
      var i := 0;
      while i < |history|
        invariant 0 <= i <= |history| && snapshots == Capped(history[..i])
      {
        Append(history[i]);
        CappedTwice(history, i);
        i := i + 1;
      }
      assert history[..i] == history;
    }
  }

  // ----- the object directory -----

  /** An object file either loads or, after a failed write, does not. */
  datatype StoredGraph<G> = Readable(snapshot: StateSnapshot<G>) | Unreadable

  function Named<G>(s: StateSnapshot<G>): StateSnapshot<G> {
    if s.snapshotId == "" then s.(snapshotId := Dec(s.id)) else s
  }

  function LoadFrom<G>(graphs: map<nat, StoredGraph<G>>, id: nat): Option<StateSnapshot<G>> {
    if id in graphs && graphs[id].Readable? && graphs[id].snapshot.id == id then Some(Named(graphs[id].snapshot))
      else None
  }

  /** What an attempt to save a snapshot leaves: a failed write can leave the old file, the new one, or an
      unreadable one. */
  ghost predicate SaveOutcome<G>(graphs: map<nat, StoredGraph<G>>, snapshot: StateSnapshot<G>, saved: bool,
                                 graphs': map<nat, StoredGraph<G>>) {
    var written := graphs[snapshot.id := Readable(Named(snapshot))];
    if saved then snapshot.id != 0 && graphs' == written
    else graphs' == graphs || (snapshot.id != 0 && (graphs' == graphs[snapshot.id := Unreadable] || graphs' == written))
  }

  /** What was saved is loaded again; after a failure the old snapshot, the new one or none is, but never another; and
      snapshots under other ids load as before. */
  lemma SavedThenLoaded<G>(graphs: map<nat, StoredGraph<G>>, snapshot: StateSnapshot<G>, saved: bool,
                           graphs': map<nat, StoredGraph<G>>)
    requires SaveOutcome(graphs, snapshot, saved, graphs')
    ensures saved ==> LoadFrom(graphs', snapshot.id) == Some(Named(snapshot))
    ensures LoadFrom(graphs', snapshot.id) == LoadFrom(graphs, snapshot.id)
      || LoadFrom(graphs', snapshot.id) == None || LoadFrom(graphs', snapshot.id) == Some(Named(snapshot))
    ensures forall k :: k != snapshot.id ==> LoadFrom(graphs', k) == LoadFrom(graphs, k)
  {
    assert Named(Named(snapshot)) == Named(snapshot) && Named(snapshot).id == snapshot.id;
  }

  /** Only a readable file that carries the number asked for loads, with the graph and branch saved in it, and with the
      name saved or else the number printed. */
  lemma LoadedIff<G>(graphs: map<nat, StoredGraph<G>>, id: nat, x: StateSnapshot<G>)
    ensures LoadFrom(graphs, id) == Some(x) <==>
      && id in graphs && graphs[id].Readable? && x.id == id && graphs[id].snapshot.id == id
      && x.graph == graphs[id].snapshot.graph && x.branchId == graphs[id].snapshot.branchId
      && x.snapshotId == if graphs[id].snapshot.snapshotId == "" then Dec(id) else graphs[id].snapshot.snapshotId
  {
  }

  class SnapshotPersistence<G> {
    var graphs: map<nat, StoredGraph<G>>

    constructor ()
      ensures graphs == map[]
    {
      graphs := map[];
    }

    /** May fail at any point. */
    method SaveGraph(snapshot: StateSnapshot<G>) returns (saved: bool)
      modifies this
      ensures SaveOutcome(old(graphs), snapshot, saved, graphs)
    {
      if snapshot.id == 0 {
        return false;
      }
      var canOpen: bool := *;
      var written: bool := *;
      if !canOpen {
        return false;
      }
      graphs := graphs[snapshot.id := if written then Readable(Named(snapshot)) else Unreadable];
      saved := *;
      saved := saved && written;
    }

    method LoadSnapshot(id: nat) returns (r: Option<StateSnapshot<G>>)
      ensures r == LoadFrom(graphs, id)
    {
      r := LoadFrom(graphs, id);
    }

    method HasGraph(id: nat) returns (r: bool)
      ensures r == (id in graphs)
    {
      r := id in graphs;
    }

    /** Writes the list of retained snapshots; only success or failure is modelled. */
    method SaveChain(chain: SnapshotChain<G>) returns (saved: bool)
    {
      saved := *;
    }
  }
}
