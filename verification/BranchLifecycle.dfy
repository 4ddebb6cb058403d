/** `ultra::intelligence::BranchLifecycle`: the operations on the store, the snapshot chain and the active graph, each
    proved to make one of the steps of `LifecycleRuns`. The store, the chain and the saved snapshots are separate
    objects; a ghost map records the graph captured for each branch when it was spawned. */
module BranchLifecycles {
  import opened Orders
  import opened Decimals
  import opened Branches
  import opened BranchStores
  import opened BranchEviction
  import opened Snapshots
  import opened LifecycleSpec
  import opened LifecycleRuns

  // ----- choosing whom to evict -----

  /** The ids the eviction policy must leave alone. */
  ghost predicate Protects(protectedIds: set<string>, listed: seq<Branch>, protectedId: string, activeId: string) {
    forall id :: id in protectedIds <==>
      || (id == protectedId && protectedId != "")
      || (id == activeId && activeId != "")
      || exists b :: b in listed && b.branchId == id && b.currentExecutionNodeId != ""
  }

  method ProtectedIds(listed: seq<Branch>, protectedId: string, activeId: string) returns (r: seq<string>)
    ensures Ascending(r) && Protects(Elems(r), listed, protectedId, activeId)
  {
    r := (if protectedId != "" then [protectedId] else []) + (if activeId != "" then [activeId] else []);
    var i := 0;
    while i < |listed|
      invariant 0 <= i <= |listed|
      invariant Protects(Elems(r), listed[..i], protectedId, activeId)
    {
      ghost var before := r;
      if listed[i].currentExecutionNodeId != "" {
        r := r + [listed[i].branchId];
      }
      ProtectsStep(before, r, listed, i, protectedId, activeId);
      i := i + 1;
    }
    assert listed[..i] == listed;
    r := SortUnique(r);
  }

  lemma ProtectsStep(r: seq<string>, r': seq<string>, listed: seq<Branch>, i: nat, protectedId: string,
                     activeId: string)
    requires i < |listed| && Protects(Elems(r), listed[..i], protectedId, activeId)
    requires r' == if listed[i].currentExecutionNodeId != "" then r + [listed[i].branchId] else r
    ensures Protects(Elems(r'), listed[..i + 1], protectedId, activeId)
  {
    assert listed[..i + 1] == listed[..i] + [listed[i]];
    assert Elems(r') == if listed[i].currentExecutionNodeId != "" then Elems(r) + {listed[i].branchId} else Elems(r);
    forall id ensures id in Elems(r') <==>
      || (id == protectedId && protectedId != "")
      || (id == activeId && activeId != "")
      || exists b :: b in listed[..i + 1] && b.branchId == id && b.currentExecutionNodeId != ""
    {
      if b :| b in listed[..i + 1] && b.branchId == id && b.currentExecutionNodeId != "" {
        assert b in listed[..i] || b == listed[i];
      }
      if b :| b in listed[..i] && b.branchId == id && b.currentExecutionNodeId != "" {
        assert b in listed[..i + 1];
      }
      assert listed[i] in listed[..i + 1];
    }
  }

  ghost predicate Keyed(branches: map<string, Branch>) {
    "" !in branches && forall id :: id in branches ==> branches[id].branchId == id
  }

  /** Those counted against a cap. */
  ghost function Counted(branches: map<string, Branch>, activeOnly: bool): set<string> {
    if activeOnly then ActiveResidents(branches) else Residents(branches)
  }

  ghost predicate CapHolds(branches: map<string, Branch>, activeOnly: bool, cap: nat, protectedId: string,
                           activeId: string) {
    WithinCap(branches, Counted(branches, activeOnly), cap, protectedId, activeId)
  }

  /** No candidate means everything counted is shielded; a candidate is counted and not shielded. */
  lemma CandidateChosen(s: StoreState, score: Score, protectedIds: set<string>, listed: seq<Branch>, activeOnly: bool,
                        protectedId: string, activeId: string, candidate: string)
    requires Keyed(s.branches) && Selected(s, score, protectedIds, activeOnly, candidate)
    requires Lists(listed, s.branches, Counted(s.branches, activeOnly))
    requires Protects(protectedIds, listed, protectedId, activeId)
    ensures candidate == "" ==>
      forall id :: id in Counted(s.branches, activeOnly) ==> Shielded(s.branches[id], protectedId, activeId)
    ensures candidate != "" ==>
      candidate in Counted(s.branches, activeOnly) && !Shielded(s.branches[candidate], protectedId, activeId)
  {
    hide EvictedBefore, Scored;
    ListsSize(listed, s.branches, Counted(s.branches, activeOnly));
    hide Lists, IdsOf;
    var pool := Candidates(s.branches, protectedIds, activeOnly);
    forall id | id in Counted(s.branches, activeOnly)
      ensures id in pool || Shielded(s.branches[id], protectedId, activeId) {
      if id in protectedIds {
        assert Shielded(s.branches[id], protectedId, activeId);
      }
    }
    if candidate != "" {
      assert candidate in pool;
      assert s.branches[candidate] in listed;
    }
  }

  // ----- the eviction loops -----

  /** What the loops of one governance run have done so far. */
  ghost predicate Evicting(s0: StoreState, s: StoreState, protectedId: string, activeId: string) {
    && EvictsTo(s0, s, protectedId, activeId) && Keyed(s.branches)
  }

  /** Evicting one more branch: one fewer counted, and a cap on the active ones stays in force. */
  lemma EvictOne(s0: StoreState, s: StoreState, id: string, protectedId: string, activeId: string)
    requires Evicting(s0, s, protectedId, activeId) && id in Residents(s.branches)
    requires !Shielded(s.branches[id], protectedId, activeId)
    ensures var s' := EvictedState(s, id);
      && Evicting(s0, s', protectedId, activeId)
      && |Residents(s'.branches)| + 1 == |Residents(s.branches)|
      && (CapHolds(s.branches, true, MAX_ACTIVE_BRANCHES, protectedId, activeId) ==>
          CapHolds(s'.branches, true, MAX_ACTIVE_BRANCHES, protectedId, activeId))
  {
    hide EvictedState, EvictsTo, ActiveResidents, WithinCap, Shielded;
    EvictedStateEffect(s, id, protectedId, activeId);
    var s' := EvictedState(s, id);
    EvictsToTrans(s0, s, s', protectedId, activeId);
    EvictsToKeyed(s, s', protectedId, activeId);
    if CapHolds(s.branches, true, MAX_ACTIVE_BRANCHES, protectedId, activeId) {
      EvictsToKeepsCap(s, s', protectedId, activeId);
    }
  }

  lemma OneFewerCounted(s: StoreState, activeOnly: bool, id: string, protectedId: string, activeId: string)
    requires Keyed(s.branches) && id in Counted(s.branches, activeOnly)
    requires !Shielded(s.branches[id], protectedId, activeId)
    ensures |Counted(EvictedState(s, id).branches, activeOnly)| + 1 == |Counted(s.branches, activeOnly)|
  {
    hide EvictedState, EvictsTo;
    EvictedStateEffect(s, id, protectedId, activeId);
  }

  lemma ListedSize(branches: map<string, Branch>, listed: seq<Branch>, activeOnly: bool)
    requires Lists(listed, branches, Counted(branches, activeOnly))
    ensures |listed| == |Counted(branches, activeOnly)|
  {
    ListsSize(listed, branches, Counted(branches, activeOnly));
  }

  lemma OverIs(count: nat, cap: nat)
    ensures Over(count, cap) == if count > cap then count - cap else 0
  {
  }

  lemma EvictsToKeyed(s: StoreState, s': StoreState, protectedId: string, activeId: string)
    requires Keyed(s.branches) && EvictsTo(s, s', protectedId, activeId)
    ensures Keyed(s'.branches)
  {
    forall x | x in s'.branches ensures s'.branches[x].branchId == x {
      CoreFields(s.branches[x], s'.branches[x]);
    }
  }

  lemma CapReached(branches: map<string, Branch>, listed: seq<Branch>, activeOnly: bool, cap: nat, protectedId: string,
                   activeId: string)
    requires Lists(listed, branches, Counted(branches, activeOnly))
    requires |listed| <= cap
      || forall id :: id in Counted(branches, activeOnly) ==> Shielded(branches[id], protectedId, activeId)
    ensures CapHolds(branches, activeOnly, cap, protectedId, activeId)
  {
    ListsSize(listed, branches, Counted(branches, activeOnly));
  }

  lemma KeyedConsistent(s: StoreState, loaded: bool)
    requires Consistent(s, loaded) && "" !in s.branches
    ensures Keyed(s.branches)
  {
  }

  lemma FoundRecord(s: StoreState, id: string)
    requires Keyed(s.branches)
    ensures (Lookup(s, id).branchId == "") == (id !in s.branches)
    ensures id in s.branches ==>
      && Lookup(s, id).branchId == id && Lookup(s, id).status == s.branches[id].status
      && Lookup(s, id).isOverlayResident == s.branches[id].isOverlayResident
      && Lookup(s, id).memorySnapshotId == s.branches[id].memorySnapshotId
    ensures AfterGet(s, id).branches == s.branches
  {
    if id in s.branches { NormalizeKeeps(s.branches[id]); }
  }

  // ----- evictions as the policy chooses them -----

  /** The branch given, the active one, and the executing ones among those counted. */
  ghost function Spared(branches: map<string, Branch>, activeOnly: bool, protectedId: string, activeId: string):
    set<string> {
    {protectedId, activeId} - {""}
    + set id | id in Counted(branches, activeOnly) && branches[id].currentExecutionNodeId != ""
  }

  /** The policy's choice among those counted but the spared ones; empty when it has none. */
  ghost predicate PolicyChoice(score: Score, activeOnly: bool, protectedId: string, activeId: string, s: StoreState,
                         candidate: string) {
    Selected(s, score, Spared(s.branches, activeOnly, protectedId, activeId), activeOnly, candidate)
  }

  /** `n` evictions, each while more than `cap` are counted and each of the policy's choice. */
  ghost predicate PolicyEvictions(score: Score, activeOnly: bool, cap: nat, protectedId: string, activeId: string,
                                  s: StoreState, s': StoreState, n: nat)
    decreases n
  {
    if n == 0 then s' == s
    else exists m, id ::
      && PolicyEvictions(score, activeOnly, cap, protectedId, activeId, s, m, n - 1)
      && |Counted(m.branches, activeOnly)| > cap && id != ""
      && PolicyChoice(score, activeOnly, protectedId, activeId, m, id)
      && s' == EvictedState(m, id)
  }

  /** Evictions stop at the cap, or when the policy has no choice left. */
  ghost predicate Settled(score: Score, activeOnly: bool, cap: nat, protectedId: string, activeId: string,
                          s: StoreState) {
    |Counted(s.branches, activeOnly)| <= cap || PolicyChoice(score, activeOnly, protectedId, activeId, s, "")
  }

  ghost predicate EvictsDownTo(score: Score, activeOnly: bool, cap: nat, protectedId: string, activeId: string,
                               s: StoreState, s': StoreState) {
    && (exists n :: PolicyEvictions(score, activeOnly, cap, protectedId, activeId, s, s', n))
    && Settled(score, activeOnly, cap, protectedId, activeId, s')
  }

  /** One run of governance: the active branches first, then all resident ones, then the references. */
  ghost predicate GovernanceRun<G>(score: Score, protectedId: string, activeId: string, held: SnapshotSource<G>,
                                   s: StoreState, s': StoreState) {
    exists m, n ::
      && EvictsDownTo(score, true, MAX_ACTIVE_BRANCHES, protectedId, activeId, s, m)
      && EvictsDownTo(score, false, MAX_TRACKED_BRANCHES, protectedId, activeId, m, n)
      && Refreshed(n, s', held, n.branches.Keys)
  }

  lemma SparedAre(s: StoreState, protectedIds: set<string>, listed: seq<Branch>, activeOnly: bool,
                  protectedId: string, activeId: string)
    requires Keyed(s.branches) && Lists(listed, s.branches, Counted(s.branches, activeOnly))
    requires Protects(protectedIds, listed, protectedId, activeId)
    ensures protectedIds == Spared(s.branches, activeOnly, protectedId, activeId)
  {
    ListsSize(listed, s.branches, Counted(s.branches, activeOnly));
    hide IdsOf;
    forall id ensures id in protectedIds <==> id in Spared(s.branches, activeOnly, protectedId, activeId) {
      if id in Counted(s.branches, activeOnly) {
        assert s.branches[id] in listed;
      }
    }
  }

  lemma NoEvictions(score: Score, activeOnly: bool, cap: nat, protectedId: string, activeId: string, s: StoreState)
    ensures PolicyEvictions(score, activeOnly, cap, protectedId, activeId, s, s, 0)
  {
  }

  lemma NextEviction(score: Score, activeOnly: bool, cap: nat, protectedId: string, activeId: string, s: StoreState,
                     m: StoreState, n: nat, id: string)
    requires PolicyEvictions(score, activeOnly, cap, protectedId, activeId, s, m, n)
    requires |Counted(m.branches, activeOnly)| > cap && id != ""
      && PolicyChoice(score, activeOnly, protectedId, activeId, m,
      id)
    ensures PolicyEvictions(score, activeOnly, cap, protectedId, activeId, s, EvictedState(m, id), n + 1)
  {
  }

  lemma ChoiceIs(score: Score, activeOnly: bool, protectedId: string, activeId: string, s: StoreState,
                 candidate: string)
    requires Selected(s, score, Spared(s.branches, activeOnly, protectedId, activeId), activeOnly, candidate)
    ensures PolicyChoice(score, activeOnly, protectedId, activeId, s, candidate)
  {
  }

  lemma EvictionsDone(score: Score, activeOnly: bool, cap: nat, protectedId: string, activeId: string, s: StoreState,
                      s': StoreState, n: nat)
    requires PolicyEvictions(score, activeOnly, cap, protectedId, activeId, s, s', n)
    requires |Counted(s'.branches, activeOnly)| <= cap || PolicyChoice(score, activeOnly, protectedId, activeId, s', "")
    ensures EvictsDownTo(score, activeOnly, cap, protectedId, activeId, s, s')
  {
    hide PolicyEvictions, PolicyChoice;
  }

  lemma GovernanceRan<G>(score: Score, protectedId: string, activeId: string, held: SnapshotSource<G>, s: StoreState,
                         m: StoreState, n: StoreState, s': StoreState)
    requires EvictsDownTo(score, true, MAX_ACTIVE_BRANCHES, protectedId, activeId, s, m)
    requires EvictsDownTo(score, false, MAX_TRACKED_BRANCHES, protectedId, activeId, m, n)
    requires Refreshed(n, s', held, n.branches.Keys)
    ensures GovernanceRun(score, protectedId, activeId, held, s, s')
  {
    hide EvictsDownTo, Refreshed;
  }

  // ----- the class -----

  class BranchLifecycle<G> {
    const store: BranchStore
    const chain: SnapshotChain<G>
    const persistence: SnapshotPersistence?<G>
    const score: Score
    var activeGraph: G
    var activeBranchId: string
    var evictionCount: nat
    /** The graph at the time of each spawn, by snapshot id. */
    ghost var captured: map<nat, Capture<G>>

    ghost function Held(): SnapshotSource<G>
      reads chain, persistence
    {
      SnapshotSource(chain.snapshots, if persistence == null then map[] else persistence.graphs, persistence != null)
    }

    ghost function State(): Life<G>
      reads this, store, chain, persistence
    {
      Life(store.Abs(), Held(), activeGraph, activeBranchId, evictionCount, captured)
    }

    ghost predicate Ready()
      reads this, store, chain
    {
      && store.Valid() && "" !in store.Contents()
      && |chain.snapshots| <= MAX_SNAPSHOTS_RETAINED
    }

    constructor (store: BranchStore, chain: SnapshotChain<G>, persistence: SnapshotPersistence?<G>, score: Score,
                 graph: G)
      ensures this.store == store && this.chain == chain && this.persistence == persistence && this.score == score
      ensures activeGraph == graph && activeBranchId == "" && evictionCount == 0 && captured == map[]
    {
      this.store, this.chain, this.persistence, this.score := store, chain, persistence, score;
      activeGraph, activeBranchId, evictionCount, captured := graph, "", 0, map[];
    }

    method HasSnapshotReference(snapshotId: string) returns (r: bool)
      ensures r == Held().Has(snapshotId)
    {
      if snapshotId == "" {
        return false;
      }
      if HasName(chain.snapshots, snapshotId) {
        return true;
      }
      if persistence == null {
        return false;
      }
      var parsed := ParseSnapshotId(snapshotId);
      if parsed.None? {
        return false;
      }
      r := persistence.HasGraph(parsed.value);
    }

    method LoadSnapshot(snapshotId: nat) returns (r: Option<StateSnapshot<G>>)
      ensures r == Held().Load(snapshotId)
    {
      if HasId(chain.snapshots, snapshotId) {
        return FindId(chain.snapshots, snapshotId);
      }
      if persistence != null {
        r := persistence.LoadSnapshot(snapshotId);
        return;
      }
      return None;
    }

    method PersistSnapshotChain() returns (saved: bool)
      ensures persistence == null ==> saved
    {
      if persistence == null {
        return true;
      }
      saved := persistence.SaveChain(chain);
    }

    method EvictBranch(branchId: string) returns (evicted: bool)
      requires Ready()
      modifies store, `activeBranchId, `evictionCount
      ensures Ready()
      ensures evicted == (branchId in Residents(old(store.Abs()).branches))
      ensures evicted ==> store.Abs() == EvictedState(old(store.Abs()), branchId)
      ensures evicted ==>
        evictionCount == old(evictionCount) + 1 && activeBranchId == Cleared(old(activeBranchId), branchId)
      ensures !evicted ==>
        store.Abs() == AfterGet(old(store.Abs()), branchId) && evictionCount == old(evictionCount)
          && activeBranchId == old(activeBranchId)
    {
      hide BranchStore.Valid, BranchStore.Contents, Consistent, Lookup, AfterGet;
      ghost var s := store.Abs();
      StoreKeyed(store);
      FoundRecord(s, branchId);
      var victim := store.Get(branchId);
      if victim.branchId == "" || !victim.isOverlayResident {
        return false;
      }
      if activeBranchId == victim.branchId {
        activeBranchId := "";
      }
      victim := victim.(isOverlayResident := false, status := Demoted(victim.status));
      assert victim == Victim(s, branchId);
      var updated := store.Update(victim);
      evicted := store.EvictOverlay(victim.branchId);
      evictionCount := evictionCount + 1;
    }

    /** Evicts until at most `cap` of the branches counted are left, or none that may be evicted. */
    method EvictDownTo(protectedBranchId: string, activeOnly: bool, cap: nat, ghost s0: StoreState)
      requires Ready() && Evicting(s0, store.Abs(), protectedBranchId, activeBranchId)
      modifies store, `activeBranchId, `evictionCount
      ensures Ready() && activeBranchId == old(activeBranchId)
      ensures Evicting(s0, store.Abs(), protectedBranchId, activeBranchId)
      ensures evictionCount + |Residents(store.Abs().branches)| == old(evictionCount) +
        |Residents(old(store.Abs()).branches)|
      ensures old(evictionCount) <= evictionCount <= old(evictionCount) +
        Over(|Counted(old(store.Abs()).branches, activeOnly)|, cap)
      ensures EvictsDownTo(score, activeOnly, cap, protectedBranchId, activeBranchId, old(store.Abs()), store.Abs())
      ensures CapHolds(store.Abs().branches, activeOnly, cap, protectedBranchId, activeBranchId)
      ensures CapHolds(old(store.Abs()).branches, true, MAX_ACTIVE_BRANCHES, protectedBranchId, activeBranchId) ==>
        CapHolds(store.Abs().branches, true, MAX_ACTIVE_BRANCHES, protectedBranchId, activeBranchId)
    {
      hide *;
      ghost var s := store.Abs();
      var listed := CountedBranches(activeOnly);
      ListedSize(s.branches, listed, activeOnly);
      NoEvictions(score, activeOnly, cap, protectedBranchId, activeBranchId, s);
      ghost var n := 0;
      while |listed| > cap
        invariant Ready() && activeBranchId == old(activeBranchId)
        invariant Evicting(s0, store.Abs(), protectedBranchId, activeBranchId)
        invariant Lists(listed, store.Abs().branches, Counted(store.Abs().branches, activeOnly))
        invariant evictionCount + |Residents(store.Abs().branches)| == old(evictionCount) + |Residents(s.branches)|
        invariant evictionCount + |listed| == old(evictionCount) + |Counted(s.branches, activeOnly)|
        invariant evictionCount >= old(evictionCount) && (evictionCount == old(evictionCount) || |listed| >= cap)
        invariant PolicyEvictions(score, activeOnly, cap, protectedBranchId, activeBranchId, s, store.Abs(), n)
        invariant CapHolds(s.branches, true, MAX_ACTIVE_BRANCHES, protectedBranchId, activeBranchId) ==>
          CapHolds(store.Abs().branches, true, MAX_ACTIVE_BRANCHES, protectedBranchId, activeBranchId)
        decreases |Residents(store.Abs().branches)|
      {
        ghost var now := store.Abs();
        ReadyParts();
        StoreKeyed(store);
        var protectedIds := ProtectedIds(listed, protectedBranchId, activeBranchId);
        var candidate := SelectEvictionCandidate(store, score, protectedIds, activeOnly);
        CandidateChosen(now, score, Elems(protectedIds), listed, activeOnly, protectedBranchId, activeBranchId,
          candidate);
        SparedAre(now, Elems(protectedIds), listed, activeOnly, protectedBranchId, activeBranchId);
        ChoiceIs(score, activeOnly, protectedBranchId, activeBranchId, now, candidate);
        if candidate == "" {
          break;
        }
        ListedSize(now.branches, listed, activeOnly);
        NextEviction(score, activeOnly, cap, protectedBranchId, activeBranchId, s, now, n, candidate);
        n := n + 1;
        CountedResident(now.branches, activeOnly, candidate);
        NotShieldedId(now, candidate, protectedBranchId, activeBranchId);
        EvictOne(s0, now, candidate, protectedBranchId, activeBranchId);
        OneFewerCounted(now, activeOnly, candidate, protectedBranchId, activeBranchId);
        var evicted := EvictBranch(candidate);
        ClearedOther(old(activeBranchId), candidate);
        listed := CountedBranches(activeOnly);
        ListedSize(store.Abs().branches, listed, activeOnly);
      }
      ListedSize(store.Abs().branches, listed, activeOnly);
      OverIs(|Counted(s.branches, activeOnly)|, cap);
      EvictionsDone(score, activeOnly, cap, protectedBranchId, activeBranchId, s, store.Abs(), n);
      CapReached(store.Abs().branches, listed, activeOnly, cap, protectedBranchId, activeBranchId);
    }

    lemma ReadyParts()
      requires Ready()
      ensures store.Valid() && "" !in store.Contents() && |chain.snapshots| <= MAX_SNAPSHOTS_RETAINED
    {
    }

    /** The resident branches, or the resident active ones. */
    method CountedBranches(activeOnly: bool) returns (r: seq<Branch>)
      requires Ready()
      ensures Lists(r, store.Abs().branches, Counted(store.Abs().branches, activeOnly))
    {
      hide BranchStore.Valid, BranchStore.Contents, Lists;
      ghost var branches := store.Abs().branches;
      if activeOnly {
        r := store.ListByState(Active);
        ghost var active := set id | id in branches && branches[id].status == Active;
        r := KeepResident(r, branches, active);
        assert Counted(branches, true) == set id | id in active && branches[id].isOverlayResident;
      } else {
        r := store.GetAll();
        r := KeepResident(r, branches, branches.Keys);
        assert Counted(branches, false) == set id | id in branches.Keys && branches[id].isOverlayResident;
      }
    }

    method EnforceActiveBranchCap(protectedBranchId: string)
      requires Ready()
      modifies store, `activeBranchId, `evictionCount
      ensures Ready() && activeBranchId == old(activeBranchId)
      ensures Evicting(old(store.Abs()), store.Abs(), protectedBranchId, activeBranchId)
      ensures evictionCount + |Residents(store.Abs().branches)| == old(evictionCount) +
        |Residents(old(store.Abs()).branches)|
      ensures old(evictionCount) <= evictionCount <= old(evictionCount) +
        Over(|ActiveResidents(old(store.Abs()).branches)|,
        MAX_ACTIVE_BRANCHES)
      ensures EvictsDownTo(score, true, MAX_ACTIVE_BRANCHES, protectedBranchId, activeBranchId, old(store.Abs()),
        store.Abs())
      ensures CapHolds(store.Abs().branches, true, MAX_ACTIVE_BRANCHES, protectedBranchId, activeBranchId)
    {
      CountedIs(store.Abs().branches);
      StartEvicting(protectedBranchId);
      hide *;
      EvictDownTo(protectedBranchId, true, MAX_ACTIVE_BRANCHES, store.Abs());
    }

    lemma StartEvicting(protectedBranchId: string)
      requires Ready()
      ensures Evicting(store.Abs(), store.Abs(), protectedBranchId, activeBranchId)
    {
      StoreKeyed(store);
      EvictsToRefl(store.Abs(), protectedBranchId, activeBranchId);
    }

    /** Clears every reference to a snapshot that is neither in the chain nor stored. */
    method InvalidateStaleSnapshotReferences()
      requires Ready()
      modifies store
      ensures Ready()
      ensures Refreshed(old(store.Abs()), store.Abs(), Held(), old(store.Abs()).branches.Keys)
    {
      hide *;
      ghost var s := store.Abs();
      ReadyParts();
      StoreKeyed(store);
      var branches := store.GetAll();
      ContentsAbs(store);
      assert Lists(branches, s.branches, s.branches.Keys);
      RefreshNothing(s, Held(), branches);
      var i := 0;
      while i < |branches|
        invariant 0 <= i <= |branches| && Ready()
        invariant Refreshed(s, store.Abs(), Held(), Elems(IdsOf(branches[..i])))
      {
        ghost var now := store.Abs();
        RefreshNext(s, now, Held(), branches, i);
        ReadyParts();
        StoreKeyed(store);
        var b := branches[i];
        if b.memorySnapshotId != "" {
          var live := HasSnapshotReference(b.memorySnapshotId);
          if !live {
            b := b.(memorySnapshotId := "");
            UpdateKeepsKeys(now, b);
            var found := store.Update(b);
            BecomesReady();
          }
        }
        i := i + 1;
      }
      RefreshedAll(s, branches, i);
    }

    lemma BecomesReady()
      requires store.Valid() && "" !in store.Abs().branches && |chain.snapshots| <= MAX_SNAPSHOTS_RETAINED
      ensures Ready()
    {
    }

    lemma StateIs()
      ensures State() == Life(store.Abs(), Held(), activeGraph, activeBranchId, evictionCount, captured)
      ensures Held() == SnapshotSource(chain.snapshots, if persistence == null then map[]
        else persistence.graphs, persistence != null)
    {
    }

    method RunMemoryGovernance(protectedBranchId: string, heavyMutation: bool)
      requires Ready()
      modifies this, store, chain
      ensures Ready() && GovernedLife(old(State()), State(), protectedBranchId)
      ensures GovernanceRun(score, protectedBranchId, old(activeBranchId), old(Held()), old(store.Abs()), store.Abs())
    {
      hide *;
      ReadyParts();
      StateIs();
      ghost var s := store.Abs();
      chain.EnforceRetentionCap();
      ContentsAbs(store);
      BecomesReady();
      EnforceActiveBranchCap(protectedBranchId);
      ghost var between := store.Abs();
      CountedIs(store.Abs().branches);
      ExcessIs(s.branches, |Residents(store.Abs().branches)|);
      EvictDownTo(protectedBranchId, false, MAX_TRACKED_BRANCHES, s);
      ghost var m := store.Abs();
      InvalidateStaleSnapshotReferences();
      StateIs();
      GovernanceDone(s, m, store.Abs(), old(State()), State(), protectedBranchId);
      GovernanceRan(score, protectedBranchId, activeBranchId, old(Held()), s, between, m, store.Abs());
    }

    // ----- the public operations -----

    method Create(goal: string) returns (created: Branch)
      requires Ready() && NeverEmpty(store.hash)
      modifies this, store, chain, persistence
      ensures Ready() && SpawnStep(old(State()), "", goal, store.hash, created, State())
    {
      created := Spawn("", goal);
    }

    method Spawn(parentId: string, goal: string) returns (created: Branch)
      requires Ready() && NeverEmpty(store.hash)
      modifies this, store, chain, persistence
      ensures Ready() && SpawnStep(old(State()), parentId, goal, store.hash, created, State())
    {
      hide *;
      ReadyParts();
      StateIs();
      StoreKeyed(store);
      ghost var s := State();
      SpawnPlan(s.store, parentId, goal, store.hash);
      created := store.Create(Request(parentId, goal));
      CountersAre(store);
      var snapId := store.ReserveSequence();
      var snap := StateSnapshot(snapId, Dec(snapId), created.branchId, activeGraph);
      captured := captured[snapId := Capture(created.branchId, activeGraph)];
      ReservedIs(s.store, store.Abs(), parentId, goal, store.hash);
      NamedIs(snap);
      var priorHistory := chain.snapshots;
      chain.Append(snap);
      if persistence != null {
        var graphSaved := persistence.SaveGraph(snap);
        var chainSaved := false;
        if graphSaved {
          chainSaved := PersistSnapshotChain();
        }
        if !chainSaved {
          chain.Restore(priorHistory);
          RemovesCreated(store.Abs(), s.store, created);
          var removed := store.Remove(created.branchId);
          ContentsAbs(store);
          BecomesReady();
          StateIs();
          SpawnFails(s, parentId, goal, store.hash, created, State());
          return NO_BRANCH;
        }
      }
      created := created.(memorySnapshotId := Dec(snapId));
      ghost var reserved := store.Abs();
      UpdateKeepsKeys(reserved, created);
      var found := store.Update(created);
      ContentsAbs(store);
      LinkParent(parentId, created.branchId);
      activeBranchId := created.branchId;
      CappedIsShort(priorHistory + [snap]);
      ContentsAbs(store);
      BecomesReady();
      StateIs();
      ghost var m := State();
      RunMemoryGovernance(created.branchId, false);
      Spawns(s, parentId, goal, store.hash, created, m, State());
    }

    /** Adds the child to an existing parent's list. */
    method LinkParent(parentId: string, childId: string)
      requires store.Valid() && "" !in store.Abs().branches
      modifies store
      ensures store.Valid() && store.Abs().branches.Keys == old(store.Abs()).branches.Keys
      ensures Linked(old(store.Abs()), parentId, childId, store.Abs())
    {
      hide BranchStore.Valid, BranchStore.Contents, Consistent, Lookup, AfterGet, AfterUpdate, Lists, Ascending;
      ghost var s := store.Abs();
      StoreKeyed(store);
      FoundRecord(s, parentId);
      if parentId == "" {
        return;
      }
      var parent := store.Get(parentId);
      if parent.branchId == "" {
        return;
      }
      LookupSubs(s, parentId);
      var subs := SortUnique(parent.subBranches + [childId]);
      assert Elems(parent.subBranches + [childId]) == Elems(parent.subBranches) + {childId};
      UpdateKeepsKeys(AfterGet(s, parentId), parent.(subBranches := subs));
      var found := store.Update(parent.(subBranches := subs));
    }

    method Suspend(branchId: string) returns (ok: bool)
      requires Ready()
      modifies this, store, chain
      ensures Ready() && SuspendStep(old(State()), branchId, ok, State())
    {
      hide *;
      ReadyParts();
      StateIs();
      StoreKeyed(store);
      ghost var s := State();
      FoundRecord(s.store, branchId);
      StatusRewrites(s.store, branchId, Suspended);
      var b := store.Get(branchId);
      ContentsAbs(store);
      BecomesReady();
      StateIs();
      if b.branchId == "" || b.status != Active {
        SuspendRefused(s, branchId);
        return false;
      }
      b := b.(status := Suspended);
      var updated := store.Update(b);
      ContentsAbs(store);
      BecomesReady();
      if !updated {
        return false;
      }
      if activeBranchId == branchId {
        activeBranchId := "";
      }
      ClearedIs(s.activeId, branchId);
      StateIs();
      BecomesReady();
      ghost var m := State();
      RunMemoryGovernance(activeBranchId, false);
      Suspends(s, branchId, m, State());
      return true;
    }

    method Archive(branchId: string) returns (ok: bool)
      requires Ready()
      modifies this, store, chain
      ensures Ready() && ArchiveStep(old(State()), branchId, ok, State())
    {
      hide *;
      ReadyParts();
      StateIs();
      StoreKeyed(store);
      ghost var s := State();
      FoundRecord(s.store, branchId);
      StatusRewrites(s.store, branchId, Archived);
      var b := store.Get(branchId);
      ContentsAbs(store);
      BecomesReady();
      StateIs();
      if b.branchId == "" || b.status == Archived {
        ArchiveRefused(s, branchId);
        return false;
      }
      b := b.(status := Archived);
      var updated := store.Update(b);
      ContentsAbs(store);
      BecomesReady();
      if !updated {
        return false;
      }
      if activeBranchId == branchId {
        activeBranchId := "";
      }
      ClearedIs(s.activeId, branchId);
      StateIs();
      BecomesReady();
      ghost var m := State();
      RunMemoryGovernance(activeBranchId, true);
      Archives(s, branchId, m, State());
      return true;
    }

    method Merge(sourceId: string, targetId: string) returns (ok: bool)
      requires Ready()
      modifies this, store, chain
      ensures Ready() && MergeStep(old(State()), sourceId, targetId, ok, State())
    {
      hide *;
      ReadyParts();
      StateIs();
      StoreKeyed(store);
      ghost var s := State();
      FoundRecord(s.store, sourceId);
      FoundRecord(s.store, targetId);
      MergeRewrites(s.store, sourceId, targetId);
      var source := store.Get(sourceId);
      var target := store.Get(targetId);
      ContentsAbs(store);
      BecomesReady();
      StateIs();
      if source.branchId == "" || target.branchId == "" {
        MergeRefused(s, sourceId, targetId);
        return false;
      }
      if source.status == Merged || source.status == RolledBack {
        MergeRefused(s, sourceId, targetId);
        return false;
      }
      source := source.(status := Merged);
      var sourceStored := store.Update(source);
      var targetStored := false;
      if sourceStored {
        targetStored := store.Update(target);
      }
      ContentsAbs(store);
      BecomesReady();
      if !sourceStored || !targetStored {
        return false;
      }
      activeBranchId := target.branchId;
      StateIs();
      BecomesReady();
      ghost var m := State();
      RunMemoryGovernance(target.branchId, true);
      Merges(s, sourceId, targetId, m, State());
      return true;
    }

    method Resume(branchId: string) returns (ok: bool)
      requires Ready()
      modifies this, store, chain
      ensures Ready() && ResumeStep(old(State()), branchId, ok, State())
    {
      hide *;
      ReadyParts();
      StateIs();
      StoreKeyed(store);
      ghost var s := State();
      FoundRecord(s.store, branchId);
      TargetIs(s, branchId);
      var b := store.Get(branchId);
      ContentsAbs(store);
      BecomesReady();
      StateIs();
      if b.branchId == "" || b.status != Suspended || b.memorySnapshotId == "" {
        ResumeRefused(s, branchId);
        return false;
      }
      var parsed := ParseSnapshotId(b.memorySnapshotId);
      if parsed.None? {
        ResumeRefused(s, branchId);
        return false;
      }
      var snapshotInChain := HasId(chain.snapshots, parsed.value);
      var snapshot := LoadSnapshot(parsed.value);
      if snapshot.None? {
        ResumeRefused(s, branchId);
        return false;
      }
      if !snapshotInChain {
        var priorHistory := chain.snapshots;
        chain.Append(snapshot.value);
        var saved := PersistSnapshotChain();
        if !saved {
          chain.Restore(priorHistory);
          ContentsAbs(store);
          BecomesReady();
          StateIs();
          ResumeUnsaved(s, branchId);
          return false;
        }
      }
      activeGraph := snapshot.value.graph;
      b := b.(status := Active, isOverlayResident := true);
      ResumeRewrites(s, branchId, b);
      var updated := store.Update(b);
      ContentsAbs(store);
      CappedIsShort(s.snapshots.chain + [snapshot.value]);
      BecomesReady();
      if !updated {
        return false;
      }
      activeBranchId := b.branchId;
      StateIs();
      BecomesReady();
      ghost var m := State();
      RunMemoryGovernance(b.branchId, false);
      Resumes(s, branchId, m, State());
      return true;
    }

    /** Makes the snapshot the newest of the chain; undone when the chain cannot be saved. */
    method RewindChain(id: nat, snapshot: StateSnapshot<G>) returns (ok: bool)
      requires |chain.snapshots| <= MAX_SNAPSHOTS_RETAINED
      modifies chain
      ensures |chain.snapshots| <= MAX_SNAPSHOTS_RETAINED
      ensures ok ==> chain.snapshots == if HasId(old(chain.snapshots), id) then CutAfter(old(chain.snapshots), id)
        else [snapshot]
      ensures !ok ==> chain.snapshots == old(chain.snapshots) && persistence != null
    {
      hide *;
      var priorHistory := chain.snapshots;
      InChainFound(chain.snapshots, id);
      CutIsShort(priorHistory, id);
      if HasId(chain.snapshots, id) {
        ok := chain.Rollback(id);
        if !ok {
          return;
        }
      } else {
        chain.Clear();
        chain.Append(snapshot);
        CappedSingle(snapshot);
      }
      ok := PersistSnapshotChain();
      if !ok {
        chain.Restore(priorHistory);
      }
    }

    method Rollback(branchId: string) returns (ok: bool)
      requires Ready()
      modifies this, store, chain
      ensures Ready() && RollbackStep(old(State()), branchId, ok, State())
    {
      hide *;
      ReadyParts();
      StateIs();
      StoreKeyed(store);
      ghost var s := State();
      FoundRecord(s.store, branchId);
      TargetIs(s, branchId);
      StatusRewrites(s.store, branchId, RolledBack);
      var b := store.Get(branchId);
      ContentsAbs(store);
      BecomesReady();
      StateIs();
      if b.branchId == "" || b.memorySnapshotId == "" {
        RollbackRefused(s, branchId);
        return false;
      }
      var parsed := ParseSnapshotId(b.memorySnapshotId);
      if parsed.None? {
        RollbackRefused(s, branchId);
        return false;
      }
      var snapshot := LoadSnapshot(parsed.value);
      if snapshot.None? {
        RollbackRefused(s, branchId);
        return false;
      }
      var rewound := RewindChain(parsed.value, snapshot.value);
      if !rewound {
        ContentsAbs(store);
        BecomesReady();
        StateIs();
        RollbackUnsaved(s, branchId);
        return false;
      }
      activeGraph := snapshot.value.graph;
      b := b.(status := RolledBack);
      var updated := store.Update(b);
      ContentsAbs(store);
      BecomesReady();
      if !updated {
        return false;
      }
      if activeBranchId == branchId {
        activeBranchId := "";
      }
      ClearedIs(s.activeId, branchId);
      StateIs();
      BecomesReady();
      ghost var m := State();
      RollbackReaches(s, branchId, m);
      RunMemoryGovernance(activeBranchId, true);
      RollsBack(s, branchId, m, State());
      return true;
    }
  }

  // ----- the steps the operations make -----

  lemma Archives<G>(s: Life<G>, id: string, m: Life<G>, s': Life<G>)
    requires id in s.store.branches && s.store.branches[id].status != Archived
    requires m == s.(store := WithStatus(s.store, id, Archived), activeId := Cleared(s.activeId, id))
    requires GovernedLife(m, s', m.activeId)
    ensures ArchiveStep(s, id, true, s')
  {
  }

  lemma ArchiveRefused<G>(s: Life<G>, id: string)
    requires !(id in s.store.branches && s.store.branches[id].status != Archived)
    ensures ArchiveStep(s, id, false, s.(store := AfterGet(s.store, id)))
  {
  }

  lemma MergeRewrites(s: StoreState, sourceId: string, targetId: string)
    requires Keyed(s.branches)
    ensures var s2 := AfterGet(AfterGet(s, sourceId), targetId);
      && s2.branches == s.branches
      && Lookup(AfterGet(s, sourceId), targetId) == Lookup(s, targetId)
      && AfterUpdate(AfterUpdate(s2, Lookup(s, sourceId).(status := Merged)), Lookup(s, targetId)) ==
        MergedStore(s, sourceId, targetId)
    ensures sourceId in s.branches && targetId in s.branches ==>
      && MergedStore(s, sourceId, targetId).branches.Keys == s.branches.Keys
      && AfterUpdate(AfterGet(AfterGet(s, sourceId), targetId), Lookup(s, sourceId).(status := Merged)).branches.Keys ==
        s.branches.Keys
  {
    FoundRecord(s, sourceId);
    FoundRecord(s, targetId);
    hide Lookup, Placed, Normalize;
  }

  lemma MergeRefused<G>(s: Life<G>, sourceId: string, targetId: string)
    requires !(sourceId in s.store.branches && targetId in s.store.branches
               && s.store.branches[sourceId].status != Merged && s.store.branches[sourceId].status != RolledBack)
    ensures MergeStep(s, sourceId, targetId, false, s.(store := AfterGet(AfterGet(s.store, sourceId), targetId)))
  {
  }

  lemma Merges<G>(s: Life<G>, sourceId: string, targetId: string, m: Life<G>, s': Life<G>)
    requires sourceId in s.store.branches && targetId in s.store.branches
    requires s.store.branches[sourceId].status != Merged && s.store.branches[sourceId].status != RolledBack
    requires m == s.(store := MergedStore(s.store, sourceId, targetId), activeId := targetId)
      && GovernedLife(m, s', targetId)
    ensures MergeStep(s, sourceId, targetId, true, s')
  {
  }

  lemma TargetIs<G>(s: Life<G>, id: string)
    ensures id !in s.store.branches ==> Target(s, id).None?
    ensures id in s.store.branches ==> var mem := s.store.branches[id].memorySnapshotId;
      && Target(s, id) ==
        (if mem == "" || ParseSnapshotId(mem).None? then None else s.snapshots.Load(ParseSnapshotId(mem).value))
      && (Target(s, id).Some? ==> TargetKey(s, id) == ParseSnapshotId(mem).value)
  {
  }

  lemma ResumeRefused<G>(s: Life<G>, id: string)
    requires !(id in s.store.branches && s.store.branches[id].status == Suspended && Target(s, id).Some?)
    ensures ResumeStep(s, id, false, s.(store := AfterGet(s.store, id)))
  {
  }

  lemma ResumeUnsaved<G>(s: Life<G>, id: string)
    requires id in s.store.branches && s.store.branches[id].status == Suspended && Target(s, id).Some?
    requires s.snapshots.persisting && !HasId(s.snapshots.chain, TargetKey(s, id))
    ensures ResumeStep(s, id, false, s.(store := AfterGet(s.store, id)))
  {
  }

  lemma ResumeRewrites<G>(s: Life<G>, id: string, b: Branch)
    requires Keyed(s.store.branches) && id in s.store.branches && Target(s, id).Some?
    requires b == Lookup(s.store, id).(status := Active, isOverlayResident := true)
    ensures AfterUpdate(AfterGet(s.store, id), b) == Resumed(s, id).store && b.branchId == id
    ensures Resumed(s, id).store.branches.Keys == s.store.branches.Keys
    ensures Resumed(s, id) == s.(store := Resumed(s, id).store, activeId := id, graph := Target(s, id).value.graph,
      snapshots := s.snapshots.(chain :=
        if HasId(s.snapshots.chain, TargetKey(s, id)) then s.snapshots.chain
        else Snapshots.Capped(s.snapshots.chain + [Target(s, id).value])))
  {
    FoundRecord(s.store, id);
    hide Lookup, Target, TargetKey;
  }

  lemma CappedIsShort<T>(s: seq<T>)
    ensures |Snapshots.Capped(s)| <= MAX_SNAPSHOTS_RETAINED
  {
  }

  lemma Resumes<G>(s: Life<G>, id: string, m: Life<G>, s': Life<G>)
    requires id in s.store.branches && s.store.branches[id].status == Suspended && Target(s, id).Some?
    requires m == Resumed(s, id) && GovernedLife(m, s', id)
    ensures ResumeStep(s, id, true, s')
  {
  }

  lemma RollbackRefused<G>(s: Life<G>, id: string)
    requires Target(s, id).None?
    ensures RollbackStep(s, id, false, s.(store := AfterGet(s.store, id)))
  {
  }

  lemma RollbackUnsaved<G>(s: Life<G>, id: string)
    requires Target(s, id).Some? && s.snapshots.persisting
    ensures RollbackStep(s, id, false, s.(store := AfterGet(s.store, id)))
  {
  }

  lemma InChainFound<G>(chain: seq<StateSnapshot<G>>, k: nat)
    ensures HasId(chain, k) ==> FindId(chain, k).Some?
  {
  }

  lemma CappedSingle<T>(x: T)
    ensures Snapshots.Capped([] + [x]) == [x]
  {
    assert [] + [x] == [x];
  }

  lemma CutIsShort<G>(chain: seq<StateSnapshot<G>>, k: nat)
    requires |chain| <= MAX_SNAPSHOTS_RETAINED
    ensures |CutAfter(chain, k)| <= MAX_SNAPSHOTS_RETAINED && 1 <= MAX_SNAPSHOTS_RETAINED
  {
  }

  lemma RollbackReaches<G>(s: Life<G>, id: string, m: Life<G>)
    requires Target(s, id).Some?
    requires m == s.(store := WithStatus(s.store, id, RolledBack), graph := Target(s, id).value.graph,
      activeId := Cleared(s.activeId, id),
      snapshots := s.snapshots.(chain :=
        if HasId(s.snapshots.chain, TargetKey(s, id)) then CutAfter(s.snapshots.chain, TargetKey(s, id))
        else [Target(s, id).value]))
    ensures m == RolledBackTo(s, id)
  {
  }

  lemma RollsBack<G>(s: Life<G>, id: string, m: Life<G>, s': Life<G>)
    requires Target(s, id).Some? && m == RolledBackTo(s, id) && GovernedLife(m, s', Cleared(s.activeId, id))
    ensures RollbackStep(s, id, true, s')
  {
  }

  lemma ClearedIs(activeId: string, id: string)
    ensures Cleared(activeId, id) == if activeId == id then "" else activeId
  {
  }

  lemma StatusRewrites(s: StoreState, id: string, status: BranchState)
    requires Keyed(s.branches)
    ensures id in s.branches ==>
      AfterUpdate(AfterGet(s, id), Lookup(s, id).(status := status)) == WithStatus(s, id, status)
    ensures WithStatus(s, id, status).branches.Keys == s.branches.Keys
  {
    if id in s.branches {
      NormalizeKeeps(s.branches[id]);
    }
  }

  lemma Suspends<G>(s: Life<G>, id: string, m: Life<G>, s': Life<G>)
    requires id in s.store.branches && s.store.branches[id].status == Active
    requires m == s.(store := WithStatus(s.store, id, Suspended), activeId := Cleared(s.activeId, id))
    requires GovernedLife(m, s', m.activeId)
    ensures SuspendStep(s, id, true, s')
  {
  }

  lemma SuspendRefused<G>(s: Life<G>, id: string)
    requires !(id in s.store.branches && s.store.branches[id].status == Active)
    ensures SuspendStep(s, id, false, s.(store := AfterGet(s.store, id)))
  {
  }

  lemma GovernanceDone<G>(s: StoreState, m: StoreState, s': StoreState, before: Life<G>, after: Life<G>,
                          protectedId: string)
    requires Evicting(s, m, protectedId, before.activeId)
    requires CapHolds(m.branches, true, MAX_ACTIVE_BRANCHES, protectedId, before.activeId)
    requires CapHolds(m.branches, false, MAX_TRACKED_BRANCHES, protectedId, before.activeId)
    requires Refreshed(m, s', before.snapshots, m.branches.Keys)
    requires before.store == s && after == before.(store := s', evictions := after.evictions)
    requires after.evictions + |Residents(m.branches)| == before.evictions + |Residents(s.branches)|
    requires after.evictions <= before.evictions + Excess(s.branches)
    ensures GovernedLife(before, after, protectedId)
  {
    hide EvictsTo, Refreshed, Governed, CapsHold, Excess;
    assert CapsHold(m.branches, protectedId, before.activeId) by { BothCaps(m.branches, protectedId, before.activeId); }
    GovernedCompose(s, m, s', protectedId, before.activeId, before.snapshots);
  }

  /** First the active branches beyond their cap, then the resident ones still beyond theirs. */
  lemma ExcessIs(branches: map<string, Branch>, left: nat)
    requires left <= |Residents(branches)|
    requires |Residents(branches)| - left <= Over(|ActiveResidents(branches)|, MAX_ACTIVE_BRANCHES)
    ensures |Residents(branches)| - left + Over(left, MAX_TRACKED_BRANCHES) <= Excess(branches)
  {
  }

  lemma BothCaps(branches: map<string, Branch>, protectedId: string, activeId: string)
    requires CapHolds(branches, true, MAX_ACTIVE_BRANCHES, protectedId, activeId)
    requires CapHolds(branches, false, MAX_TRACKED_BRANCHES, protectedId, activeId)
    ensures CapsHold(branches, protectedId, activeId)
  {
  }

  lemma StoreKeyed(store: BranchStore)
    requires store.Valid() && "" !in store.Contents()
    ensures Keyed(store.Abs().branches) && Keyed(store.Contents()) && store.Abs().branches == store.Contents()
  {
    KeyedConsistent(store.Abs(), store.loaded);
  }

  lemma CountersAre(store: BranchStore)
    ensures store.Abs().globalSequence == store.globalSequence && store.Abs().idCounter == store.idCounter
  {
  }

  lemma ContentsAbs(store: BranchStore)
    ensures store.Abs().branches == store.Contents()
  {
  }

  lemma CountedIs(branches: map<string, Branch>)
    ensures Counted(branches, true) == ActiveResidents(branches) && Counted(branches, false) == Residents(branches)
  {
  }

  lemma CountedResident(branches: map<string, Branch>, activeOnly: bool, id: string)
    requires id in Counted(branches, activeOnly)
    ensures id in Residents(branches)
  {
  }

  lemma NotShieldedId(s: StoreState, id: string, protectedId: string, activeId: string)
    requires Keyed(s.branches) && id in Residents(s.branches) && !Shielded(s.branches[id], protectedId, activeId)
    ensures id != activeId && id in s.branches
  {
  }

  lemma ClearedOther(activeId: string, id: string)
    requires id != activeId
    ensures Cleared(activeId, id) == activeId
  {
  }

  lemma RefreshNothing<G>(s: StoreState, held: SnapshotSource<G>, branches: seq<Branch>)
    ensures Refreshed(s, s, held, Elems(IdsOf(branches[..0])))
  {
    assert branches[..0] == [];
  }

  /** Clearing, or keeping, the reference of the next listed branch. */
  lemma RefreshNext<G>(s: StoreState, s': StoreState, held: SnapshotSource<G>, branches: seq<Branch>, i: nat)
    requires i < |branches| && Lists(branches, s.branches, s.branches.Keys) && Keyed(s.branches)
    requires Refreshed(s, s', held, Elems(IdsOf(branches[..i])))
    ensures var b := branches[i];
      && b.branchId in s'.branches && b.branchId == s.branches[b.branchId].branchId
      && (b.memorySnapshotId == "" || held.Has(b.memorySnapshotId) ==>
        Refreshed(s, s', held, Elems(IdsOf(branches[..i + 1]))))
      && (b.memorySnapshotId != "" && !held.Has(b.memorySnapshotId) ==>
          Refreshed(s, AfterUpdate(s', b.(memorySnapshotId := "")), held, Elems(IdsOf(branches[..i + 1]))))
  {
    hide *;
    var id := NextListed(branches, s.branches, i);
    RefreshStep(s, s', held, Elems(IdsOf(branches[..i])), id);
    RefreshedKeys(s, s', held, Elems(IdsOf(branches[..i])));
  }

  lemma NextListed(branches: seq<Branch>, all: map<string, Branch>, i: nat) returns (id: string)
    requires i < |branches| && Lists(branches, all, all.Keys) && Keyed(all)
    ensures id == branches[i].branchId && id in all && all[id] == branches[i] && all[id].branchId == id
    ensures id !in Elems(IdsOf(branches[..i])) && Elems(IdsOf(branches[..i + 1])) == Elems(IdsOf(branches[..i])) + {id}
  {
    var ids := IdsOf(branches);
    id := branches[i].branchId;
    assert branches[i] in branches;
    AscendingNoDup(ids);
    assert IdsOf(branches[..i]) == ids[..i];
    assert IdsOf(branches[..i + 1]) == ids[..i] + [id];
    ElemsSnoc(ids[..i], id);
  }

  lemma RefreshedKeys<G>(s: StoreState, s': StoreState, held: SnapshotSource<G>, done: set<string>)
    requires Refreshed(s, s', held, done)
    ensures s'.branches.Keys == s.branches.Keys
  {
  }

  lemma RefreshedAll(s: StoreState, branches: seq<Branch>, i: nat)
    requires Lists(branches, s.branches, s.branches.Keys) && i == |branches|
    ensures Elems(IdsOf(branches[..i])) == s.branches.Keys
  {
    assert branches[..i] == branches;
  }

  lemma UpdateKeepsKeys(s: StoreState, b: Branch)
    requires b.branchId in s.branches
    ensures AfterUpdate(s, b).branches.Keys == s.branches.Keys
  {
  }

  lemma LookupSubs(s: StoreState, id: string)
    requires id in s.branches
    ensures Lookup(s, id).subBranches == s.branches[id].subBranches
  {
  }

  lemma NamedIs<G>(snap: StateSnapshot<G>)
    requires snap.snapshotId == Dec(snap.id)
    ensures Named(snap) == snap
  {
    DecDigits(snap.id);
  }

  lemma SpawnPlan(s: StoreState, parentId: string, goal: string, hash: string -> string)
    requires Keyed(s.branches) && NeverEmpty(hash)
    ensures var created := Created(s, Request(parentId, goal), hash);
      && created.branchId != "" && created.memorySnapshotId == ""
      && AfterCreate(s, Request(parentId, goal), hash).branches.Keys == s.branches.Keys + {created.branchId}
  {
    hide IdText;
  }

  lemma ReservedIs(s: StoreState, now: StoreState, parentId: string, goal: string, hash: string -> string)
    requires var s1 := AfterCreate(s, Request(parentId, goal), hash);
      now == s1.(globalSequence := s1.globalSequence + 1)
    ensures now == Reserved(s, parentId, goal, hash) && now.globalSequence > 0
    ensures now.branches == AfterCreate(s, Request(parentId, goal), hash).branches
  {
  }

  lemma RemovesCreated(now: StoreState, s: StoreState, created: Branch)
    requires now.branches.Keys == s.branches.Keys + {created.branchId} && "" !in s.branches && created.branchId != ""
    ensures "" !in AfterRemove(now, created.branchId).branches
  {
  }

  lemma SpawnFails<G>(s: Life<G>, parentId: string, goal: string, hash: string -> string, created: Branch, s': Life<G>)
    requires s.snapshots.persisting && created == Created(s.store, Request(parentId, goal), hash)
    requires var reserved := Reserved(s.store, parentId, goal, hash);
      var k := reserved.globalSequence;
      var snap := StateSnapshot(k, Dec(k), created.branchId, s.graph);
      && (s'.snapshots.graphs == s.snapshots.graphs
          || s'.snapshots.graphs == s.snapshots.graphs[k := Unreadable]
          || s'.snapshots.graphs == s.snapshots.graphs[k := Readable(snap)])
      && s' == s.(store := AfterRemove(reserved, created.branchId),
        snapshots := s.snapshots.(graphs := s'.snapshots.graphs),
                  captured := s.captured[k := Capture(created.branchId, s.graph)])
    ensures SpawnStep(s, parentId, goal, hash, NO_BRANCH, s')
  {
    hide Reserved, Created, Linked, GovernedLife;
  }

  lemma Spawns<G>(s: Life<G>, parentId: string, goal: string, hash: string -> string, r: Branch, m: Life<G>,
                  s': Life<G>)
    requires var created := Created(s.store, Request(parentId, goal), hash);
      var reserved := Reserved(s.store, parentId, goal, hash);
      var k := reserved.globalSequence;
      var snap := StateSnapshot(k, Dec(k), created.branchId, s.graph);
      && r == created.(memorySnapshotId := Dec(k))
      && Linked(AfterUpdate(reserved, r), parentId, created.branchId, m.store)
      && m == Life(m.store,
                   s.snapshots.(chain := Snapshots.Capped(s.snapshots.chain + [snap]),
                                graphs := if s.snapshots.persisting then s.snapshots.graphs[k := Readable(snap)]
                                          else s.snapshots.graphs),
                   s.graph, created.branchId, s.evictions, s.captured[k := Capture(created.branchId, s.graph)])
    requires GovernedLife(m, s', r.branchId)
    ensures SpawnStep(s, parentId, goal, hash, r, s')
  {
    hide Reserved, Created, Linked, GovernedLife, Snapshots.Capped, AfterUpdate;
  }
}
