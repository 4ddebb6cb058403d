/** The branch lifecycle as steps between plain states: what memory governance may do to the records, and what each
    public operation does before governance runs. Governance evicts down to two caps, sparing the branches an operation
    protects, and then clears the references to snapshots that are gone. */
module LifecycleSpec {
  import opened Orders
  import opened Decimals
  import opened Branches
  import opened BranchStores
  import opened Snapshots

  const MAX_ACTIVE_BRANCHES: nat := 3
  const MAX_TRACKED_BRANCHES: nat := 12

  /** Where snapshots can be found: the chain, and the object directory when there is one. */
  datatype SnapshotSource<G> = SnapshotSource(chain: seq<StateSnapshot<G>>, graphs: map<nat, StoredGraph<G>>,
                                              persisting: bool) {
    /** The test for a live snapshot reference. */
    predicate Has(snapshotId: string) {
      snapshotId != "" &&
      (HasName(chain, snapshotId) ||
       (persisting && var id := ParseSnapshotId(snapshotId); id.Some? && id.value in graphs))
    }

    function Load(id: nat): Option<StateSnapshot<G>> {
      if HasId(chain, id) then FindId(chain, id)
      else if persisting then LoadFrom(graphs, id)
      else None
    }
  }

  // ----- governance, record by record -----

  function Demoted(status: BranchState): BranchState {
    if status == Active then Suspended else status
  }

  /** The part of a record that governance never changes. */
  function Core(b: Branch): Branch {
    Normalize(b).(status := Unknown, isOverlayResident := false, memorySnapshotId := "", lastMutationSequence := 0)
  }

  ghost predicate Untouched(b: Branch, b': Branch) {
    b'.isOverlayResident == b.isOverlayResident && b'.status == b.status
  }

  ghost predicate Evicted(b: Branch, b': Branch) {
    b.isOverlayResident && !b'.isOverlayResident && b'.status == Demoted(b.status)
  }

  /** Never evicted: the branch just operated on, the active branch, and executing ones. */
  ghost predicate Shielded(b: Branch, protectedId: string, activeId: string) {
    b.branchId == protectedId || b.branchId == activeId || b.currentExecutionNodeId != ""
  }

  ghost predicate GovernedRecord(b: Branch, b': Branch, shielded: bool, snapshotId: string) {
    && Core(b') == Core(b)
    && (Untouched(b, b') || (Evicted(b, b') && !shielded))
    && b'.memorySnapshotId == snapshotId
  }

  ghost predicate SameBook(s: StoreState, s': StoreState) {
    s'.branches.Keys == s.branches.Keys && s'.idCounter == s.idCounter && s.globalSequence <= s'.globalSequence
  }

  /** Evictions only. */
  ghost predicate EvictsTo(s: StoreState, s': StoreState, protectedId: string, activeId: string) {
    && SameBook(s, s')
    && forall id :: id in s.branches ==>
         GovernedRecord(s.branches[id], s'.branches[id], Shielded(s.branches[id], protectedId, activeId),
           s.branches[id].memorySnapshotId)
  }

  /** Evictions, and references to lost snapshots cleared. */
  ghost predicate Governed<G>(s: StoreState, s': StoreState, protectedId: string, activeId: string,
                              held: SnapshotSource<G>) {
    && SameBook(s, s')
    && forall id :: id in s.branches ==>
         GovernedRecord(s.branches[id], s'.branches[id], Shielded(s.branches[id], protectedId, activeId),
                        if held.Has(s.branches[id].memorySnapshotId) then s.branches[id].memorySnapshotId else "")
  }

  ghost function ActiveResidents(branches: map<string, Branch>): set<string> {
    set id | id in branches && branches[id].isOverlayResident && branches[id].status == Active
  }

  ghost predicate WithinCap(branches: map<string, Branch>, ids: set<string>, cap: nat, protectedId: string,
                            activeId: string)
    requires ids <= branches.Keys
  {
    |ids| <= cap || forall id :: id in ids ==> Shielded(branches[id], protectedId, activeId)
  }

  /** Both caps hold unless everything counted is shielded. */
  ghost predicate CapsHold(branches: map<string, Branch>, protectedId: string, activeId: string) {
    && WithinCap(branches, ActiveResidents(branches), MAX_ACTIVE_BRANCHES, protectedId, activeId)
    && WithinCap(branches, Residents(branches), MAX_TRACKED_BRANCHES, protectedId, activeId)
  }

  /** By how much a cap is exceeded. */
  ghost function Over(count: nat, cap: nat): nat {
    if count > cap then count - cap else 0
  }

  /** How many evictions the caps can ask for. */
  ghost function Excess(branches: map<string, Branch>): nat {
    var active, tracked := Over(|ActiveResidents(branches)|, MAX_ACTIVE_BRANCHES), Over(|Residents(branches)|,
      MAX_TRACKED_BRANCHES);
    if active > tracked then active else tracked
  }

  /** With no executing branch the caps are unconditional. */
  lemma CapsUnconditional(branches: map<string, Branch>, protectedId: string, activeId: string)
    requires CapsHold(branches, protectedId, activeId)
    requires forall id :: id in branches ==> branches[id].branchId == id
    requires forall id :: id in Residents(branches) ==> branches[id].currentExecutionNodeId == ""
    ensures |ActiveResidents(branches)| <= MAX_ACTIVE_BRANCHES && |Residents(branches)| <= MAX_TRACKED_BRANCHES
  {
    assert ActiveResidents(branches) <= Residents(branches);
    if |ActiveResidents(branches)| > MAX_ACTIVE_BRANCHES {
      SubsetSize(ActiveResidents(branches), {protectedId, activeId});
    }
    if |Residents(branches)| > MAX_TRACKED_BRANCHES {
      SubsetSize(Residents(branches), {protectedId, activeId});
    }
  }

  lemma EvictsToRefl(s: StoreState, protectedId: string, activeId: string)
    ensures EvictsTo(s, s, protectedId, activeId)
  {
  }

  lemma CoreFields(b: Branch, b': Branch)
    requires Core(b') == Core(b)
    ensures b'.branchId == b.branchId && b'.currentExecutionNodeId == b.currentExecutionNodeId
  {
    assert Core(b).branchId == b.branchId && Core(b').branchId == b'.branchId;
    assert Core(b).currentExecutionNodeId == b.currentExecutionNodeId
      && Core(b').currentExecutionNodeId == b'.currentExecutionNodeId;
  }

  lemma EvictsToTrans(s: StoreState, s': StoreState, s'': StoreState, protectedId: string, activeId: string)
    requires EvictsTo(s, s', protectedId, activeId) && EvictsTo(s', s'', protectedId, activeId)
    ensures EvictsTo(s, s'', protectedId, activeId)
  {
    forall id | id in s.branches ensures GovernedRecord(s.branches[id], s''.branches[id],
      Shielded(s.branches[id], protectedId, activeId), s.branches[id].memorySnapshotId)
    {
      CoreFields(s.branches[id], s'.branches[id]);
    }
  }

  // ----- one eviction -----

  /** The record an eviction asks the store to keep. */
  function Victim(s: StoreState, id: string): Branch {
    var b := Lookup(s, id);
    b.(isOverlayResident := false, status := Demoted(b.status))
  }

  function EvictedState(s: StoreState, id: string): StoreState {
    AfterEvict(AfterUpdate(AfterGet(s, id), Victim(s, id)), id)
  }

  lemma EvictedStateEffect(s: StoreState, id: string, protectedId: string, activeId: string)
    requires id in s.branches && s.branches[id].branchId == id && s.branches[id].isOverlayResident
    requires !Shielded(s.branches[id], protectedId, activeId)
    ensures EvictsTo(s, EvictedState(s, id), protectedId, activeId)
    ensures Residents(EvictedState(s, id).branches) == Residents(s.branches) - {id}
    ensures ActiveResidents(EvictedState(s, id).branches) == ActiveResidents(s.branches) - {id}
  {
    var b, s' := s.branches[id], EvictedState(s, id);
    NormalizeKeeps(b);
    var r := Normalize(Normalize(Victim(s, id)).(lastMutationSequence := s.globalSequence +
      1)).(isOverlayResident := false);
    assert s'.branches == s.branches[id := r];
    assert Core(r) == Core(b) && Evicted(b, r) && r.memorySnapshotId == b.memorySnapshotId;
  }

  /** Evicting cannot break a cap that holds. */
  lemma EvictsToKeepsCap(s: StoreState, s': StoreState, protectedId: string, activeId: string)
    requires EvictsTo(s, s', protectedId, activeId)
    requires WithinCap(s.branches, ActiveResidents(s.branches), MAX_ACTIVE_BRANCHES, protectedId, activeId)
    ensures WithinCap(s'.branches, ActiveResidents(s'.branches), MAX_ACTIVE_BRANCHES, protectedId, activeId)
  {
    assert ActiveResidents(s'.branches) <= ActiveResidents(s.branches);
    SubsetSize(ActiveResidents(s'.branches), ActiveResidents(s.branches));
    forall id | id in s.branches ensures s'.branches[id].branchId == s.branches[id].branchId
        && s'.branches[id].currentExecutionNodeId == s.branches[id].currentExecutionNodeId {
      CoreFields(s.branches[id], s'.branches[id]);
    }
  }

  // ----- clearing stale references -----

  /** References that are not held are cleared for the ids done so far; nothing else happens. */
  ghost predicate Refreshed<G>(s: StoreState, s': StoreState, held: SnapshotSource<G>, done: set<string>) {
    && SameBook(s, s')
    && forall id :: id in s.branches ==>
         if id in done then
           && Core(s'.branches[id]) == Core(s.branches[id]) && Untouched(s.branches[id], s'.branches[id])
           && s'.branches[id].memorySnapshotId == if held.Has(s.branches[id].memorySnapshotId) then
             s.branches[id].memorySnapshotId else ""
         else s'.branches[id] == s.branches[id]
  }

  lemma RefreshStep<G>(s: StoreState, s': StoreState, held: SnapshotSource<G>, done: set<string>, id: string)
    requires Refreshed(s, s', held, done) && id in s.branches && id !in done && s.branches[id].branchId == id
    ensures var mem := s.branches[id].memorySnapshotId;
      mem == "" || held.Has(mem) ==> Refreshed(s, s', held, done + {id})
    ensures var mem := s.branches[id].memorySnapshotId;
      mem != "" && !held.Has(mem) ==>
        Refreshed(s, AfterUpdate(s', s.branches[id].(memorySnapshotId := "")), held, done + {id})
  {
    var b := s.branches[id];
    NormalizeKeeps(b);
    NormalizeKeeps(b.(memorySnapshotId := ""));
    assert Core(Stamped(s', b.(memorySnapshotId := ""))) == Core(b);
  }

  /** Evictions followed by the refresh are governance. */
  lemma GovernedCompose<G>(s: StoreState, m: StoreState, s': StoreState, protectedId: string, activeId: string,
                           held: SnapshotSource<G>)
    requires EvictsTo(s, m, protectedId, activeId) && Refreshed(m, s', held, m.branches.Keys)
    requires CapsHold(m.branches, protectedId, activeId)
    ensures Governed(s, s', protectedId, activeId, held) && CapsHold(s'.branches, protectedId, activeId)
    ensures Residents(s'.branches) == Residents(m.branches)
  {
    hide Core, Normalize;
    forall id | id in s.branches ensures s'.branches[id].branchId == m.branches[id].branchId
        && s'.branches[id].currentExecutionNodeId == m.branches[id].currentExecutionNodeId
        && m.branches[id].branchId == s.branches[id].branchId {
      CoreFields(m.branches[id], s'.branches[id]);
      CoreFields(s.branches[id], m.branches[id]);
    }
    assert Residents(s'.branches) == Residents(m.branches);
    assert ActiveResidents(s'.branches) == ActiveResidents(m.branches);
    hide Residents, ActiveResidents;
  }
}
