/** The lifecycle operations as steps and the invariant every step keeps: records agree with their keys, every reference
    to a snapshot is held by the chain or by a file, every snapshot shows the graph captured when its branch was
    spawned, and no id was issued twice. */
module LifecycleRuns {
  import opened Orders
  import opened Decimals
  import opened Branches
  import opened BranchStores
  import opened Snapshots
  import opened LifecycleSpec

  /** The graph captured when a branch was spawned. */
  datatype Capture<G> = Capture(branchId: string, graph: G)

  datatype Life<G> = Life(
    store: StoreState,
    snapshots: SnapshotSource<G>,
    graph: G,
    activeId: string,
    evictions: nat,
    captured: map<nat, Capture<G>>)

  // ----- the steps -----

  /** Governance after an operation on `protectedId` that left the state at `m`. */
  ghost predicate GovernedLife<G>(m: Life<G>, s': Life<G>, protectedId: string) {
    && s'.snapshots == m.snapshots && s'.graph == m.graph && s'.activeId == m.activeId && s'.captured == m.captured
    && Governed(m.store, s'.store, protectedId, m.activeId, m.snapshots)
    && CapsHold(s'.store.branches, protectedId, m.activeId)
    && s'.evictions + |Residents(s'.store.branches)| == m.evictions + |Residents(m.store.branches)|
    && s'.evictions <= m.evictions + Excess(m.store.branches)
  }

  function Cleared(activeId: string, id: string): string {
    if activeId == id then "" else activeId
  }

  function Got<G>(s: Life<G>, id: string): Life<G> {
    s.(store := AfterGet(s.store, id))
  }

  /** Look the record up, change its status, store it. */
  function WithStatus(s: StoreState, id: string, status: BranchState): StoreState {
    AfterUpdate(AfterGet(s, id), Lookup(s, id).(status := status))
  }

  ghost predicate SuspendStep<G>(s: Life<G>, id: string, ok: bool, s': Life<G>) {
    if id in s.store.branches && s.store.branches[id].status == Active then
      var m := s.(store := WithStatus(s.store, id, Suspended), activeId := Cleared(s.activeId, id));
      ok && GovernedLife(m, s', m.activeId)
    else
      !ok && s' == Got(s, id)
  }

  /** The snapshot an operation on the branch would restore. */
  function Target<G>(s: Life<G>, id: string): Option<StateSnapshot<G>> {
    if id !in s.store.branches then None
    else
      var k := ParseSnapshotId(s.store.branches[id].memorySnapshotId);
      if s.store.branches[id].memorySnapshotId == "" || k.None? then None else s.snapshots.Load(k.value)
  }

  function TargetKey<G>(s: Life<G>, id: string): nat
    requires Target(s, id).Some?
  {
    ParseSnapshotId(s.store.branches[id].memorySnapshotId).value
  }

  function Resumed<G>(s: Life<G>, id: string): Life<G>
    requires Target(s, id).Some?
  {
    var snap := Target(s, id).value;
    var chain := if HasId(s.snapshots.chain, TargetKey(s, id)) then s.snapshots.chain
      else Snapshots.Capped(s.snapshots.chain + [snap]);
    var b := Lookup(s.store, id).(status := Active, isOverlayResident := true);
    s.(store := AfterUpdate(AfterGet(s.store, id), b), snapshots := s.snapshots.(chain := chain), graph := snap.graph,
      activeId := id)
  }

  ghost predicate ResumeStep<G>(s: Life<G>, id: string, ok: bool, s': Life<G>) {
    if id in s.store.branches && s.store.branches[id].status == Suspended && Target(s, id).Some? then
      || (ok && GovernedLife(Resumed(s, id), s', id))
      || (!ok && s.snapshots.persisting && !HasId(s.snapshots.chain, TargetKey(s, id)) && s' == Got(s, id))
    else
      !ok && s' == Got(s, id)
  }

  function RolledBackTo<G>(s: Life<G>, id: string): Life<G>
    requires Target(s, id).Some?
  {
    var snap := Target(s, id).value;
    var k := TargetKey(s, id);
    var chain := if HasId(s.snapshots.chain, k) then CutAfter(s.snapshots.chain, k) else [snap];
    s.(store := WithStatus(s.store, id, RolledBack), snapshots := s.snapshots.(chain := chain), graph := snap.graph,
       activeId := Cleared(s.activeId, id))
  }

  ghost predicate RollbackStep<G>(s: Life<G>, id: string, ok: bool, s': Life<G>) {
    if Target(s, id).Some? then
      || (ok && GovernedLife(RolledBackTo(s, id), s', Cleared(s.activeId, id)))
      || (!ok && s.snapshots.persisting && s' == Got(s, id))
    else
      !ok && s' == Got(s, id)
  }

  /** Source first, then the target record as it was looked up before. */
  function MergedStore(s: StoreState, sourceId: string, targetId: string): StoreState {
    var s2 := AfterGet(AfterGet(s, sourceId), targetId);
    AfterUpdate(AfterUpdate(s2, Lookup(s, sourceId).(status := Merged)), Lookup(s, targetId))
  }

  ghost predicate MergeStep<G>(s: Life<G>, sourceId: string, targetId: string, ok: bool, s': Life<G>) {
    if sourceId in s.store.branches && targetId in s.store.branches
       && s.store.branches[sourceId].status != Merged && s.store.branches[sourceId].status != RolledBack then
      ok && GovernedLife(s.(store := MergedStore(s.store, sourceId, targetId), activeId := targetId), s', targetId)
    else
      !ok && s' == Got(Got(s, sourceId), targetId)
  }

  ghost predicate ArchiveStep<G>(s: Life<G>, id: string, ok: bool, s': Life<G>) {
    if id in s.store.branches && s.store.branches[id].status != Archived then
      var m := s.(store := WithStatus(s.store, id, Archived), activeId := Cleared(s.activeId, id));
      ok && GovernedLife(m, s', m.activeId)
    else
      !ok && s' == Got(s, id)
  }

  /** The branch a spawn asks the store to create. */
  function Request(parentId: string, goal: string): Branch {
    NO_BRANCH.(parentId := parentId, parentBranchId := parentId, goal := goal, status := Active,
               isOverlayResident := true, confidence := Confidence(1.0, 0.0, 0.0))
  }

  /** After `create` and the reservation of the snapshot id. */
  function Reserved(s: StoreState, parentId: string, goal: string, hash: string -> string): StoreState {
    var s1 := AfterCreate(s, Request(parentId, goal), hash);
    s1.(globalSequence := s1.globalSequence + 1)
  }

  /** Adding the child to an existing parent's list, sorted and without repeats. */
  ghost predicate Linked(s: StoreState, parentId: string, childId: string, s': StoreState) {
    if parentId == "" then s' == s
    else if parentId !in s.branches then s' == AfterGet(s, parentId)
    else
      exists subs :: Ascending(subs) && Elems(subs) == Elems(s.branches[parentId].subBranches) + {childId}
        && s' == AfterUpdate(AfterGet(s, parentId), Lookup(s, parentId).(subBranches := subs))
  }

  ghost predicate SpawnStep<G>(s: Life<G>, parentId: string, goal: string, hash: string -> string, r: Branch,
                               s': Life<G>) {
    var created := Created(s.store, Request(parentId, goal), hash);
    var reserved := Reserved(s.store, parentId, goal, hash);
    var k := reserved.globalSequence;
    var snap := StateSnapshot(k, Dec(k), created.branchId, s.graph);
    var captured := s.captured[k := Capture(created.branchId, s.graph)];
    || (r == created.(memorySnapshotId := Dec(k))
        && exists linked ::
             && Linked(AfterUpdate(reserved, r), parentId, created.branchId, linked)
             && GovernedLife(
                  Life(linked,
                       s.snapshots.(chain := Snapshots.Capped(s.snapshots.chain + [snap]),
                                  graphs := if s.snapshots.persisting then s.snapshots.graphs[k := Readable(snap)]
                                            else s.snapshots.graphs),
                       s.graph, created.branchId, s.evictions, captured),
                  s', created.branchId))
    || (r == NO_BRANCH && s.snapshots.persisting
        && (s'.snapshots.graphs == s.snapshots.graphs
            || s'.snapshots.graphs == s.snapshots.graphs[k := Unreadable]
            || s'.snapshots.graphs == s.snapshots.graphs[k := Readable(snap)])
        && s' == s.(store := AfterRemove(reserved, created.branchId),
          snapshots := s.snapshots.(graphs := s'.snapshots.graphs), captured := captured))
  }

  datatype Operation =
    | Spawn(parentId: string, goal: string, result: Branch)
    | Suspend(id: string, ok: bool)
    | Resume(id: string, ok: bool)
    | Merge(sourceId: string, targetId: string, ok: bool)
    | Archive(id: string, ok: bool)
    | Rollback(id: string, ok: bool)

  /** Every text hashed for an id is among the texts considered. */
  ghost predicate Step<G>(hash: IdHash, s: Life<G>, op: Operation, s': Life<G>) {
    match op
    case Spawn(parentId, goal, r) =>
      IdText(parentId, goal, s.store.idCounter + 1) in hash.texts && SpawnStep(s, parentId, goal, hash.digest, r, s')
    case Suspend(id, ok) => SuspendStep(s, id, ok, s')
    case Resume(id, ok) => ResumeStep(s, id, ok, s')
    case Merge(sourceId, targetId, ok) => MergeStep(s, sourceId, targetId, ok, s')
    case Archive(id, ok) => ArchiveStep(s, id, ok, s')
    case Rollback(id, ok) => RollbackStep(s, id, ok, s')
  }

  // ----- the invariant -----

  ghost predicate Authentic<G>(captured: map<nat, Capture<G>>, x: StateSnapshot<G>) {
    x.id in captured && captured[x.id] == Capture(x.branchId, x.graph) && x.snapshotId == Dec(x.id)
  }

  /** Every stored snapshot is what was captured under its id. */
  ghost predicate SnapshotInv<G>(a: SnapshotSource<G>, captured: map<nat, Capture<G>>) {
    && |a.chain| <= MAX_SNAPSHOTS_RETAINED
    && (forall x :: x in a.chain ==> Authentic(captured, x))
    && (forall k :: k in a.graphs ==> k in captured)
    && (forall k :: k in a.graphs && a.graphs[k].Readable? && a.graphs[k].snapshot.id == k ==>
      Authentic(captured, a.graphs[k].snapshot))
  }

  ghost function CapturedIds<G>(captured: map<nat, Capture<G>>): set<string> {
    set k | k in captured :: captured[k].branchId
  }

  /** Snapshot ids come from the sequence counter, and no branch has two. */
  ghost predicate CaptureInv<G>(captured: map<nat, Capture<G>>, sequence: nat) {
    && (forall k :: k in captured ==> 0 < k <= sequence)
    && (forall j, k :: j in captured && k in captured && captured[j].branchId == captured[k].branchId ==> j == k)
  }

  /** The reference is empty or names the capture of this very branch. */
  ghost predicate Refers<G>(captured: map<nat, Capture<G>>, b: Branch, id: string) {
    b.memorySnapshotId == "" || exists k :: k in captured && b.memorySnapshotId == Dec(k) && captured[k].branchId == id
  }

  ghost predicate RecordInv<G>(captured: map<nat, Capture<G>>, branches: map<string, Branch>) {
    && "" !in branches
    && forall id :: id in branches ==> branches[id].branchId == id && Refers(captured, branches[id], id)
  }

  /** No record refers to a snapshot that is gone. */
  ghost predicate NothingStale<G>(a: SnapshotSource<G>, branches: map<string, Branch>) {
    forall id :: id in branches ==> branches[id].memorySnapshotId == "" || a.Has(branches[id].memorySnapshotId)
  }

  ghost predicate ReadableAt<G>(graphs: map<nat, StoredGraph<G>>, snapshotId: string) {
    forall k :: k in graphs && Dec(k) == snapshotId ==> graphs[k].Readable? && graphs[k].snapshot.id == k
  }

  /** A file that a record refers to was written whole. */
  ghost predicate FilesReadable<G>(a: SnapshotSource<G>, branches: map<string, Branch>) {
    forall id :: id in branches ==> ReadableAt(a.graphs, branches[id].memorySnapshotId)
  }

  /** All of it but the last clause, which only governance establishes. */
  ghost predicate MidInv<G>(hash: IdHash, s: Life<G>) {
    && RecordInv(s.captured, s.store.branches)
    && SnapshotInv(s.snapshots, s.captured)
    && CaptureInv(s.captured, s.store.globalSequence)
    && FilesReadable(s.snapshots, s.store.branches)
    && Issued(hash, s.store.branches.Keys + CapturedIds(s.captured), s.store.idCounter)
  }

  ghost predicate Inv<G>(hash: IdHash, s: Life<G>) {
    MidInv(hash, s) && NothingStale(s.snapshots, s.store.branches)
  }

  /** A new store with an empty chain and object directory. */
  lemma InitialInv<G>(hash: IdHash, graph: G, persisting: bool)
    ensures Inv(hash, Life(StoreState(map[], [], 0, 0), SnapshotSource([], map[], persisting), graph, "", 0, map[]))
  {
  }

  // ----- governance keeps the invariant -----

  lemma GovernedRecordInv<G>(captured: map<nat, Capture<G>>, s: StoreState, s': StoreState, p: string, a: string,
                             held: SnapshotSource<G>)
    requires RecordInv(captured, s.branches) && Governed(s, s', p, a, held)
    ensures RecordInv(captured, s'.branches) && NothingStale(held, s'.branches)
  {
    forall id | id in s'.branches ensures s'.branches[id].branchId == id && Refers(captured, s'.branches[id], id) {
      CoreFields(s.branches[id], s'.branches[id]);
    }
  }

  lemma GovernedFiles<G>(s: StoreState, s': StoreState, p: string, a: string, held: SnapshotSource<G>)
    requires FilesReadable(held, s.branches) && Governed(s, s', p, a, held)
    ensures FilesReadable(held, s'.branches)
  {
    hide Core;
    forall id | id in s'.branches ensures ReadableAt(held.graphs, s'.branches[id].memorySnapshotId) {
      assert ReadableAt(held.graphs, s.branches[id].memorySnapshotId);
    }
  }

  lemma GovernanceKeepsInv<G>(hash: IdHash, m: Life<G>, s': Life<G>, protectedId: string)
    requires MidInv(hash, m) && GovernedLife(m, s', protectedId)
    ensures Inv(hash, s')
  {
    GovernedRecordInv(m.captured, m.store, s'.store, protectedId, m.activeId, m.snapshots);
    GovernedFiles(m.store, s'.store, protectedId, m.activeId, m.snapshots);
    hide Governed, RecordInv, SnapshotInv, NothingStale, FilesReadable, Issued, CapsHold;
    assert SameBook(m.store, s'.store) by { GovernedBook(m.store, s'.store, protectedId, m.activeId, m.snapshots); }
  }

  lemma GovernedBook<G>(s: StoreState, s': StoreState, p: string, a: string, held: SnapshotSource<G>)
    requires Governed(s, s', p, a, held)
    ensures SameBook(s, s')
  {
  }

  // ----- each operation keeps the invariant -----

  /** What no operation changes about a branch. */
  datatype Identity = Identity(goal: string, executionNode: string, creationSequence: nat)

  function IdentityOf(b: Branch): Identity {
    Identity(b.goal, b.currentExecutionNodeId, b.creationSequence)
  }

  /** What holds between a state and every later one: no branch is lost or changes its identity, terminal
      branches stay terminal, captures stay, and new branches execute nothing. */
  ghost predicate Progress<G>(s: Life<G>, s': Life<G>) {
    && s.store.branches.Keys <= s'.store.branches.Keys
    && (forall id :: id in s.store.branches ==> IdentityOf(s'.store.branches[id]) == IdentityOf(s.store.branches[id]))
    && (forall id :: id in s'.store.branches && id !in s.store.branches ==>
      s'.store.branches[id].currentExecutionNodeId == "")
    && (forall id :: id in s.store.branches && s.store.branches[id].status.Terminal() ==>
      s'.store.branches[id].status.Terminal())
    && (forall k :: k in s.captured ==> k in s'.captured && s'.captured[k] == s.captured[k])
  }

  lemma ProgressTrans<G>(a: Life<G>, b: Life<G>, c: Life<G>)
    requires Progress(a, b) && Progress(b, c)
    ensures Progress(a, c)
  {
  }

  lemma CoreIdentity(b: Branch, b': Branch)
    requires Core(b') == Core(b)
    ensures IdentityOf(b') == IdentityOf(b)
  {
    assert IdentityOf(Core(b)) == IdentityOf(b) && IdentityOf(Core(b')) == IdentityOf(b');
  }

  lemma GovernanceProgress<G>(m: Life<G>, s': Life<G>, protectedId: string)
    requires GovernedLife(m, s', protectedId)
    ensures Progress(m, s')
  {
    forall id | id in m.store.branches ensures id in s'.store.branches
        && IdentityOf(s'.store.branches[id]) == IdentityOf(m.store.branches[id])
        && (m.store.branches[id].status.Terminal() ==> s'.store.branches[id].status.Terminal()) {
      CoreIdentity(m.store.branches[id], s'.store.branches[id]);
      assert GovernedRecord(m.store.branches[id], s'.store.branches[id],
        Shielded(m.store.branches[id], protectedId, m.activeId),
                            if m.snapshots.Has(m.store.branches[id].memorySnapshotId) then
                              m.store.branches[id].memorySnapshotId else "");
    }
  }

  /** Between a state and the one governance starts from: same ids and captures, records still refer to
      their own captures. */
  lemma MidFromSame<G>(hash: IdHash, s: Life<G>, m: Life<G>)
    requires MidInv(hash, s) && m.captured == s.captured
    requires m.store.branches.Keys == s.store.branches.Keys && m.store.idCounter == s.store.idCounter
    requires m.store.globalSequence >= s.store.globalSequence
    requires SnapshotInv(m.snapshots, s.captured) && RecordInv(s.captured, m.store.branches)
    requires FilesReadable(m.snapshots, m.store.branches)
    ensures MidInv(hash, m)
  {
    hide RecordInv, SnapshotInv, FilesReadable, Issued;
  }

  /** Storing a record under its own id with its own reference. */
  lemma UpdateRecordInv<G>(captured: map<nat, Capture<G>>, s: StoreState, b: Branch)
    requires RecordInv(captured, s.branches) && b.branchId in s.branches && Refers(captured, b, b.branchId)
    ensures RecordInv(captured, AfterUpdate(s, b).branches)
    ensures AfterUpdate(s, b).branches.Keys == s.branches.Keys
  {
    NormalizeKeeps(b);
  }

  lemma SameReferences<G>(a: SnapshotSource<G>, branches: map<string, Branch>, a': SnapshotSource<G>,
                          branches': map<string, Branch>)
    requires FilesReadable(a, branches) && a'.graphs == a.graphs && branches'.Keys == branches.Keys
    requires forall id :: id in branches ==> branches'[id].memorySnapshotId == branches[id].memorySnapshotId
    ensures FilesReadable(a', branches')
  {
    forall id | id in branches' ensures ReadableAt(a'.graphs, branches'[id].memorySnapshotId) {
      assert ReadableAt(a.graphs, branches[id].memorySnapshotId);
    }
  }

  /** One record rewritten: everything else stays, and its status is the one asked for. */
  lemma RewriteKeeps<G>(hash: IdHash, s: Life<G>, id: string, b: Branch)
    requires MidInv(hash, s) && id in s.store.branches
    requires b.branchId == id && b.memorySnapshotId == s.store.branches[id].memorySnapshotId
    requires IdentityOf(b) == IdentityOf(s.store.branches[id])
    ensures var m := s.(store := AfterUpdate(AfterGet(s.store, id), b));
      && MidInv(hash, m)
      && m.store.branches.Keys == s.store.branches.Keys && m.store.branches[id].status == b.status
      && IdentityOf(m.store.branches[id]) == IdentityOf(b)
      && forall x :: x in s.store.branches && x != id ==> m.store.branches[x] == s.store.branches[x]
  {
    NormalizeKeeps(b);
    assert Refers(s.captured, s.store.branches[id], id);
    UpdateRecordInv(s.captured, AfterGet(s.store, id), b);
    MidFromSame(hash, s, s.(store := AfterUpdate(AfterGet(s.store, id), b)));
  }

  lemma GotKeepsInv<G>(hash: IdHash, s: Life<G>, id: string)
    requires Inv(hash, s)
    ensures Inv(hash, Got(s, id)) && Progress(s, Got(s, id))
  {
    hide RecordInv, SnapshotInv, Issued, NothingStale, CaptureInv;
  }

  /** One record rewritten, snapshots and graph possibly changed, then governance. */
  lemma RewriteThenGovern<G>(hash: IdHash, s: Life<G>, id: string, b: Branch, m: Life<G>, s': Life<G>,
                             protectedId: string)
    requires Inv(hash, s) && id in s.store.branches
    requires b.branchId == id && b.memorySnapshotId == s.store.branches[id].memorySnapshotId
    requires IdentityOf(b) == IdentityOf(s.store.branches[id])
    requires s.store.branches[id].status.Terminal() ==> b.status.Terminal()
    requires m.store == AfterUpdate(AfterGet(s.store, id), b) && m.captured == s.captured
      && SnapshotInv(m.snapshots, s.captured)
    requires m.snapshots.graphs == s.snapshots.graphs
    requires GovernedLife(m, s', protectedId)
    ensures Inv(hash, s') && Progress(s, s')
  {
    hide RecordInv, SnapshotInv, Issued, NothingStale, CaptureInv, GovernedLife, AfterUpdate, BranchState.Terminal,
      IdentityOf;
    RewriteKeeps(hash, s, id, b);
    var m0 := s.(store := m.store);
    MidFromSame(hash, m0, m);
    assert Progress(s, m);
    GovernanceKeepsInv(hash, m, s', protectedId);
    GovernanceProgress(m, s', protectedId);
    ProgressTrans(s, m, s');
  }

  lemma LookupKeeps(s: StoreState, id: string)
    requires id in s.branches && s.branches[id].branchId == id
    ensures var b := Lookup(s, id);
      b.branchId == id && b.memorySnapshotId == s.branches[id].memorySnapshotId && b.status == s.branches[id].status
    ensures IdentityOf(Lookup(s, id)) == IdentityOf(s.branches[id])
  {
    NormalizeKeeps(s.branches[id]);
  }

  lemma InvKeys<G>(hash: IdHash, s: Life<G>, id: string)
    requires MidInv(hash, s) && id in s.store.branches
    ensures id != "" && s.store.branches[id].branchId == id && SnapshotInv(s.snapshots, s.captured)
  {
  }

  lemma SuspendKeepsInv<G>(hash: IdHash, s: Life<G>, id: string, ok: bool, s': Life<G>)
    requires Inv(hash, s) && SuspendStep(s, id, ok, s')
    ensures Inv(hash, s') && Progress(s, s')
  {
    hide Inv, MidInv, Progress, GovernedLife, AfterUpdate, Lookup;
    if !ok {
      GotKeepsInv(hash, s, id);
    } else {
      assert MidInv(hash, s) by { InvIsMid(hash, s); }
      InvKeys(hash, s, id);
      LookupKeeps(s.store, id);
      var m := s.(store := WithStatus(s.store, id, Suspended), activeId := Cleared(s.activeId, id));
      RewriteThenGovern(hash, s, id, Lookup(s.store, id).(status := Suspended), m, s', m.activeId);
    }
  }

  lemma InvIsMid<G>(hash: IdHash, s: Life<G>)
    requires Inv(hash, s)
    ensures MidInv(hash, s)
  {
  }

  lemma ArchiveKeepsInv<G>(hash: IdHash, s: Life<G>, id: string, ok: bool, s': Life<G>)
    requires Inv(hash, s) && ArchiveStep(s, id, ok, s')
    ensures Inv(hash, s') && Progress(s, s')
  {
    hide Inv, MidInv, Progress, GovernedLife, AfterUpdate, Lookup;
    if !ok {
      GotKeepsInv(hash, s, id);
    } else {
      InvIsMid(hash, s);
      InvKeys(hash, s, id);
      LookupKeeps(s.store, id);
      var m := s.(store := WithStatus(s.store, id, Archived), activeId := Cleared(s.activeId, id));
      RewriteThenGovern(hash, s, id, Lookup(s.store, id).(status := Archived), m, s', m.activeId);
    }
  }

  /** The snapshot found for a branch is the one captured when that branch was spawned. */
  lemma TargetIsOwnCapture<G>(hash: IdHash, s: Life<G>, id: string)
    requires MidInv(hash, s) && Target(s, id).Some?
    ensures var k := TargetKey(s, id);
      && k in s.captured && s.captured[k] == Capture(id, Target(s, id).value.graph)
      && Target(s, id).value.id == k && Authentic(s.captured, Target(s, id).value)
  {
    var mem := s.store.branches[id].memorySnapshotId;
    assert Refers(s.captured, s.store.branches[id], id);
    var k :| k in s.captured && mem == Dec(k) && s.captured[k].branchId == id;
    ParseDec(k);
    var snap := Target(s, id).value;
    if HasId(s.snapshots.chain, k) {
      assert snap in s.snapshots.chain;
    } else {
      assert snap == Named(s.snapshots.graphs[k].snapshot);
      assert Authentic(s.captured, s.snapshots.graphs[k].snapshot);
    }
  }

  lemma AppendKeepsSnapshots<G>(a: SnapshotSource<G>, captured: map<nat, Capture<G>>, x: StateSnapshot<G>)
    requires SnapshotInv(a, captured) && Authentic(captured, x)
    ensures SnapshotInv(a.(chain := Snapshots.Capped(a.chain + [x])), captured)
    ensures SnapshotInv(a.(chain := [x]), captured)
  {
    forall y | y in Snapshots.Capped(a.chain + [x]) ensures Authentic(captured, y) {
      assert y in a.chain + [x];
    }
  }

  lemma ResumeKeepsInv<G>(hash: IdHash, s: Life<G>, id: string, ok: bool, s': Life<G>)
    requires Inv(hash, s) && ResumeStep(s, id, ok, s')
    ensures Inv(hash, s') && Progress(s, s')
    ensures ok ==> exists k :: k in s.captured && s.captured[k] == Capture(id, s'.graph)
  {
    hide Inv, MidInv, Progress, Governed, CapsHold, AfterUpdate, Lookup, Target, TargetKey, SnapshotInv,
      Snapshots.Capped, HasId, Authentic;
    if !ok {
      GotKeepsInv(hash, s, id);
    } else {
      InvIsMid(hash, s);
      InvKeys(hash, s, id);
      LookupKeeps(s.store, id);
      TargetIsOwnCapture(hash, s, id);
      AppendKeepsSnapshots(s.snapshots, s.captured, Target(s, id).value);
      var m := Resumed(s, id);
      assert m.snapshots == s.snapshots
        || m.snapshots == s.snapshots.(chain := Snapshots.Capped(s.snapshots.chain + [Target(s, id).value]));
      RewriteThenGovern(hash, s, id, Lookup(s.store, id).(status := Active, isOverlayResident := true), m, s', id);
    }
  }

  lemma CutKeepsSnapshots<G>(a: SnapshotSource<G>, captured: map<nat, Capture<G>>, k: nat)
    requires SnapshotInv(a, captured)
    ensures SnapshotInv(a.(chain := CutAfter(a.chain, k)), captured)
  {
  }

  lemma RollbackKeepsInv<G>(hash: IdHash, s: Life<G>, id: string, ok: bool, s': Life<G>)
    requires Inv(hash, s) && RollbackStep(s, id, ok, s')
    ensures Inv(hash, s') && Progress(s, s')
    ensures ok ==> exists k :: k in s.captured && s.captured[k] == Capture(id, s'.graph)
  {
    assert Target(s, id).Some? ==> id in s.store.branches;
    hide Inv, MidInv, Progress, Governed, CapsHold, AfterUpdate, Lookup, Target, TargetKey, SnapshotInv, CutAfter,
      HasId, Authentic;
    if !ok {
      GotKeepsInv(hash, s, id);
    } else {
      InvIsMid(hash, s);
      InvKeys(hash, s, id);
      LookupKeeps(s.store, id);
      TargetIsOwnCapture(hash, s, id);
      AppendKeepsSnapshots(s.snapshots, s.captured, Target(s, id).value);
      CutKeepsSnapshots(s.snapshots, s.captured, TargetKey(s, id));
      var m := RolledBackTo(s, id);
      RewriteThenGovern(hash, s, id, Lookup(s.store, id).(status := RolledBack), m, s', m.activeId);
    }
  }

  /** Merging a branch into itself stores the old record last, so its status stays. */
  lemma MergedRecords<G>(captured: map<nat, Capture<G>>, s: StoreState, sourceId: string, targetId: string)
    requires RecordInv(captured, s.branches) && sourceId in s.branches && targetId in s.branches
    ensures var m := MergedStore(s, sourceId, targetId);
      && RecordInv(captured, m.branches) && m.branches.Keys == s.branches.Keys
      && m.idCounter == s.idCounter && m.globalSequence >= s.globalSequence
      && (forall x :: x in s.branches && x != sourceId && x != targetId ==> m.branches[x] == s.branches[x])
      && (forall x :: x in s.branches ==> IdentityOf(m.branches[x]) == IdentityOf(s.branches[x]))
      && (forall x :: x in s.branches ==> m.branches[x].memorySnapshotId == s.branches[x].memorySnapshotId)
      && m.branches[targetId].status == s.branches[targetId].status
      && (sourceId != targetId ==> m.branches[sourceId].status == Merged)
  {
    LookupKeeps(s, sourceId);
    LookupKeeps(s, targetId);
    var s2 := AfterGet(AfterGet(s, sourceId), targetId);
    var source, target := Lookup(s, sourceId).(status := Merged), Lookup(s, targetId);
    NormalizeKeeps(source);
    NormalizeKeeps(target);
    assert Refers(captured, s.branches[sourceId], sourceId) && Refers(captured, s.branches[targetId], targetId);
    hide Lookup, Normalize;
    UpdateRecordInv(captured, s2, source);
    UpdateRecordInv(captured, AfterUpdate(s2, source), target);
    hide RecordInv, Placed;
  }

  lemma MergeKeepsInv<G>(hash: IdHash, s: Life<G>, sourceId: string, targetId: string, ok: bool, s': Life<G>)
    requires Inv(hash, s) && MergeStep(s, sourceId, targetId, ok, s')
    ensures Inv(hash, s') && Progress(s, s')
  {
    hide AfterGet, GovernedLife, RecordInv, SnapshotInv, FilesReadable, Issued, NothingStale, CaptureInv, MergedStore;
    if !ok {
      GotKeepsInv(hash, s, sourceId);
      GotKeepsInv(hash, Got(s, sourceId), targetId);
      ProgressTrans(s, Got(s, sourceId), Got(Got(s, sourceId), targetId));
    } else {
      MergedRecords(s.captured, s.store, sourceId, targetId);
      var m := s.(store := MergedStore(s.store, sourceId, targetId), activeId := targetId);
      SameReferences(s.snapshots, s.store.branches, m.snapshots, m.store.branches);
      MidFromSame(hash, s, m);
      assert Progress(s, m);
      GovernanceKeepsInv(hash, m, s', targetId);
      GovernanceProgress(m, s', targetId);
      ProgressTrans(s, m, s');
    }
  }
}
