/** Whole runs of the branch lifecycle in the program around it. */
module LifecycleHistories {
  // Between two operations the owner of the graph may change it at will, the store's callers may set what a branch
  // executes, and the program may be restarted: then store and snapshot chain are read back from disk and a new
  // lifecycle is made over them.

  import opened Orders
  import opened Decimals
  import opened Branches
  import opened BranchStores
  import opened Snapshots
  import opened LifecycleSpec
  import opened LifecycleRuns
  import opened LifecycleTheorems
  import opened LifecycleEffects
  import BranchFiles

  datatype Event<G> =
    | Call(op: Operation)
    | Edit(graph: G)
    | Execute(id: string, node: string)
    | Restart(graph: G)

  // ----- what happens between operations -----

  /** A caller sets the execution node of a record through the store; an unknown id is refused. */
  function Executing<G>(s: Life<G>, id: string, node: string): Life<G> {
    if id !in s.store.branches then s
    else s.(store := AfterUpdate(s.store, Lookup(s.store, id).(currentExecutionNodeId := node)))
  }

  /** Saved in full and loaded again, through a directory that holds the files of no other branches. */
  ghost predicate Reloaded(s: StoreState, s': StoreState) {
    exists d, d', before, loaded: bool ::
      && Consistent(s, loaded) && "metadata" !in s.branches
      && (forall n, id :: !BranchFiles.Leftover(d, s, n, id))
      && BranchFiles.Saved(d, s, s.branches.Keys, d') && BranchFiles.Loaded(d', before, s')
  }

  /** The chain is read from a list of any age, as far as its snapshots can be loaded; numbers fit 64 bits. */
  ghost predicate RestartStep<G>(s: Life<G>, graph: G, s': Life<G>) {
    && s.snapshots.persisting && s.store.globalSequence < TWO_64 && Reloaded(s.store, s'.store)
    && |s'.snapshots.chain| <= MAX_SNAPSHOTS_RETAINED
    && (forall x :: x in s'.snapshots.chain ==> LoadFrom(s.snapshots.graphs, x.id) == Some(x))
    && s' == Life(s'.store, s.snapshots.(chain := s'.snapshots.chain), graph, "", 0, s.captured)
  }

  ghost predicate Happens<G>(hash: IdHash, s: Life<G>, e: Event<G>, s': Life<G>) {
    match e
    case Call(op) => Step(hash, s, op, s')
    case Edit(graph) => s' == s.(graph := graph)
    case Execute(id, node) => s' == Executing(s, id, node)
    case Restart(graph) => RestartStep(s, graph, s')
  }

  // ----- the invariant -----

  ghost predicate Filed(graphs: set<nat>, snapshotId: string) {
    snapshotId == "" || exists k :: k in graphs && snapshotId == Dec(k)
  }

  /** When snapshots are saved, every reference has its file, so that losing the chain loses no reference. */
  ghost predicate AllFiled<G>(s: Life<G>) {
    s.snapshots.persisting ==>
      forall id :: id in s.store.branches ==> Filed(s.snapshots.graphs.Keys, s.store.branches[id].memorySnapshotId)
  }

  ghost predicate Sane<G>(hash: IdHash, s: Life<G>) {
    Inv(hash, s) && AllFiled(s)
  }

  /** What holds between a state and every later one: no branch is lost or changes its goal, terminal branches stay
      terminal, and captures stay. */
  ghost predicate Follows<G>(s: Life<G>, s': Life<G>) {
    && s.store.branches.Keys <= s'.store.branches.Keys
    && (forall id :: id in s.store.branches ==> s'.store.branches[id].goal == s.store.branches[id].goal)
    && (forall id :: id in s.store.branches && s.store.branches[id].status.Terminal() ==>
      s'.store.branches[id].status.Terminal())
    && (forall k :: k in s.captured ==> k in s'.captured && s'.captured[k] == s.captured[k])
  }

  lemma ProgressFollows<G>(s: Life<G>, s': Life<G>)
    requires Progress(s, s')
    ensures Follows(s, s')
  {
    forall id | id in s.store.branches ensures s'.store.branches[id].goal == s.store.branches[id].goal {
      assert IdentityOf(s'.store.branches[id]) == IdentityOf(s.store.branches[id]);
    }
  }

  lemma FollowsTrans<G>(a: Life<G>, b: Life<G>, c: Life<G>)
    requires Follows(a, b) && Follows(b, c)
    ensures Follows(a, c)
  {
  }

  lemma FollowsRefl<G>(s: Life<G>)
    ensures Follows(s, s)
  {
  }

  // ----- operations keep references filed -----

  /** The references of the branches are the old ones, empty, or numbers of files. */
  ghost predicate ReferencesKept(branches: map<string, Branch>, branches': map<string, Branch>, graphs': set<nat>) {
    forall id :: id in branches' ==>
      || Filed(graphs', branches'[id].memorySnapshotId)
      || (id in branches && branches'[id].memorySnapshotId == branches[id].memorySnapshotId)
  }

  lemma KeptFiled<G>(s: Life<G>, s': Life<G>)
    requires AllFiled(s) && s'.snapshots.persisting == s.snapshots.persisting
    requires s.snapshots.graphs.Keys <= s'.snapshots.graphs.Keys
    requires s.snapshots.persisting ==> ReferencesKept(s.store.branches, s'.store.branches, s'.snapshots.graphs.Keys)
    ensures AllFiled(s')
  {
  }

  lemma GovernedFiled<G>(m: Life<G>, s': Life<G>, protectedId: string)
    requires AllFiled(m) && GovernedLife(m, s', protectedId)
    ensures AllFiled(s')
  {
    hide Filed, CapsHold, Core;
    assert Filed(m.snapshots.graphs.Keys, "") by { FiledNone(m.snapshots.graphs.Keys); }
    forall id | id in s'.store.branches ensures s'.snapshots.persisting ==>
      Filed(s'.snapshots.graphs.Keys, s'.store.branches[id].memorySnapshotId)
    {
      assert id in m.store.branches;
    }
  }

  lemma FiledNone(graphs: set<nat>)
    ensures Filed(graphs, "")
  {
  }

  lemma RewrittenReferences(s: StoreState, id: string, b: Branch)
    requires id in s.branches && b.branchId == id && b.memorySnapshotId == s.branches[id].memorySnapshotId
    ensures var s' := AfterUpdate(AfterGet(s, id), b);
      && s'.branches.Keys == s.branches.Keys
      && forall x :: x in s.branches ==> s'.branches[x].memorySnapshotId == s.branches[x].memorySnapshotId
  {
    NormalizeKeeps(b);
  }

  /** The shape of all operations but spawning: records with their old references, then governance. */
  lemma ThenGoverned<G>(s: Life<G>, m: Life<G>, s': Life<G>, protectedId: string)
    requires AllFiled(s) && m.snapshots.graphs == s.snapshots.graphs && m.snapshots.persisting == s.snapshots.persisting
    requires m.store.branches.Keys == s.store.branches.Keys && GovernedLife(m, s', protectedId)
    requires forall x :: x in s.store.branches ==>
      m.store.branches[x].memorySnapshotId == s.store.branches[x].memorySnapshotId
    ensures AllFiled(s')
  {
    hide Filed, GovernedLife;
    KeptFiled(s, m);
    GovernedFiled(m, s', protectedId);
  }

  lemma SpawnFiled<G>(hash: IdHash, s: Life<G>, parentId: string, goal: string, r: Branch, s': Life<G>)
    requires Inv(hash, s) && GoodHash(hash) && AllFiled(s) && Step(hash, s, Spawn(parentId, goal, r), s')
    ensures AllFiled(s')
  {
    hide Inv, GoodHash, Governed, CapsHold, Linked, Created, Reserved, AllFiled, ReferencesKept;
    SpawnKeepsInv(hash, s, parentId, goal, r, s');
    if r.branchId == "" {
      assert s.snapshots.graphs.Keys <= s'.snapshots.graphs.Keys;
      SameReferencesKept(s.store.branches, s'.snapshots.graphs.Keys);
      KeptFiled(s, s');
    } else {
      var m :| SpawnedTo(s, parentId, goal, hash.digest, r, m) && GovernedLife(m, s', r.branchId);
      SpawnedReferences(hash, s, parentId, goal, r, m);
      hide SpawnedTo, GovernedLife;
      KeptFiled(s, m);
      GovernedFiled(m, s', r.branchId);
    }
  }

  lemma SameReferencesKept(branches: map<string, Branch>, graphs: set<nat>)
    ensures ReferencesKept(branches, branches, graphs)
  {
  }

  lemma SpawnedReferences<G>(hash: IdHash, s: Life<G>, parentId: string, goal: string, r: Branch, m: Life<G>)
    requires Inv(hash, s) && GoodHash(hash) && IdText(parentId, goal, s.store.idCounter + 1) in hash.texts
    requires SpawnedTo(s, parentId, goal, hash.digest, r, m)
    ensures m.snapshots.persisting == s.snapshots.persisting && s.snapshots.graphs.Keys <= m.snapshots.graphs.Keys
    ensures s.snapshots.persisting ==> ReferencesKept(s.store.branches, m.store.branches, m.snapshots.graphs.Keys)
  {
    hide Inv, GoodHash, Linked, Created, Reserved;
    SpawnedMid(hash, s, parentId, goal, r, m);
  }

  lemma GotFiled<G>(s: Life<G>, id: string)
    requires AllFiled(s)
    ensures AllFiled(Got(s, id))
  {
    hide Filed;
  }

  lemma RewriteFiled<G>(s: Life<G>, id: string, b: Branch, m: Life<G>, s': Life<G>, protectedId: string)
    requires AllFiled(s) && id in s.store.branches && b.branchId == id
    requires b.memorySnapshotId == s.store.branches[id].memorySnapshotId
    requires m.store == AfterUpdate(AfterGet(s.store, id), b) && GovernedLife(m, s', protectedId)
    requires m.snapshots.graphs == s.snapshots.graphs && m.snapshots.persisting == s.snapshots.persisting
    ensures AllFiled(s')
  {
    hide AllFiled, GovernedLife, AfterUpdate, AfterGet;
    RewrittenReferences(s.store, id, b);
    ThenGoverned(s, m, s', protectedId);
  }

  lemma StatusFiled<G>(hash: IdHash, s: Life<G>, id: string, status: BranchState, m: Life<G>, s': Life<G>,
                       protectedId: string)
    requires Inv(hash, s) && AllFiled(s) && id in s.store.branches
    requires m.store == WithStatus(s.store, id, status) && GovernedLife(m, s', protectedId)
    requires m.snapshots.graphs == s.snapshots.graphs && m.snapshots.persisting == s.snapshots.persisting
    ensures AllFiled(s')
  {
    InvIsMid(hash, s);
    InvKeys(hash, s, id);
    hide Inv, AllFiled, GovernedLife, AfterUpdate, AfterGet;
    LookupKeeps(s.store, id);
    RewriteFiled(s, id, Lookup(s.store, id).(status := status), m, s', protectedId);
  }

  lemma MergeFiled<G>(hash: IdHash, s: Life<G>, sourceId: string, targetId: string, ok: bool, s': Life<G>)
    requires Inv(hash, s) && AllFiled(s) && MergeStep(s, sourceId, targetId, ok, s')
    ensures AllFiled(s')
  {
    InvIsMid(hash, s);
    MidParts(hash, s);
    hide Inv, MidInv, AllFiled, GovernedLife, MergedStore, AfterGet, RecordInv;
    if ok {
      MergedRecords(s.captured, s.store, sourceId, targetId);
      ThenGoverned(s, s.(store := MergedStore(s.store, sourceId, targetId), activeId := targetId), s', targetId);
    } else {
      GotFiled(s, sourceId);
      GotFiled(Got(s, sourceId), targetId);
    }
  }

  lemma ResumeFiled<G>(hash: IdHash, s: Life<G>, id: string, ok: bool, s': Life<G>)
    requires Inv(hash, s) && AllFiled(s) && ResumeStep(s, id, ok, s')
    ensures AllFiled(s')
  {
    hide AllFiled, GovernedLife, AfterUpdate, AfterGet;
    if ok {
      InvIsMid(hash, s);
      InvKeys(hash, s, id);
      LookupKeeps(s.store, id);
      hide Inv;
      var b := Lookup(s.store, id).(status := Active, isOverlayResident := true);
      RewriteFiled(s, id, b, Resumed(s, id), s', id);
    } else {
      GotFiled(s, id);
    }
  }

  lemma RollbackFiled<G>(hash: IdHash, s: Life<G>, id: string, ok: bool, s': Life<G>)
    requires Inv(hash, s) && AllFiled(s) && RollbackStep(s, id, ok, s')
    ensures AllFiled(s')
  {
    hide AllFiled, GovernedLife, AfterUpdate, AfterGet, Inv;
    if ok {
      StatusFiled(hash, s, id, RolledBack, RolledBackTo(s, id), s', Cleared(s.activeId, id));
    } else {
      GotFiled(s, id);
    }
  }

  lemma StepFiled<G>(hash: IdHash, s: Life<G>, op: Operation, s': Life<G>)
    requires Inv(hash, s) && GoodHash(hash) && AllFiled(s) && Step(hash, s, op, s')
    ensures AllFiled(s')
  {
    hide Inv, GoodHash, AllFiled, SpawnStep, ResumeStep, MergeStep, RollbackStep, GovernedLife, WithStatus, AfterGet;
    match op {
      case Spawn(parentId, goal, r) => SpawnFiled(hash, s, parentId, goal, r, s');
      case Suspend(id, ok) =>
        if ok {
          var m := s.(store := WithStatus(s.store, id, Suspended), activeId := Cleared(s.activeId, id));
          StatusFiled(hash, s, id, Suspended, m, s', m.activeId);
        } else {
          GotFiled(s, id);
        }
      case Resume(id, ok) => ResumeFiled(hash, s, id, ok, s');
      case Merge(sourceId, targetId, ok) => MergeFiled(hash, s, sourceId, targetId, ok, s');
      case Archive(id, ok) =>
        if ok {
          var m := s.(store := WithStatus(s.store, id, Archived), activeId := Cleared(s.activeId, id));
          StatusFiled(hash, s, id, Archived, m, s', m.activeId);
        } else {
          GotFiled(s, id);
        }
      case Rollback(id, ok) => RollbackFiled(hash, s, id, ok, s');
    }
  }

  // ----- restarting -----

  lemma ReloadedParts(s: StoreState, s': StoreState)
    requires Reloaded(s, s') && "" !in s.branches
    ensures s'.branches.Keys == s.branches.Keys
    ensures s'.idCounter == s.idCounter && s'.globalSequence == s.globalSequence
    ensures forall id :: id in s.branches ==> BranchFiles.Restored(s.branches[id], s'.branches[id])
  {
    hide *;
    var d, d', before, loaded := ReloadedThrough(s, s');
    BranchFiles.SaveThenLoad(s, loaded, d, d', before, s');
    forall id | id in s.branches ensures BranchFiles.Restored(s.branches[id], s'.branches[id]) {
      BranchFiles.SavedComesBack(s, loaded, d, d', before, s', id);
    }
    assert forall id :: id in s'.branches <==> id in s.branches;
  }

  lemma ReloadedThrough(s: StoreState, s': StoreState)
    returns (d: BranchFiles.Files, d': BranchFiles.Files, before: StoreState, loaded: bool)
    requires Reloaded(s, s')
    ensures Consistent(s, loaded) && "metadata" !in s.branches
    ensures forall n, id :: !BranchFiles.Leftover(d, s, n, id)
    ensures BranchFiles.Saved(d, s, s.branches.Keys, d') && BranchFiles.Loaded(d', before, s')
  {
    hide Consistent, BranchFiles.Leftover, BranchFiles.Saved, BranchFiles.Loaded;
    d, d', before, loaded :|
      && Consistent(s, loaded) && "metadata" !in s.branches
      && (forall n, id :: !BranchFiles.Leftover(d, s, n, id))
      && BranchFiles.Saved(d, s, s.branches.Keys, d') && BranchFiles.Loaded(d', before, s');
  }

  lemma LoadedAuthentic<G>(s: Life<G>, chain: seq<StateSnapshot<G>>)
    requires SnapshotInv(s.snapshots, s.captured) && |chain| <= MAX_SNAPSHOTS_RETAINED
    requires forall x :: x in chain ==> LoadFrom(s.snapshots.graphs, x.id) == Some(x)
    ensures SnapshotInv(s.snapshots.(chain := chain), s.captured)
  {
    forall x | x in chain ensures Authentic(s.captured, x) {
      assert LoadFrom(s.snapshots.graphs, x.id) == Some(x);
      assert Authentic(s.captured, s.snapshots.graphs[x.id].snapshot);
    }
  }

  lemma RestoredRecords<G>(captured: map<nat, Capture<G>>, branches: map<string, Branch>,
                           branches': map<string, Branch>)
    requires RecordInv(captured, branches) && branches'.Keys == branches.Keys
    requires forall id :: id in branches ==> BranchFiles.Restored(branches[id], branches'[id])
    ensures RecordInv(captured, branches')
    ensures forall id :: id in branches ==> branches'[id].memorySnapshotId == branches[id].memorySnapshotId
  {
    hide Refers;
    forall id | id in branches' ensures branches'[id].branchId == id && Refers(captured, branches'[id], id)
      && branches'[id].memorySnapshotId == branches[id].memorySnapshotId
    {
      assert Refers(captured, branches[id], id);
      SameReference(captured, branches[id], branches'[id], id);
    }
  }

  lemma SameReference<G>(captured: map<nat, Capture<G>>, b: Branch, b': Branch, id: string)
    requires Refers(captured, b, id) && b'.memorySnapshotId == b.memorySnapshotId
    ensures Refers(captured, b', id)
  {
  }

  /** A reference with a file is held whatever the chain. */
  lemma FiledIsHeld<G>(a: SnapshotSource<G>, captured: map<nat, Capture<G>>, sequence: nat, snapshotId: string)
    requires a.persisting && SnapshotInv(a, captured) && CaptureInv(captured, sequence) && sequence < TWO_64
    requires Filed(a.graphs.Keys, snapshotId)
    ensures snapshotId == "" || a.Has(snapshotId)
  {
    if snapshotId != "" {
      var k :| k in a.graphs.Keys && snapshotId == Dec(k);
      ParseDec(k);
    }
  }

  lemma RestartKeeps<G>(hash: IdHash, s: Life<G>, graph: G, s': Life<G>)
    requires Sane(hash, s) && RestartStep(s, graph, s')
    ensures Sane(hash, s') && Follows(s, s')
  {
    InvIsMid(hash, s);
    MidParts(hash, s);
    hide Inv, Reloaded, SnapshotInv, CaptureInv, FilesReadable, Issued, Filed;
    ReloadedParts(s.store, s'.store);
    RestoredRecords(s.captured, s.store.branches, s'.store.branches);
    LoadedAuthentic(s, s'.snapshots.chain);
    SameReferences(s.snapshots, s.store.branches, s'.snapshots, s'.store.branches);
    hide RecordInv, BranchFiles.Restored;
    MidFromSame(hash, s, s');
    forall id | id in s'.store.branches
      ensures s'.store.branches[id].memorySnapshotId == "" || s'.snapshots.Has(s'.store.branches[id].memorySnapshotId)
    {
      FiledIsHeld(s'.snapshots, s.captured, s.store.globalSequence, s'.store.branches[id].memorySnapshotId);
    }
    InvFrom(hash, s');
    RestartFollows(s, s');
  }

  lemma InvFrom<G>(hash: IdHash, s: Life<G>)
    requires MidInv(hash, s) && NothingStale(s.snapshots, s.store.branches)
    ensures Inv(hash, s)
  {
  }

  lemma RestartFollows<G>(s: Life<G>, s': Life<G>)
    requires s'.store.branches.Keys == s.store.branches.Keys && s'.captured == s.captured
    requires forall id :: id in s.store.branches ==> BranchFiles.Restored(s.store.branches[id], s'.store.branches[id])
    ensures Follows(s, s')
  {
  }

  // ----- editing and executing -----

  lemma EditKeeps<G>(hash: IdHash, s: Life<G>, graph: G)
    requires Sane(hash, s)
    ensures Sane(hash, s.(graph := graph)) && Follows(s, s.(graph := graph))
  {
    hide RecordInv, SnapshotInv, CaptureInv, FilesReadable, Issued, NothingStale, Filed;
  }

  /** The record of a branch with a new execution node, and all others as they were. */
  lemma ExecutingRecords<G>(hash: IdHash, s: Life<G>, id: string, node: string)
    requires Inv(hash, s) && id in s.store.branches
    ensures var s' := Executing(s, id, node);
      && s'.store.branches.Keys == s.store.branches.Keys && s'.store.idCounter == s.store.idCounter
      && s'.store.globalSequence > s.store.globalSequence
      && (forall x :: x in s.store.branches && x != id ==> s'.store.branches[x] == s.store.branches[x])
      && s'.store.branches[id].branchId == id && s'.store.branches[id].currentExecutionNodeId == node
      && s'.store.branches[id].status == s.store.branches[id].status
      && s'.store.branches[id].goal == s.store.branches[id].goal
      && s'.store.branches[id].isOverlayResident == s.store.branches[id].isOverlayResident
      && s'.store.branches[id].memorySnapshotId == s.store.branches[id].memorySnapshotId
  {
    InvKeys(hash, s, id);
    hide Inv;
    NormalizeKeeps(s.store.branches[id]);
    NormalizeKeeps(Lookup(s.store, id).(currentExecutionNodeId := node));
  }

  lemma ExecutingMid<G>(hash: IdHash, s: Life<G>, id: string, node: string)
    requires Inv(hash, s) && id in s.store.branches
    ensures var s' := Executing(s, id, node);
      && MidInv(hash, s') && s'.snapshots == s.snapshots && s'.captured == s.captured
      && forall x :: x in s.store.branches ==>
           s'.store.branches[x].memorySnapshotId == s.store.branches[x].memorySnapshotId
  {
    var s' := Executing(s, id, node);
    ExecutingRecords(hash, s, id, node);
    ExecutingRest(s, id, node);
    InvIsMid(hash, s);
    MidParts(hash, s);
    hide Executing, Inv, MidInv, SnapshotInv, CaptureInv, FilesReadable, Issued;
    ExecutedRecordInv(s.captured, s.store.branches, s'.store.branches, id);
    hide RecordInv;
    SameReferences(s.snapshots, s.store.branches, s'.snapshots, s'.store.branches);
    MidFromSame(hash, s, s');
  }

  lemma ExecuteKeeps<G>(hash: IdHash, s: Life<G>, id: string, node: string)
    requires Sane(hash, s)
    ensures Sane(hash, Executing(s, id, node)) && Follows(s, Executing(s, id, node))
  {
    if id in s.store.branches {
      SaneInv(hash, s);
      ExecutingMid(hash, s, id, node);
      ExecutingFollows(hash, s, id, node);
      hide Executing, MidInv, Filed, Follows;
      InvFrom(hash, Executing(s, id, node));
    } else {
      FollowsRefl(s);
    }
  }

  lemma ExecutingFollows<G>(hash: IdHash, s: Life<G>, id: string, node: string)
    requires Inv(hash, s) && id in s.store.branches
    ensures Follows(s, Executing(s, id, node))
  {
    ExecutingRecords(hash, s, id, node);
    ExecutingRest(s, id, node);
    hide Inv, Executing;
  }

  lemma ExecutingRest<G>(s: Life<G>, id: string, node: string)
    ensures Executing(s, id, node) == s.(store := Executing(s, id, node).store)
  {
  }

  lemma ExecutedRecordInv<G>(captured: map<nat, Capture<G>>, branches: map<string, Branch>,
                             branches': map<string, Branch>, id: string)
    requires RecordInv(captured, branches) && branches'.Keys == branches.Keys && id in branches
    requires forall x :: x in branches && x != id ==> branches'[x] == branches[x]
    requires branches'[id].branchId == id && branches'[id].memorySnapshotId == branches[id].memorySnapshotId
    ensures RecordInv(captured, branches')
  {
    hide Refers;
    SameReference(captured, branches[id], branches'[id], id);
  }

  // ----- whole runs -----

  lemma EventKeeps<G>(hash: IdHash, s: Life<G>, e: Event<G>, s': Life<G>)
    requires Sane(hash, s) && GoodHash(hash) && Happens(hash, s, e, s')
    ensures Sane(hash, s') && Follows(s, s')
  {
    hide Inv, GoodHash, AllFiled, Follows, Progress, Step, RestartStep, Executing;
    match e {
      case Call(op) =>
        StepKeeps(hash, s, op, s');
        StepFiled(hash, s, op, s');
        ProgressFollows(s, s');
      case Edit(graph) => EditKeeps(hash, s, graph);
      case Execute(id, node) => ExecuteKeeps(hash, s, id, node);
      case Restart(graph) => RestartKeeps(hash, s, graph, s');
    }
  }

  ghost predicate Run<G>(hash: IdHash, states: seq<Life<G>>, events: seq<Event<G>>) {
    && |states| == |events| + 1
    && forall i :: 0 <= i < |events| ==> Happens(hash, states[i], events[i], states[i + 1])
  }

  lemma RunStep<G>(hash: IdHash, states: seq<Life<G>>, events: seq<Event<G>>, i: nat)
    requires Run(hash, states, events) && i < |events|
    ensures |states| == |events| + 1 && Happens(hash, states[i], events[i], states[i + 1])
  {
    hide Happens;
  }

  lemma RunLength<G>(hash: IdHash, states: seq<Life<G>>, events: seq<Event<G>>)
    requires Run(hash, states, events)
    ensures |states| == |events| + 1
  {
  }

  /** Operations, edits of the graph, executions and restarts, in any order, keep the invariant. */
  lemma {:induction false} RunKeeps<G>(hash: IdHash, states: seq<Life<G>>, events: seq<Event<G>>, i: nat, j: nat)
    requires Run(hash, states, events) && GoodHash(hash) && Sane(hash, states[0]) && i <= j <= |events|
    ensures Sane(hash, states[i]) && Sane(hash, states[j]) && Follows(states[i], states[j])
    decreases j
  {
    hide Sane, Follows, Happens, GoodHash;
    if j == 0 {
      FollowsRefl(states[0]);
    } else if i == j {
      RunKeeps(hash, states, events, i - 1, i - 1);
      EventKeeps(hash, states[i - 1], events[i - 1], states[i]);
      FollowsRefl(states[i]);
    } else {
      RunKeeps(hash, states, events, i, j - 1);
      EventKeeps(hash, states[j - 1], events[j - 1], states[j]);
      FollowsTrans(states[i], states[j - 1], states[j]);
    }
  }

  /** Once merged, archived or rolled back, a branch is never active or suspended again, and no branch is ever lost. */
  lemma TerminalForever<G>(hash: IdHash, states: seq<Life<G>>, events: seq<Event<G>>, i: nat, j: nat, id: string)
    requires Run(hash, states, events) && GoodHash(hash) && Sane(hash, states[0]) && i <= j <= |events|
    requires id in states[i].store.branches
    ensures id in states[j].store.branches
    ensures states[i].store.branches[id].status.Terminal() ==>
      states[j].store.branches[id].status != Active && states[j].store.branches[id].status != Suspended
  {
    hide Run, Sane;
    RunKeeps(hash, states, events, i, j);
  }

  ghost predicate Live(status: BranchState) {
    status == Active || status == Suspended
  }

  /** A successful operation that gives this branch a new status. */
  ghost predicate Affects<G>(e: Event<G>, id: string) {
    e.Call? && Succeeded(e.op) && Names(e.op, id)
  }

  lemma EventLeavesLive<G>(hash: IdHash, s: Life<G>, e: Event<G>, s': Life<G>, id: string)
    requires Sane(hash, s) && GoodHash(hash) && Happens(hash, s, e, s') && !Affects(e, id)
    requires id in s.store.branches
    ensures id in s'.store.branches
    ensures KeptOrSuspended(s.store.branches[id].status, s'.store.branches[id].status)
  {
    SaneInv(hash, s);
    hide Sane, Inv, GoodHash, Step, Names, Reloaded, Executing;
    match e {
      case Call(op) => StatusAfter(hash, s, op, s', id);
      case Edit(_) =>
      case Execute(named, node) => ExecutingStatus(hash, s, named, node, id);
      case Restart(_) => RestartStatus(hash, s, s', id);
    }
  }

  lemma ExecutingStatus<G>(hash: IdHash, s: Life<G>, named: string, node: string, id: string)
    requires Inv(hash, s) && id in s.store.branches
    ensures var s' := Executing(s, named, node);
      id in s'.store.branches && s'.store.branches[id].status == s.store.branches[id].status
  {
    if named in s.store.branches {
      ExecutingRecords(hash, s, named, node);
      hide Executing, Inv;
    }
  }

  lemma RestartStatus<G>(hash: IdHash, s: Life<G>, s': Life<G>, id: string)
    requires Inv(hash, s) && Reloaded(s.store, s'.store) && id in s.store.branches
    ensures id in s'.store.branches && s'.store.branches[id].status == s.store.branches[id].status
  {
    InvIsMid(hash, s);
    MidParts(hash, s);
    hide Inv, MidInv, Reloaded;
    ReloadedParts(s.store, s'.store);
  }

  /** A branch that is active or suspended stays so until a successful operation names it, whatever governance evicts
      and however often the program is restarted meanwhile; and a suspended one is not made active by anything else. */
  lemma {:induction false} LivesUntilNamed<G>(hash: IdHash, states: seq<Life<G>>, events: seq<Event<G>>, i: nat, j: nat,
                                              id: string)
    requires Run(hash, states, events) && GoodHash(hash) && Sane(hash, states[0]) && i <= j <= |events|
    requires id in states[i].store.branches && Live(states[i].store.branches[id].status)
    requires forall k :: i <= k < j ==> !Affects(events[k], id)
    ensures id in states[j].store.branches && Live(states[j].store.branches[id].status)
    ensures states[i].store.branches[id].status == Suspended ==> states[j].store.branches[id].status == Suspended
    decreases j
  {
    hide Run, Sane, GoodHash, Affects;
    RunLength(hash, states, events);
    if i < j {
      LivesUntilNamed(hash, states, events, i, j - 1, id);
      RunKeeps(hash, states, events, i, j - 1);
      RunStep(hash, states, events, j - 1);
      EventLeavesLive(hash, states[j - 1], events[j - 1], states[j], id);
    }
  }

  /** Whatever became of the graph meanwhile: when a branch is resumed or rolled back, the graph becomes the one at the
      moment that branch was spawned. */
  lemma RestoresSpawnGraph<G>(hash: IdHash, states: seq<Life<G>>, events: seq<Event<G>>, i: nat, j: nat)
    requires Run(hash, states, events) && GoodHash(hash) && Sane(hash, states[0]) && i < j < |events|
    requires events[i].Call? && events[i].op.Spawn? && events[i].op.result.branchId != ""
    requires events[j].Call? && Succeeded(events[j].op) && (events[j].op.Resume? || events[j].op.Rollback?)
    requires events[j].op.id == events[i].op.result.branchId
    ensures states[j + 1].graph == states[i].graph
  {
    hide *;
    RunStep(hash, states, events, i);
    RunStep(hash, states, events, j);
    RunKeeps(hash, states, events, i, i);
    RunKeeps(hash, states, events, i + 1, j);
    SaneInv(hash, states[i]);
    SaneInv(hash, states[j]);
    HappensCall(hash, states[i], events[i], states[i + 1]);
    HappensCall(hash, states[j], events[j], states[j + 1]);
    var k := SpawnCaptures(hash, states[i], events[i].op, states[i + 1]);
    var n := RestoreFindsCapture(hash, states[j], events[j].op, states[j + 1]);
    FollowsCaptured(states[i + 1], states[j], k);
    CaptureUnique(hash, states[j], k, n);
  }

  lemma SaneInv<G>(hash: IdHash, s: Life<G>)
    requires Sane(hash, s)
    ensures Inv(hash, s)
  {
  }

  lemma HappensCall<G>(hash: IdHash, s: Life<G>, e: Event<G>, s': Life<G>)
    requires Happens(hash, s, e, s') && e.Call?
    ensures Step(hash, s, e.op, s')
  {
  }

  lemma FollowsCaptured<G>(s: Life<G>, s': Life<G>, k: nat)
    requires Follows(s, s') && k in s.captured
    ensures k in s'.captured && s'.captured[k] == s.captured[k]
  {
  }

  // ----- the caps over whole runs -----

  predicate Starts<G>(e: Event<G>) {
    e.Execute? && e.node != ""
  }

  predicate Finishes<G>(e: Event<G>) {
    e.Execute? && e.node == ""
  }

  lemma RestartEmpties<G>(hash: IdHash, s: Life<G>, graph: G, s': Life<G>)
    requires Inv(hash, s) && RestartStep(s, graph, s')
    ensures Guarded(s') && WithinCaps(s') && (NoneExecuting(s) ==> NoneExecuting(s'))
  {
    InvIsMid(hash, s);
    MidParts(hash, s);
    hide Inv, Reloaded, SnapshotInv, CaptureInv, FilesReadable, Issued;
    ReloadedParts(s.store, s'.store);
    assert Residents(s'.store.branches) == {} && ActiveResidents(s'.store.branches) == {};
  }

  lemma SameCounted(branches: map<string, Branch>, branches': map<string, Branch>)
    requires branches'.Keys == branches.Keys
    requires forall x :: x in branches ==> branches'[x].isOverlayResident == branches[x].isOverlayResident
    requires forall x :: x in branches ==> branches'[x].status == branches[x].status
    ensures Residents(branches') == Residents(branches) && ActiveResidents(branches') == ActiveResidents(branches)
  {
  }

  lemma StillCapped(branches: map<string, Branch>, branches': map<string, Branch>, activeId: string)
    requires CapsHold(branches, activeId, activeId)
    requires branches'.Keys == branches.Keys
    requires Residents(branches') == Residents(branches) && ActiveResidents(branches') == ActiveResidents(branches)
    requires forall x :: x in branches && Shielded(branches[x], activeId, activeId) ==>
      Shielded(branches'[x], activeId, activeId)
    ensures CapsHold(branches', activeId, activeId)
  {
    hide Shielded;
  }

  lemma ExecutingCounted<G>(hash: IdHash, s: Life<G>, id: string, node: string)
    requires Inv(hash, s)
    ensures var s' := Executing(s, id, node);
      && s'.activeId == s.activeId && s'.store.branches.Keys == s.store.branches.Keys
      && Residents(s'.store.branches) == Residents(s.store.branches)
      && ActiveResidents(s'.store.branches) == ActiveResidents(s.store.branches)
      && (forall x :: x in s.store.branches && x != id ==> s'.store.branches[x] == s.store.branches[x])
      && (id in s.store.branches ==>
        s'.store.branches[id].branchId == id && s'.store.branches[id].currentExecutionNodeId == node)
  {
    ExecutingRest(s, id, node);
    if id in s.store.branches {
      ExecutingRecords(hash, s, id, node);
      hide Inv, Executing;
      SameCounted(s.store.branches, Executing(s, id, node).store.branches);
    }
  }

  /** A branch that begins to execute stays counted where it was, and is spared from then on. */
  lemma StartGuarded<G>(hash: IdHash, s: Life<G>, id: string, node: string)
    requires Inv(hash, s) && Guarded(s) && node != ""
    ensures Guarded(Executing(s, id, node))
  {
    ExecutingCounted(hash, s, id, node);
    hide Inv, Executing, CapsHold;
    StillCapped(s.store.branches, Executing(s, id, node).store.branches, s.activeId);
  }

  lemma FinishWithinCaps<G>(hash: IdHash, s: Life<G>, id: string)
    requires Inv(hash, s) && WithinCaps(s) && NoneExecuting(s)
    ensures WithinCaps(Executing(s, id, "")) && NoneExecuting(Executing(s, id, ""))
  {
    ExecutingCounted(hash, s, id, "");
    hide Inv, Executing;
  }

  lemma EventGuarded<G>(hash: IdHash, s: Life<G>, e: Event<G>, s': Life<G>)
    requires Inv(hash, s) && GoodHash(hash) && Happens(hash, s, e, s')
    ensures (Guarded(s) && !Finishes(e)) || (e.Call? && Succeeded(e.op)) ==> Guarded(s')
  {
    hide Inv, GoodHash, Step, RestartStep, Executing, CapsHold;
    match e {
      case Call(op) =>
        if Succeeded(op) {
          SuccessEnforcesCaps(hash, s, op, s');
        } else {
          FailureChangesNothing(hash, s, op, s');
          if Guarded(s) { SameBranchesGuarded(s, s'); }
        }
      case Edit(graph) => if Guarded(s) { SameBranchesGuarded(s, s'); }
      case Execute(id, node) => if Guarded(s) && node != "" { StartGuarded(hash, s, id, node); }
      case Restart(graph) => RestartEmpties(hash, s, graph, s');
    }
  }

  /** Once both caps are in force, as after every successful operation, they stay in force, sparing only the active
      branch and executing ones, until a branch stops executing. */
  lemma {:induction false} RunStaysGuarded<G>(hash: IdHash, states: seq<Life<G>>, events: seq<Event<G>>, k: nat, i: nat)
    requires Run(hash, states, events) && GoodHash(hash) && Sane(hash, states[0]) && k <= i <= |events|
    requires Guarded(states[k]) || (0 < k && events[k - 1].Call? && Succeeded(events[k - 1].op))
    requires forall m :: k <= m < i ==> !Finishes(events[m])
    ensures Guarded(states[i])
  {
    hide *;
    RunLength(hash, states, events);
    if k < i || !Guarded(states[k]) {
      RunStep(hash, states, events, i - 1);
      RunKeeps(hash, states, events, 0, i - 1);
      SaneInv(hash, states[i - 1]);
      if k < i { RunStaysGuarded(hash, states, events, k, i - 1); }
      EventGuarded(hash, states[i - 1], events[i - 1], states[i]);
    }
  }

  lemma EventWithinCaps<G>(hash: IdHash, s: Life<G>, e: Event<G>, s': Life<G>)
    requires Inv(hash, s) && GoodHash(hash) && Happens(hash, s, e, s') && Inv(hash, s')
    requires NoneExecuting(s) && WithinCaps(s) && !Starts(e)
    ensures NoneExecuting(s') && WithinCaps(s')
  {
    hide Inv, GoodHash, Step, RestartStep, Executing, CapsHold, WithinCaps, NoneExecuting, Progress;
    match e {
      case Call(op) =>
        StepKeeps(hash, s, op, s');
        ProgressQuiet(s, s');
        if Succeeded(op) {
          SuccessEnforcesCaps(hash, s, op, s');
          QuietCaps(hash, s');
        } else {
          FailureChangesNothing(hash, s, op, s');
          SameBranchesCaps(s, s');
        }
      case Edit(graph) => SameBranchesQuiet(s, s');
      case Execute(id, node) => FinishWithinCaps(hash, s, id);
      case Restart(graph) => RestartEmpties(hash, s, graph, s');
    }
  }

  lemma SameBranchesQuiet<G>(s: Life<G>, s': Life<G>)
    requires s'.store.branches == s.store.branches
    ensures WithinCaps(s) ==> WithinCaps(s')
    ensures NoneExecuting(s) ==> NoneExecuting(s')
  {
  }

  /** While no branch executes, at most three active and twelve resident branches are left by every event. */
  lemma {:induction false} RunWithinCaps<G>(hash: IdHash, states: seq<Life<G>>, events: seq<Event<G>>, i: nat)
    requires Run(hash, states, events) && GoodHash(hash) && Sane(hash, states[0]) && i <= |events|
    requires NoneExecuting(states[0]) && WithinCaps(states[0]) && forall m :: 0 <= m < i ==> !Starts(events[m])
    ensures NoneExecuting(states[i]) && WithinCaps(states[i])
  {
    hide *;
    RunLength(hash, states, events);
    if i > 0 {
      RunStep(hash, states, events, i - 1);
      RunKeeps(hash, states, events, i - 1, i);
      SaneInv(hash, states[i - 1]);
      SaneInv(hash, states[i]);
      RunWithinCaps(hash, states, events, i - 1);
      EventWithinCaps(hash, states[i - 1], events[i - 1], states[i]);
    }
  }

  /** Runs of a new store meet all premises. */
  lemma FreshRuns<G>(hash: IdHash, graph: G, persisting: bool, states: seq<Life<G>>, events: seq<Event<G>>, i: nat)
    requires GoodHash(hash) && Run(hash, states, events) && i <= |events|
    requires states[0] == Life(StoreState(map[], [], 0, 0), SnapshotSource([], map[], persisting), graph, "", 0, map[])
    ensures Sane(hash, states[0]) && Sane(hash, states[i])
    ensures (forall m :: 0 <= m < i ==> !Finishes(events[m])) ==> Guarded(states[i])
    ensures (forall m :: 0 <= m < i ==> !Starts(events[m])) ==> WithinCaps(states[i])
  {
    InitialInv(hash, graph, persisting);
    assert Residents(states[0].store.branches) == {} && ActiveResidents(states[0].store.branches) == {};
    assert Guarded(states[0]);
    assert Sane(hash, states[0]);
    hide Sane, Run, Happens, Guarded, WithinCaps;
    RunKeeps(hash, states, events, 0, i);
    if forall m :: 0 <= m < i ==> !Finishes(events[m]) { RunStaysGuarded(hash, states, events, 0, i); }
    if forall m :: 0 <= m < i ==> !Starts(events[m]) { RunWithinCaps(hash, states, events, i); }
  }

  // ----- restarts that lose the store -----

  /** Snapshots in the chain under this number before a new one is appended. */
  function Elder<G>(chain: seq<StateSnapshot<G>>, k: nat): Option<StateSnapshot<G>> {
    FindId(if |chain| < MAX_SNAPSHOTS_RETAINED then chain else chain[|chain| - MAX_SNAPSHOTS_RETAINED + 1..], k)
  }

  lemma {:induction false} FindIdAppended<G>(chain: seq<StateSnapshot<G>>, x: StateSnapshot<G>, k: nat)
    ensures FindId(chain + [x], k) ==
      if FindId(chain, k).Some? then FindId(chain, k) else if x.id == k then Some(x) else None
  {
    if chain != [] {
      assert (chain + [x])[1..] == chain[1..] + [x];
      FindIdAppended(chain[1..], x, k);
    } else {
      assert (chain + [x])[1..] == [];
    }
  }

  lemma ElderFirst<G>(chain: seq<StateSnapshot<G>>, x: StateSnapshot<G>)
    ensures FindId(Snapshots.Capped(chain + [x]), x.id) == if Elder(chain, x.id).Some? then Elder(chain, x.id)
      else Some(x)
  {
    if |chain| < MAX_SNAPSHOTS_RETAINED {
      FindIdAppended(chain, x, x.id);
    } else {
      var kept := chain[|chain| - MAX_SNAPSHOTS_RETAINED + 1..];
      assert Snapshots.Capped(chain + [x]) == kept + [x];
      FindIdAppended(kept, x, x.id);
    }
  }

  ghost predicate WellNamed<G>(chain: seq<StateSnapshot<G>>) {
    forall x :: x in chain ==> x.id > 0 && x.snapshotId == Dec(x.id)
  }

  ghost predicate Keyed(branches: map<string, Branch>) {
    forall id :: id in branches ==> branches[id].branchId == id
  }

  lemma NameHeld<G>(chain: seq<StateSnapshot<G>>, x: StateSnapshot<G>)
    requires WellNamed(chain) && x.id > 0 && x.snapshotId == Dec(x.id)
    ensures HasName(Snapshots.Capped(chain + [x]), Dec(x.id))
  {
    var c := Snapshots.Capped(chain + [x]);
    assert c[|c| - 1] == x && x in c;
    hide Dec;
    assert forall y :: y in c ==> y in chain + [x];
    assert FindName(c, Dec(x.id)).Some?;
  }

  /** The record a spawn leaves refers to the number drawn for it. */
  lemma SpawnedRefers<G>(s: Life<G>, parentId: string, goal: string, hash: string -> string, r: Branch, m: Life<G>)
    requires SpawnedTo(s, parentId, goal, hash, r, m) && Keyed(s.store.branches) && r.branchId != ""
    ensures r.branchId in m.store.branches
    ensures m.store.branches[r.branchId].memorySnapshotId == Dec(Reserved(s.store, parentId, goal, hash).globalSequence)
  {
    CreatedFields(s.store, parentId, goal, hash);
    hide Created, Reserved, Dec;
    var reserved := Reserved(s.store, parentId, goal, hash);
    NormalizeKeeps(r);
    var updated := AfterUpdate(reserved, r);
    assert Keyed(updated.branches);
    if parentId != "" && parentId in updated.branches {
      var subs :| Ascending(subs) && Elems(subs) == Elems(updated.branches[parentId].subBranches) + {r.branchId}
        && m.store == AfterUpdate(AfterGet(updated, parentId), Lookup(updated, parentId).(subBranches := subs));
      NormalizeKeeps(updated.branches[parentId]);
      RewrittenReferences(updated, parentId, Lookup(updated, parentId).(subBranches := subs));
    }
  }

  lemma StillRefers<G>(m: Life<G>, s': Life<G>, id: string)
    requires GovernedLife(m, s', id) && id in m.store.branches && m.snapshots.Has(m.store.branches[id].memorySnapshotId)
    ensures id in s'.store.branches && s'.snapshots == m.snapshots
    ensures s'.store.branches[id].memorySnapshotId == m.store.branches[id].memorySnapshotId
  {
    hide CapsHold, Core;
  }

  lemma TargetInChain<G>(s: Life<G>, id: string, k: nat)
    requires id in s.store.branches && s.store.branches[id].memorySnapshotId == Dec(k) && 0 < k < TWO_64
    requires FindId(s.snapshots.chain, k).Some?
    ensures Target(s, id) == FindId(s.snapshots.chain, k)
  {
    ParseDec(k);
    hide Dec, ParseSnapshotId, FindId;
  }

  /** A new branch would be rolled back to the first snapshot in the chain that has its number. */
  lemma SpawnTarget<G>(s: Life<G>, parentId: string, goal: string, hash: string -> string, r: Branch, s': Life<G>,
                       k: nat)
    requires SpawnStep(s, parentId, goal, hash, r, s') && r != NO_BRANCH && r.branchId != ""
    requires Keyed(s.store.branches) && WellNamed(s.snapshots.chain)
    requires k == Reserved(s.store, parentId, goal, hash).globalSequence && k < TWO_64
    ensures Target(s', r.branchId) == if Elder(s.snapshots.chain, k).Some? then Elder(s.snapshots.chain, k)
      else Some(StateSnapshot(k, Dec(k), r.branchId, s.graph))
  {
    var m := SpawnSucceeded(s, parentId, goal, hash, r, s');
    SpawnedRefers(s, parentId, goal, hash, r, m);
    CreatedFields(s.store, parentId, goal, hash);
    var snap := StateSnapshot(k, Dec(k), r.branchId, s.graph);
    hide Created, Reserved, Linked, GovernedLife, Dec, Target, SpawnStep, Elder, FindId, HasName, Snapshots.Capped;
    NameHeld(s.snapshots.chain, snap);
    StillRefers(m, s', r.branchId);
    ElderFirst(s.snapshots.chain, snap);
    TargetInChain(s', r.branchId, k);
  }

  /** The graph a new branch would be rolled back to is the one at its spawn exactly when no older snapshot in the chain
      has the number drawn for it, or the first that has shows the same graph. Over states that keep the invariant none
      has; after a restart with an older store, numbers are drawn again. */
  lemma NewNumberIff<G>(s: Life<G>, parentId: string, goal: string, hash: string -> string, r: Branch, s': Life<G>)
    requires SpawnStep(s, parentId, goal, hash, r, s') && r != NO_BRANCH && r.branchId != ""
    requires Keyed(s.store.branches) && WellNamed(s.snapshots.chain)
    requires Reserved(s.store, parentId, goal, hash).globalSequence < TWO_64
    ensures Target(s', r.branchId).Some?
    ensures var elder := Elder(s.snapshots.chain, Reserved(s.store, parentId, goal, hash).globalSequence);
      Target(s', r.branchId).value.graph == s.graph <==> (elder.None? || elder.value.graph == s.graph)
  {
    hide *;
    var k := Reserved(s.store, parentId, goal, hash).globalSequence;
    SpawnTarget(s, parentId, goal, hash, r, s', k);
    var elder := Elder(s.snapshots.chain, k);
    if elder.Some? {
      assert Target(s', r.branchId).value == elder.value;
    } else {
      assert Target(s', r.branchId).value.graph == s.graph;
    }
  }

  /** In runs with complete saves the number is always new. */
  lemma NumberIsNew<G>(hash: IdHash, s: Life<G>)
    requires Inv(hash, s)
    ensures forall k :: k > s.store.globalSequence ==> Elder(s.snapshots.chain, k).None?
  {
    InvIsMid(hash, s);
    MidParts(hash, s);
    forall x | x in s.snapshots.chain ensures x.id <= s.store.globalSequence {
      assert Authentic(s.captured, x);
    }
  }

  // ----- a store that was not saved -----

  function FirstBranch(id: string, goal: string): Branch {
    Request("", goal).(branchId := id, creationSequence := 1, memorySnapshotId := Dec(2), lastMutationSequence := 3)
  }

  /** One branch just spawned into a new store. */
  function JustSpawned<G>(id: string, goal: string, chain: seq<StateSnapshot<G>>, graph: G,
                          captured: map<nat, Capture<G>>): Life<G> {
    var snap := StateSnapshot(2, Dec(2), id, graph);
    Life(StoreState(map[id := FirstBranch(id, goal)], [id], 3, 1),
         SnapshotSource(chain + [snap], map[2 := Readable(snap)], true),
         graph, id, 0, captured[2 := Capture(id, graph)])
  }

  function Unsaved<G>(chain: seq<StateSnapshot<G>>, graphs: map<nat, StoredGraph<G>>, graph: G,
                      captured: map<nat, Capture<G>>): Life<G> {
    Life(StoreState(map[], [], 0, 0), SnapshotSource(chain, graphs, true), graph, "", 0, captured)
  }

  lemma GovernedAsIs<G>(id: string, goal: string, chain: seq<StateSnapshot<G>>, graph: G,
                        captured: map<nat, Capture<G>>)
    requires |chain| < 2 && WellNamed(chain)
    ensures var s := JustSpawned(id, goal, chain, graph, captured); GovernedLife(s, s, id)
  {
    var s := JustSpawned(id, goal, chain, graph, captured);
    hide Dec;
    NameHeld(chain, StateSnapshot(2, Dec(2), id, graph));
    assert Residents(s.store.branches) == {id} && ActiveResidents(s.store.branches) == {id};
  }

  lemma FirstStored(hash: string -> string, goal: string)
    requires hash(IdText("", goal, 1)) != ""
    ensures var id, s := hash(IdText("", goal, 1)), StoreState(map[], [], 0, 0);
      var r := FirstBranch(id, goal).(lastMutationSequence := 1);
      && Created(s, Request("", goal), hash).(memorySnapshotId := Dec(2)) == r
      && Reserved(s, "", goal, hash).globalSequence == 2
      && AfterUpdate(Reserved(s, "", goal, hash), r) == StoreState(map[id := FirstBranch(id, goal)], [id], 3, 1)
  {
    var id, s := hash(IdText("", goal, 1)), StoreState(map[], [], 0, 0);
    hide Dec, IdText;
    var r := FirstBranch(id, goal).(lastMutationSequence := 1);
    assert Reserved(s, "", goal, hash) == StoreState(map[id := r.(memorySnapshotId := "")], [id], 2, 1);
  }

  lemma SpawnStepFrom<G>(s: Life<G>, parentId: string, goal: string, hash: string -> string, r: Branch, m: Life<G>,
                         s': Life<G>)
    requires SpawnedTo(s, parentId, goal, hash, r, m) && GovernedLife(m, s', r.branchId)
    ensures SpawnStep(s, parentId, goal, hash, r, s')
  {
    var created, reserved := Created(s.store, Request(parentId, goal), hash), Reserved(s.store, parentId, goal, hash);
    hide GovernedLife, Linked, Created, Reserved, AfterUpdate, Dec;
    assert r.branchId == created.branchId;
    var k := reserved.globalSequence;
    var snap := StateSnapshot(k, Dec(k), created.branchId, s.graph);
    assert m == Life(m.store,
                     s.snapshots.(chain := Snapshots.Capped(s.snapshots.chain + [snap]),
                                  graphs := if s.snapshots.persisting then s.snapshots.graphs[k := Readable(snap)]
                                            else s.snapshots.graphs),
                     s.graph, created.branchId, s.evictions, s.captured[k := Capture(created.branchId, s.graph)]);
  }

  lemma FirstSpawn<G>(hash: string -> string, goal: string, chain: seq<StateSnapshot<G>>,
                      graphs: map<nat, StoredGraph<G>>, graph: G, captured: map<nat, Capture<G>>)
    requires |chain| < 2 && WellNamed(chain) && graphs.Keys <= {2} && hash(IdText("", goal, 1)) != ""
    ensures var id := hash(IdText("", goal, 1));
      var r, s' := FirstBranch(id, goal).(lastMutationSequence := 1), JustSpawned(id, goal, chain, graph, captured);
      SpawnStep(Unsaved(chain, graphs, graph, captured), "", goal, hash, r, s')
  {
    var id := hash(IdText("", goal, 1));
    var s' := JustSpawned(id, goal, chain, graph, captured);
    FirstStored(hash, goal);
    GovernedAsIs(id, goal, chain, graph, captured);
    var s, r := Unsaved(chain, graphs, graph, captured), FirstBranch(id, goal).(lastMutationSequence := 1);
    hide Dec, IdText, Created, Reserved, AfterUpdate, GovernedLife, SpawnStep;
    assert graphs[2 := Readable(StateSnapshot(2, Dec(2), id, graph))] == s'.snapshots.graphs;
    assert SpawnedTo(s, "", goal, hash, r, s');
    SpawnStepFrom(s, "", goal, hash, r, s', s');
  }

  lemma DrawnAgain<G>(hash: string -> string, a: string, first: G, second: G)
    requires first != second && hash(IdText("", "b", 1)) != ""
    ensures var b, spawned := hash(IdText("", "b", 1)), JustSpawned(a, "a", [], first, map[]);
      var again := Unsaved(spawned.snapshots.chain, spawned.snapshots.graphs, second, spawned.captured);
      var last := JustSpawned(b, "b", again.snapshots.chain, second, again.captured);
      && (forall x :: x in again.snapshots.chain ==> LoadFrom(again.snapshots.graphs, x.id) == Some(x))
      && SpawnStep(again, "", "b", hash, FirstBranch(b, "b").(lastMutationSequence := 1), last)
      && Target(last, b).Some? && Target(last, b).value.graph != second
  {
    var snap := StateSnapshot(2, Dec(2), a, first);
    var captured := map[2 := Capture(a, first)];
    var chain := [] + [snap];
    hide IdText, SpawnStep, Target, Reserved, Created, Elder, Dec;
    FirstSpawn(hash, "b", chain, map[2 := Readable(snap)], second, captured);
    var again := Unsaved(chain, map[2 := Readable(snap)], second, captured);
    CreatedFields(again.store, "", "b", hash);
    OnlyElder(snap);
    assert chain == [snap];
    var b := hash(IdText("", "b", 1));
    NewNumberIff(again, "", "b", hash, FirstBranch(b, "b").(lastMutationSequence := 1),
                 JustSpawned(b, "b", chain, second, captured));
  }

  lemma OnlyElder<G>(x: StateSnapshot<G>)
    ensures Elder([x], x.id) == Some(x)
  {
  }

  /** A concrete loss: the first branch is spawned, its snapshot and the chain are saved, the store is not, and the
      program starts again over another graph. The next branch draws the same number, and would be rolled back to a
      graph that is not the one at its spawn. */
  lemma LostSaveMisleads<G>(hash: string -> string, first: G, second: G)
    requires first != second && hash(IdText("", "a", 1)) != "" && hash(IdText("", "b", 1)) != ""
    ensures var a, b := hash(IdText("", "a", 1)), hash(IdText("", "b", 1));
      var spawned := JustSpawned(a, "a", [], first, map[]);
      var again := Unsaved(spawned.snapshots.chain, spawned.snapshots.graphs, second, spawned.captured);
      var last := JustSpawned(b, "b", again.snapshots.chain, second, again.captured);
      && SpawnStep(Unsaved([], map[], first, map[]), "", "a", hash, FirstBranch(a, "a").(lastMutationSequence := 1),
        spawned)
      && (forall x :: x in again.snapshots.chain ==> LoadFrom(again.snapshots.graphs, x.id) == Some(x))
      && SpawnStep(again, "", "b", hash, FirstBranch(b, "b").(lastMutationSequence := 1), last)
      && Target(last, b).Some? && Target(last, b).value.graph != second
  {
    var a := hash(IdText("", "a", 1));
    hide IdText, SpawnStep, Target;
    FirstSpawn(hash, "a", [], map[], first, map[]);
    DrawnAgain(hash, a, first, second);
  }
}
