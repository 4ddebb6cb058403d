/** Spawning keeps the invariant, and what every single operation keeps. */
module LifecycleTheorems {
  import opened Orders
  import opened Decimals
  import opened Branches
  import opened BranchStores
  import opened Snapshots
  import opened LifecycleSpec
  import opened LifecycleRuns

  /** Digests are not empty, and no two texts hashed in the run have the same one. */
  ghost predicate GoodHash(hash: IdHash) {
    NoCollision(hash) && NeverEmpty(hash.digest)
  }

  // ----- spawning -----

  lemma CreatedFields(s: StoreState, parentId: string, goal: string, hash: string -> string)
    ensures var created, reserved := Created(s, Request(parentId, goal), hash), Reserved(s, parentId, goal, hash);
      && created.branchId == hash(IdText(parentId, goal, s.idCounter + 1))
      && created.status == Active && created.isOverlayResident && created.memorySnapshotId == ""
      && created.currentExecutionNodeId == ""
      && reserved.globalSequence == s.globalSequence + 2 && reserved.idCounter == s.idCounter + 1
      && reserved.branches == s.branches[created.branchId := created]
  {
    hide IdText;
  }

  /** The new branch has an id never used, for a record or in a capture. */
  lemma SpawnIsFresh<G>(hash: IdHash, s: Life<G>, parentId: string, goal: string)
    requires MidInv(hash, s) && GoodHash(hash) && IdText(parentId, goal, s.store.idCounter + 1) in hash.texts
    ensures var created, reserved := Created(s.store, Request(parentId, goal), hash.digest),
      Reserved(s.store, parentId, goal, hash.digest);
      && created.branchId != "" && created.branchId !in s.store.branches && created.branchId !in CapturedIds(s.captured)
      && created.status == Active && created.isOverlayResident && created.memorySnapshotId == ""
      && created.currentExecutionNodeId == ""
      && Issued(hash, s.store.branches.Keys + CapturedIds(s.captured) + {created.branchId}, s.store.idCounter + 1)
      && reserved.globalSequence == s.store.globalSequence + 2 && reserved.idCounter == s.store.idCounter + 1
      && reserved.branches == s.store.branches[created.branchId := created]
  {
    hide IdText, Created, Reserved, RecordInv, SnapshotInv, CaptureInv, Issued, CapturedIds;
    CreatedFields(s.store, parentId, goal, hash.digest);
    NextIdIsFresh(hash, s.store.branches.Keys + CapturedIds(s.captured), s.store.idCounter, parentId, goal);
  }

  lemma CaptureNew<G>(captured: map<nat, Capture<G>>, sequence: nat, k: nat, c: Capture<G>)
    requires CaptureInv(captured, sequence) && k > sequence && c.branchId !in CapturedIds(captured)
    ensures CaptureInv(captured[k := c], k) && k !in captured
    ensures CapturedIds(captured[k := c]) == CapturedIds(captured) + {c.branchId}
  {
    var captured' := captured[k := c];
    forall j | j in captured ensures captured'[j] == captured[j] && captured[j].branchId in CapturedIds(captured) {
    }
    forall id ensures id in CapturedIds(captured') <==> id in CapturedIds(captured) + {c.branchId} {
      if id in CapturedIds(captured) {
        var j :| j in captured && captured[j].branchId == id;
        assert captured'[j].branchId == id;
      }
      if id == c.branchId { assert captured'[k].branchId == id; }
    }
  }

  /** Facts about old captures survive a new one. */
  lemma CaptureKeeps<G>(captured: map<nat, Capture<G>>, k: nat, c: Capture<G>, a: SnapshotSource<G>,
                        branches: map<string, Branch>)
    requires k !in captured
    ensures SnapshotInv(a, captured) ==> SnapshotInv(a, captured[k := c])
    ensures RecordInv(captured, branches) ==> RecordInv(captured[k := c], branches)
  {
    if RecordInv(captured, branches) {
      forall id | id in branches ensures Refers(captured[k := c], branches[id], id) {
        assert Refers(captured, branches[id], id);
        if branches[id].memorySnapshotId != "" {
          var j :| j in captured && branches[id].memorySnapshotId == Dec(j) && captured[j].branchId == id;
          assert j in captured[k := c];
        }
      }
    }
  }

  lemma StoreGraphKeepsSnapshots<G>(a: SnapshotSource<G>, captured: map<nat, Capture<G>>, snap: StateSnapshot<G>)
    requires SnapshotInv(a, captured) && Authentic(captured, snap)
    ensures SnapshotInv(a.(graphs := a.graphs[snap.id := Readable(snap)]), captured)
    ensures SnapshotInv(a.(graphs := a.graphs[snap.id := Unreadable]), captured)
    ensures SnapshotInv(a.(chain := Snapshots.Capped(a.chain + [snap])), captured)
    ensures SnapshotInv(a.(chain := Snapshots.Capped(a.chain + [snap]), graphs := a.graphs[snap.id := Readable(snap)]),
      captured)
  {
    AppendKeepsSnapshots(a, captured, snap);
  }

  /** A file under a number never captured before concerns no record. */
  lemma OtherFile<G>(captured: map<nat, Capture<G>>, a: SnapshotSource<G>, branches: map<string, Branch>, k: nat,
                     stored: StoredGraph<G>)
    requires RecordInv(captured, branches) && FilesReadable(a, branches) && k !in captured
    ensures FilesReadable(a.(graphs := a.graphs[k := stored]), branches)
  {
    var graphs := a.graphs[k := stored];
    forall id | id in branches ensures ReadableAt(graphs, branches[id].memorySnapshotId) {
      var mem := branches[id].memorySnapshotId;
      assert ReadableAt(a.graphs, mem) && Refers(captured, branches[id], id);
      if Dec(k) == mem {
        var j :| j in captured && mem == Dec(j);
        DecInjective(j, k);
      }
    }
  }

  /** The new record refers to a file just written, or to none when nothing is written. */
  lemma NewFileReadable<G>(captured: map<nat, Capture<G>>, a: SnapshotSource<G>, branches: map<string, Branch>, k: nat,
                           snap: StateSnapshot<G>, a': SnapshotSource<G>, branches': map<string, Branch>)
    requires FilesReadable(a, branches) && SnapshotInv(a, captured) && k !in captured && snap.id == k
    requires a'.graphs == a.graphs || a'.graphs == a.graphs[k := Readable(snap)]
    requires forall id :: id in branches' ==>
      branches'[id].memorySnapshotId == Dec(k)
        || (id in branches && branches'[id].memorySnapshotId == branches[id].memorySnapshotId)
    ensures FilesReadable(a', branches')
  {
    forall id | id in branches' ensures ReadableAt(a'.graphs, branches'[id].memorySnapshotId) {
      var mem := branches'[id].memorySnapshotId;
      if mem == Dec(k) {
        forall j | j in a'.graphs && Dec(j) == mem ensures j == k { DecInjective(j, k); }
      } else {
        assert ReadableAt(a.graphs, branches[id].memorySnapshotId);
      }
    }
  }

  /** Linking the child changes the parent's list only. */
  lemma LinkedKeeps<G>(captured: map<nat, Capture<G>>, s: StoreState, parentId: string, childId: string, s': StoreState)
    requires RecordInv(captured, s.branches) && Linked(s, parentId, childId, s')
    ensures RecordInv(captured, s'.branches) && s'.branches.Keys == s.branches.Keys
    ensures s'.idCounter == s.idCounter && s'.globalSequence >= s.globalSequence
    ensures forall id :: id in s.branches ==> s'.branches[id].status == s.branches[id].status
    ensures forall id :: id in s.branches ==> s'.branches[id].memorySnapshotId == s.branches[id].memorySnapshotId
    ensures forall id :: id in s.branches ==> s'.branches[id].isOverlayResident == s.branches[id].isOverlayResident
    ensures forall id :: id in s.branches ==> IdentityOf(s'.branches[id]) == IdentityOf(s.branches[id])
  {
    if parentId in s.branches && parentId != "" {
      var subs :| Ascending(subs) && Elems(subs) == Elems(s.branches[parentId].subBranches) + {childId}
        && s' == AfterUpdate(AfterGet(s, parentId), Lookup(s, parentId).(subBranches := subs));
      var b := Lookup(s, parentId).(subBranches := subs);
      LookupKeeps(s, parentId);
      NormalizeKeeps(s.branches[parentId]);
      NormalizeKeeps(b);
      assert Refers(captured, s.branches[parentId], parentId);
      UpdateRecordInv(captured, AfterGet(s, parentId), b);
    }
  }

  /** The state a successful spawn hands to governance. */
  ghost predicate SpawnedTo<G>(s: Life<G>, parentId: string, goal: string, hash: string -> string, r: Branch,
                               m: Life<G>) {
    var reserved := Reserved(s.store, parentId, goal, hash);
    var k := reserved.globalSequence;
    var snap := StateSnapshot(k, Dec(k), r.branchId, s.graph);
    && r == Created(s.store, Request(parentId, goal), hash).(memorySnapshotId := Dec(k))
    && Linked(AfterUpdate(reserved, r), parentId, r.branchId, m.store)
    && m.snapshots == s.snapshots.(chain := Snapshots.Capped(s.snapshots.chain + [snap]),
                                   graphs := if s.snapshots.persisting then s.snapshots.graphs[k := Readable(snap)]
                                             else s.snapshots.graphs)
    && m.graph == s.graph && m.activeId == r.branchId && m.evictions == s.evictions
    && m.captured == s.captured[k := Capture(r.branchId, s.graph)]
  }

  /** The record of the new branch once it refers to its snapshot. */
  lemma NewRecord<G>(captured: map<nat, Capture<G>>, s: StoreState, r: Branch, k: nat)
    requires RecordInv(captured, s.branches - {r.branchId}) && r.branchId in s.branches && r.branchId != ""
    requires r.memorySnapshotId == Dec(k) && k in captured && captured[k].branchId == r.branchId
    ensures RecordInv(captured, AfterUpdate(s, r).branches) && AfterUpdate(s, r).branches.Keys == s.branches.Keys
    ensures AfterUpdate(s, r).branches[r.branchId].status == r.status
    ensures AfterUpdate(s, r).branches[r.branchId].memorySnapshotId == Dec(k)
    ensures AfterUpdate(s, r).branches[r.branchId].isOverlayResident == r.isOverlayResident
    ensures IdentityOf(AfterUpdate(s, r).branches[r.branchId]) == IdentityOf(r)
  {
    NormalizeKeeps(r);
    var s' := AfterUpdate(s, r);
    forall id | id in s'.branches
      ensures id != "" && s'.branches[id].branchId == id && Refers(captured, s'.branches[id], id) {
      if id != r.branchId {
        assert id in s.branches - {r.branchId} && s'.branches[id] == (s.branches - {r.branchId})[id];
      }
    }
  }

  lemma SpawnedMid<G>(hash: IdHash, s: Life<G>, parentId: string, goal: string, r: Branch, m: Life<G>)
    requires Inv(hash, s) && GoodHash(hash) && IdText(parentId, goal, s.store.idCounter + 1) in hash.texts
      && SpawnedTo(s, parentId, goal, hash.digest, r, m)
    ensures MidInv(hash, m) && Progress(s, m) && r.branchId != "" && r.branchId !in s.store.branches
    ensures r.branchId in m.store.branches && m.store.branches[r.branchId].status == Active
      && m.store.branches[r.branchId].isOverlayResident
    ensures exists k :: k in m.captured && m.captured[k] == Capture(r.branchId, s.graph)
    ensures forall id :: id in m.store.branches ==>
      || m.store.branches[id].memorySnapshotId == Dec(Reserved(s.store, parentId, goal, hash.digest).globalSequence)
      || (id in s.store.branches && m.store.branches[id].memorySnapshotId == s.store.branches[id].memorySnapshotId)
  {
    hide Inv, MidInv, RecordInv, SnapshotInv, FilesReadable, CaptureInv, Issued, CapturedIds, Linked, AfterUpdate,
      Snapshots.Capped, Reserved, Created, Progress;
    InvIsMid(hash, s);
    MidParts(hash, s);
    SpawnIsFresh(hash, s, parentId, goal);
    var reserved := Reserved(s.store, parentId, goal, hash.digest);
    var k, c := reserved.globalSequence, Capture(r.branchId, s.graph);
    var snap := StateSnapshot(k, Dec(k), r.branchId, s.graph);
    CaptureNew(s.captured, s.store.globalSequence, k, c);
    CaptureKeeps(s.captured, k, c, s.snapshots, s.store.branches);
    StoreGraphKeepsSnapshots(s.snapshots, m.captured, snap);
    assert reserved.branches - {r.branchId} == s.store.branches;
    NewRecord(m.captured, reserved, r, k);
    AfterUpdateCounters(reserved, r);
    LinkedKeeps(m.captured, AfterUpdate(reserved, r), parentId, r.branchId, m.store);
    assert m.captured[k] == c;
    forall id | id in m.store.branches ensures m.store.branches[id].memorySnapshotId == Dec(k)
        || (id in s.store.branches && m.store.branches[id].memorySnapshotId == s.store.branches[id].memorySnapshotId) {
      assert id in reserved.branches && (id != r.branchId ==> id in s.store.branches);
    }
    NewFileReadable(s.captured, s.snapshots, s.store.branches, k, snap, m.snapshots, m.store.branches);
    SpawnedAssemble(hash, s, r, m, k);
    SpawnedProgress(s, r, reserved, m, k, c);
  }

  lemma MidParts<G>(hash: IdHash, s: Life<G>)
    requires MidInv(hash, s)
    ensures RecordInv(s.captured, s.store.branches) && SnapshotInv(s.snapshots, s.captured)
    ensures CaptureInv(s.captured, s.store.globalSequence) && FilesReadable(s.snapshots, s.store.branches)
  {
  }

  lemma AfterUpdateCounters(s: StoreState, b: Branch)
    requires b.branchId in s.branches
    ensures AfterUpdate(s, b).idCounter == s.idCounter && AfterUpdate(s, b).globalSequence == s.globalSequence + 1
    ensures forall id :: id in s.branches && id != b.branchId ==> AfterUpdate(s, b).branches[id] == s.branches[id]
  {
  }

  lemma SpawnedAssemble<G>(hash: IdHash, s: Life<G>, r: Branch, m: Life<G>, k: nat)
    requires RecordInv(m.captured, m.store.branches) && SnapshotInv(m.snapshots, m.captured)
    requires FilesReadable(m.snapshots, m.store.branches)
    requires CaptureInv(m.captured, k) && m.store.globalSequence >= k && m.store.idCounter == s.store.idCounter + 1
    requires m.store.branches.Keys == s.store.branches.Keys + {r.branchId}
    requires CapturedIds(m.captured) == CapturedIds(s.captured) + {r.branchId}
    requires Issued(hash, s.store.branches.Keys + CapturedIds(s.captured) + {r.branchId}, s.store.idCounter + 1)
    ensures MidInv(hash, m)
  {
    assert m.store.branches.Keys + CapturedIds(m.captured) == s.store.branches.Keys + CapturedIds(s.captured) +
      {r.branchId};
    hide RecordInv, SnapshotInv, FilesReadable, Issued, CapturedIds;
  }

  lemma SpawnedProgress<G>(s: Life<G>, r: Branch, reserved: StoreState, m: Life<G>, k: nat, c: Capture<G>)
    requires r.branchId !in s.store.branches && r.branchId in reserved.branches
    requires reserved.branches - {r.branchId} == s.store.branches
    requires m.store.branches.Keys == reserved.branches.Keys
    requires forall id :: id in reserved.branches ==>
      m.store.branches[id].status == AfterUpdate(reserved, r).branches[id].status
    requires forall id :: id in reserved.branches ==>
      IdentityOf(m.store.branches[id]) == IdentityOf(AfterUpdate(reserved, r).branches[id])
    requires IdentityOf(AfterUpdate(reserved, r).branches[r.branchId]).executionNode == ""
    requires k !in s.captured && m.captured == s.captured[k := c]
    ensures Progress(s, m)
  {
    forall id | id in s.store.branches
      ensures id in m.store.branches && m.store.branches[id].status == s.store.branches[id].status
        && IdentityOf(m.store.branches[id]) == IdentityOf(s.store.branches[id]) {
      assert id in reserved.branches - {r.branchId};
    }
  }

  lemma SpawnKeepsInv<G>(hash: IdHash, s: Life<G>, parentId: string, goal: string, r: Branch, s': Life<G>)
    requires Inv(hash, s) && GoodHash(hash) && IdText(parentId, goal, s.store.idCounter + 1) in hash.texts
      && SpawnStep(s, parentId, goal, hash.digest, r, s')
    ensures Inv(hash, s') && Progress(s, s')
    ensures r.branchId != "" ==>
      exists m :: SpawnedTo(s, parentId, goal, hash.digest, r, m) && GovernedLife(m, s', r.branchId)
    ensures r.branchId == "" ==> s'.store.branches == s.store.branches
  {
    InvIsMid(hash, s);
    SpawnIsFresh(hash, s, parentId, goal);
    var created, reserved := Created(s.store, Request(parentId, goal), hash.digest),
      Reserved(s.store, parentId, goal, hash.digest);
    var k := reserved.globalSequence;
    if r.branchId == "" {
      SpawnFailed(hash, s, created, reserved, s');
    } else {
      var snap := StateSnapshot(k, Dec(k), created.branchId, s.graph);
      var m := SpawnSucceeded(s, parentId, goal, hash.digest, r, s');
      hide SpawnStep, SpawnedTo, GovernedLife;
      SpawnedMid(hash, s, parentId, goal, r, m);
      GovernanceKeepsInv(hash, m, s', r.branchId);
      GovernanceProgress(m, s', r.branchId);
      ProgressTrans(s, m, s');
    }
  }

  lemma SpawnSucceeded<G>(s: Life<G>, parentId: string, goal: string, hash: string -> string, r: Branch, s': Life<G>)
    returns (m: Life<G>)
    requires SpawnStep(s, parentId, goal, hash, r, s') && r != NO_BRANCH
    ensures SpawnedTo(s, parentId, goal, hash, r, m) && GovernedLife(m, s', r.branchId)
  {
    hide GovernedLife, Reserved, Created, Linked, Snapshots.Capped, AfterUpdate;
    var created := Created(s.store, Request(parentId, goal), hash);
    var reserved := Reserved(s.store, parentId, goal, hash);
    var k := reserved.globalSequence;
    var snap := StateSnapshot(k, Dec(k), created.branchId, s.graph);
    var captured := s.captured[k := Capture(created.branchId, s.graph)];
    var linked :| Linked(AfterUpdate(reserved, r), parentId, created.branchId, linked)
      && GovernedLife(
           Life(linked,
                s.snapshots.(chain := Snapshots.Capped(s.snapshots.chain + [snap]),
                             graphs := if s.snapshots.persisting then s.snapshots.graphs[k := Readable(snap)]
                                       else s.snapshots.graphs),
                s.graph, created.branchId, s.evictions, captured),
           s', created.branchId);
    m := Life(linked,
              s.snapshots.(chain := Snapshots.Capped(s.snapshots.chain + [snap]),
                           graphs := if s.snapshots.persisting then s.snapshots.graphs[k := Readable(snap)]
                                     else s.snapshots.graphs),
              s.graph, created.branchId, s.evictions, captured);
  }

  lemma SpawnFailed<G>(hash: IdHash, s: Life<G>, created: Branch, reserved: StoreState, s': Life<G>)
    requires Inv(hash, s) && created.branchId !in s.store.branches && created.branchId !in CapturedIds(s.captured)
    requires reserved.globalSequence > s.store.globalSequence && reserved.idCounter == s.store.idCounter + 1
    requires reserved.branches == s.store.branches[created.branchId := created]
    requires Issued(hash, s.store.branches.Keys + CapturedIds(s.captured) + {created.branchId}, s.store.idCounter + 1)
    requires var k := reserved.globalSequence;
      var snap := StateSnapshot(k, Dec(k), created.branchId, s.graph);
      && (s'.snapshots.graphs == s.snapshots.graphs
          || s'.snapshots.graphs == s.snapshots.graphs[k := Unreadable]
          || s'.snapshots.graphs == s.snapshots.graphs[k := Readable(snap)])
      && s' == s.(store := AfterRemove(reserved, created.branchId),
        snapshots := s.snapshots.(graphs := s'.snapshots.graphs),
                  captured := s.captured[k := Capture(created.branchId, s.graph)])
    ensures Inv(hash, s') && Progress(s, s') && s'.store.branches == s.store.branches
  {
    hide RecordInv, SnapshotInv, FilesReadable, CaptureInv, Issued, NothingStale, CapturedIds;
    var k, c := reserved.globalSequence, Capture(created.branchId, s.graph);
    var snap := StateSnapshot(k, Dec(k), created.branchId, s.graph);
    CaptureNew(s.captured, s.store.globalSequence, k, c);
    CaptureKeeps(s.captured, k, c, s.snapshots, s.store.branches);
    StoreGraphKeepsSnapshots(s.snapshots, s'.captured, snap);
    assert reserved.branches - {created.branchId} == s.store.branches;
    assert s'.store.branches.Keys + CapturedIds(s'.captured) == s.store.branches.Keys + CapturedIds(s.captured) +
      {created.branchId};
    StillHeld(s.snapshots, s'.snapshots, s.store.branches);
    OtherFile(s.captured, s.snapshots, s.store.branches, k, Unreadable);
    OtherFile(s.captured, s.snapshots, s.store.branches, k, Readable(snap));
  }

  lemma StillHeld<G>(a: SnapshotSource<G>, a': SnapshotSource<G>, branches: map<string, Branch>)
    requires NothingStale(a, branches)
    requires a'.chain == a.chain && a'.persisting == a.persisting && a.graphs.Keys <= a'.graphs.Keys
    ensures NothingStale(a', branches)
  {
    forall id | id in branches && branches[id].memorySnapshotId != "" ensures a'.Has(branches[id].memorySnapshotId) {
      assert a.Has(branches[id].memorySnapshotId);
    }
  }

  // ----- single steps -----

  ghost predicate Succeeded(op: Operation) {
    match op
    case Spawn(_, _, r) => r.branchId != ""
    case Suspend(_, ok) => ok
    case Resume(_, ok) => ok
    case Merge(_, _, ok) => ok
    case Archive(_, ok) => ok
    case Rollback(_, ok) => ok
  }

  /** The branch an operation brings to the front of memory. */
  ghost function Subject(op: Operation): string {
    match op
    case Spawn(_, _, r) => r.branchId
    case Suspend(id, _) => id
    case Resume(id, _) => id
    case Merge(_, targetId, _) => targetId
    case Archive(id, _) => id
    case Rollback(id, _) => id
  }

  lemma StepKeeps<G>(hash: IdHash, s: Life<G>, op: Operation, s': Life<G>)
    requires Inv(hash, s) && GoodHash(hash) && Step(hash, s, op, s')
    ensures Inv(hash, s') && Progress(s, s')
  {
    hide Inv, Progress, SpawnStep, SuspendStep, ResumeStep, MergeStep, ArchiveStep, RollbackStep, GoodHash;
    match op {
      case Spawn(parentId, goal, r) => SpawnKeepsInv(hash, s, parentId, goal, r, s');
      case Suspend(id, ok) => SuspendKeepsInv(hash, s, id, ok, s');
      case Resume(id, ok) => ResumeKeepsInv(hash, s, id, ok, s');
      case Merge(sourceId, targetId, ok) => MergeKeepsInv(hash, s, sourceId, targetId, ok, s');
      case Archive(id, ok) => ArchiveKeepsInv(hash, s, id, ok, s');
      case Rollback(id, ok) => RollbackKeepsInv(hash, s, id, ok, s');
    }
  }

  ghost predicate Guarded<G>(s: Life<G>) {
    CapsHold(s.store.branches, s.activeId, s.activeId)
  }

  /** A successful operation ends with both caps in force: only the active branch and executing ones are spared. */
  lemma SuccessEnforcesCaps<G>(hash: IdHash, s: Life<G>, op: Operation, s': Life<G>)
    requires Inv(hash, s) && GoodHash(hash) && Step(hash, s, op, s') && Succeeded(op)
    ensures Guarded(s')
  {
    hide CapsHold, Inv, Governed, GoodHash, Reserved, Created, Linked;
    if op.Spawn? {
      SpawnKeepsInv(hash, s, op.parentId, op.goal, op.result, s');
      var m :| SpawnedTo(s, op.parentId, op.goal, hash.digest, op.result, m) && GovernedLife(m, s', op.result.branchId);
    }
  }

  /** A failed operation leaves the records, the active branch and the graph as they were. */
  lemma FailureChangesNothing<G>(hash: IdHash, s: Life<G>, op: Operation, s': Life<G>)
    requires Inv(hash, s) && GoodHash(hash) && Step(hash, s, op, s') && !Succeeded(op)
    ensures s'.store.branches == s.store.branches && s'.activeId == s.activeId && s'.graph == s.graph
    ensures s'.snapshots.chain == s.snapshots.chain && s'.evictions == s.evictions
  {
    hide CapsHold, Governed, Inv, GoodHash, Linked, Reserved, Created, Target;
    if op.Spawn? {
      SpawnKeepsInv(hash, s, op.parentId, op.goal, op.result, s');
      InvIsMid(hash, s);
      SpawnIsFresh(hash, s, op.parentId, op.goal);
    }
  }

  /** Spawning and resuming leave the branch active and resident: governance never evicts it. */
  lemma SubjectStaysResident<G>(hash: IdHash, s: Life<G>, op: Operation, s': Life<G>)
    requires Inv(hash, s) && GoodHash(hash) && Step(hash, s, op, s') && Succeeded(op) && (op.Spawn? || op.Resume?)
    ensures var id := Subject(op);
      id in s'.store.branches && s'.store.branches[id].status == Active && s'.store.branches[id].isOverlayResident
        && s'.activeId == id
  {
    hide CapsHold, Linked, Reserved, Created, GoodHash, NothingStale;
    if op.Spawn? {
      SpawnKeepsInv(hash, s, op.parentId, op.goal, op.result, s');
      var m :| SpawnedTo(s, op.parentId, op.goal, hash.digest, op.result, m) && GovernedLife(m, s', op.result.branchId);
      SpawnedMid(hash, s, op.parentId, op.goal, op.result, m);
      ShieldedStays(m, s', op.result.branchId);
    } else {
      InvIsMid(hash, s);
      InvKeys(hash, s, op.id);
      LookupKeeps(s.store, op.id);
      var b := Lookup(s.store, op.id).(status := Active, isOverlayResident := true);
      NormalizeKeeps(b);
      var m := Resumed(s, op.id);
      assert m.store.branches == s.store.branches[op.id := Stamped(AfterGet(s.store, op.id), b)];
      ShieldedStays(m, s', op.id);
    }
  }

  lemma ShieldedStays<G>(m: Life<G>, s': Life<G>, id: string)
    requires GovernedLife(m, s', id) && id in m.store.branches && m.store.branches[id].branchId == id
    ensures id in s'.store.branches && s'.store.branches[id].status == m.store.branches[id].status
    ensures s'.store.branches[id].isOverlayResident == m.store.branches[id].isOverlayResident
      && s'.activeId == m.activeId
  {
    assert GovernedRecord(m.store.branches[id], s'.store.branches[id], Shielded(m.store.branches[id], id, m.activeId),
                          if m.snapshots.Has(m.store.branches[id].memorySnapshotId) then
                            m.store.branches[id].memorySnapshotId else "");
  }

  lemma ReferenceParts<G>(hash: IdHash, s: Life<G>, id: string) returns (k: nat)
    requires Inv(hash, s) && id in s.store.branches && s.store.branches[id].memorySnapshotId != ""
    ensures k in s.captured && s.store.branches[id].memorySnapshotId == Dec(k) && k <= s.store.globalSequence
    ensures s.snapshots.Has(Dec(k)) && ReadableAt(s.snapshots.graphs, Dec(k))
  {
    InvIsMid(hash, s);
    hide Issued, SnapshotInv, Dec, ReadableAt;
    assert Refers(s.captured, s.store.branches[id], id);
    k :| k in s.captured && s.store.branches[id].memorySnapshotId == Dec(k) && s.captured[k].branchId == id;
  }

  lemma NamedInChain<G>(hash: IdHash, s: Life<G>, k: nat)
    requires Inv(hash, s) && k in s.captured && HasName(s.snapshots.chain, Dec(k))
    ensures HasId(s.snapshots.chain, k)
  {
    hide Issued, FilesReadable, RecordInv, NothingStale, Dec;
    var x := FindName(s.snapshots.chain, Dec(k)).value;
    assert x in s.snapshots.chain && Authentic(s.captured, x);
    DecInjective(x.id, k);
  }

  lemma ReferenceFound<G>(hash: IdHash, s: Life<G>, id: string)
    requires Inv(hash, s) && s.store.globalSequence < TWO_64
    requires id in s.store.branches && s.store.branches[id].memorySnapshotId != ""
    ensures Target(s, id).Some?
  {
    var k := ReferenceParts(hash, s, id);
    ParseDec(k);
    hide Inv, Dec, ParseSnapshotId, FindName, FindId;
    if HasName(s.snapshots.chain, Dec(k)) {
      NamedInChain(hash, s, k);
    }
  }

  /** A reference that is kept can be followed: it loads the graph captured for this very branch. */
  lemma ReferenceLoads<G>(hash: IdHash, s: Life<G>, id: string)
    requires Inv(hash, s) && s.store.globalSequence < TWO_64
    requires id in s.store.branches && s.store.branches[id].memorySnapshotId != ""
    ensures Target(s, id).Some?
      && exists k :: k in s.captured && s.captured[k] == Capture(id, Target(s, id).value.graph)
  {
    InvIsMid(hash, s);
    ReferenceFound(hash, s, id);
    hide Inv, MidInv, Target, TargetKey, Authentic;
    TargetIsOwnCapture(hash, s, id);
  }

  /** So a suspended branch fails to resume only when its reference was cleared or the chain cannot be saved. */
  lemma ResumeFails<G>(hash: IdHash, s: Life<G>, id: string, s': Life<G>)
    requires Inv(hash, s) && s.store.globalSequence < TWO_64 && ResumeStep(s, id, false, s')
    ensures
      || id !in s.store.branches || s.store.branches[id].status != Suspended
      || s.store.branches[id].memorySnapshotId == ""
      || (s.snapshots.persisting && Target(s, id).Some? && !HasId(s.snapshots.chain, TargetKey(s, id)))
  {
    if id in s.store.branches && s.store.branches[id].memorySnapshotId != "" {
      ReferenceLoads(hash, s, id);
    }
    hide Inv, Target, HasId;
  }

  /** A successful merge leaves the source merged exactly when it was not merged into itself. */
  lemma MergedIff<G>(hash: IdHash, s: Life<G>, sourceId: string, targetId: string, s': Life<G>)
    requires Inv(hash, s) && MergeStep(s, sourceId, targetId, true, s')
    ensures sourceId in s'.store.branches && (s'.store.branches[sourceId].status == Merged <==> sourceId != targetId)
  {
    hide SnapshotInv, CaptureInv, Issued, FilesReadable, NothingStale, MergedStore, CapsHold, RecordInv, Core;
    MergedRecords(s.captured, s.store, sourceId, targetId);
    var m := MergedStore(s.store, sourceId, targetId);
    assert GovernedRecord(m.branches[sourceId], s'.store.branches[sourceId],
      Shielded(m.branches[sourceId], targetId, targetId),
                          if s.snapshots.Has(m.branches[sourceId].memorySnapshotId) then
                            m.branches[sourceId].memorySnapshotId else "");
  }

  function LoneBranch(id: string, sequence: nat): Branch {
    Request("", "").(branchId := id, creationSequence := 1, lastMutationSequence := sequence)
  }

  function LoneLife<G>(id: string, graph: G, sequence: nat, activeId: string): Life<G> {
    Life(StoreState(map[id := LoneBranch(id, sequence)], [id], sequence, 1), SnapshotSource([], map[], false), graph,
      activeId, 0, map[])
  }

  lemma LoneInv<G>(hash: IdHash, graph: G)
    requires IdText("", "", 1) in hash.texts && hash.digest(IdText("", "", 1)) != ""
    ensures Inv(hash, LoneLife(hash.digest(IdText("", "", 1)), graph, 1, ""))
  {
    var id := hash.digest(IdText("", "", 1));
    var s := LoneLife(id, graph, 1, "");
    assert CapturedIds(s.captured) == {} && s.store.branches.Keys + CapturedIds(s.captured) == {id};
  }

  /** The source is stored as merged, and then the target, fetched before, over it. */
  lemma LoneMerged(id: string)
    ensures var s := LoneLife(id, 0, 1, "").store;
      AfterUpdate(AfterUpdate(AfterGet(AfterGet(s, id), id), LoneBranch(id, 1).(status := Merged)), LoneBranch(id, 1))
        == LoneLife(id, 0, 3, "").store
  {
    var s := LoneLife(id, 0, 1, "").store;
    assert Without([id], id) == [] && [id] + [] == [id];
    assert AfterGet(s, id) == s;
    var merged := LoneBranch(id, 1).(status := Merged);
    assert AfterUpdate(s, merged) == StoreState(map[id := merged.(lastMutationSequence := 2)], [id], 2, 1);
  }

  /** A concrete merge of a branch into itself: the only branch of a store, under any id its generator gives,
      stays active. */
  lemma SelfMergeKeepsActive<G>(hash: IdHash, graph: G)
    requires IdText("", "", 1) in hash.texts && hash.digest(IdText("", "", 1)) != ""
    ensures var id := hash.digest(IdText("", "", 1));
      && Inv(hash, LoneLife(id, graph, 1, ""))
      && MergeStep(LoneLife(id, graph, 1, ""), id, id, true, LoneLife(id, graph, 3, id))
      && LoneLife(id, graph, 3, id).store.branches[id].status == Active
  {
    var id := hash.digest(IdText("", "", 1));
    LoneInv(hash, graph);
    LoneMerged(id);
    hide Inv, AfterUpdate, AfterGet;
    var s, s' := LoneLife(id, graph, 1, ""), LoneLife(id, graph, 3, id);
    assert MergedStore(s.store, id, id) == s'.store;
    assert Residents(s'.store.branches) == {id} && ActiveResidents(s'.store.branches) == {id};
  }

  // ----- captures and caps, operation by operation -----

  lemma RestoreFindsCapture<G>(hash: IdHash, s: Life<G>, op: Operation, s': Life<G>) returns (n: nat)
    requires Inv(hash, s) && Step(hash, s, op, s') && Succeeded(op) && (op.Resume? || op.Rollback?)
    ensures n in s.captured && s.captured[n] == Capture(op.id, s'.graph)
  {
    hide Inv, ResumeStep, RollbackStep;
    if op.Resume? {
      ResumeKeepsInv(hash, s, op.id, true, s');
    } else {
      RollbackKeepsInv(hash, s, op.id, true, s');
    }
    n :| n in s.captured && s.captured[n] == Capture(op.id, s'.graph);
  }

  lemma CaptureUnique<G>(hash: IdHash, s: Life<G>, j: nat, k: nat)
    requires Inv(hash, s) && j in s.captured && k in s.captured && s.captured[j].branchId == s.captured[k].branchId
    ensures j == k
  {
  }

  lemma SpawnCaptures<G>(hash: IdHash, s: Life<G>, op: Operation, s': Life<G>) returns (k: nat)
    requires Inv(hash, s) && GoodHash(hash) && Step(hash, s, op, s') && op.Spawn? && op.result.branchId != ""
    ensures k in s'.captured && s'.captured[k] == Capture(op.result.branchId, s.graph)
  {
    hide Inv, GoodHash, Linked, Reserved, Created, Governed, CapsHold;
    SpawnKeepsInv(hash, s, op.parentId, op.goal, op.result, s');
    var m :| SpawnedTo(s, op.parentId, op.goal, hash.digest, op.result, m) && GovernedLife(m, s', op.result.branchId);
    SpawnedMid(hash, s, op.parentId, op.goal, op.result, m);
    k :| k in m.captured && m.captured[k] == Capture(op.result.branchId, s.graph);
  }

  ghost predicate NoneExecuting<G>(s: Life<G>) {
    forall id :: id in s.store.branches ==> s.store.branches[id].currentExecutionNodeId == ""
  }

  /** Within the caps, whoever is protected. */
  ghost predicate WithinCaps<G>(s: Life<G>) {
    && |ActiveResidents(s.store.branches)| <= MAX_ACTIVE_BRANCHES
    && |Residents(s.store.branches)| <= MAX_TRACKED_BRANCHES
  }

  lemma SameBranchesGuarded<G>(s: Life<G>, s': Life<G>)
    requires Guarded(s) && s'.store.branches == s.store.branches && s'.activeId == s.activeId
    ensures Guarded(s')
  {
    hide CapsHold;
  }

  lemma SameBranchesCaps<G>(s: Life<G>, s': Life<G>)
    requires WithinCaps(s) && s'.store.branches == s.store.branches
    ensures WithinCaps(s')
  {
  }

  lemma ProgressQuiet<G>(s: Life<G>, s': Life<G>)
    requires NoneExecuting(s) && Progress(s, s')
    ensures NoneExecuting(s')
  {
    forall id | id in s'.store.branches ensures s'.store.branches[id].currentExecutionNodeId == "" {
      if id in s.store.branches {
        assert IdentityOf(s'.store.branches[id]) == IdentityOf(s.store.branches[id]);
      }
    }
  }

  lemma QuietCaps<G>(hash: IdHash, s: Life<G>)
    requires Inv(hash, s) && NoneExecuting(s) && Guarded(s)
    ensures WithinCaps(s)
  {
    CapsUnconditional(s.store.branches, s.activeId, s.activeId);
  }
}
