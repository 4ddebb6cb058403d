/** What the lifecycle operations do to the records, field by field and status by status. */
module LifecycleEffects {
  // Governance turns active branches into suspended ones and nothing else, so a branch leaves the live statuses only
  // when an operation names it, and an evicted branch can be resumed as long as its snapshot is kept.

  import opened Orders
  import opened Decimals
  import opened Branches
  import opened BranchStores
  import opened Snapshots
  import opened LifecycleSpec
  import opened LifecycleRuns
  import opened LifecycleTheorems

  // ----- governance -----

  ghost predicate SameContent(b: Branch, b': Branch) {
    && b'.branchId == b.branchId && b'.goal == b.goal && b'.currentExecutionNodeId == b.currentExecutionNodeId
    && b'.subBranches == b.subBranches && b'.dependencyReferences == b.dependencyReferences
    && b'.confidence == b.confidence && b'.creationSequence == b.creationSequence
  }

  ghost predicate FirstNamed<G>(chain: seq<StateSnapshot<G>>, name: string, i: nat) {
    i < |chain| && chain[i].snapshotId == name && forall j :: 0 <= j < i ==> chain[j].snapshotId != name
  }

  lemma {:induction false} FindNameFirst<G>(chain: seq<StateSnapshot<G>>, name: string, i: nat)
    requires FirstNamed(chain, name, i)
    ensures FindName(chain, name) == Some(chain[i])
  {
    if i > 0 {
      assert FirstNamed(chain[1..], name, i - 1);
      FindNameFirst(chain[1..], name, i - 1);
    }
  }

  lemma {:induction false} FirstOfName<G>(chain: seq<StateSnapshot<G>>, name: string, n: nat) returns (i: nat)
    requires n < |chain| && chain[n].snapshotId == name
    ensures FirstNamed(chain, name, i)
  {
    if j: nat :| j < n && chain[j].snapshotId == name {
      i := FirstOfName(chain, name, j);
    } else {
      i := n;
    }
  }

  /** What a reference needs to be kept: the chain holds a snapshot of this name, or its number has a file. */
  ghost predicate Held<G>(snapshots: SnapshotSource<G>, reference: string) {
    && reference != ""
    && ((exists i: nat :: FirstNamed(snapshots.chain, reference, i) && snapshots.chain[i].id != 0)
        || (snapshots.persisting && exists k :: ParseSnapshotId(reference) == Some(k) && k in snapshots.graphs))
  }

  lemma HasIff<G>(snapshots: SnapshotSource<G>, reference: string)
    ensures snapshots.Has(reference) <==> Held(snapshots, reference)
  {
    hide ParseSnapshotId, FindName;
    var chain := snapshots.chain;
    forall i: nat | FirstNamed(chain, reference, i)
      ensures i < |chain| && FindName(chain, reference) == Some(chain[i]) {
      FindNameFirst(chain, reference, i);
    }
    if FindName(chain, reference).Some? {
      var n :| 0 <= n < |chain| && chain[n] == FindName(chain, reference).value;
      var i := FirstOfName(chain, reference, n);
      assert FirstNamed(chain, reference, i);
    }
  }

  /** Governance changes where a record lives, and with it an active branch becomes a suspended one; it clears the
      references that nothing can load; and it spares whatever it was told to. */
  lemma GovernanceEffect<G>(m: Life<G>, s': Life<G>, protectedId: string, id: string)
    requires GovernedLife(m, s', protectedId) && id in m.store.branches
    ensures id in s'.store.branches
    ensures var b, b' := m.store.branches[id], s'.store.branches[id];
      && SameContent(b, b')
      && (b'.isOverlayResident == b.isOverlayResident ==> b'.status == b.status)
      && (b'.isOverlayResident != b.isOverlayResident ==>
        && b.isOverlayResident && b.branchId != protectedId && b.branchId != m.activeId
        && b.currentExecutionNodeId == "" && b'.status == (if b.status == Active then Suspended else b.status))
      && b'.memorySnapshotId == (if Held(m.snapshots, b.memorySnapshotId) then b.memorySnapshotId else "")
  {
    var b, b' := m.store.branches[id], s'.store.branches[id];
    HasIff(m.snapshots, b.memorySnapshotId);
    hide Held;
    GovernedAt(m, s', protectedId, id);
    CoreContent(b, b');
  }

  lemma GovernedAt<G>(m: Life<G>, s': Life<G>, protectedId: string, id: string)
    requires GovernedLife(m, s', protectedId) && id in m.store.branches
    ensures id in s'.store.branches
    ensures var b := m.store.branches[id];
      GovernedRecord(b, s'.store.branches[id], Shielded(b, protectedId, m.activeId),
        if m.snapshots.Has(b.memorySnapshotId) then b.memorySnapshotId else "")
  {
    hide GovernedRecord, CapsHold;
  }

  lemma CoreContent(b: Branch, b': Branch)
    requires Core(b') == Core(b)
    ensures SameContent(b, b')
  {
    assert SameContent(Core(b), b) && SameContent(Core(b'), b');
  }

  /** Governance evicts no more than the caps ask for, and so nothing while both hold. */
  lemma QuietGovernance<G>(m: Life<G>, s': Life<G>, protectedId: string)
    requires GovernedLife(m, s', protectedId)
    ensures Residents(s'.store.branches) <= Residents(m.store.branches)
    ensures |Residents(m.store.branches)| - |Residents(s'.store.branches)| <= Excess(m.store.branches)
    ensures Excess(m.store.branches) == 0 ==>
      && Residents(s'.store.branches) == Residents(m.store.branches)
      && forall id :: id in m.store.branches ==> s'.store.branches[id].status == m.store.branches[id].status
  {
    var before, after := Residents(m.store.branches), Residents(s'.store.branches);
    forall id | id in s'.store.branches
      ensures id in m.store.branches
      ensures s'.store.branches[id].isOverlayResident ==> m.store.branches[id].isOverlayResident
      ensures m.store.branches[id].isOverlayResident == s'.store.branches[id].isOverlayResident ==>
        s'.store.branches[id].status == m.store.branches[id].status
    {
      GovernedBooks(m, s', protectedId);
      GovernanceEffect(m, s', protectedId, id);
    }
    GovernedBooks(m, s', protectedId);
    hide GovernedLife;
    assert after <= before;
    if Excess(m.store.branches) == 0 {
      SubsetSame(after, before);
      forall id | id in m.store.branches
        ensures s'.store.branches[id].isOverlayResident == m.store.branches[id].isOverlayResident {
        assert id in before <==> id in after;
      }
    }
  }

  lemma GovernedBooks<G>(m: Life<G>, s': Life<G>, protectedId: string)
    requires GovernedLife(m, s', protectedId)
    ensures s'.store.branches.Keys == m.store.branches.Keys
    ensures s'.evictions + |Residents(s'.store.branches)| == m.evictions + |Residents(m.store.branches)|
    ensures s'.evictions <= m.evictions + Excess(m.store.branches)
  {
    hide CapsHold, GovernedRecord, Excess;
  }

  lemma SubsetSame(a: set<string>, b: set<string>)
    requires a <= b && |b| <= |a|
    ensures a == b
  {
    SubsetSize(a, b);
    if x :| x in b && x !in a {
      SubsetSize(a, b - {x});
    }
  }

  // ----- the status of every branch after an operation -----

  /** The operations that give a branch a new status. */
  ghost predicate Names(op: Operation, id: string) {
    match op
    case Spawn(_, _, _) => false
    case Suspend(named, _) => id == named
    case Resume(named, _) => id == named
    case Merge(sourceId, targetId, _) => id == sourceId && sourceId != targetId
    case Archive(named, _) => id == named
    case Rollback(named, _) => id == named
  }

  /** The status a branch must have for the operation, and the one it has afterwards. */
  ghost predicate Turns(op: Operation, was: BranchState, now: BranchState) {
    match op
    case Spawn(_, _, _) => now == was
    case Suspend(_, _) => was == Active && now == Suspended
    case Resume(_, _) => was == Suspended && now == Active
    case Merge(_, _, _) => was != Merged && was != RolledBack && now == Merged
    case Archive(_, _) => was != Archived && now == Archived
    case Rollback(_, _) => now == RolledBack
  }

  ghost predicate KeptOrSuspended(was: BranchState, now: BranchState) {
    now == was || (was == Active && now == Suspended)
  }

  lemma GovernedStatus<G>(m: Life<G>, s': Life<G>, protectedId: string, id: string)
    requires GovernedLife(m, s', protectedId) && id in m.store.branches
    ensures id in s'.store.branches && KeptOrSuspended(m.store.branches[id].status, s'.store.branches[id].status)
  {
    hide GovernedLife;
    GovernanceEffect(m, s', protectedId, id);
  }

  /** One record rewritten, then governance. */
  lemma RewrittenStatus<G>(hash: IdHash, s: Life<G>, named: string, b: Branch, m: Life<G>, s': Life<G>,
                           protectedId: string, id: string)
    requires Inv(hash, s) && named in s.store.branches && id in s.store.branches
    requires b.branchId == named && b.memorySnapshotId == s.store.branches[named].memorySnapshotId
    requires IdentityOf(b) == IdentityOf(s.store.branches[named])
    requires m.store == AfterUpdate(AfterGet(s.store, named), b) && GovernedLife(m, s', protectedId)
    ensures id in s'.store.branches
    ensures KeptOrSuspended(if id == named then b.status else s.store.branches[id].status, s'.store.branches[id].status)
  {
    InvIsMid(hash, s);
    hide Inv, MidInv, AfterUpdate, AfterGet, GovernedLife;
    RewriteKeeps(hash, s, named, b);
    GovernedStatus(m, s', protectedId, id);
  }

  lemma RestatedStatus<G>(hash: IdHash, s: Life<G>, named: string, status: BranchState, m: Life<G>, s': Life<G>,
                          protectedId: string, id: string)
    requires Inv(hash, s) && named in s.store.branches && id in s.store.branches
    requires m.store == WithStatus(s.store, named, status) && GovernedLife(m, s', protectedId)
    ensures id in s'.store.branches
    ensures KeptOrSuspended(if id == named then status else s.store.branches[id].status, s'.store.branches[id].status)
  {
    InvIsMid(hash, s);
    InvKeys(hash, s, named);
    LookupKeeps(s.store, named);
    hide Inv, MidInv, AfterUpdate, AfterGet, GovernedLife, Lookup;
    RewrittenStatus(hash, s, named, Lookup(s.store, named).(status := status), m, s', protectedId, id);
  }

  lemma SpawnedStatus<G>(hash: IdHash, s: Life<G>, op: Operation, s': Life<G>, id: string)
    requires Inv(hash, s) && GoodHash(hash) && Step(hash, s, op, s') && op.Spawn? && id in s.store.branches
    ensures id in s'.store.branches
    ensures if Succeeded(op) then KeptOrSuspended(s.store.branches[id].status, s'.store.branches[id].status)
            else s'.store.branches[id].status == s.store.branches[id].status
  {
    hide Inv, GoodHash, SpawnStep, GovernedLife, SpawnedTo, KeptOrSuspended, Progress;
    SpawnKeepsInv(hash, s, op.parentId, op.goal, op.result, s');
    if Succeeded(op) {
      var m :| SpawnedTo(s, op.parentId, op.goal, hash.digest, op.result, m) && GovernedLife(m, s', op.result.branchId);
      SpawnedOthers(hash, s, op.parentId, op.goal, op.result, m, id);
      GovernedStatus(m, s', op.result.branchId, id);
    }
  }

  lemma SpawnedOthers<G>(hash: IdHash, s: Life<G>, parentId: string, goal: string, r: Branch, m: Life<G>, id: string)
    requires Inv(hash, s) && GoodHash(hash) && IdText(parentId, goal, s.store.idCounter + 1) in hash.texts
    requires SpawnedTo(s, parentId, goal, hash.digest, r, m) && id in s.store.branches
    ensures id in m.store.branches && m.store.branches[id].status == s.store.branches[id].status
  {
    hide Inv, MidInv, RecordInv, SnapshotInv, FilesReadable, CaptureInv, Issued, CapturedIds, Linked, AfterUpdate,
      Snapshots.Capped, Reserved, Created;
    InvIsMid(hash, s);
    MidParts(hash, s);
    SpawnIsFresh(hash, s, parentId, goal);
    var reserved := Reserved(s.store, parentId, goal, hash.digest);
    var k, c := reserved.globalSequence, Capture(r.branchId, s.graph);
    CaptureNew(s.captured, s.store.globalSequence, k, c);
    CaptureKeeps(s.captured, k, c, s.snapshots, s.store.branches);
    assert reserved.branches - {r.branchId} == s.store.branches;
    NewRecord(m.captured, reserved, r, k);
    AfterUpdateCounters(reserved, r);
    LinkedKeeps(m.captured, AfterUpdate(reserved, r), parentId, r.branchId, m.store);
  }

  lemma MergedStatus<G>(hash: IdHash, s: Life<G>, sourceId: string, targetId: string, s': Life<G>, id: string)
    requires Inv(hash, s) && MergeStep(s, sourceId, targetId, true, s') && id in s.store.branches
    ensures sourceId in s.store.branches && targetId in s.store.branches
    ensures id in s'.store.branches
    ensures KeptOrSuspended(if id == sourceId && sourceId != targetId then Merged else s.store.branches[id].status,
      s'.store.branches[id].status)
  {
    InvIsMid(hash, s);
    MidParts(hash, s);
    hide Inv, MidInv, GovernedLife, RecordInv, MergedStore;
    MergedRecords(s.captured, s.store, sourceId, targetId);
    GovernedStatus(s.(store := MergedStore(s.store, sourceId, targetId), activeId := targetId), s', targetId, id);
  }

  /** A successful operation gives the branch it names its status; every other branch keeps its own or is suspended by
      governance, which only active branches can be; a failed operation changes no status. */
  lemma StatusAfter<G>(hash: IdHash, s: Life<G>, op: Operation, s': Life<G>, id: string)
    requires Inv(hash, s) && GoodHash(hash) && Step(hash, s, op, s') && id in s.store.branches
    ensures id in s'.store.branches
    ensures var was, now := s.store.branches[id].status, s'.store.branches[id].status;
      if !Succeeded(op) then now == was
      else if Names(op, id) then Turns(op, was, now)
      else now == was || (was == Active && now == Suspended)
  {
    if !Succeeded(op) {
      FailureChangesNothing(hash, s, op, s');
    } else {
      hide Inv, GoodHash, SpawnStep, GovernedLife, WithStatus, AfterGet, AfterUpdate, MergedStore, Target, TargetKey;
      match op {
        case Spawn(_, _, _) => SpawnedStatus(hash, s, op, s', id);
        case Suspend(named, _) =>
          var m := s.(store := WithStatus(s.store, named, Suspended), activeId := Cleared(s.activeId, named));
          RestatedStatus(hash, s, named, Suspended, m, s', m.activeId, id);
        case Resume(named, _) => ResumedStatus(hash, s, named, s', id);
        case Merge(sourceId, targetId, _) => MergedStatus(hash, s, sourceId, targetId, s', id);
        case Archive(named, _) =>
          var m := s.(store := WithStatus(s.store, named, Archived), activeId := Cleared(s.activeId, named));
          RestatedStatus(hash, s, named, Archived, m, s', m.activeId, id);
        case Rollback(named, _) =>
          var m := RolledBackTo(s, named);
          TargetExists(s, named);
          RestatedStatus(hash, s, named, RolledBack, m, s', Cleared(s.activeId, named), id);
      }
    }
  }

  lemma TargetExists<G>(s: Life<G>, id: string)
    requires Target(s, id).Some?
    ensures id in s.store.branches
  {
  }

  lemma ResumedStatus<G>(hash: IdHash, s: Life<G>, named: string, s': Life<G>, id: string)
    requires Inv(hash, s) && GoodHash(hash) && ResumeStep(s, named, true, s') && id in s.store.branches
    ensures named in s.store.branches && s.store.branches[named].status == Suspended && id in s'.store.branches
    ensures if id == named then s'.store.branches[id].status == Active
      else KeptOrSuspended(s.store.branches[id].status, s'.store.branches[id].status)
  {
    InvIsMid(hash, s);
    InvKeys(hash, s, named);
    LookupKeeps(s.store, named);
    hide Inv, GoodHash, GovernedLife, AfterUpdate, AfterGet, Lookup, Target, TargetKey, Snapshots.Capped, HasId;
    var b := Lookup(s.store, named).(status := Active, isOverlayResident := true);
    RewrittenStatus(hash, s, named, b, Resumed(s, named), s', named, id);
    SubjectStaysResident(hash, s, Resume(named, true), s');
  }

  // ----- the active branch -----

  /** A spawned or resumed branch is the active one, as is the target of a merge; a branch that is suspended, archived
      or rolled back no longer is; otherwise, and after a failure, the active branch stays. */
  lemma ActiveAfter<G>(hash: IdHash, s: Life<G>, op: Operation, s': Life<G>)
    requires Inv(hash, s) && GoodHash(hash) && Step(hash, s, op, s')
    ensures !Succeeded(op) ==> s'.activeId == s.activeId
    ensures Succeeded(op) && (op.Spawn? || op.Resume? || op.Merge?) ==> s'.activeId == Subject(op)
    ensures Succeeded(op) && (op.Suspend? || op.Archive? || op.Rollback?) ==>
      s'.activeId != op.id && (s.activeId != op.id ==> s'.activeId == s.activeId)
      && (s.activeId == op.id ==> s'.activeId == "")
  {
    if !Succeeded(op) {
      FailureChangesNothing(hash, s, op, s');
    } else if op.Spawn? || op.Resume? {
      SubjectStaysResident(hash, s, op, s');
    } else {
      InvIsMid(hash, s);
      if !op.Merge? { NamedIsKnown(hash, s, op, s'); }
      hide Inv, GoodHash, WithStatus, MergedStore, Target, TargetKey, Governed, CapsHold;
    }
  }

  lemma NamedIsKnown<G>(hash: IdHash, s: Life<G>, op: Operation, s': Life<G>)
    requires Inv(hash, s) && Step(hash, s, op, s') && Succeeded(op)
    requires op.Suspend? || op.Archive? || op.Rollback? || op.Resume?
    ensures op.id in s.store.branches && op.id != ""
  {
    hide GovernedLife, WithStatus, SnapshotInv, CaptureInv, FilesReadable, Issued, NothingStale;
  }

  // ----- when the operations succeed -----

  /** The first snapshot of the chain under this number. */
  ghost predicate FirstIn<G>(chain: seq<StateSnapshot<G>>, k: nat, x: StateSnapshot<G>) {
    x.id == k && exists i :: 0 <= i < |chain| && chain[i] == x && forall j :: 0 <= j < i ==> chain[j].id != k
  }

  lemma FirstLater<G>(chain: seq<StateSnapshot<G>>, k: nat, x: StateSnapshot<G>)
    requires chain != [] && chain[0].id != k
    ensures FirstIn(chain[1..], k, x) ==> FirstIn(chain, k, x)
  {
    if FirstIn(chain[1..], k, x) {
      var i :| 0 <= i < |chain| - 1 && chain[1..][i] == x && forall j :: 0 <= j < i ==> chain[1..][j].id != k;
      assert chain[i + 1] == x && forall j :: 0 < j < i + 1 ==> chain[j].id == chain[1..][j - 1].id;
    }
  }

  lemma {:induction false} FindIdFirst<G>(chain: seq<StateSnapshot<G>>, k: nat)
    ensures FindId(chain, k).Some? ==> FirstIn(chain, k, FindId(chain, k).value)
  {
    if chain != [] && chain[0].id != k {
      hide FirstIn;
      FindIdFirst(chain[1..], k);
      if FindId(chain, k).Some? { FirstLater(chain, k, FindId(chain, k).value); }
    }
  }

  lemma FirstUnique<G>(chain: seq<StateSnapshot<G>>, k: nat, x: StateSnapshot<G>, y: StateSnapshot<G>)
    requires FirstIn(chain, k, x) && FirstIn(chain, k, y)
    ensures x == y
  {
  }

  lemma FindIdIs<G>(chain: seq<StateSnapshot<G>>, k: nat, x: StateSnapshot<G>)
    ensures FindId(chain, k) == Some(x) <==> FirstIn(chain, k, x)
  {
    FindIdFirst(chain, k);
    if FirstIn(chain, k, x) {
      assert FindId(chain, k).Some? by { assert x in chain; }
      FirstUnique(chain, k, x, FindId(chain, k).value);
    }
  }

  /** A reference means the first snapshot of the chain under its number, and otherwise the one stored in a file; number
      0 stands for none of the chain. */
  ghost predicate Means<G>(snapshots: SnapshotSource<G>, reference: string, x: StateSnapshot<G>) {
    reference != "" && exists k ::
      && ParseSnapshotId(reference) == Some(k)
      && ((k != 0 && FirstIn(snapshots.chain, k, x))
          || (snapshots.persisting && LoadFrom(snapshots.graphs, k) == Some(x)
              && (k == 0 || forall y :: y in snapshots.chain ==> y.id != k)))
  }

  lemma TargetIs<G>(s: Life<G>, id: string, x: StateSnapshot<G>)
    ensures Target(s, id) == Some(x) <==>
      id in s.store.branches && Means(s.snapshots, s.store.branches[id].memorySnapshotId, x)
  {
    if id in s.store.branches {
      hide ParseSnapshotId, LoadFrom, FirstIn, FindId;
      var k := ParseSnapshotId(s.store.branches[id].memorySnapshotId);
      if k.Some? {
        var chain := s.snapshots.chain;
        FindIdIs(chain, k.value, x);
        if FindId(chain, k.value).Some? { FindIdIs(chain, k.value, FindId(chain, k.value).value); }
      }
    }
  }

  ghost predicate Restorable<G>(s: Life<G>, id: string) {
    && id in s.store.branches && s.store.branches[id].memorySnapshotId != ""
    && exists k ::
         && ParseSnapshotId(s.store.branches[id].memorySnapshotId) == Some(k)
         && ((k != 0 && exists y :: y in s.snapshots.chain && y.id == k)
             || (s.snapshots.persisting && k in s.snapshots.graphs && s.snapshots.graphs[k].Readable?
                 && s.snapshots.graphs[k].snapshot.id == k))
  }

  ghost predicate HasStatus(s: StoreState, id: string, status: BranchState) {
    id in s.branches && s.branches[id].status == status
  }

  /** When an operation succeeds. Only where snapshots are saved can a spawn, resume or rollback fail otherwise. */
  lemma SucceedsIff<G>(hash: IdHash, s: Life<G>, op: Operation, s': Life<G>)
    requires Step(hash, s, op, s')
    ensures var known := s.store.branches;
      match op
      case Spawn(_, _, r) => r != NO_BRANCH || s.snapshots.persisting
      case Suspend(id, ok) => ok <==> HasStatus(s.store, id, Active)
      case Resume(id, ok) =>
        && (ok ==> HasStatus(s.store, id, Suspended) && Restorable(s, id))
        && (HasStatus(s.store, id, Suspended) && Restorable(s, id) ==> ok || s.snapshots.persisting)
      case Merge(source, target, ok) =>
        ok <==>
          source in known && target in known && known[source].status != Merged && known[source].status != RolledBack
      case Archive(id, ok) => ok <==> id in known && known[id].status != Archived
      case Rollback(id, ok) => (ok ==> Restorable(s, id)) && (Restorable(s, id) ==> ok || s.snapshots.persisting)
  {
    hide GovernedLife, WithStatus, AfterGet, AfterUpdate, MergedStore, Target, TargetKey, Means, Created, Reserved,
      Dec, IdText;
    match op {
      case Spawn(_, _, _) =>
      case Suspend(_, _) =>
      case Merge(_, _, _) =>
      case Archive(_, _) =>
      case Resume(id, _) => RestorableIff(s, id);
      case Rollback(id, _) => RestorableIff(s, id);
    }
  }

  lemma RestorableIff<G>(s: Life<G>, id: string)
    ensures Restorable(s, id) <==> Target(s, id).Some?
  {
    hide ParseSnapshotId, FindId;
    if id in s.store.branches {
      var k := ParseSnapshotId(s.store.branches[id].memorySnapshotId);
      if k.Some? {
        var found := FindId(s.snapshots.chain, k.value);
      }
    }
  }

  // ----- evicted branches -----

  /** A branch that an operation did not name and that lost its place in memory was active and is suspended; if its
      reference was kept, a resume finds its snapshot and can only fail where the chain cannot be saved. */
  lemma EvictedCanResume<G>(hash: IdHash, s: Life<G>, op: Operation, s': Life<G>, id: string, ok: bool, s'': Life<G>)
    requires Inv(hash, s) && GoodHash(hash) && Step(hash, s, op, s')
    requires id in s.store.branches && s.store.branches[id].status == Active && !Names(op, id)
    requires id in s'.store.branches && s'.store.branches[id].status != Active
    requires s'.store.branches[id].memorySnapshotId != "" && s'.store.globalSequence < TWO_64
    requires ResumeStep(s', id, ok, s'')
    ensures s'.store.branches[id].status == Suspended && Target(s', id).Some?
    ensures ok || (s'.snapshots.persisting && !HasId(s'.snapshots.chain, TargetKey(s', id)))
  {
    hide Inv, GoodHash, Step, Target, TargetKey, HasId, GovernedLife;
    StatusAfter(hash, s, op, s', id);
    StepKeeps(hash, s, op, s');
    ReferenceLoads(hash, s', id);
  }

  // ----- what a spawn stores -----

  /** The new branch as a lookup then returns it. */
  ghost predicate IsNewBranch(b: Branch, parentId: string, goal: string, sequence: nat) {
    && b.goal == goal && b.parentId == parentId && b.parentBranchId == parentId
    && b.status == Active && b.isOverlayResident && b.currentExecutionNodeId == "" && b.dependencyReferences == []
    && b.confidence == Confidence(1.0, 0.0, 0.0)
    && b.creationSequence == sequence + 1 && b.memorySnapshotId == Dec(sequence + 2)
  }

  lemma NewFields(s: StoreState, parentId: string, goal: string, hash: string -> string)
    ensures var r := Created(s, Request(parentId, goal), hash).(memorySnapshotId := Dec(s.globalSequence + 2));
      IsNewBranch(r, parentId, goal, s.globalSequence) && r.subBranches == [] && Normalize(r) == r
  {
    hide Dec, IdText;
  }

  /** The same but for the list of children and the stamp of the last change. */
  ghost predicate SameButChildren(b: Branch, b': Branch) {
    Normalize(b').(subBranches := [], lastMutationSequence := 0)
      == Normalize(b).(subBranches := [], lastMutationSequence := 0)
  }

  lemma LinkedRecords(s: StoreState, parentId: string, childId: string, s': StoreState, id: string)
    requires Linked(s, parentId, childId, s') && id in s.branches && s.branches[id].branchId == id
    requires parentId in s.branches ==> s.branches[parentId].branchId == parentId
    ensures id in s'.branches && s'.branches[id].branchId == id && SameButChildren(s.branches[id], s'.branches[id])
    ensures Elems(s'.branches[id].subBranches) == Elems(s.branches[id].subBranches) + if id == parentId && id != ""
      then {childId} else {}
    ensures id != parentId ==> s'.branches[id] == s.branches[id]
  {
    if parentId != "" && parentId in s.branches {
      var subs :| Ascending(subs) && Elems(subs) == Elems(s.branches[parentId].subBranches) + {childId}
        && s' == AfterUpdate(AfterGet(s, parentId), Lookup(s, parentId).(subBranches := subs));
      var b := Lookup(s, parentId).(subBranches := subs);
      assert b.branchId == parentId;
      assert s'.branches == s.branches[parentId := Stamped(AfterGet(s, parentId), b)];
    }
  }

  /** The parent has one more child, and every other branch the children it had. */
  ghost predicate ChildAdded(branches: map<string, Branch>, branches': map<string, Branch>, parentId: string,
                             childId: string) {
    forall id :: id in branches ==>
      && id in branches'
      && Elems(branches'[id].subBranches) ==
           if id == parentId then Elems(branches[id].subBranches) + {childId} else Elems(branches[id].subBranches)
  }

  lemma StoredNew(reserved: StoreState, r: Branch)
    requires r.branchId in reserved.branches && Normalize(r) == r
    ensures AfterUpdate(reserved, r).branches ==
      reserved.branches[r.branchId := r.(lastMutationSequence := reserved.globalSequence + 1)]
  {
  }

  lemma SpawnedStore<G>(hash: IdHash, s: Life<G>, parentId: string, goal: string, r: Branch, m: Life<G>)
    requires Inv(hash, s) && GoodHash(hash) && IdText(parentId, goal, s.store.idCounter + 1) in hash.texts
    requires SpawnedTo(s, parentId, goal, hash.digest, r, m)
    ensures r.branchId != "" && r.branchId !in s.store.branches && r.branchId in m.store.branches
    ensures m.store.branches[r.branchId].branchId == r.branchId
      && IsNewBranch(Normalize(m.store.branches[r.branchId]), parentId, goal, s.store.globalSequence)
    ensures Elems(m.store.branches[r.branchId].subBranches) == if parentId == r.branchId then {r.branchId} else {}
    ensures ChildAdded(s.store.branches, m.store.branches, parentId, r.branchId)
  {
    InvIsMid(hash, s);
    MidParts(hash, s);
    SpawnIsFresh(hash, s, parentId, goal);
    NewFields(s.store, parentId, goal, hash.digest);
    hide Inv, MidInv, GoodHash, SnapshotInv, FilesReadable, CaptureInv, Issued, CapturedIds, Created, Reserved,
      Linked, AfterUpdate, Normalize, Dec, Snapshots.Capped;
    var reserved := Reserved(s.store, parentId, goal, hash.digest);
    StoredNew(reserved, r);
    var stored := AfterUpdate(reserved, r);
    LinkedRecords(stored, parentId, r.branchId, m.store, r.branchId);
    NewLinked(r, stored.branches[r.branchId], m.store.branches[r.branchId], parentId, goal, s.store.globalSequence);
    forall id | id in s.store.branches ensures id in m.store.branches
      && Elems(m.store.branches[id].subBranches) == Elems(s.store.branches[id].subBranches)
        + if id == parentId then {r.branchId} else {} {
      assert stored.branches[id] == s.store.branches[id];
      LinkedRecords(stored, parentId, r.branchId, m.store, id);
    }
  }

  lemma NewLinked(r: Branch, b: Branch, b': Branch, parentId: string, goal: string, sequence: nat)
    requires IsNewBranch(r, parentId, goal, sequence) && Normalize(r) == r
    requires b == r.(lastMutationSequence := b.lastMutationSequence) && SameButChildren(b, b')
    ensures IsNewBranch(Normalize(b'), parentId, goal, sequence)
  {
    hide Dec;
  }

  /** Governance leaves the branch just spawned alone, and its snapshot is the newest of the chain. */
  lemma NewStays<G>(m: Life<G>, s': Life<G>, id: string, parentId: string, goal: string, sequence: nat)
    requires GovernedLife(m, s', id) && id in m.store.branches && m.store.branches[id].branchId == id
    requires IsNewBranch(Normalize(m.store.branches[id]), parentId, goal, sequence)
    requires m.snapshots.Has(Dec(sequence + 2))
    ensures id in s'.store.branches && IsNewBranch(Normalize(s'.store.branches[id]), parentId, goal, sequence)
    ensures s'.store.branches[id].subBranches == m.store.branches[id].subBranches
  {
    GovernedAt(m, s', id, id);
    ShieldedStays(m, s', id);
    HasIff(m.snapshots, Dec(sequence + 2));
    GovernanceEffect(m, s', id, id);
    SameParents(m.store.branches[id], s'.store.branches[id]);
    NormalizeKeeps(m.store.branches[id]);
    NormalizeKeeps(s'.store.branches[id]);
    NormalizeRest(m.store.branches[id]);
    NormalizeRest(s'.store.branches[id]);
    hide GovernedLife, Normalize, Dec, Core, Held;
  }

  lemma NormalizeRest(b: Branch)
    ensures var n := Normalize(b);
      n.subBranches == b.subBranches && n.dependencyReferences == b.dependencyReferences && n.confidence == b.confidence
  {
  }

  lemma SameParents(b: Branch, b': Branch)
    requires Core(b') == Core(b)
    ensures Normalize(b').parentId == Normalize(b).parentId
    ensures Normalize(b').parentBranchId == Normalize(b).parentBranchId
  {
    assert Core(b).parentId == Normalize(b).parentId && Core(b').parentId == Normalize(b').parentId;
    assert Core(b).parentBranchId == Normalize(b).parentBranchId
      && Core(b').parentBranchId == Normalize(b').parentBranchId;
  }

  lemma AppendedLast<T>(s: seq<T>, x: T)
    ensures var r := Snapshots.Capped(s + [x]); r != [] && r[|r| - 1] == x
  {
  }

  lemma LastIsNamed<G>(a: SnapshotSource<G>, x: StateSnapshot<G>)
    requires a.chain != [] && a.chain[|a.chain| - 1] == x && x.id != 0 && x.snapshotId == Dec(x.id)
    requires forall y :: y in a.chain && y.snapshotId == x.snapshotId ==> y.id != 0
    ensures a.Has(Dec(x.id))
  {
    assert x in a.chain;
    assert FindName(a.chain, x.snapshotId).Some?;
  }

  /** What a successful spawn leaves: the new branch with its goal and parent, resident and active; the parent with the
      child added to its children and all other lists of children as they were; and the graph, unchanged, as the newest
      snapshot of the chain, under the number the branch refers to. */
  lemma SpawnedRecord<G>(hash: IdHash, s: Life<G>, op: Operation, s': Life<G>)
    requires Inv(hash, s) && GoodHash(hash) && Step(hash, s, op, s') && op.Spawn? && Succeeded(op)
    ensures var id := op.result.branchId;
      && id !in s.store.branches && id in s'.store.branches
      && IsNewBranch(Lookup(s'.store, id), op.parentId, op.goal, s.store.globalSequence)
      && Elems(s'.store.branches[id].subBranches) == (if op.parentId == id then {id} else {})
    ensures ChildAdded(s.store.branches, s'.store.branches, op.parentId, op.result.branchId)
    ensures var k := s.store.globalSequence + 2;
      && s'.graph == s.graph && s'.snapshots.chain != []
      && s'.snapshots.chain[|s'.snapshots.chain| - 1] == StateSnapshot(k, Dec(k), op.result.branchId, s.graph)
  {
    hide Inv, GoodHash, Step, GovernedLife, SpawnedTo, Dec, IsNewBranch, Snapshots.Capped;
    var id := op.result.branchId;
    var m := SpawnReaches(hash, s, op, s');
    SpawnedStore(hash, s, op.parentId, op.goal, op.result, m);
    SpawnedChain(hash, s, op.parentId, op.goal, op.result, m);
    NewStays(m, s', id, op.parentId, op.goal, s.store.globalSequence);
    GovernedSame(m, s', id);
    forall x | x in s.store.branches ensures x in s'.store.branches
      && s'.store.branches[x].subBranches == m.store.branches[x].subBranches {
      GovernanceEffect(m, s', id, x);
    }
  }

  lemma SpawnReaches<G>(hash: IdHash, s: Life<G>, op: Operation, s': Life<G>) returns (m: Life<G>)
    requires Inv(hash, s) && GoodHash(hash) && Step(hash, s, op, s') && op.Spawn? && Succeeded(op)
    ensures SpawnedTo(s, op.parentId, op.goal, hash.digest, op.result, m) && GovernedLife(m, s', op.result.branchId)
    ensures IdText(op.parentId, op.goal, s.store.idCounter + 1) in hash.texts
  {
    hide Inv, GoodHash, SpawnStep, SpawnedTo, GovernedLife, Progress;
    SpawnKeepsInv(hash, s, op.parentId, op.goal, op.result, s');
    m :| SpawnedTo(s, op.parentId, op.goal, hash.digest, op.result, m) && GovernedLife(m, s', op.result.branchId);
  }

  lemma SpawnedChain<G>(hash: IdHash, s: Life<G>, parentId: string, goal: string, r: Branch, m: Life<G>)
    requires Inv(hash, s) && GoodHash(hash) && IdText(parentId, goal, s.store.idCounter + 1) in hash.texts
    requires SpawnedTo(s, parentId, goal, hash.digest, r, m)
    ensures var k := s.store.globalSequence + 2;
      && m.graph == s.graph && m.snapshots.chain != [] && m.snapshots.Has(Dec(k))
      && m.snapshots.chain[|m.snapshots.chain| - 1] == StateSnapshot(k, Dec(k), r.branchId, s.graph)
  {
    InvIsMid(hash, s);
    SpawnIsFresh(hash, s, parentId, goal);
    SpawnedMid(hash, s, parentId, goal, r, m);
    MidParts(hash, m);
    hide Inv, MidInv, GoodHash, RecordInv, FilesReadable, Issued, CapturedIds, Created, Reserved, Linked, AfterUpdate,
      Normalize, Dec, Snapshots.Capped;
    var k := s.store.globalSequence + 2;
    var snap := StateSnapshot(k, Dec(k), r.branchId, s.graph);
    AppendedLast(s.snapshots.chain, snap);
    forall y | y in m.snapshots.chain ensures y.id != 0 {
      assert Authentic(m.captured, y);
    }
    LastIsNamed(m.snapshots, snap);
  }

  lemma GovernedSame<G>(m: Life<G>, s': Life<G>, protectedId: string)
    requires GovernedLife(m, s', protectedId)
    ensures s'.graph == m.graph && s'.snapshots == m.snapshots && s'.activeId == m.activeId
  {
  }

  // ----- what a resume or a rollback restores -----

  lemma {:induction false} CutIsPrefix<G>(s: seq<StateSnapshot<G>>, id: nat)
    ensures CutAfter(s, id) <= s
  {
    if s != [] && s[0].id != id {
      CutIsPrefix(s[1..], id);
      assert s == [s[0]] + s[1..];
    }
  }

  /** The graph becomes that of the branch's snapshot. A rollback makes it the newest of the chain, dropping what came
      after it; a resume leaves the chain alone if it is there, and otherwise appends it. */
  lemma RestoredChain<G>(s: Life<G>, op: Operation, s': Life<G>)
    requires op.Resume? ==> ResumeStep(s, op.id, true, s')
    requires op.Rollback? ==> RollbackStep(s, op.id, true, s')
    requires op.Resume? || op.Rollback?
    ensures Target(s, op.id).Some?
    ensures var x, chain := Target(s, op.id).value, s'.snapshots.chain;
      && s'.graph == x.graph && x in chain
      && (op.Rollback? ==> chain[|chain| - 1] == x && (chain <= s.snapshots.chain || chain == [x]))
      && (op.Resume? ==> chain == s.snapshots.chain || chain[|chain| - 1] == x)
      && (op.Resume? && x in s.snapshots.chain && x.id == TargetKey(s, op.id) != 0 ==> chain == s.snapshots.chain)
      && s'.snapshots.graphs == s.snapshots.graphs
  {
    hide Governed, CapsHold, AfterUpdate, AfterGet, Lookup, Excess, WithStatus;
    var x, k := Target(s, op.id).value, TargetKey(s, op.id);
    CutIsPrefix(s.snapshots.chain, k);
    if op.Resume? && !HasId(s.snapshots.chain, k) {
      AppendedLast(s.snapshots.chain, x);
    }
    hide Snapshots.Capped;
  }
}
