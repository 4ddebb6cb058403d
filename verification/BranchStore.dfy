/** `ultra::intelligence::BranchStore`: resident records in an overlay over a base of
    non-resident ones, and a recency list with an index of list positions. */
module BranchStores {
  import opened Orders
  import opened Decimals
  import opened Branches

  // ----- the recency list: std::list nodes named by handles, and a map of iterators -----

  datatype LruNode = LruNode(handle: nat, id: string)

  function Ids(order: seq<LruNode>): (r: seq<string>)
    ensures |r| == |order| && forall i :: 0 <= i < |r| ==> r[i] == order[i].id
  {
    if order == [] then [] else [order[0].id] + Ids(order[1..])
  }

  /** `list::erase(iterator)`. */
  function EraseHandle(order: seq<LruNode>, handle: nat): seq<LruNode> {
    if order == [] then []
    else if order[0].handle == handle then order[1..]
    else [order[0]] + EraseHandle(order[1..], handle)
  }

  /** Every iterator in the index points at a node with its key, and every node is indexed. */
  ghost predicate Indexed(nodes: set<LruNode>, index: map<string, nat>, next: nat) {
    && (forall n :: n in nodes ==> n.id in index && index[n.id] == n.handle && n.handle < next)
    && (forall id :: id in index ==> LruNode(index[id], id) in nodes)
    && (forall a, b :: a in index && b in index && index[a] == index[b] ==> a == b)
  }

  /** List and index name the same ids, once each. */
  ghost predicate LruAgrees(order: seq<LruNode>, index: map<string, nat>, next: nat) {
    NoDup(Ids(order)) && Indexed(Elems(order), index, next)
  }

  lemma Unindex(nodes: set<LruNode>, index: map<string, nat>, next: nat, n: LruNode)
    requires Indexed(nodes, index, next) && n in nodes
    ensures Indexed(nodes - {n}, index - {n.id}, next)
  {
  }

  lemma IndexNew(nodes: set<LruNode>, index: map<string, nat>, next: nat, id: string)
    requires Indexed(nodes, index, next) && id !in index
    ensures Indexed(nodes + {LruNode(next, id)}, index[id := next], next + 1)
  {
  }

  lemma IdListed(order: seq<LruNode>, id: string)
    ensures id in Ids(order) <==> exists n :: n in order && n.id == id
  {
    if id in Ids(order) {
      var i :| 0 <= i < |order| && Ids(order)[i] == id;
      assert order[i] in order;
    }
    if n :| n in order && n.id == id {
      var i :| 0 <= i < |order| && order[i] == n;
      assert Ids(order)[i] == id;
    }
  }

  lemma IdIndexed(order: seq<LruNode>, index: map<string, nat>, next: nat, id: string)
    requires LruAgrees(order, index, next)
    ensures id in index <==> id in Ids(order)
    ensures id !in index ==> Without(Ids(order), id) == Ids(order)
  {
    IdListed(order, id);
    if id in index {
      assert LruNode(index[id], id) in Elems(order);
    } else {
      forall n | n in order ensures n.id != id { assert n in Elems(order); }
      WithoutAbsent(Ids(order), id);
    }
  }

  lemma {:induction false} EraseHandleAt(order: seq<LruNode>, i: nat)
    requires i < |order| && forall j :: 0 <= j < i ==> order[j].handle != order[i].handle
    ensures EraseHandle(order, order[i].handle) == order[..i] + order[i + 1..]
  {
    if i == 0 {
      assert order[..0] + order[1..] == order[1..];
    } else {
      assert order[1..][i - 1] == order[i];
      EraseHandleAt(order[1..], i - 1);
      assert order[..i] + order[i + 1..] == [order[0]] + (order[1..][..i - 1] + order[1..][i..]);
    }
  }

  lemma CutNode(order: seq<LruNode>, i: nat)
    requires i < |order| && NoDup(Ids(order))
    ensures var rest := order[..i] + order[i + 1..];
      && Ids(rest) == Without(Ids(order), order[i].id) && NoDup(Ids(rest))
      && Elems(rest) == Elems(order) - {order[i]}
  {
    var rest, ids, id := order[..i] + order[i + 1..], Ids(order), order[i].id;
    WithoutAt(ids, i);
    WithoutNoDup(ids, id);
    assert Ids(rest) == ids[..i] + ids[i + 1..];
    assert order == order[..i] + [order[i]] + order[i + 1..];
    assert order[i] !in rest by { IdListed(rest, id); }
    assert forall n :: n in order <==> n in rest || n == order[i];
  }

  lemma EraseAgrees(order: seq<LruNode>, index: map<string, nat>, next: nat, id: string)
    requires LruAgrees(order, index, next) && id in index
    ensures var rest := EraseHandle(order, index[id]);
      LruAgrees(rest, index - {id}, next) && Ids(rest) == Without(Ids(order), id)
  {
    var n := LruNode(index[id], id);
    assert n in Elems(order);
    var i :| 0 <= i < |order| && order[i] == n;
    forall j | 0 <= j < i ensures order[j].handle != order[i].handle {
      assert order[j] in Elems(order);
      assert Ids(order)[j] == order[j].id && Ids(order)[i] == id;
    }
    hide Indexed, Ids;
    EraseHandleAt(order, i);
    CutNode(order, i);
    Unindex(Elems(order), index, next, n);
  }

  /** Linking a new node at the front, and at the back. */
  lemma IdsAppend(order: seq<LruNode>, n: LruNode)
    ensures Ids(order + [n]) == Ids(order) + [n.id]
  {
  }

  lemma PrefixNoDup(s: seq<string>, x: string)
    ensures NoDup(s + [x]) <==> NoDup(s) && x !in s
  {
    if NoDup(s + [x]) {
      assert forall i :: 0 <= i < |s| ==> (s + [x])[i] == s[i] && (s + [x])[i] != (s + [x])[|s|];
    }
  }

  lemma InsertFront(order: seq<LruNode>, index: map<string, nat>, next: nat, id: string)
    requires LruAgrees(order, index, next) && id !in index
    ensures LruAgrees([LruNode(next, id)] + order, index[id := next], next + 1)
    ensures Ids([LruNode(next, id)] + order) == [id] + Ids(order)
  {
    IdIndexed(order, index, next, id);
    IndexNew(Elems(order), index, next, id);
    var longer := [LruNode(next, id)] + order;
    assert Ids(longer) == [id] + Ids(order);
    assert Elems(longer) == Elems(order) + {LruNode(next, id)};
    hide Indexed, Ids;
  }

  lemma InsertBack(order: seq<LruNode>, index: map<string, nat>, next: nat, id: string)
    requires LruAgrees(order, index, next) && id !in Ids(order)
    ensures LruAgrees(order + [LruNode(next, id)], index[id := next], next + 1)
    ensures Ids(order + [LruNode(next, id)]) == Ids(order) + [id]
  {
    IdIndexed(order, index, next, id);
    IndexNew(Elems(order), index, next, id);
    var longer := order + [LruNode(next, id)];
    assert Ids(longer) == Ids(order) + [id];
    assert Elems(longer) == Elems(order) + {LruNode(next, id)};
    hide Indexed, Ids;
  }

  // ----- the store as one plain map -----

  datatype StoreState = StoreState(branches: map<string, Branch>, lru: seq<string>, globalSequence: nat, idCounter: nat)

  function Touch(lru: seq<string>, id: string): seq<string> {
    [id] + Without(lru, id)
  }

  /** Where a lookup or an update leaves the id in the recency list. */
  function Placed(lru: seq<string>, b: Branch): seq<string> {
    if b.isOverlayResident then Touch(lru, b.branchId) else Without(lru, b.branchId)
  }

  lemma NormalizeKeeps(b: Branch)
    ensures var n := Normalize(b);
      && n.branchId == b.branchId && n.isOverlayResident == b.isOverlayResident && n.status == b.status
      && n.memorySnapshotId == b.memorySnapshotId && n.currentExecutionNodeId == b.currentExecutionNodeId
      && n.creationSequence == b.creationSequence && n.goal == b.goal
    ensures Normalize(Normalize(b)) == Normalize(b)
  {
  }

  function Lookup(s: StoreState, id: string): Branch {
    if id in s.branches then Normalize(s.branches[id]) else NO_BRANCH
  }

  function AfterGet(s: StoreState, id: string): StoreState {
    if id in s.branches then s.(lru := Placed(s.lru, s.branches[id].(branchId := id))) else s
  }

  function Stamped(s: StoreState, b: Branch): Branch {
    Normalize(b).(lastMutationSequence := s.globalSequence + 1)
  }

  function AfterUpdate(s: StoreState, b: Branch): StoreState {
    if b.branchId !in s.branches then s
    else s.(branches := s.branches[b.branchId := Stamped(s, b)],
            lru := Placed(s.lru, b),
            globalSequence := s.globalSequence + 1)
  }

  function AfterEvict(s: StoreState, id: string): StoreState {
    if id !in s.branches then s
    else s.(branches := s.branches[id := Normalize(s.branches[id]).(isOverlayResident := false)],
            lru := Without(s.lru, id))
  }

  /** The record a `create` call stores. */
  function Created(s: StoreState, branch: Branch, hash: string -> string): Branch {
    var b := Normalize(branch);
    var b := if b.branchId == "" then b.(branchId := hash(IdText(b.parentId, b.goal, s.idCounter + 1))) else b;
    var b := if b.creationSequence == 0 then b.(creationSequence := s.globalSequence + 1) else b;
    b.(isOverlayResident := true, lastMutationSequence := b.creationSequence)
  }

  function AfterCreate(s: StoreState, branch: Branch, hash: string -> string): StoreState {
    var b := Created(s, branch, hash);
    StoreState(s.branches[b.branchId := b], Touch(s.lru, b.branchId),
               if branch.creationSequence == 0 then s.globalSequence + 1 else s.globalSequence,
               if branch.branchId == "" then s.idCounter + 1 else s.idCounter)
  }

  function AfterRemove(s: StoreState, id: string): StoreState {
    s.(branches := s.branches - {id}, lru := Without(s.lru, id))
  }

  ghost function Residents(branches: map<string, Branch>): set<string> {
    set id | id in branches && branches[id].isOverlayResident
  }

  /** Keys are ids, and resident ids are listed, and only existing ids are; before any load exactly the
      resident ones. */
  ghost predicate Consistent(s: StoreState, loaded: bool) {
    && (forall id :: id in s.branches ==> s.branches[id].branchId == id)
    && NoDup(s.lru)
    && Residents(s.branches) <= Elems(s.lru) <= s.branches.Keys
    && (!loaded ==> Elems(s.lru) == Residents(s.branches))
  }

  lemma PlacedElems(lru: seq<string>, b: Branch)
    requires NoDup(lru)
    ensures NoDup(Placed(lru, b))
    ensures Elems(Placed(lru, b)) == if b.isOverlayResident then Elems(lru) + {b.branchId}
      else Elems(lru) - {b.branchId}
  {
    WithoutNoDup(lru, b.branchId);
  }

  lemma CreatedResident(s: StoreState, branch: Branch, hash: string -> string)
    ensures Created(s, branch, hash).isOverlayResident
  {
  }

  // ----- what the operations do to records, counters and recency -----

  /** The id is no longer listed, and the others keep their places. */
  ghost predicate Unlisted(lru: seq<string>, lru': seq<string>, id: string) {
    if id !in lru then lru' == lru else exists k :: 0 <= k < |lru| && lru[k] == id && lru' == lru[..k] + lru[k + 1..]
  }

  /** The id is the most recent one, and the others follow in the order they had. */
  ghost predicate MadeRecent(lru: seq<string>, lru': seq<string>, id: string) {
    lru' != [] && lru'[0] == id && Unlisted(lru, lru'[1..], id)
  }

  ghost predicate RecencyAfter(lru: seq<string>, lru': seq<string>, id: string, resident: bool) {
    if resident then MadeRecent(lru, lru', id) else Unlisted(lru, lru', id)
  }

  lemma WithoutUnlists(lru: seq<string>, id: string)
    requires NoDup(lru)
    ensures Unlisted(lru, Without(lru, id), id)
  {
    if id in lru {
      var k :| 0 <= k < |lru| && lru[k] == id;
      WithoutAt(lru, k);
    } else {
      WithoutAbsent(lru, id);
    }
  }

  lemma PlacedRelists(lru: seq<string>, b: Branch)
    requires NoDup(lru)
    ensures RecencyAfter(lru, Placed(lru, b), b.branchId, b.isOverlayResident)
  {
    WithoutUnlists(lru, b.branchId);
    assert b.isOverlayResident ==> Placed(lru, b)[1..] == Without(lru, b.branchId);
  }

  /** A lookup changes nothing but recency: a resident branch becomes the most recent one, any other is not listed. */
  lemma GetEffect(s: StoreState, id: string)
    requires NoDup(s.lru)
    ensures var s' := AfterGet(s, id);
      && s' == s.(lru := s'.lru)
      && (id !in s.branches ==> s' == s && Lookup(s, id).branchId == "")
      && (id in s.branches ==>
        && RecencyAfter(s.lru, s'.lru, id, s.branches[id].isOverlayResident)
        && Lookup(s, id).goal == s.branches[id].goal && Lookup(s, id).status == s.branches[id].status)
  {
    if id in s.branches {
      PlacedRelists(s.lru, s.branches[id].(branchId := id));
      NormalizeKeeps(s.branches[id]);
    }
  }

  /** An update replaces an existing record by the one given, stamped with the next sequence number, and nothing
      else. */
  lemma UpdateEffect(s: StoreState, b: Branch)
    requires NoDup(s.lru)
    ensures var s', id := AfterUpdate(s, b), b.branchId;
      && (id !in s.branches ==> s' == s)
      && (id in s.branches ==>
        && s'.branches == s.branches[id := s'.branches[id]] && s'.idCounter == s.idCounter
        && s'.globalSequence == s.globalSequence + 1 && s'.branches[id].lastMutationSequence == s.globalSequence + 1
        && s'.branches[id] == b.(parentId := s'.branches[id].parentId,
                                 parentBranchId := s'.branches[id].parentBranchId,
                                 lastMutationSequence := s'.branches[id].lastMutationSequence)
        && RecencyAfter(s.lru, s'.lru, id, b.isOverlayResident))
  {
    NormalizeFills(b);
    PlacedRelists(s.lru, b);
  }

  /** A creation fills in what is missing: the id from parent, goal and the next counter, the sequence number; the
      branch is resident and the most recent one. */
  lemma CreateEffect(s: StoreState, b: Branch, hash: string -> string)
    requires NoDup(s.lru)
    ensures var s', c := AfterCreate(s, b, hash), Created(s, b, hash);
      && s'.branches == s.branches[c.branchId := c] && MadeRecent(s.lru, s'.lru, c.branchId)
      && c.isOverlayResident && c.lastMutationSequence == c.creationSequence
      && c.goal == b.goal && c.status == b.status && c.subBranches == b.subBranches && c.confidence == b.confidence
      && (b.branchId != "" ==> c.branchId == b.branchId && s'.idCounter == s.idCounter)
      && (b.branchId == "" ==>
        && s'.idCounter == s.idCounter + 1
        && c.branchId == hash(c.parentId + "|" + b.goal + "|" + Dec(s.idCounter + 1)))
      && (b.creationSequence != 0 ==>
        c.creationSequence == b.creationSequence && s'.globalSequence == s.globalSequence)
      && (b.creationSequence == 0 ==> c.creationSequence == s'.globalSequence == s.globalSequence + 1)
  {
    hide Dec;
    NormalizeFills(b);
    var c := Created(s, b, hash);
    WithoutUnlists(s.lru, c.branchId);
    assert AfterCreate(s, b, hash).lru[1..] == Without(s.lru, c.branchId);
  }

  /** Eviction keeps the record, no longer resident; removal drops it; either way the id is no longer listed. */
  lemma EvictAndRemoveEffect(s: StoreState, id: string)
    requires NoDup(s.lru)
    ensures var s' := AfterEvict(s, id);
      && (id !in s.branches ==> s' == s)
      && (id in s.branches ==>
        && s' == s.(branches := s.branches[id := s'.branches[id]], lru := s'.lru) && Unlisted(s.lru, s'.lru, id)
        && s'.branches[id] == s.branches[id].(parentId := s'.branches[id].parentId,
                                              parentBranchId := s'.branches[id].parentBranchId,
                                              isOverlayResident := false))
    ensures var s' := AfterRemove(s, id);
      && s' == s.(branches := s'.branches, lru := s'.lru) && Unlisted(s.lru, s'.lru, id)
      && s'.branches.Keys == s.branches.Keys - {id}
      && forall x :: x in s.branches && x != id ==> s'.branches[x] == s.branches[x]
  {
    WithoutUnlists(s.lru, id);
    if id in s.branches { NormalizeFills(s.branches[id]); }
  }

  // ----- the class -----

  class BranchStore {
    var base: map<string, Branch>
    var overlay: map<string, Branch>
    var lruOrder: seq<LruNode>
    var lruIndex: map<string, nat>
    var nextHandle: nat
    var globalSequence: nat
    var idCounter: nat
    const hash: string -> string
    /** Whether the recency list has been set from outside since the store was last empty. */
    ghost var loaded: bool

    ghost function Contents(): map<string, Branch>
      reads this
    {
      base + overlay
    }

    ghost function Abs(): StoreState
      reads this
    {
      StoreState(Contents(), Ids(lruOrder), globalSequence, idCounter)
    }

    /** The overlay holds the resident records, the base non-resident ones only. */
    ghost predicate Valid()
      reads this
    {
      && Layered(base, overlay)
      && LruAgrees(lruOrder, lruIndex, nextHandle)
      && Consistent(Abs(), loaded)
    }

    constructor (hash: string -> string)
      ensures Valid() && !loaded && Abs() == StoreState(map[], [], 0, 0) && this.hash == hash
    {
      base, overlay, lruOrder, lruIndex, nextHandle := map[], map[], [], map[], 0;
      globalSequence, idCounter, loaded := 0, 0, false;
      this.hash := hash;
    }

    method TouchLru(id: string)
      requires LruAgrees(lruOrder, lruIndex, nextHandle)
      modifies `lruOrder, `lruIndex, `nextHandle
      ensures LruAgrees(lruOrder, lruIndex, nextHandle)
      ensures Ids(lruOrder) == Touch(old(Ids(lruOrder)), id)
    {
      hide LruAgrees;
      ghost var ids := Ids(lruOrder);
      if id in lruIndex {
        EraseAgrees(lruOrder, lruIndex, nextHandle, id);
        InsertFront(EraseHandle(lruOrder, lruIndex[id]), lruIndex - {id}, nextHandle, id);
        lruOrder := EraseHandle(lruOrder, lruIndex[id]);
        assert (lruIndex - {id})[id := nextHandle] == lruIndex[id := nextHandle];
      } else {
        IdIndexed(lruOrder, lruIndex, nextHandle, id);
        InsertFront(lruOrder, lruIndex, nextHandle, id);
      }
      lruOrder := [LruNode(nextHandle, id)] + lruOrder;
      lruIndex := lruIndex[id := nextHandle];
      nextHandle := nextHandle + 1;
    }

    method EraseLru(id: string)
      requires LruAgrees(lruOrder, lruIndex, nextHandle)
      modifies `lruOrder, `lruIndex
      ensures LruAgrees(lruOrder, lruIndex, nextHandle)
      ensures Ids(lruOrder) == Without(old(Ids(lruOrder)), id)
    {
      hide LruAgrees;
      if id !in lruIndex {
        IdIndexed(lruOrder, lruIndex, nextHandle, id);
        return;
      }
      EraseAgrees(lruOrder, lruIndex, nextHandle, id);
      lruOrder := EraseHandle(lruOrder, lruIndex[id]);
      lruIndex := lruIndex - {id};
    }

    /** Fills in the id and the creation sequence where they are missing. */
    method Prepare(branch: Branch) returns (b: Branch)
      modifies `globalSequence, `idCounter
      ensures b == Created(old(Abs()), branch, hash)
      ensures globalSequence == AfterCreate(old(Abs()), branch, hash).globalSequence
      ensures idCounter == AfterCreate(old(Abs()), branch, hash).idCounter
    {
      hide Ids, Normalize, IdText, Without, Contents;
      NormalizeKeeps(branch);
      b := Normalize(branch);
      if b.branchId == "" {
        idCounter := idCounter + 1;
        b := b.(branchId := hash(IdText(b.parentId, b.goal, idCounter)));
      }
      if b.creationSequence == 0 {
        globalSequence := globalSequence + 1;
        b := b.(creationSequence := globalSequence);
      }
      b := b.(isOverlayResident := true, lastMutationSequence := b.creationSequence);
    }

    method Create(branch: Branch) returns (created: Branch)
      requires Valid()
      modifies this
      ensures Valid() && loaded == old(loaded)
      ensures Abs() == AfterCreate(old(Abs()), branch, hash) && created == Created(old(Abs()), branch, hash)
    {
      hide LruAgrees, Layered, Consistent, Ids, Without, Created;
      ghost var before := Abs();
      CreatedResident(before, branch, hash);
      created := Prepare(branch);
      OverlayWrite(base, overlay, created);
      overlay := overlay[created.branchId := created];
      TouchLru(created.branchId);
      WriteConsistent(before, Abs(), loaded, created);
    }

    /** Into the base, touching neither sequences nor the recency list. */
    method InsertLoaded(b: Branch)
      requires Valid()
      modifies `base
      ensures Valid()
      ensures var persisted := Normalize(b).(isOverlayResident := false);
        && base == old(base)[b.branchId := persisted]
        && Abs() == if b.branchId in overlay then old(Abs())
          else old(Abs()).(branches := old(Contents())[b.branchId := persisted])
    {
      hide LruAgrees, Layered, Consistent, Ids, Normalize, IdText, Without;
      NormalizeKeeps(b);
      var persisted := Normalize(b).(isOverlayResident := false);
      LoadWrite(base, overlay, persisted, Abs(), loaded);
      base := base[persisted.branchId := persisted];
    }

    method Get(branchId: string) returns (b: Branch)
      requires Valid()
      modifies `lruOrder, `lruIndex, `nextHandle
      ensures Valid() && Abs() == AfterGet(old(Abs()), branchId) && b == Lookup(old(Abs()), branchId)
    {
      hide LruAgrees, Layered, Consistent;
      ghost var before := Abs();
      LayersJoin(base, overlay, branchId);
      if branchId !in overlay && branchId !in base {
        return NO_BRANCH;
      }
      b := if branchId in overlay then overlay[branchId] else base[branchId];
      if b.isOverlayResident {
        TouchLru(branchId);
      } else {
        EraseLru(branchId);
      }
      b := Normalize(b);
      GetConsistent(before, branchId, loaded);
    }

    method Update(branch: Branch) returns (found: bool)
      requires Valid()
      modifies this
      ensures Valid() && loaded == old(loaded)
      ensures found == (branch.branchId in old(Abs()).branches) && Abs() == AfterUpdate(old(Abs()), branch)
    {
      hide LruAgrees, Layered, Consistent, Ids, Normalize, IdText, Without;
      NormalizeKeeps(branch);
      LayersJoin(base, overlay, branch.branchId);
      ghost var before := Abs();
      if branch.branchId !in base && branch.branchId !in overlay {
        return false;
      }
      globalSequence := globalSequence + 1;
      var cloned := Normalize(branch).(lastMutationSequence := globalSequence);
      if cloned.isOverlayResident {
        OverlayWrite(base, overlay, cloned);
        overlay := overlay[cloned.branchId := cloned];
        TouchLru(cloned.branchId);
      } else {
        BaseWrite(base, overlay, cloned);
        base := base[cloned.branchId := cloned];
        overlay := overlay - {cloned.branchId};
        EraseLru(cloned.branchId);
      }
      WriteConsistent(before, Abs(), loaded, cloned);
      return true;
    }

    method Remove(branchId: string) returns (erased: bool)
      requires Valid()
      modifies this
      ensures Valid() && loaded == old(loaded)
      ensures erased == (branchId in old(Abs()).branches) && Abs() == AfterRemove(old(Abs()), branchId)
    {
      hide LruAgrees, Layered, Consistent, Ids, Normalize, IdText, Without;
      LayersJoin(base, overlay, branchId);
      ghost var before := Abs();
      erased := branchId in overlay || branchId in base;
      RemoveWrite(base, overlay, branchId);
      overlay := overlay - {branchId};
      base := base - {branchId};
      EraseLru(branchId);
      RemoveConsistent(before, branchId, loaded);
    }

    /** Drops the overlay entry but keeps the record. */
    method EvictOverlay(branchId: string) returns (evicted: bool)
      requires Valid()
      modifies this
      ensures Valid() && loaded == old(loaded)
      ensures evicted == (branchId in old(Abs()).branches) && Abs() == AfterEvict(old(Abs()), branchId)
    {
      hide LruAgrees, Layered, Consistent, Ids, Normalize, IdText, Without;
      ghost var before := Abs();
      var snapshot := BranchSnapshot(branchId);
      if snapshot.None? {
        return false;
      }
      NormalizeKeeps(snapshot.value);
      ContentsKeyed(before, loaded, branchId);
      var preserved := Normalize(snapshot.value).(isOverlayResident := false);
      BaseWrite(base, overlay, preserved);
      base := base[branchId := preserved];
      overlay := overlay - {branchId};
      EraseLru(branchId);
      WriteConsistent(before, Abs(), loaded, preserved);
      return true;
    }

    method Clear()
      requires Valid()
      modifies this
      ensures Valid() && !loaded
      ensures Abs() == old(Abs()).(branches := map[], lru := [])
    {
      hide LruAgrees, Layered, Consistent, Ids;
      NothingAgrees(nextHandle);
      NothingConsistent(Abs().(branches := map[], lru := []));
      base, overlay, lruOrder, lruIndex := map[], map[], [], map[];
      loaded := false;
    }

    method SetCounters(sequence: nat, counter: nat)
      requires Valid()
      modifies `globalSequence, `idCounter
      ensures Valid() && Abs() == old(Abs()).(globalSequence := sequence, idCounter := counter)
    {
      hide LruAgrees, Layered, Consistent, Ids, Normalize, IdText, Without;
      CountersConsistent(Abs(), loaded, sequence, counter);
      globalSequence, idCounter := sequence, counter;
    }

    /** Repeated ids, unlisted residents and unknown ids are exactly what breaks the store. */
    method SetLruOrder(order: seq<string>)
      requires Valid()
      modifies this
      ensures Abs() == old(Abs()).(lru := order) && loaded
      ensures Valid() <==> NoDup(order) && Residents(Contents()) <= Elems(order) <= Contents().Keys
    {
      OrderConsistent(Abs(), loaded, order);
      hide LruAgrees, Layered, Ids, Consistent, Residents;
      RelistAll(order);
      loaded := true;
    }

    method RelistAll(order: seq<string>)
      modifies `lruOrder, `lruIndex, `nextHandle
      ensures Ids(lruOrder) == order
      ensures LruAgrees(lruOrder, lruIndex, nextHandle) <==> NoDup(order)
    {
      lruOrder, lruIndex := [], map[];
      NothingAgrees(nextHandle);
      assert order[..0] == [];
      var i := 0;
      while i < |order|
        invariant 0 <= i <= |order|
        invariant NoDup(order[..i]) ==> LruAgrees(lruOrder, lruIndex, nextHandle)
        invariant Ids(lruOrder) == order[..i]
      {
        hide LruAgrees, Ids;
        assert order[..i + 1] == order[..i] + [order[i]];
        PrefixNoDup(order[..i], order[i]);
        IdsAppend(lruOrder, LruNode(nextHandle, order[i]));
        if NoDup(order[..i + 1]) {
          InsertBack(lruOrder, lruIndex, nextHandle, order[i]);
        }
        lruOrder := lruOrder + [LruNode(nextHandle, order[i])];
        lruIndex := lruIndex[order[i] := nextHandle];
        nextHandle := nextHandle + 1;
        i := i + 1;
      }
      assert order[..i] == order;
    }

    method ReserveSequence() returns (sequence: nat)
      requires Valid()
      modifies `globalSequence
      ensures Valid() && sequence == old(globalSequence) + 1
      ensures Abs() == old(Abs()).(globalSequence := sequence)
    {
      hide LruAgrees, Layered, Consistent, Ids, Normalize, IdText, Without;
      CountersConsistent(Abs(), loaded, globalSequence + 1, idCounter);
      globalSequence := globalSequence + 1;
      sequence := globalSequence;
    }

    method BranchSnapshot(id: string) returns (r: Option<Branch>)
      ensures r == if id in Contents() then Some(Contents()[id]) else None
    {
      if id in overlay {
        return Some(overlay[id]);
      }
      if id in base {
        return Some(base[id]);
      }
      return None;
    }

    /** The branches that satisfy `p`, in the order of their ids. */
    method Collect(p: Branch -> bool) returns (r: seq<Branch>)
      requires Valid()
      ensures Lists(r, Contents(), set id | id in Contents() && p(Contents()[id]))
    {
      ContentsKeys(Abs(), loaded);
      var keys := InOrder(base.Keys + overlay.Keys);
      assert Elems(keys) == Contents().Keys;
      hide *;
      r := [];
      assert keys[..0] == [];
      NothingListed(Contents(), p);
      var i := 0;
      while i < |keys|
        invariant 0 <= i <= |keys|
        invariant Lists(r, Contents(), Chosen(Contents(), keys[..i], p))
      {
        KeyPresent(keys, i, Contents().Keys);
        ListsStep(r, Contents(), keys, i, p);
        var b := BranchSnapshot(keys[i]);
        if b.Some? && p(b.value) {
          r := r + [b.value];
        }
        i := i + 1;
      }
      assert keys[..i] == keys;
      AllChosen(Contents(), keys, p);
    }

    method GetAll() returns (r: seq<Branch>)
      requires Valid()
      ensures Lists(r, Contents(), Contents().Keys)
    {
      var p := (b: Branch) => true;
      r := Collect(p);
      assert (set id | id in Contents() && p(Contents()[id])) == Contents().Keys;
    }

    method ListByState(state: BranchState) returns (r: seq<Branch>)
      requires Valid()
      ensures Lists(r, Contents(), set id | id in Contents() && Contents()[id].status == state)
    {
      var p := (b: Branch) => b.status == state;
      r := Collect(p);
      assert (set id | id in Contents() && p(Contents()[id])) == set id | id in Contents()
        && Contents()[id].status == state;
    }

    method GetChildren(parentId: string) returns (r: seq<Branch>)
      requires Valid()
      ensures Lists(r, Contents(), set id | id in Contents() && Contents()[id].parentId == parentId)
    {
      var p := (b: Branch) => b.parentId == parentId;
      r := Collect(p);
      assert (set id | id in Contents() && p(Contents()[id])) == set id | id in Contents()
        && Contents()[id].parentId == parentId;
    }

    method BranchIdSnapshot() returns (ids: seq<string>)
      ensures Ascending(ids) && Elems(ids) == Contents().Keys
    {
      ids := InOrder(base.Keys + overlay.Keys);
    }

    method GetLruOrder() returns (order: seq<string>)
      ensures order == Ids(lruOrder)
    {
      order := Ids(lruOrder);
    }
  }

  // ----- listings -----

  predicate IsResident(b: Branch) { b.isOverlayResident }

  function IdsOf(bs: seq<Branch>): (r: seq<string>)
    ensures |r| == |bs| && forall i :: 0 <= i < |r| ==> r[i] == bs[i].branchId
  {
    seq(|bs|, i requires 0 <= i < |bs| => bs[i].branchId)
  }

  /** The records of exactly these ids, once each, in ascending order. */
  ghost predicate Lists(bs: seq<Branch>, branches: map<string, Branch>, ids: set<string>) {
    && Ascending(IdsOf(bs)) && Elems(IdsOf(bs)) == ids && ids <= branches.Keys
    && forall b :: b in bs ==> b.branchId in branches && b == branches[b.branchId]
  }

  ghost function Chosen(branches: map<string, Branch>, keys: seq<string>, p: Branch -> bool): set<string> {
    set id | id in keys && id in branches && p(branches[id])
  }

  lemma ContentsKeys(s: StoreState, loaded: bool)
    requires Consistent(s, loaded)
    ensures forall id :: id in s.branches ==> s.branches[id].branchId == id
  {
  }

  lemma NothingListed(branches: map<string, Branch>, p: Branch -> bool)
    ensures Lists([], branches, Chosen(branches, [], p))
  {
  }

  lemma KeyPresent(keys: seq<string>, i: nat, all: set<string>)
    requires i < |keys| && Elems(keys) == all
    ensures keys[i] in all
  {
    assert keys[i] in Elems(keys);
  }

  lemma AllChosen(branches: map<string, Branch>, keys: seq<string>, p: Branch -> bool)
    requires Elems(keys) == branches.Keys
    ensures Chosen(branches, keys, p) == set id | id in branches && p(branches[id])
  {
    assert forall id :: id in keys <==> id in Elems(keys);
  }

  lemma ListsStep(r: seq<Branch>, branches: map<string, Branch>, keys: seq<string>, i: nat, p: Branch -> bool)
    requires i < |keys| && Ascending(keys) && keys[i] in branches && branches[keys[i]].branchId == keys[i]
    requires Lists(r, branches, Chosen(branches, keys[..i], p))
    ensures Lists(if p(branches[keys[i]]) then r + [branches[keys[i]]]
      else r, branches, Chosen(branches, keys[..i + 1], p))
  {
    var b := branches[keys[i]];
    assert keys[..i + 1] == keys[..i] + [keys[i]];
    assert Chosen(branches, keys[..i + 1], p) == Chosen(branches, keys[..i], p) + if p(b) then {keys[i]} else {};
    if p(b) {
      assert IdsOf(r + [b]) == IdsOf(r) + [keys[i]];
      forall x | x in IdsOf(r) ensures Lt(x, keys[i]) {
        assert x in Elems(IdsOf(r));
      }
      ElemsSnoc(IdsOf(r), keys[i]);
    }
  }

  lemma ElemsSnoc(s: seq<string>, x: string)
    ensures Elems(s + [x]) == Elems(s) + {x}
  {
  }

  lemma ListsSize(bs: seq<Branch>, branches: map<string, Branch>, ids: set<string>)
    requires Lists(bs, branches, ids)
    ensures |bs| == |ids|
    ensures forall b :: b in bs <==> b.branchId in ids && branches[b.branchId] == b
  {
    AscendingNoDup(IdsOf(bs));
    NoDupSize(IdsOf(bs));
    forall b ensures b in bs <==> b.branchId in ids && branches[b.branchId] == b {
      if b in bs {
        var i :| 0 <= i < |bs| && bs[i] == b;
        assert IdsOf(bs)[i] == b.branchId;
        assert b.branchId in Elems(IdsOf(bs));
      }
      if b.branchId in ids && branches[b.branchId] == b {
        assert b.branchId in Elems(IdsOf(bs));
        var i :| 0 <= i < |bs| && IdsOf(bs)[i] == b.branchId;
        assert bs[i] in bs;
      }
    }
  }

  /** `erase(remove_if(...))` on a listing. */
  method KeepResident(bs: seq<Branch>, ghost branches: map<string, Branch>, ghost ids: set<string>)
    returns (r: seq<Branch>)
    requires Lists(bs, branches, ids)
    ensures Lists(r, branches, set id | id in ids && branches[id].isOverlayResident)
  {
    r := [];
    ghost var keys := IdsOf(bs);
    assert keys[..0] == [];
    NothingListed(branches, IsResident);
    var i := 0;
    while i < |bs|
      invariant 0 <= i <= |bs|
      invariant Lists(r, branches, Chosen(branches, keys[..i], IsResident))
    {
      assert bs[i] in bs;
      ListsStep(r, branches, keys, i, IsResident);
      if bs[i].isOverlayResident {
        r := r + [bs[i]];
      }
      i := i + 1;
    }
    assert keys[..i] == keys;
    ResidentsChosen(branches, keys, ids);
  }

  lemma ResidentsChosen(branches: map<string, Branch>, keys: seq<string>, ids: set<string>)
    requires Elems(keys) == ids <= branches.Keys
    ensures Chosen(branches, keys, IsResident) == set id | id in ids && branches[id].isOverlayResident
  {
    assert forall id :: id in keys <==> id in ids by { assert forall id :: id in keys <==> id in Elems(keys); }
  }

  // ----- the two layers -----

  ghost predicate Layered(base: map<string, Branch>, overlay: map<string, Branch>) {
    && (forall id :: id in base ==> base[id].branchId == id && !base[id].isOverlayResident)
    && (forall id :: id in overlay ==> overlay[id].branchId == id && overlay[id].isOverlayResident)
  }

  /** A concrete order that breaks a store: the only branch listed twice. */
  lemma RepeatedOrderBreaks()
    ensures var b := NO_BRANCH.(branchId := "a", isOverlayResident := false);
      Consistent(StoreState(map["a" := b], ["a"], 1, 0), true)
        && !Consistent(StoreState(map["a" := b], ["a", "a"], 1, 0), true)
  {
    var b := NO_BRANCH.(branchId := "a", isOverlayResident := false);
    assert Residents(map["a" := b]) == {};
    assert ["a", "a"][0] == ["a", "a"][1];
  }

  /** So the overlay keys are exactly the resident ids. */
  lemma OverlayIsResidents(base: map<string, Branch>, overlay: map<string, Branch>)
    requires Layered(base, overlay)
    ensures Residents(base + overlay) == overlay.Keys
  {
  }

  lemma LayersJoin(base: map<string, Branch>, overlay: map<string, Branch>, id: string)
    ensures id in base + overlay <==> id in base || id in overlay
    ensures id in overlay ==> (base + overlay)[id] == overlay[id]
    ensures id in base && id !in overlay ==> (base + overlay)[id] == base[id]
  {
  }

  lemma OverlayWrite(base: map<string, Branch>, overlay: map<string, Branch>, b: Branch)
    requires Layered(base, overlay) && b.isOverlayResident
    ensures Layered(base, overlay[b.branchId := b])
    ensures base + overlay[b.branchId := b] == (base + overlay)[b.branchId := b]
  {
  }

  lemma BaseWrite(base: map<string, Branch>, overlay: map<string, Branch>, b: Branch)
    requires Layered(base, overlay) && !b.isOverlayResident
    ensures Layered(base[b.branchId := b], overlay - {b.branchId})
    ensures base[b.branchId := b] + (overlay - {b.branchId}) == (base + overlay)[b.branchId := b]
  {
  }

  /** A loaded record only fills the base; the recency list stays as it is. */
  lemma LoadWrite(base: map<string, Branch>, overlay: map<string, Branch>, b: Branch, s: StoreState, loaded: bool)
    requires Layered(base, overlay) && !b.isOverlayResident
    requires s.branches == base + overlay && Consistent(s, loaded)
    ensures Layered(base[b.branchId := b], overlay)
    ensures var s' := if b.branchId in overlay then s else s.(branches := s.branches[b.branchId := b]);
      base[b.branchId := b] + overlay == s'.branches && Consistent(s', loaded)
  {
    if b.branchId in overlay {
      assert base[b.branchId := b] + overlay == s.branches;
    } else {
      assert base[b.branchId := b] + overlay == s.branches[b.branchId := b];
      assert b.branchId in s.branches ==> !s.branches[b.branchId].isOverlayResident;
      hide Consistent, Layered;
      LoadConsistent(s, loaded, b);
    }
  }

  lemma LoadConsistent(s: StoreState, loaded: bool, b: Branch)
    requires Consistent(s, loaded) && !b.isOverlayResident
    requires b.branchId in s.branches ==> !s.branches[b.branchId].isOverlayResident
    ensures Consistent(s.(branches := s.branches[b.branchId := b]), loaded)
  {
    assert Residents(s.branches[b.branchId := b]) == Residents(s.branches);
  }

  lemma ContentsKeyed(s: StoreState, loaded: bool, id: string)
    requires Consistent(s, loaded) && id in s.branches
    ensures s.branches[id].branchId == id
  {
  }

  lemma RemoveWrite(base: map<string, Branch>, overlay: map<string, Branch>, id: string)
    requires Layered(base, overlay)
    ensures Layered(base - {id}, overlay - {id})
    ensures (base - {id}) + (overlay - {id}) == (base + overlay) - {id}
  {
  }

  // ----- consistency of the plain map -----

  lemma WriteConsistent(s: StoreState, s': StoreState, loaded: bool, b: Branch)
    requires Consistent(s, loaded)
    requires s'.branches == s.branches[b.branchId := b] && s'.lru == Placed(s.lru, b)
    ensures Consistent(s', loaded)
  {
    PlacedElems(s.lru, b);
    assert Residents(s'.branches) == if b.isOverlayResident then Residents(s.branches) + {b.branchId}
      else Residents(s.branches) - {b.branchId};
  }

  lemma CountersConsistent(s: StoreState, loaded: bool, sequence: nat, counter: nat)
    requires Consistent(s, loaded)
    ensures Consistent(s.(globalSequence := sequence, idCounter := counter), loaded)
  {
  }

  lemma OrderConsistent(s: StoreState, loaded: bool, order: seq<string>)
    requires Consistent(s, loaded)
    ensures Consistent(s.(lru := order), true) <==>
      NoDup(order) && Residents(s.branches) <= Elems(order) <= s.branches.Keys
  {
  }

  lemma NothingAgrees(next: nat)
    ensures LruAgrees([], map[], next) && Ids([]) == []
  {
  }

  lemma NothingConsistent(s: StoreState)
    requires s.branches == map[] && s.lru == []
    ensures Consistent(s, false) && Layered(map[], map[])
  {
  }

  lemma GetConsistent(s: StoreState, id: string, loaded: bool)
    requires Consistent(s, loaded)
    ensures Consistent(AfterGet(s, id), loaded)
  {
    if id in s.branches {
      PlacedElems(s.lru, s.branches[id]);
    }
  }

  lemma RemoveConsistent(s: StoreState, id: string, loaded: bool)
    requires Consistent(s, loaded)
    ensures Consistent(AfterRemove(s, id), loaded)
  {
    WithoutNoDup(s.lru, id);
    assert Residents(s.branches - {id}) == Residents(s.branches) - {id};
  }
}
