/** `BranchStore::getTree`: depth-first over the children of a branch, skipping ids already seen. What it lists is the
    least set that holds the branch and is closed under children, so cyclic parent references do no harm. The recursion
    ends because each step visits one more id. */
module BranchTrees {
  import opened Orders
  import opened Branches
  import opened BranchStores
  import opened Graphs
  import opened IncrementalAnalysis

  /** From each branch's parent to the branch. */
  ghost function ParentEdges(branches: map<string, Branch>): set<Edge> {
    set id | id in branches :: Edge(branches[id].parentId, id)
  }

  ghost function ChildIds(branches: map<string, Branch>, id: string): set<string> {
    set c | c in branches && branches[c].parentId == id
  }

  /** The listed records are those of these ids, once each. */
  ghost predicate RecordsOf(branches: map<string, Branch>, list: seq<Branch>, ids: set<string>) {
    NoDup(IdsOf(list)) && Elems(IdsOf(list)) == ids && ids <= branches.Keys
    && forall b :: b in list ==> b.branchId in branches && b == branches[b.branchId]
  }

  lemma RecordsJoin(branches: map<string, Branch>, a: seq<Branch>, x: set<string>, b: seq<Branch>, y: set<string>)
    requires RecordsOf(branches, a, x) && RecordsOf(branches, b, y) && x !! y
    ensures RecordsOf(branches, a + b, x + y)
  {
    var ids := IdsOf(a + b);
    assert ids == IdsOf(a) + IdsOf(b);
    forall i, j | 0 <= i < j < |ids| ensures ids[i] != ids[j] {
      if i < |a| <= j {
        assert ids[i] in Elems(IdsOf(a)) by { assert IdsOf(a)[i] in IdsOf(a); }
        assert ids[j] in Elems(IdsOf(b)) by { assert IdsOf(b)[j - |a|] in IdsOf(b); }
      }
    }
    assert Elems(ids) == x + y;
    assert forall r :: r in a + b <==> r in a || r in b;
  }

  /** What has been seen since: branches the walk from `root` leads to, each with all its children but for the
      `busy` one. */
  ghost predicate Explored(branches: map<string, Branch>, root: string, before: set<string>, after: set<string>,
                           busy: set<string>) {
    && before <= after && after - before <= branches.Keys
    && (forall id :: id in after - before ==> Reached(ParentEdges(branches), {root}, id))
    && (forall id, c :: id in after - before - busy && c in ChildIds(branches, id) ==> c in after)
  }

  lemma ReachedSelf(branches: map<string, Branch>, id: string)
    ensures Reached(ParentEdges(branches), {id}, id)
  {
    assert Walk(ParentEdges(branches), [id]);
  }

  lemma ReachedThrough(branches: map<string, Branch>, id: string, c: string, x: string)
    requires c in ChildIds(branches, id) && Reached(ParentEdges(branches), {c}, x)
    ensures Reached(ParentEdges(branches), {id}, x)
  {
    var edges := ParentEdges(branches);
    var w :| Walk(edges, w) && w[0] in {c} && w[|w| - 1] == x;
    var longer := [id] + w;
    assert Edge(branches[c].parentId, c) in edges;
    forall i | 0 <= i < |longer| - 1 ensures Edge(longer[i], longer[i + 1]) in edges {
      if i > 0 { assert Edge(w[i - 1], w[i - 1 + 1]) in edges; }
    }
    assert Walk(edges, longer);
  }

  lemma StartExploring(branches: map<string, Branch>, id: string, visited: set<string>)
    requires id in branches && branches[id].branchId == id && id !in visited
    ensures Explored(branches, id, visited, visited + {id}, {id})
    ensures RecordsOf(branches, [branches[id]], {id}) && visited + {id} - visited == {id}
  {
    ReachedSelf(branches, id);
    assert IdsOf([branches[id]]) == [id];
  }

  /** One child and everything below it. */
  lemma ExploreChild(branches: map<string, Branch>, id: string, before: set<string>, seen: set<string>, c: string,
                     seen': set<string>)
    requires Explored(branches, id, before, seen, {id}) && Explored(branches, c, seen, seen', {})
      && c in ChildIds(branches, id)
    ensures Explored(branches, id, before, seen', {id})
    ensures (seen - before) !! (seen' - seen) && (seen - before) + (seen' - seen) == seen' - before
  {
    forall x | x in seen' - before ensures Reached(ParentEdges(branches), {id}, x) {
      if x in seen' - seen { ReachedThrough(branches, id, c, x); }
    }
  }

  lemma AllExplored(branches: map<string, Branch>, id: string, before: set<string>, seen: set<string>)
    requires Explored(branches, id, before, seen, {id}) && ChildIds(branches, id) <= seen
    ensures Explored(branches, id, before, seen, {})
  {
  }

  lemma FewerLeft(all: set<string>, visited: set<string>, seen: set<string>, id: string)
    requires id in all && id !in visited && visited + {id} <= seen
    ensures |all - seen| < |all - visited|
  {
    SubsetSize(all - seen, all - visited);
    assert id in all - visited && id !in all - seen;
  }

  lemma NothingExplored(branches: map<string, Branch>, id: string, visited: set<string>)
    ensures Explored(branches, id, visited, visited, {}) && RecordsOf(branches, [], visited - visited)
  {
    assert IdsOf([]) == [];
  }

  lemma ChildListed(children: seq<Branch>, branches: map<string, Branch>, ids: set<string>, i: nat)
    requires Lists(children, branches, ids) && i < |children|
    ensures children[i].branchId in ids && children[i].branchId in branches
  {
    assert children[i] in children;
    assert IdsOf(children)[i] in IdsOf(children);
  }

  lemma ChildrenSeen(children: seq<Branch>, branches: map<string, Branch>, ids: set<string>, seen: set<string>)
    requires Lists(children, branches, ids) && forall j :: 0 <= j < |children| ==> children[j].branchId in seen
    ensures ids <= seen
  {
    forall c | c in ids ensures c in seen {
      assert c in Elems(IdsOf(children));
      var j :| 0 <= j < |children| && IdsOf(children)[j] == c;
    }
  }

  lemma ChildIdsAre(branches: map<string, Branch>, id: string)
    ensures ChildIds(branches, id) == set c | c in branches && branches[c].parentId == id
  {
  }

  lemma Keyed(store: BranchStore, id: string)
    requires store.Valid() && id in store.Contents()
    ensures store.Contents()[id].branchId == id
  {
    ContentsKeyed(store.Abs(), store.loaded, id);
  }

  /** The branch and everything below it that has not been visited; `seen` is what has been visited after it. */
  method Descend(store: BranchStore, id: string, visited: set<string>) returns (list: seq<Branch>, seen: set<string>)
    requires store.Valid() && id in store.Contents()
    ensures Explored(store.Contents(), id, visited, seen, {}) && id in seen
    ensures RecordsOf(store.Contents(), list, seen - visited)
    ensures id !in visited ==> list != [] && list[0] == store.Contents()[id]
    decreases |store.Contents().Keys - visited|
  {
    hide *;
    ghost var branches := store.Contents();
    if id in visited {
      NothingExplored(branches, id, visited);
      return [], visited;
    }
    var b := store.BranchSnapshot(id);
    Keyed(store, id);
    StartExploring(branches, id, visited);
    list, seen := [b.value], visited + {id};
    var children := store.GetChildren(id);
    ChildIdsAre(branches, id);
    var i := 0;
    while i < |children|
      invariant 0 <= i <= |children| && visited + {id} <= seen
      invariant Explored(branches, id, visited, seen, {id}) && RecordsOf(branches, list, seen - visited)
      invariant list != [] && list[0] == branches[id]
      invariant forall j :: 0 <= j < i ==> children[j].branchId in seen
    {
      var c := children[i].branchId;
      ChildListed(children, branches, ChildIds(branches, id), i);
      FewerLeft(branches.Keys, visited, seen, id);
      var more, seen' := Descend(store, c, seen);
      ExploreChild(branches, id, visited, seen, c, seen');
      RecordsJoin(branches, list, seen - visited, more, seen' - seen);
      ExploredGrows(branches, c, seen, seen');
      list, seen := list + more, seen';
      i := i + 1;
    }
    ChildrenSeen(children, branches, ChildIds(branches, id), seen);
    AllExplored(branches, id, visited, seen);
  }

  lemma ExploredGrows(branches: map<string, Branch>, c: string, seen: set<string>, seen': set<string>)
    requires Explored(branches, c, seen, seen', {})
    ensures seen <= seen'
  {
  }

  /** The tree of a branch: first the branch, then, once each, exactly the branches reachable over children. */
  method GetTree(store: BranchStore, rootId: string) returns (list: seq<Branch>)
    requires store.Valid()
    ensures rootId !in store.Contents() ==> list == []
    ensures rootId in store.Contents() ==> list != [] && list[0] == store.Contents()[rootId]
    ensures rootId in store.Contents() ==>
      exists ids :: RecordsOf(store.Contents(), list, ids) && RebuildSet(ParentEdges(store.Contents()), {rootId}, ids)
  {
    hide *;
    var root := store.BranchSnapshot(rootId);
    if root.None? {
      return [];
    }
    var visited: set<string>;
    list, visited := Descend(store, rootId, {});
    TreeIsClosure(store.Contents(), rootId, visited);
    assert visited - {} == visited;
  }

  lemma TreeIsClosure(branches: map<string, Branch>, root: string, ids: set<string>)
    requires Explored(branches, root, {}, ids, {}) && root in ids
    ensures RebuildSet(ParentEdges(branches), {root}, ids)
  {
    var edges := ParentEdges(branches);
    forall e | e in edges && e.from in ids ensures e.to in ids {
      var c :| c in branches && e == Edge(branches[c].parentId, c);
      assert c in ChildIds(branches, e.from);
    }
    forall other | {root} <= other && Closed(edges, other) ensures ids <= other {
      forall x | x in ids ensures x in other {
        assert x in ids - {};
        var w :| Walk(edges, w) && w[0] in {root} && w[|w| - 1] == x;
        WalkStaysClosed(edges, other, w);
      }
    }
  }
}
