/** `ultra::graph::DependencyGraph`: adjacency lists with a maintained edge count,
    three-colour cycle detection and Kahn's topological sort. */
module DependencyGraphs {
  import opened Orders
  import opened Graphs
  import opened AdjacencyLists

  datatype VisitState = Visiting | Visited

  // ----- cycle detection -----

  /** The depth-first search colours exactly the nodes on the current path and the finished ones. */
  ghost predicate Coloured(nodes: set<string>, edges: set<Edge>, state: map<string, VisitState>,
                           path: seq<string>, done: seq<string>) {
    && NoDup(path) && NoDup(done)
    && (forall n :: n in path ==> n in nodes && n in state && state[n] == Visiting)
    && (forall n :: n in done ==> n in nodes && n in state && state[n] == Visited)
    && (forall n :: n in state ==> n in path || n in done)
    && (path != [] ==> Walk(edges, path))
    && Finishing(edges, done)
  }

  lemma ColouredPush(nodes: set<string>, edges: set<Edge>, state: map<string, VisitState>,
                     path: seq<string>, done: seq<string>, n: string)
    requires Coloured(nodes, edges, state, path, done)
    requires n in nodes && n !in state
    requires path != [] ==> Edge(path[|path| - 1], n) in edges
    ensures Coloured(nodes, edges, state[n := Visiting], path + [n], done)
  {
    var longer := path + [n];
    forall i | 0 <= i < |longer| - 1 ensures Edge(longer[i], longer[i + 1]) in edges {
      if i < |path| - 1 { assert Edge(path[i], path[i + 1]) in edges; }
    }
  }

  lemma ColouredPop(nodes: set<string>, edges: set<Edge>, state: map<string, VisitState>,
                    path: seq<string>, done: seq<string>, n: string)
    requires Coloured(nodes, edges, state, path + [n], done)
    requires forall t :: Edge(n, t) in edges ==> t in done
    ensures Coloured(nodes, edges, state[n := Visited], path, done + [n])
  {
    var longer := path + [n];
    assert forall x :: x in longer <==> x in path || x == n;
    assert longer[|path|] == n;
    assert n !in path by { assert forall i :: 0 <= i < |path| ==> longer[i] == path[i] && path[i] != longer[|path|]; }
    assert n !in done by { assert n in longer; }
    assert NoDup(path) by { assert forall i :: 0 <= i < |path| ==> longer[i] == path[i]; }
    if path != [] {
      WalkPart(edges, longer, 0, |path|);
      assert longer[0..|path|] == path;
    }
    forall i, t | 0 <= i < |done + [n]| && Edge((done + [n])[i], t) in edges ensures t in (done + [n])[..i] {
      if i < |done| { assert (done + [n])[..i] == done[..i]; } else { assert (done + [n])[..i] == done; }
    }
  }

  lemma BackEdgeIsCycle(edges: set<Edge>, path: seq<string>, n: string)
    requires path != [] && Walk(edges, path) && Edge(path[|path| - 1], n) in edges && n in path
    ensures Cyclic(edges)
  {
    var i :| 0 <= i < |path| && path[i] == n;
    var w := path[i..] + [n];
    WalkPart(edges, path, i, |path|);
    forall k | 0 <= k < |w| - 1 ensures Edge(w[k], w[k + 1]) in edges {
      if k < |path| - i - 1 { assert Edge(path[i..][k], path[i..][k + 1]) in edges; }
    }
    assert ClosedWalk(edges, w);
  }

  class DependencyGraph {
    var adjacency: Adjacency
    var edgeCount: nat

    ghost predicate Valid()
      reads this
    {
      WellFormed(adjacency) && edgeCount == |Edges()|
    }

    ghost function Nodes(): set<string>
      reads this
    {
      adjacency.Keys
    }

    ghost function Edges(): set<Edge>
      reads this
    {
      EdgesOf(adjacency)
    }

    constructor ()
      ensures Valid() && Nodes() == {} && Edges() == {}
    {
      adjacency, edgeCount := map[], 0;
    }

    // ----- mutators -----

    method AddNode(file: string)
      requires WellFormed(adjacency)
      modifies this
      ensures WellFormed(adjacency) && Nodes() == old(Nodes()) + {file} && Edges() == old(Edges())
      ensures edgeCount == old(edgeCount)
      ensures adjacency == if file in old(adjacency) then old(adjacency) else old(adjacency)[file := []]
    {
      if file !in adjacency {
        AddNodeEffect(adjacency, file);
        hide EdgesOf;
        adjacency := adjacency[file := []];
      }
    }

    /** The shared tail of addEdge and updateNode: append the target unless it is listed already. */
    method Append(from: string, to: string) returns (appended: bool)
      requires WellFormed(adjacency) && from in adjacency && to in adjacency
      modifies `adjacency
      ensures WellFormed(adjacency) && Nodes() == old(Nodes())
      ensures Edges() == old(Edges()) + {Edge(from, to)}
      ensures |Edges()| == |old(Edges())| + if appended then 1 else 0
    {
      hide EdgesOf, WellFormed;
      EdgeListed(adjacency, from, to);
      appended := to !in adjacency[from];
      if appended {
        AddEdgeEffect(adjacency, from, to);
        adjacency := adjacency[from := adjacency[from] + [to]];
      }
    }

    method AddEdge(from: string, to: string)
      requires Valid()
      modifies this
      ensures Valid() && Nodes() == old(Nodes()) + {from, to} && Edges() == old(Edges()) + {Edge(from, to)}
    {
      hide EdgesOf, WellFormed;
      AddNode(from);
      AddNode(to);
      var appended := Append(from, to);
      if appended {
        edgeCount := edgeCount + 1;
      }
    }

    method RemoveEdge(from: string, to: string)
      requires Valid()
      modifies this
      ensures Valid() && Nodes() == old(Nodes()) && Edges() == old(Edges()) - {Edge(from, to)}
    {
      if from in adjacency {
        assert Simple(adjacency);
        hide EdgesOf, WellFormed;
        RemoveEdgeEffect(adjacency, from, to);
        var out := Without(adjacency[from], to);
        edgeCount := edgeCount - (|adjacency[from]| - |out|);
        adjacency := adjacency[from := out];
      }
    }

    method RemoveNode(file: string)
      requires Valid()
      modifies this
      ensures Valid() && Nodes() == old(Nodes()) - {file}
      ensures Edges() == NotTouching(old(Edges()), file)
    {
      hide EdgesOf, NotTouching, Over;
      ghost var before := adjacency;
      if file in adjacency {
        DropListCount(adjacency, file);
        edgeCount := edgeCount - |adjacency[file]|;
        adjacency := adjacency - {file};
      }
      ghost var start := adjacency;
      var todo := adjacency.Keys;
      while todo != {}
        invariant todo <= adjacency.Keys == start.Keys
        invariant Simple(adjacency) && edgeCount == |EdgesOf(adjacency)|
        invariant forall f :: f in todo ==> adjacency[f] == start[f]
        invariant forall f :: f in start && f !in todo ==> adjacency[f] == Without(start[f], file)
        decreases todo
      {
        var from :| from in todo;
        todo := todo - {from};
        RemoveEdgeEffect(adjacency, from, file);
        var out := Without(adjacency[from], file);
        edgeCount := edgeCount - (|adjacency[from]| - |out|);
        adjacency := adjacency[from := out];
      }
      RemoveNodeEffect(before, file, adjacency);
    }

    method UpdateNode(file: string, dependencies: seq<string>)
      requires Valid()
      modifies this
      ensures Valid() && Nodes() == old(Nodes()) + {file} + Elems(dependencies)
      ensures Edges() == NotFrom(old(Edges()), file) + Arrows(file, dependencies)
    {
      hide EdgesOf, WellFormed, Arrows, NotFrom;
      AddNode(file);
      ClearNodeEffect(adjacency, file);
      edgeCount := edgeCount - |adjacency[file]|;
      adjacency := adjacency[file := []];
      ghost var others := Edges();
      AppendAll(file, dependencies);
      UpdateNodeCount(adjacency, file, others, dependencies);
      edgeCount := edgeCount + |adjacency[file]|;
    }

    /** The loop of updateNode; the edge count is settled after it. */
    method AppendAll(file: string, dependencies: seq<string>)
      requires WellFormed(adjacency) && file in adjacency
      modifies this
      ensures WellFormed(adjacency) && edgeCount == old(edgeCount)
      ensures Nodes() == old(Nodes()) + Elems(dependencies)
      ensures Edges() == old(Edges()) + Arrows(file, dependencies)
    {
      hide EdgesOf, WellFormed, Arrows, Elems, Edges;
      ArrowsNone(file);
      assert dependencies[..0] == [];
      var i := 0;
      while i < |dependencies|
        invariant i <= |dependencies| && WellFormed(adjacency) && edgeCount == old(edgeCount)
        invariant file in adjacency && Nodes() == old(Nodes()) + Elems(dependencies[..i])
        invariant Edges() == old(Edges()) + Arrows(file, dependencies[..i])
      {
        AddNode(dependencies[i]);
        var _ := Append(file, dependencies[i]);
        ArrowsStep(file, dependencies, i);
        PrefixElems(dependencies, i);
        i := i + 1;
      }
      assert dependencies[..i] == dependencies;
    }

    // ----- cycle detection -----

    method HasCycleFrom(node: string, state: map<string, VisitState>, ghost path: seq<string>, ghost done: seq<string>)
      returns (found: bool, state': map<string, VisitState>, ghost done': seq<string>)
      requires Valid() && node in adjacency
      requires Coloured(Nodes(), Edges(), state, path, done)
      requires path != [] ==> Edge(path[|path| - 1], node) in Edges()
      ensures found ==> Cyclic(Edges())
      ensures !found ==> Coloured(Nodes(), Edges(), state', path, done') && node in done'
      ensures !found ==> Elems(done) <= Elems(done') && state.Keys <= state'.Keys
      decreases Nodes() - state.Keys
    {
      done' := done;
      if node in state {
        if state[node] == Visiting {
          BackEdgeIsCycle(Edges(), path, node);
        }
        return state[node] == Visiting, state, done;
      }
      ColouredPush(Nodes(), Edges(), state, path, done, node);
      state' := state[node := Visiting];
      var out := adjacency[node];
      for i := 0 to |out|
        invariant Coloured(Nodes(), Edges(), state', path + [node], done')
        invariant Elems(done) + Elems(out[..i]) <= Elems(done') && state.Keys + {node} <= state'.Keys
      {
        assert Edge(node, out[i]) in Edges();
        found, state', done' := HasCycleFrom(out[i], state', path + [node], done');
        if found {
          return;
        }
        assert Elems(out[..i + 1]) == Elems(out[..i]) + {out[i]};
      }
      assert out[..|out|] == out;
      forall t | Edge(node, t) in Edges() ensures t in done' {
        assert t in Elems(out);
      }
      ColouredPop(Nodes(), Edges(), state', path, done', node);
      state', done' := state'[node := Visited], done' + [node];
      found := false;
    }

    /** True exactly when some closed walk exists, self-loops included. */
    method HasCycle() returns (cyclic: bool)
      requires Valid()
      ensures cyclic <==> Cyclic(Edges())
    {
      var state: map<string, VisitState> := map[];
      ghost var done: seq<string> := [];
      var todo := adjacency.Keys;
      while todo != {}
        invariant todo <= Nodes()
        invariant Coloured(Nodes(), Edges(), state, [], done)
        invariant Nodes() - todo <= Elems(done)
        decreases todo
      {
        var node :| node in todo;
        todo := todo - {node};
        if node !in state {
          var found;
          found, state, done := HasCycleFrom(node, state, [], done);
          if found {
            return true;
          }
        }
      }
      forall e | e in Edges() ensures e.from in done {
        assert e.from in Elems(done);
      }
      FinishingIsAcyclic(Edges(), done);
      return false;
    }

    // ----- topological sort -----

    method InDegrees() returns (inDegree: map<string, nat>)
      requires Valid()
      ensures DegreesAre(inDegree, Nodes(), Edges(), {})
    {
      hide EdgesOf, DegreesAre, Arrows;
      inDegree := map n | n in adjacency.Keys :: 0;
      assert inDegree.Keys == adjacency.Keys;
      NoDegrees(inDegree);
      var todo := adjacency.Keys;
      ghost var seen: set<Edge> := {};
      NothingSeen(adjacency);
      while todo != {}
        invariant todo <= Nodes()
        invariant seen == EdgesOf(adjacency - todo)
        invariant DegreesAre(inDegree, Nodes(), seen, {})
        decreases todo
      {
        var from :| from in todo;
        var out := adjacency[from];
        SeeList(adjacency, todo, from);
        ghost var before := seen;
        assert out[..0] == [];
        var i := 0;
        while i < |out|
          invariant i <= |out|
          invariant seen == before + Arrows(from, out[..i])
          invariant DegreesAre(inDegree, Nodes(), seen, {})
        {
          EdgeListed(adjacency, from, out[i]);
          ArrowsStep(from, out, i);
          CountEdge(inDegree, Nodes(), seen, Edge(from, out[i]));
          seen := seen + {Edge(from, out[i])};
          inDegree := inDegree[out[i] := inDegree[out[i]] + 1];
          i := i + 1;
        }
        assert out[..i] == out;
        todo := todo - {from};
      }
      assert adjacency - todo == adjacency;
    }

    /** The lexicographically smallest topological order when one exists, otherwise the empty list. */
    method TopologicalSort() returns (order: seq<string>)
      requires Valid()
      ensures !Cyclic(Edges()) ==> LeastTopological(Nodes(), Edges(), order)
      ensures Cyclic(Edges()) ==> order == []
    {
      hide EdgesOf, DegreesAre, LeastTopological, Cyclic, Greedy, Ready;
      var cyclic := HasCycle();
      if cyclic {
        return [];
      }
      var inDegree := InDegrees();
      ZeroDegreesAreReady(inDegree, Nodes(), Edges(), {});
      var zeros := set n | n in inDegree.Keys && inDegree[n] == 0;
      order := [];
      GreedyEmpty(Nodes(), Edges());
      while zeros != {}
        invariant Greedy(Nodes(), Edges(), order)
        invariant Elems(order) <= Nodes()
        invariant zeros == Ready(Nodes(), Edges(), Elems(order))
        invariant DegreesAre(inDegree, Nodes(), Edges(), Elems(order))
        decreases Nodes() - Elems(order)
      {
        var n := Least(zeros);
        GreedyAppend(Nodes(), Edges(), order, n);
        GreedyIsDownClosed(Nodes(), Edges(), order);
        assert n in Nodes() - Elems(order) by { ReadyIsUnplaced(Nodes(), Edges(), Elems(order), n); }
        assert Elems(order + [n]) == Elems(order) + {n};
        zeros, inDegree := Relax(n, zeros - {n}, inDegree, Elems(order));
        order := order + [n];
      }
      if !(Nodes() <= Elems(order)) {
        StuckIsCyclic(Nodes(), Edges(), Elems(order));
      }
      GreedyIsLeast(Nodes(), Edges(), order);
      LeastIsComplete(Nodes(), Edges(), order);
      // so the size test of the source never fires
      assert |order| == |adjacency|;
      if |order| != |adjacency| {
        order := [];
      }
    }

    /** The inner loop of the sort: one decrement for each target of the placed node. */
    method Relax(n: string, zeros: set<string>, inDegree: map<string, nat>, ghost placed: set<string>)
      returns (zeros': set<string>, inDegree': map<string, nat>)
      requires Valid()
      requires n in adjacency && n in Ready(Nodes(), Edges(), placed) && DownClosed(Edges(), placed)
      requires zeros == Ready(Nodes(), Edges(), placed) - {n}
      requires DegreesAre(inDegree, Nodes(), Edges(), placed)
      ensures zeros' == Ready(Nodes(), Edges(), placed + {n})
      ensures DegreesAre(inDegree', Nodes(), Edges(), placed + {n})
    {
      hide EdgesOf, Ready, Relaxed, DegreesAre, DownClosed;
      zeros', inDegree' := zeros, inDegree;
      var out := adjacency[n];
      RelaxStart(Nodes(), Edges(), n, placed, zeros, inDegree);
      assert out[..0] == [];
      var i := 0;
      while i < |out|
        invariant i <= |out|
        invariant Relaxed(Nodes(), Edges(), n, placed, out[..i], zeros', inDegree')
      {
        var m := out[i];
        EdgeListed(adjacency, n, m);
        ArrowsStep(n, out, i);
        RelaxStep(Nodes(), Edges(), n, placed, out[..i], m, zeros', inDegree');
        if inDegree'[m] > 0 {
          inDegree' := inDegree'[m := inDegree'[m] - 1];
          if inDegree'[m] == 0 {
            zeros' := zeros' + {m};
          }
        }
        i := i + 1;
      }
      assert out[..i] == out;
      forall t | Edge(n, t) in Edges() ensures t in out {
        EdgeListed(adjacency, n, t);
      }
      RelaxEnd(Nodes(), Edges(), n, placed, out, zeros', inDegree');
    }

    // ----- queries -----

    method GetDependencies(file: string) returns (r: seq<string>)
      requires Valid()
      ensures Ascending(r) && Elems(r) == set e | e in Edges() && e.from == file :: e.to
    {
      if file !in adjacency {
        return [];
      }
      r := SortStrings(adjacency[file]);
      MultisetElems(r, adjacency[file]);
      PermutationNoDup(adjacency[file], r);
      SortedNoDupAscends(r);
      assert Elems(r) == Elems(adjacency[file]);
      forall t ensures t in Elems(r) <==> t in (set e | e in Edges() && e.from == file :: e.to) {
        if t in adjacency[file] { assert Edge(file, t) in Edges(); }
      }
    }

    method GetNodes() returns (nodes: seq<string>)
      ensures Ascending(nodes) && Elems(nodes) == Nodes()
    {
      nodes := InOrder(adjacency.Keys);
    }
  }
}
