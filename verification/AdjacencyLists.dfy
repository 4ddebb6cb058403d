/** Adjacency lists read as a set of edges, and the in-degree counters of Kahn's algorithm. Each lemma says what one
    step of a loop does to the edges listed so far or to the counters left, so that the methods over the lists can be
    proved one step at a time. */
module AdjacencyLists {
  import opened Orders
  import opened Graphs

  type Adjacency = map<string, seq<string>>

  // ----- adjacency lists as a set of edges -----

  ghost function Arrows(from: string, targets: seq<string>): set<Edge> {
    set t | t in targets :: Edge(from, t)
  }

  ghost function EdgesOf(adj: Adjacency): set<Edge> {
    set f, t | f in adj && t in adj[f] :: Edge(f, t)
  }

  /** No list repeats a target. */
  ghost predicate Simple(adj: Adjacency) {
    forall f :: f in adj ==> NoDup(adj[f])
  }

  lemma {:induction false} ArrowsSize(from: string, targets: seq<string>)
    requires NoDup(targets)
    ensures |Arrows(from, targets)| == |targets|
  {
    if targets != [] {
      var n := |targets| - 1;
      ArrowsSize(from, targets[..n]);
      assert targets == targets[..n] + [targets[n]];
      assert Arrows(from, targets) == Arrows(from, targets[..n]) + {Edge(from, targets[n])};
    }
  }

  /** Dropping a node's list loses exactly its length in edges. */
  lemma DropListCount(adj: Adjacency, k: string)
    requires Simple(adj) && k in adj
    ensures Simple(adj - {k})
    ensures EdgesOf(adj - {k}) == EdgesOf(adj) - Arrows(k, adj[k])
    ensures |EdgesOf(adj - {k})| + |adj[k]| == |EdgesOf(adj)|
  {
    ArrowsSize(k, adj[k]);
    assert EdgesOf(adj) == EdgesOf(adj - {k}) + Arrows(k, adj[k]);
    assert EdgesOf(adj - {k}) !! Arrows(k, adj[k]);
  }

  ghost function NotFrom(edges: set<Edge>, k: string): set<Edge> {
    set e | e in edges && e.from != k
  }

  /** Setting a node's list replaces exactly its own edges. */
  lemma SetListEdges(adj: Adjacency, k: string, targets: seq<string>)
    ensures EdgesOf(adj[k := targets]) == NotFrom(EdgesOf(adj), k) + Arrows(k, targets)
    ensures EdgesOf(adj) == NotFrom(EdgesOf(adj), k) + if k in adj then Arrows(k, adj[k]) else {}
  {
  }

  lemma SetListCount(adj: Adjacency, k: string, targets: seq<string>)
    requires Simple(adj) && NoDup(targets)
    ensures Simple(adj[k := targets])
    ensures |EdgesOf(adj[k := targets])| + (if k in adj then |adj[k]| else 0) == |EdgesOf(adj)| + |targets|
  {
    SetListEdges(adj, k, targets);
    ArrowsSize(k, targets);
    assert NotFrom(EdgesOf(adj), k) !! Arrows(k, targets);
    if k in adj {
      ArrowsSize(k, adj[k]);
      assert NotFrom(EdgesOf(adj), k) !! Arrows(k, adj[k]);
    }
    hide EdgesOf, Arrows, NotFrom;
  }

  lemma EdgeListed(adj: Adjacency, from: string, to: string)
    requires from in adj
    ensures Edge(from, to) in EdgesOf(adj) <==> to in adj[from]
  {
  }

  ghost predicate WellFormed(adj: Adjacency) {
    Simple(adj) && Over(adj.Keys, EdgesOf(adj))
  }

  lemma AddNodeEffect(adj: Adjacency, n: string)
    requires WellFormed(adj) && n !in adj
    ensures WellFormed(adj[n := []]) && EdgesOf(adj[n := []]) == EdgesOf(adj)
  {
  }

  lemma AddEdgeEffect(adj: Adjacency, from: string, to: string)
    requires WellFormed(adj) && from in adj && to in adj && to !in adj[from]
    ensures WellFormed(adj[from := adj[from] + [to]])
    ensures EdgesOf(adj[from := adj[from] + [to]]) == EdgesOf(adj) + {Edge(from, to)}
    ensures Edge(from, to) !in EdgesOf(adj)
  {
    SetListEdges(adj, from, adj[from] + [to]);
    assert Arrows(from, adj[from] + [to]) == Arrows(from, adj[from]) + {Edge(from, to)};
    assert NoDup(adj[from] + [to]);
  }

  lemma RemoveEdgeEffect(adj: Adjacency, from: string, to: string)
    requires Simple(adj) && from in adj
    ensures var out := Without(adj[from], to);
      && Simple(adj[from := out])
      && (WellFormed(adj) ==> WellFormed(adj[from := out]))
      && EdgesOf(adj[from := out]) == EdgesOf(adj) - {Edge(from, to)}
      && |out| <= |adj[from]|
      && |EdgesOf(adj[from := out])| == |EdgesOf(adj)| - (|adj[from]| - |out|)
  {
    WithoutNoDup(adj[from], to);
    SetListCount(adj, from, Without(adj[from], to));
  }

  ghost function NotTouching(edges: set<Edge>, n: string): set<Edge> {
    set e | e in edges && e.from != n && e.to != n
  }

  lemma RemoveNodeEffect(before: Adjacency, n: string, after: Adjacency)
    requires WellFormed(before) && after.Keys == before.Keys - {n} && Simple(after)
    requires forall f :: f in after ==> after[f] == Without(before[f], n)
    ensures WellFormed(after) && EdgesOf(after) == NotTouching(EdgesOf(before), n)
  {
  }

  lemma ClearNodeEffect(adj: Adjacency, n: string)
    requires WellFormed(adj) && n in adj
    ensures WellFormed(adj[n := []]) && EdgesOf(adj[n := []]) == NotFrom(EdgesOf(adj), n)
    ensures |EdgesOf(adj[n := []])| == |EdgesOf(adj)| - |adj[n]| && |adj[n]| <= |EdgesOf(adj)|
  {
    SetListCount(adj, n, []);
  }

  lemma UpdateNodeCount(adj: Adjacency, n: string, others: set<Edge>, targets: seq<string>)
    requires WellFormed(adj) && n in adj && EdgesOf(adj) == others + Arrows(n, targets)
    requires exists edges :: others == NotFrom(edges, n)
    ensures |EdgesOf(adj)| == |others| + |adj[n]|
  {
    SetListEdges(adj, n, adj[n]);
    assert others == NotFrom(EdgesOf(adj), n);
    ArrowsSize(n, adj[n]);
    assert others !! Arrows(n, adj[n]);
  }

  lemma ArrowsNone(from: string)
    ensures Arrows(from, []) == {} && Elems<string>([]) == {}
  {
  }

  lemma ArrowsStep(from: string, targets: seq<string>, i: nat)
    requires i < |targets|
    ensures Arrows(from, targets[..i + 1]) == Arrows(from, targets[..i]) + {Edge(from, targets[i])}
    ensures Elems(targets[..i + 1]) == Elems(targets[..i]) + {targets[i]}
    ensures targets[..i + 1] == targets[..i] + [targets[i]]
    ensures NoDup(targets) ==> targets[i] !in targets[..i]
  {
    assert targets[..i + 1] == targets[..i] + [targets[i]];
  }

  // ----- in-degrees -----

  ghost predicate Into(nodes: set<string>, edges: set<Edge>) {
    forall e :: e in edges ==> e.to in nodes
  }

  ghost function Predecessors(edges: set<Edge>, n: string, placed: set<string>): set<Edge> {
    set e | e in edges && e.to == n && e.from !in placed
  }

  /** The counters hold the number of unplaced predecessors. */
  ghost predicate DegreesAre(inDegree: map<string, nat>, nodes: set<string>, edges: set<Edge>, placed: set<string>) {
    inDegree.Keys == nodes && forall n :: n in nodes ==> inDegree[n] == |Predecessors(edges, n, placed)|
  }

  lemma OneMorePredecessor(edges: set<Edge>, e: Edge, n: string, placed: set<string>)
    requires e !in edges && e.from !in placed
    ensures |Predecessors(edges + {e}, n, placed)| == |Predecessors(edges, n, placed)| + if n == e.to then 1 else 0
  {
    assert Predecessors(edges + {e}, n, placed) == Predecessors(edges, n, placed) + if n == e.to then {e} else {};
  }

  lemma NoDegrees(inDegree: map<string, nat>)
    requires forall n :: n in inDegree ==> inDegree[n] == 0
    ensures DegreesAre(inDegree, inDegree.Keys, {}, {})
  {
  }

  lemma NothingSeen(adj: Adjacency)
    ensures EdgesOf(adj - adj.Keys) == {}
  {
  }

  lemma SeeList(adj: Adjacency, todo: set<string>, from: string)
    requires Simple(adj) && from in todo && todo <= adj.Keys
    ensures EdgesOf(adj - (todo - {from})) == EdgesOf(adj - todo) + Arrows(from, adj[from])
    ensures forall t :: Edge(from, t) !in EdgesOf(adj - todo)
    ensures NoDup(adj[from]) && Arrows(from, []) == {}
    ensures forall t, ts :: Edge(from, t) in Arrows(from, ts) ==> t in ts
  {
  }

  lemma CountEdge(inDegree: map<string, nat>, nodes: set<string>, seen: set<Edge>, e: Edge)
    requires DegreesAre(inDegree, nodes, seen, {}) && e !in seen && e.to in nodes
    ensures e.to in inDegree
    ensures DegreesAre(inDegree[e.to := inDegree[e.to] + 1], nodes, seen + {e}, {})
  {
    hide Predecessors;
    forall n | n in nodes ensures
      |Predecessors(seen + {e}, n, {})| == |Predecessors(seen, n, {})| + if n == e.to then 1 else 0
    {
      OneMorePredecessor(seen, e, n, {});
    }
  }

  lemma ZeroDegreesAreReady(inDegree: map<string, nat>, nodes: set<string>, edges: set<Edge>, placed: set<string>)
    requires DegreesAre(inDegree, nodes, edges, placed)
    ensures Ready(nodes, edges, placed) == set n | n in inDegree.Keys && n !in placed && inDegree[n] == 0
  {
    forall n | n in nodes && n !in placed ensures n in Ready(nodes, edges, placed) <==> inDegree[n] == 0 {
      if e :| e in edges && e.to == n && e.from !in placed {
        assert e in Predecessors(edges, n, placed);
      }
    }
  }

  lemma GreedyEmpty(nodes: set<string>, edges: set<Edge>)
    ensures Greedy(nodes, edges, []) && Elems<string>([]) == {}
  {
  }

  lemma ReadyIsUnplaced(nodes: set<string>, edges: set<Edge>, placed: set<string>, n: string)
    requires n in Ready(nodes, edges, placed)
    ensures n in nodes && n !in placed
  {
  }

  lemma LeastIsComplete(nodes: set<string>, edges: set<Edge>, order: seq<string>)
    requires LeastTopological(nodes, edges, order)
    ensures |order| == |nodes| && !(nodes != {} && order == [])
  {
    NoDupSize(order);
  }

  /** Placed nodes only have placed predecessors. */
  ghost predicate DownClosed(edges: set<Edge>, placed: set<string>) {
    forall e :: e in edges && e.to in placed ==> e.from in placed
  }

  lemma GreedyIsDownClosed(nodes: set<string>, edges: set<Edge>, order: seq<string>)
    requires Greedy(nodes, edges, order)
    ensures DownClosed(edges, Elems(order))
  {
    forall e | e in edges && e.to in order ensures e.from in order {
      var i :| 0 <= i < |order| && order[i] == e.to;
      assert order[i] in Ready(nodes, edges, Elems(order[..i]));
      assert e.from in order[..i];
    }
  }

  /** Part-way through the target list of `n`: the edges to the targets done so far no longer count. */
  ghost predicate Relaxed(nodes: set<string>, edges: set<Edge>, n: string, placed: set<string>, targets: seq<string>,
                          zeros: set<string>, inDegree: map<string, nat>) {
    && DegreesAre(inDegree, nodes, edges - Arrows(n, targets), placed)
    && zeros == set m | m in inDegree.Keys && m !in placed && m != n && inDegree[m] == 0
  }

  lemma RelaxStart(nodes: set<string>, edges: set<Edge>, n: string, placed: set<string>,
                   zeros: set<string>, inDegree: map<string, nat>)
    requires DegreesAre(inDegree, nodes, edges, placed)
    requires zeros == Ready(nodes, edges, placed) - {n}
    ensures Relaxed(nodes, edges, n, placed, [], zeros, inDegree)
  {
    ZeroDegreesAreReady(inDegree, nodes, edges, placed);
    assert edges - Arrows(n, []) == edges;
    hide Ready, DegreesAre;
  }

  /** The node a decrement hits is unplaced, differs from `n`, and still counts the edge from `n`. */
  lemma RelaxStep(nodes: set<string>, edges: set<Edge>, n: string, placed: set<string>, targets: seq<string>, m: string,
                  zeros: set<string>, inDegree: map<string, nat>)
    requires Into(nodes, edges) && DownClosed(edges, placed) && n in Ready(nodes, edges, placed)
    requires Relaxed(nodes, edges, n, placed, targets, zeros, inDegree)
    requires Edge(n, m) in edges && m !in targets
    ensures m in inDegree && inDegree[m] > 0
    ensures Relaxed(nodes, edges, n, placed, targets + [m],
              if inDegree[m] == 1 then zeros + {m} else zeros, inDegree[m := inDegree[m] - 1])
  {
    var left := edges - Arrows(n, targets + [m]);
    var e := Edge(n, m);
    assert m !in placed && m != n;
    assert edges - Arrows(n, targets) == left + {e};
    hide Predecessors, Ready, Arrows;
    forall k | k in nodes ensures
      |Predecessors(left + {e}, k, placed)| == |Predecessors(left, k, placed)| + if k == m then 1 else 0
    {
      OneMorePredecessor(left, e, k, placed);
    }
  }

  lemma RelaxEnd(nodes: set<string>, edges: set<Edge>, n: string, placed: set<string>, targets: seq<string>,
                 zeros: set<string>, inDegree: map<string, nat>)
    requires Relaxed(nodes, edges, n, placed, targets, zeros, inDegree)
    requires forall t :: Edge(n, t) in edges ==> t in targets
    ensures DegreesAre(inDegree, nodes, edges, placed + {n})
    ensures zeros == Ready(nodes, edges, placed + {n})
  {
    forall k | k in nodes
      ensures Predecessors(edges - Arrows(n, targets), k, placed) == Predecessors(edges, k, placed + {n}) {
    }
    ZeroDegreesAreReady(inDegree, nodes, edges, placed + {n});
  }
}
