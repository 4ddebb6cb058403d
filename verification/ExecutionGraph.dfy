/** `ultra::intelligence::ExecutionGraph`: registered steps, dependency lists in both
    directions, and a queue-based Kahn sort that recognises failure by counting. */
module ExecutionGraphs {
  import opened Orders
  import opened Graphs
  import opened AdjacencyLists

  datatype NodeStatus = Pending | Running | Success | Failed

  /** The payloads, the timestamp and the duration of a step play no part in the graph. */
  datatype ExecutionNode = ExecutionNode(nodeId: string, branchId: string, action: string, status: NodeStatus)

  /** The edges the sort counts: into registered steps, from any source. */
  ghost function Targeting(edges: set<Edge>, nodes: set<string>): set<Edge> {
    set e | e in edges && e.to in nodes
  }

  /** The steps can all run: no cycle among the counted edges and none from an unregistered source. */
  ghost predicate Schedulable(nodes: set<string>, edges: set<Edge>) {
    !Cyclic(Targeting(edges, nodes)) && forall e :: e in edges && e.to in nodes ==> e.from in nodes
  }

  /** Getting stuck means a cycle or an unregistered source. */
  lemma StuckIsUnschedulable(nodes: set<string>, edges: set<Edge>, placed: set<string>)
    requires Ready(nodes, Targeting(edges, nodes), placed) == {} && !(nodes <= placed)
    ensures !Schedulable(nodes, edges)
  {
    if Schedulable(nodes, edges) {
      StuckIsCyclic(nodes, Targeting(edges, nodes), placed);
    }
  }

  /** A complete order leaves no obstacle. */
  lemma CompleteIsSchedulable(nodes: set<string>, edges: set<Edge>, order: seq<string>)
    requires PlacedWhenReady(nodes, Targeting(edges, nodes), order) && nodes == Elems(order)
    ensures Schedulable(nodes, edges) && Topological(nodes, Targeting(edges, nodes), order)
  {
    var counted := Targeting(edges, nodes);
    forall e | e in counted ensures e.from in nodes {
      var i :| 0 <= i < |order| && order[i] == e.to;
      assert order[i] in Ready(nodes, counted, Elems(order[..i]));
      assert e.from in order[..i];
    }
    PlacedWhenReadyIsTopological(nodes, counted, order);
    TopologicalIsAcyclic(nodes, counted, order);
  }

  lemma PlacedWhenReadyIsDownClosed(nodes: set<string>, edges: set<Edge>, order: seq<string>)
    requires PlacedWhenReady(nodes, edges, order)
    ensures DownClosed(edges, Elems(order)) && NoDup(order) && Elems(order) <= nodes
  {
    forall e | e in edges && e.to in order ensures e.from in order {
      var i :| 0 <= i < |order| && order[i] == e.to;
      assert order[i] in Ready(nodes, edges, Elems(order[..i]));
      assert e.from in order[..i];
    }
    forall i, j | 0 <= i < j < |order| ensures order[i] != order[j] {
      assert order[j] in Ready(nodes, edges, Elems(order[..j]));
      assert order[..j][i] == order[i];
    }
    forall x | x in order ensures x in nodes {
      var i :| 0 <= i < |order| && order[i] == x;
      assert order[i] in Ready(nodes, edges, Elems(order[..i]));
    }
  }

  lemma CountTargeting(edges: set<Edge>, nodes: set<string>, e: Edge)
    ensures Targeting(edges + {e}, nodes) == if e.to in nodes then Targeting(edges, nodes) + {e}
      else Targeting(edges, nodes)
    ensures e !in edges ==> e !in Targeting(edges, nodes)
    ensures Targeting({}, nodes) == {}
  {
  }

  class ExecutionGraph {
    var nodes: map<string, ExecutionNode>
    var outbound: Adjacency
    var inbound: Adjacency

    /** Both directions list the same edges. */
    ghost predicate Valid()
      reads this
    {
      && Simple(outbound) && Simple(inbound)
      && (forall n :: n in nodes ==> nodes[n].nodeId == n)
      && forall s, t :: Edge(s, t) in EdgesOf(outbound) <==> Edge(t, s) in EdgesOf(inbound)
    }

    ghost function Registered(): set<string>
      reads this
    {
      nodes.Keys
    }

    ghost function Edges(): set<Edge>
      reads this
    {
      EdgesOf(outbound)
    }

    constructor ()
      ensures Valid() && Registered() == {} && Edges() == {}
    {
      nodes, outbound, inbound := map[], map[], map[];
    }

    method AddNode(node: ExecutionNode)
      requires Valid()
      modifies this
      ensures Valid() && nodes == old(nodes)[node.nodeId := node] && Edges() == old(Edges())
    {
      nodes := nodes[node.nodeId := node];
    }

    method AddDependency(sourceId: string, targetId: string)
      requires Valid()
      modifies this
      ensures Valid() && nodes == old(nodes) && Edges() == old(Edges()) + {Edge(sourceId, targetId)}
    {
      hide EdgesOf;
      outbound := Listed(outbound, sourceId, targetId);
      inbound := Listed(inbound, targetId, sourceId);
    }

    static method Listed(lists: Adjacency, key: string, value: string) returns (r: Adjacency)
      requires Simple(lists)
      ensures Simple(r) && EdgesOf(r) == EdgesOf(lists) + {Edge(key, value)}
    {
      var list := if key in lists then lists[key] else [];
      r := lists[key := list];
      SetListEdges(lists, key, list);
      assert EdgesOf(r) == EdgesOf(lists);
      hide EdgesOf;
      EdgeListed(r, key, value);
      if value !in list {
        AppendToList(r, key, value);
        r := r[key := list + [value]];
      }
    }

    /** The steps a given step waits for. */
    method GetDependencies(nodeId: string) returns (sources: seq<string>)
      requires Valid()
      ensures NoDup(sources) && forall s :: s in sources <==> Edge(s, nodeId) in Edges()
    {
      sources := if nodeId in inbound then inbound[nodeId] else [];
      forall s ensures s in sources <==> Edge(nodeId, s) in EdgesOf(inbound) {
      }
    }

    method InDegrees() returns (inDegree: map<string, nat>)
      requires Valid()
      ensures DegreesAre(inDegree, Registered(), Targeting(Edges(), Registered()), {})
    {
      hide EdgesOf, DegreesAre, Arrows, Targeting;
      inDegree := map n | n in nodes.Keys :: 0;
      assert inDegree.Keys == nodes.Keys;
      NoDegrees(inDegree);
      CountTargeting({}, nodes.Keys, Edge("", ""));
      var todo := outbound.Keys;
      ghost var seen: set<Edge> := {};
      NothingSeen(outbound);
      while todo != {}
        invariant todo <= outbound.Keys
        invariant seen == EdgesOf(outbound - todo)
        invariant DegreesAre(inDegree, nodes.Keys, Targeting(seen, nodes.Keys), {})
        decreases todo
      {
        var source := Least(todo);
        SeeList(outbound, todo, source);
        inDegree, seen := CountTargets(source, outbound[source], inDegree, seen);
        todo := todo - {source};
      }
      assert outbound - todo == outbound;
    }

    method CountTargets(source: string, targets: seq<string>, inDegree: map<string, nat>, ghost seen: set<Edge>)
      returns (inDegree': map<string, nat>, ghost seen': set<Edge>)
      requires NoDup(targets) && forall t :: Edge(source, t) !in seen
      requires DegreesAre(inDegree, nodes.Keys, Targeting(seen, nodes.Keys), {})
      ensures seen' == seen + Arrows(source, targets)
      ensures DegreesAre(inDegree', nodes.Keys, Targeting(seen', nodes.Keys), {})
    {
      hide DegreesAre, Targeting;
      inDegree', seen' := inDegree, seen;
      assert targets[..0] == [];
      var i := 0;
      while i < |targets|
        invariant i <= |targets| && seen' == seen + Arrows(source, targets[..i])
        invariant DegreesAre(inDegree', nodes.Keys, Targeting(seen', nodes.Keys), {})
      {
        var e := Edge(source, targets[i]);
        ArrowsStep(source, targets, i);
        CountTargeting(seen', nodes.Keys, e);
        if targets[i] in nodes {
          CountEdge(inDegree', nodes.Keys, Targeting(seen', nodes.Keys), e);
          inDegree' := inDegree'[targets[i] := inDegree'[targets[i]] + 1];
        }
        seen' := seen' + {e};
        i := i + 1;
      }
      assert targets[..i] == targets;
    }

    /** A complete order that respects the dependencies exactly when the steps are schedulable, else nothing. */
    method TopologicalOrder() returns (order: seq<string>)
      requires Valid()
      ensures Schedulable(Registered(), Edges()) ==> Topological(Registered(), Targeting(Edges(), Registered()), order)
      ensures !Schedulable(Registered(), Edges()) ==> order == []
    {
      ghost var steps, counted := nodes.Keys, Targeting(Edges(), nodes.Keys);
      assert Into(steps, counted);
      hide EdgesOf, DegreesAre, Targeting, Schedulable, Topological, PlacedWhenReady, Ready;
      var inDegree := InDegrees();
      ZeroDegreesAreReady(inDegree, steps, counted, {});
      DegreeKeys(inDegree, steps, counted, {});
      var zeros := InOrder(set n | n in inDegree.Keys && inDegree[n] == 0);
      order := [];
      NothingPlaced(steps, counted);
      while zeros != []
        invariant PlacedWhenReady(steps, counted, order)
        invariant Elems(zeros) == Ready(steps, counted, Elems(order)) && NoDup(zeros)
        invariant DegreesAre(inDegree, steps, counted, Elems(order))
        decreases steps - Elems(order)
      {
        var current := zeros[0];
        PlaceFront(steps, counted, order, zeros);
        var out := if current in outbound then outbound[current] else [];
        TargetsListed(outbound, steps, current);
        zeros, inDegree := Relax(current, out, nodes.Keys, zeros[1..], inDegree, counted, Elems(order));
        order := order + [current];
      }
      Verdict(steps, Edges(), order);
      if |order| != |nodes| {
        return [];
      }
    }

    /** The inner loop of the sort: decrement each registered target, queue those that reach zero. */
    static method Relax(current: string, out: seq<string>, steps: set<string>, zeros: seq<string>,
                        inDegree: map<string, nat>, ghost counted: set<Edge>, ghost placed: set<string>)
      returns (zeros': seq<string>, inDegree': map<string, nat>)
      requires NoDup(out) && Into(steps, counted)
      requires forall t :: Edge(current, t) in counted <==> t in out && t in steps
      requires current in Ready(steps, counted, placed) && DownClosed(counted, placed)
      requires Elems(zeros) == Ready(steps, counted, placed) - {current} && NoDup(zeros)
      requires DegreesAre(inDegree, steps, counted, placed)
      ensures Elems(zeros') == Ready(steps, counted, placed + {current}) && NoDup(zeros')
      ensures DegreesAre(inDegree', steps, counted, placed + {current})
    {
      hide *;
      zeros', inDegree' := zeros, inDegree;
      RelaxStart(steps, counted, current, placed, Elems(zeros), inDegree);
      assert out[..0] == [];
      var i := 0;
      while i < |out|
        invariant i <= |out| && NoDup(zeros')
        invariant Relaxed(steps, counted, current, placed, out[..i], Elems(zeros'), inDegree')
      {
        var target := out[i];
        ArrowsStep(current, out, i);
        if target in steps {
          RelaxStep(steps, counted, current, placed, out[..i], target, Elems(zeros'), inDegree');
          QueueBack(steps, counted, current, placed, out[..i], zeros', inDegree', target);
          inDegree' := inDegree'[target := inDegree'[target] - 1];
          if inDegree'[target] == 0 {
            zeros' := zeros' + [target];
          }
        } else {
          RelaxSkip(steps, counted, current, placed, out[..i], target, Elems(zeros'), inDegree');
        }
        i := i + 1;
      }
      assert out[..i] == out;
      RelaxEnd(steps, counted, current, placed, out, Elems(zeros'), inDegree');
    }
  }

  lemma TargetsListed(lists: Adjacency, nodes: set<string>, from: string)
    requires Simple(lists)
    ensures var out := if from in lists then lists[from] else [];
      NoDup(out) && forall t :: Edge(from, t) in Targeting(EdgesOf(lists), nodes) <==> t in out && t in nodes
  {
  }

  lemma AppendToList(lists: Adjacency, key: string, value: string)
    requires Simple(lists) && key in lists && value !in lists[key]
    ensures Simple(lists[key := lists[key] + [value]])
    ensures EdgesOf(lists[key := lists[key] + [value]]) == EdgesOf(lists) + {Edge(key, value)}
  {
    SetListEdges(lists, key, lists[key] + [value]);
    assert Arrows(key, lists[key] + [value]) == Arrows(key, lists[key]) + {Edge(key, value)};
    assert NoDup(lists[key] + [value]);
  }

  lemma DegreeKeys(inDegree: map<string, nat>, nodes: set<string>, edges: set<Edge>, placed: set<string>)
    requires DegreesAre(inDegree, nodes, edges, placed)
    ensures inDegree.Keys == nodes
  {
  }

  lemma NothingPlaced(nodes: set<string>, edges: set<Edge>)
    ensures PlacedWhenReady(nodes, edges, []) && Elems<string>([]) == {}
  {
  }

  lemma QueueFront(q: seq<string>)
    requires q != [] && NoDup(q)
    ensures q[0] in Elems(q) && Elems(q[1..]) == Elems(q) - {q[0]} && NoDup(q[1..])
  {
    assert q == [q[0]] + q[1..];
  }

  /** A counter that still holds a count is not in the queue, so no step is queued twice. */
  lemma QueueBack(nodes: set<string>, edges: set<Edge>, n: string, placed: set<string>, targets: seq<string>,
                  zeros: seq<string>, inDegree: map<string, nat>, m: string)
    requires Relaxed(nodes, edges, n, placed, targets, Elems(zeros), inDegree) && NoDup(zeros)
    requires m in inDegree && inDegree[m] > 0
    ensures NoDup(zeros + [m]) && Elems(zeros + [m]) == Elems(zeros) + {m}
  {
    assert m !in Elems(zeros);
  }

  /** An unregistered target is passed over. */
  lemma RelaxSkip(nodes: set<string>, edges: set<Edge>, n: string, placed: set<string>, targets: seq<string>, m: string,
                  zeros: set<string>, inDegree: map<string, nat>)
    requires Relaxed(nodes, edges, n, placed, targets, zeros, inDegree) && Edge(n, m) !in edges
    ensures Relaxed(nodes, edges, n, placed, targets + [m], zeros, inDegree)
  {
    assert edges - Arrows(n, targets + [m]) == edges - Arrows(n, targets);
  }

  lemma PlaceFront(nodes: set<string>, edges: set<Edge>, order: seq<string>, zeros: seq<string>)
    requires PlacedWhenReady(nodes, edges, order) && zeros != [] && NoDup(zeros)
    requires Elems(zeros) == Ready(nodes, edges, Elems(order))
    ensures zeros[0] in nodes && zeros[0] !in Elems(order) && zeros[0] in Ready(nodes, edges, Elems(order))
    ensures DownClosed(edges, Elems(order)) && PlacedWhenReady(nodes, edges, order + [zeros[0]])
    ensures Elems(zeros[1..]) == Ready(nodes, edges, Elems(order)) - {zeros[0]} && NoDup(zeros[1..])
    ensures Elems(order + [zeros[0]]) == Elems(order) + {zeros[0]}
  {
    QueueFront(zeros);
    ReadyIsUnplaced(nodes, edges, Elems(order), zeros[0]);
    PlacedWhenReadyIsDownClosed(nodes, edges, order);
    PlacedWhenReadyAppend(nodes, edges, order, zeros[0]);
    hide Ready, PlacedWhenReady, DownClosed;
  }

  /** When nothing more is ready, counting tells whether the steps were schedulable. */
  lemma Verdict(nodes: set<string>, edges: set<Edge>, order: seq<string>)
    requires PlacedWhenReady(nodes, Targeting(edges, nodes), order)
    requires Ready(nodes, Targeting(edges, nodes), Elems(order)) == {}
    ensures |order| == |nodes| <==> Schedulable(nodes, edges)
    ensures Schedulable(nodes, edges) ==> Topological(nodes, Targeting(edges, nodes), order)
  {
    PlacedWhenReadyIsDownClosed(nodes, Targeting(edges, nodes), order);
    NoDupSize(order);
    SubsetSize(Elems(order), nodes);
    if nodes <= Elems(order) {
      assert nodes == Elems(order);
      CompleteIsSchedulable(nodes, edges, order);
    } else {
      StuckIsUnschedulable(nodes, edges, Elems(order));
    }
  }
}
