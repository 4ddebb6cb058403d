/** Directed graphs as a node set and an edge set: closed walks, topological orders and
    the greedy (smallest ready node first) order of Kahn's algorithm. */
module Graphs {
  import opened Orders

  datatype Edge = Edge(from: string, to: string)

  // ----- walks and cycles -----

  ghost predicate Walk(edges: set<Edge>, w: seq<string>) {
    w != [] && forall i :: 0 <= i < |w| - 1 ==> Edge(w[i], w[i + 1]) in edges
  }

  ghost predicate ClosedWalk(edges: set<Edge>, w: seq<string>) {
    Walk(edges, w) && |w| >= 2 && w[0] == w[|w| - 1]
  }

  /** Some closed walk exists; a self-loop is one. */
  ghost predicate Cyclic(edges: set<Edge>) {
    exists w :: ClosedWalk(edges, w)
  }

  ghost predicate Over(nodes: set<string>, edges: set<Edge>) {
    forall e :: e in edges ==> e.from in nodes && e.to in nodes
  }

  lemma WalkPart(edges: set<Edge>, w: seq<string>, i: nat, j: nat)
    requires Walk(edges, w) && i < j <= |w|
    ensures Walk(edges, w[i..j])
  {
    var c := w[i..j];
    forall k | 0 <= k < |c| - 1 ensures Edge(c[k], c[k + 1]) in edges {
      assert Edge(w[i + k], w[i + k + 1]) in edges;
    }
  }

  /** A walk through more positions than there are nodes contains a closed walk. */
  lemma LongWalkIsCyclic(edges: set<Edge>, nodes: set<string>, w: seq<string>)
    requires Walk(edges, w) && Elems(w) <= nodes && |w| > |nodes|
    ensures Cyclic(edges)
  {
    var i, j := Pigeonhole(w, nodes);
    var c := w[i..j + 1];
    WalkPart(edges, w, i, j + 1);
    assert ClosedWalk(edges, c);
  }

  /** In a finishing order every edge leads to an earlier entry; so no walk returns. */
  ghost predicate Finishing(edges: set<Edge>, done: seq<string>) {
    forall i, t :: 0 <= i < |done| && Edge(done[i], t) in edges ==> t in done[..i]
  }

  lemma {:induction false} FinishingDescends(edges: set<Edge>, done: seq<string>, w: seq<string>, i: nat)
    requires Finishing(edges, done) && Walk(edges, w) && |w| >= 2
    requires i < |done| && w[0] == done[i]
    ensures w[|w| - 1] in done[..i]
    decreases |w|
  {
    assert Edge(w[0], w[1]) in edges;
    assert w[1] in done[..i];
    var j :| 0 <= j < i && done[j] == w[1];
    if |w| > 2 {
      var rest := w[1..];
      WalkPart(edges, w, 1, |w|);
      FinishingDescends(edges, done, rest, j);
    }
  }

  lemma FinishingIsAcyclic(edges: set<Edge>, done: seq<string>)
    requires NoDup(done) && Finishing(edges, done)
    requires forall e :: e in edges ==> e.from in done
    ensures !Cyclic(edges)
  {
    if w :| ClosedWalk(edges, w) {
      assert Edge(w[0], w[1]) in edges;
      var i :| 0 <= i < |done| && done[i] == w[0];
      FinishingDescends(edges, done, w, i);
      assert false;
    }
  }

  // ----- topological orders -----

  ghost predicate Topological(nodes: set<string>, edges: set<Edge>, order: seq<string>) {
    NoDup(order) && Elems(order) == nodes &&
    forall i, j :: 0 <= i < |order| && 0 <= j < |order| && Edge(order[i], order[j]) in edges ==> i < j
  }

  function Reverse<T>(s: seq<T>): (r: seq<T>)
    ensures |r| == |s| && forall i :: 0 <= i < |s| ==> r[i] == s[|s| - 1 - i]
  {
    if s == [] then [] else Reverse(s[1..]) + [s[0]]
  }

  /** Only acyclic graphs have a topological order. */
  lemma TopologicalIsAcyclic(nodes: set<string>, edges: set<Edge>, order: seq<string>)
    requires Over(nodes, edges) && Topological(nodes, edges, order)
    ensures !Cyclic(edges)
  {
    var done := Reverse(order);
    var n := |order|;
    assert forall x :: x in order <==> x in Elems(order);
    forall x | x in nodes ensures x in done {
      assert x in order;
      var k :| 0 <= k < n && order[k] == x;
      assert done[n - 1 - k] == x;
    }
    forall i, t | 0 <= i < |done| && Edge(done[i], t) in edges ensures t in done[..i] {
      assert t in order;
      var k :| 0 <= k < n && order[k] == t;
      assert order[n - 1 - i] == done[i] && n - 1 - i < k;
      assert done[..i][n - 1 - k] == t;
    }
    assert NoDup(done) by {
      assert forall i, j :: 0 <= i < j < |done| ==> done[i] == order[n - 1 - i] && done[j] == order[n - 1 - j];
    }
    FinishingIsAcyclic(edges, done);
  }

  // ----- Kahn's algorithm -----

  /** Nodes not yet placed whose predecessors all are. */
  ghost function Ready(nodes: set<string>, edges: set<Edge>, placed: set<string>): set<string> {
    set n | n in nodes && n !in placed && forall e :: e in edges && e.to == n ==> e.from in placed
  }

  lemma {:induction false} BackwardWalk(nodes: set<string>, edges: set<Edge>, placed: set<string>, start: string,
                                        steps: nat)
    returns (w: seq<string>)
    requires Over(nodes, edges) && Ready(nodes, edges, placed) == {}
    requires start in nodes - placed
    ensures Walk(edges, w) && |w| == steps + 1 && Elems(w) <= nodes - placed
  {
    if steps == 0 {
      w := [start];
    } else {
      var tail := BackwardWalk(nodes, edges, placed, start, steps - 1);
      assert tail[0] in Elems(tail);
      assert tail[0] !in Ready(nodes, edges, placed);
      var e :| e in edges && e.to == tail[0] && e.from !in placed;
      w := [e.from] + tail;
      assert Elems(w) == {e.from} + Elems(tail);
      forall i | 0 <= i < |w| - 1 ensures Edge(w[i], w[i + 1]) in edges {
        if i == 0 { assert Edge(e.from, e.to) in edges; } else { assert w[i] == tail[i - 1] && w[i + 1] == tail[i]; }
      }
    }
  }

  /** Kahn's algorithm gets stuck early only on a cycle. */
  lemma StuckIsCyclic(nodes: set<string>, edges: set<Edge>, placed: set<string>)
    requires Over(nodes, edges) && Ready(nodes, edges, placed) == {}
    requires !(nodes <= placed)
    ensures Cyclic(edges)
  {
    var start :| start in nodes && start !in placed;
    var w := BackwardWalk(nodes, edges, placed, start, |nodes - placed|);
    LongWalkIsCyclic(edges, nodes - placed, w);
  }

  /** Every entry was ready when it was placed. */
  ghost predicate PlacedWhenReady(nodes: set<string>, edges: set<Edge>, order: seq<string>) {
    forall i :: 0 <= i < |order| ==> order[i] in Ready(nodes, edges, Elems(order[..i]))
  }

  lemma PlacedWhenReadyAppend(nodes: set<string>, edges: set<Edge>, order: seq<string>, n: string)
    requires PlacedWhenReady(nodes, edges, order) && n in Ready(nodes, edges, Elems(order))
    ensures PlacedWhenReady(nodes, edges, order + [n])
  {
    var longer := order + [n];
    forall i | 0 <= i < |longer| ensures longer[i] in Ready(nodes, edges, Elems(longer[..i])) {
      assert longer[..i] == order[..i];
      assert order[..|order|] == order;
    }
  }

  lemma PlacedWhenReadyIsTopological(nodes: set<string>, edges: set<Edge>, order: seq<string>)
    requires Over(nodes, edges) && PlacedWhenReady(nodes, edges, order) && nodes <= Elems(order)
    ensures Topological(nodes, edges, order)
  {
    forall i, j | 0 <= i < j < |order| ensures order[i] != order[j] {
      assert order[j] !in Elems(order[..j]);
      assert order[..j][i] == order[i];
    }
    forall i, j | 0 <= i < |order| && 0 <= j < |order| && Edge(order[i], order[j]) in edges ensures i < j {
      assert order[i] in Elems(order[..j]);
    }
    forall x | x in Elems(order) ensures x in nodes {
      var i :| 0 <= i < |order| && order[i] == x;
      assert order[i] in Ready(nodes, edges, Elems(order[..i]));
    }
  }

  lemma TopologicalIsPlacedWhenReady(nodes: set<string>, edges: set<Edge>, order: seq<string>)
    requires Over(nodes, edges) && Topological(nodes, edges, order)
    ensures PlacedWhenReady(nodes, edges, order)
  {
    assert forall x :: x in order <==> x in Elems(order);
    forall i | 0 <= i < |order| ensures order[i] in Ready(nodes, edges, Elems(order[..i])) {
      forall e | e in edges && e.to == order[i] ensures e.from in Elems(order[..i]) {
        var k :| 0 <= k < |order| && order[k] == e.from;
        assert Edge(order[k], order[i]) in edges;
        assert order[..i][k] == e.from;
      }
      assert order[i] in nodes;
    }
  }

  // ----- the smallest topological order -----

  /** Strictly smaller in the lexicographic order on lists of node names. */
  ghost predicate SeqLess(a: seq<string>, b: seq<string>) {
    exists k :: 0 <= k < |a| && k < |b| && a[..k] == b[..k] && Lt(a[k], b[k])
  }

  ghost predicate LeastTopological(nodes: set<string>, edges: set<Edge>, order: seq<string>) {
    Topological(nodes, edges, order) &&
    forall other :: Topological(nodes, edges, other) && other != order ==> SeqLess(order, other)
  }

  /** Every entry was the smallest one ready. */
  ghost predicate Greedy(nodes: set<string>, edges: set<Edge>, order: seq<string>) {
    forall i :: 0 <= i < |order| ==> IsLeast(order[i], Ready(nodes, edges, Elems(order[..i])))
  }

  lemma GreedyAppend(nodes: set<string>, edges: set<Edge>, order: seq<string>, n: string)
    requires Greedy(nodes, edges, order) && IsLeast(n, Ready(nodes, edges, Elems(order)))
    ensures Greedy(nodes, edges, order + [n])
  {
    var longer := order + [n];
    forall i | 0 <= i < |longer| ensures IsLeast(longer[i], Ready(nodes, edges, Elems(longer[..i]))) {
      assert longer[..i] == order[..i];
      assert order[..|order|] == order;
    }
  }

  lemma FirstDifference(a: seq<string>, b: seq<string>) returns (k: nat)
    requires |a| == |b| && a != b
    ensures k < |a| && a[..k] == b[..k] && a[k] != b[k]
  {
    assert a[..|a|] == a && b[..|b|] == b;
    k := 0;
    while k < |a| && a[k] == b[k]
      invariant k <= |a| && a[..k] == b[..k]
    {
      assert a[..k + 1] == a[..k] + [a[k]] && b[..k + 1] == b[..k] + [b[k]];
      k := k + 1;
    }
  }

  lemma GreedyIsLeast(nodes: set<string>, edges: set<Edge>, order: seq<string>)
    requires Over(nodes, edges) && Greedy(nodes, edges, order) && nodes <= Elems(order)
    ensures LeastTopological(nodes, edges, order)
  {
    PlacedWhenReadyIsTopological(nodes, edges, order);
    forall other | Topological(nodes, edges, other) && other != order ensures SeqLess(order, other) {
      NoDupSize(order);
      NoDupSize(other);
      var k := FirstDifference(order, other);
      TopologicalIsPlacedWhenReady(nodes, edges, other);
      assert other[k] in Ready(nodes, edges, Elems(order[..k]));
      assert IsLeast(order[k], Ready(nodes, edges, Elems(order[..k])));
    }
  }

  lemma SeqLessAsymmetric(a: seq<string>, b: seq<string>)
    requires SeqLess(a, b)
    ensures !SeqLess(b, a)
  {
    if SeqLess(b, a) {
      var i :| 0 <= i < |a| && i < |b| && a[..i] == b[..i] && Lt(a[i], b[i]);
      var j :| 0 <= j < |a| && j < |b| && b[..j] == a[..j] && Lt(b[j], a[j]);
      if i < j {
        assert a[..j][i] == b[..j][i];
        LtIrreflexive(a[i]);
      } else if j < i {
        assert a[..i][j] == b[..i][j];
        LtIrreflexive(b[j]);
      } else {
        LtAsymmetric(a[i], b[i]);
      }
    }
  }

  /** The smallest topological order depends on the graph alone: neither hash iteration order
      nor the order inside adjacency lists can show in it. */
  lemma LeastTopologicalUnique(nodes: set<string>, edges: set<Edge>, a: seq<string>, b: seq<string>)
    requires LeastTopological(nodes, edges, a) && LeastTopological(nodes, edges, b)
    ensures a == b
  {
    if a != b {
      SeqLessAsymmetric(a, b);
    }
  }
}
