/** `computeTraversalDepth`: how far a breadth-first search gets from a set of roots, at most eight steps. The
    queue holds nodes of at most two neighbouring depths, and everything nearer than the node at its front has
    been expanded. */
module TraversalDepths {
  import opened Orders
  import opened Graphs

  const DEPTH_LIMIT: nat := 8

  // ----- distances -----

  ghost predicate ReachedIn(edges: set<Edge>, roots: set<string>, n: string, d: nat) {
    exists w :: Walk(edges, w) && |w| == d + 1 && w[0] in roots && w[d] == n
  }

  /** The length of a shortest walk from some root. */
  ghost predicate Distance(edges: set<Edge>, roots: set<string>, n: string, d: nat) {
    ReachedIn(edges, roots, n, d) && forall k: nat :: k < d ==> !ReachedIn(edges, roots, n, k)
  }

  /** The greatest shortest distance from the roots, cut off at the limit; zero when there is nothing to reach. */
  ghost predicate GreatestDistance(edges: set<Edge>, roots: set<string>, r: nat) {
    if roots == {} then r == 0
    else
      && r <= DEPTH_LIMIT && (exists n :: Distance(edges, roots, n, r))
      && forall n, d: nat :: Distance(edges, roots, n, d) ==> d <= r || r == DEPTH_LIMIT
  }

  /** Everything within `d` steps. */
  ghost function Ball(edges: set<Edge>, roots: set<string>, d: nat): set<string> {
    if d == 0 then roots else Ball(edges, roots, d - 1) + Targets(edges, Ball(edges, roots, d - 1))
  }

  ghost function Targets(edges: set<Edge>, nodes: set<string>): set<string> {
    set e | e in edges && e.from in nodes :: e.to
  }

  lemma {:induction false} BallGrows(edges: set<Edge>, roots: set<string>, i: nat, j: nat)
    requires i <= j
    ensures Ball(edges, roots, i) <= Ball(edges, roots, j)
  {
    if i < j { BallGrows(edges, roots, i, j - 1); }
  }

  lemma {:induction false} WalkInBall(edges: set<Edge>, roots: set<string>, w: seq<string>, d: nat)
    requires Walk(edges, w) && d < |w| && w[0] in roots
    ensures w[d] in Ball(edges, roots, d)
  {
    if d > 0 {
      WalkInBall(edges, roots, w, d - 1);
      assert Edge(w[d - 1], w[d - 1 + 1]) in edges;
    }
  }

  lemma {:induction false} BallHasWalk(edges: set<Edge>, roots: set<string>, n: string, d: nat) returns (k: nat)
    requires n in Ball(edges, roots, d)
    ensures k <= d && ReachedIn(edges, roots, n, k)
    decreases d
  {
    if d == 0 {
      k := 0;
      assert Walk(edges, [n]);
    } else if n in Ball(edges, roots, d - 1) {
      k := BallHasWalk(edges, roots, n, d - 1);
    } else {
      var e :| e in edges && e.from in Ball(edges, roots, d - 1) && e.to == n;
      k := BallHasWalk(edges, roots, e.from, d - 1);
      var w :| Walk(edges, w) && |w| == k + 1 && w[0] in roots && w[k] == e.from;
      var longer := w + [n];
      forall i | 0 <= i < |longer| - 1 ensures Edge(longer[i], longer[i + 1]) in edges {
        if i < k { assert Edge(w[i], w[i + 1]) in edges; } else { assert e == Edge(longer[i], longer[i + 1]); }
      }
      assert Walk(edges, longer);
      k := k + 1;
    }
  }

  ghost predicate AtDepth(edges: set<Edge>, roots: set<string>, n: string, d: nat) {
    n in Ball(edges, roots, d) && (d > 0 ==> n !in Ball(edges, roots, d - 1))
  }

  /** First reached at step `d` means at distance `d`. */
  lemma AtDepthIsDistance(edges: set<Edge>, roots: set<string>, n: string, d: nat)
    ensures AtDepth(edges, roots, n, d) <==> Distance(edges, roots, n, d)
  {
    if AtDepth(edges, roots, n, d) {
      var k := BallHasWalk(edges, roots, n, d);
      forall j: nat | j < d ensures !ReachedIn(edges, roots, n, j) {
        if w :| Walk(edges, w) && |w| == j + 1 && w[0] in roots && w[j] == n {
          WalkInBall(edges, roots, w, j);
          BallGrows(edges, roots, j, d - 1);
          assert false;
        }
      }
      assert k == d;
    }
    if Distance(edges, roots, n, d) {
      var w :| Walk(edges, w) && |w| == d + 1 && w[0] in roots && w[d] == n;
      WalkInBall(edges, roots, w, d);
      if d > 0 && n in Ball(edges, roots, d - 1) {
        var k := BallHasWalk(edges, roots, n, d - 1);
        assert false;
      }
    }
  }

  // ----- the search -----

  /** Depths are exact. */
  ghost predicate Exact(edges: set<Edge>, roots: set<string>, depth: map<string, nat>) {
    roots <= depth.Keys && forall n :: n in depth ==> depth[n] <= DEPTH_LIMIT && AtDepth(edges, roots, n, depth[n])
  }

  /** The queue holds nodes of the level of the last node taken, then of the next level; all others are no deeper. */
  ghost predicate Layered(depth: map<string, nat>, queue: seq<string>, level: nat) {
    && (forall i :: 0 <= i < |queue| ==> queue[i] in depth && level <= depth[queue[i]] <= level + 1)
    && (forall i, j :: 0 <= i < j < |queue| ==> depth[queue[i]] <= depth[queue[j]])
    && (forall n :: n in depth && n !in queue ==> depth[n] <= level)
  }

  /** All successors of taken nodes have been seen, but for the `busy` ones. */
  ghost predicate Explored(edges: set<Edge>, depth: map<string, nat>, queue: seq<string>, busy: set<string>) {
    forall e :: e in edges && e.from in depth && e.from !in queue && e.from !in busy && depth[e.from] < DEPTH_LIMIT ==>
      e.to in depth
  }

  ghost predicate Searching(edges: set<Edge>, roots: set<string>, depth: map<string, nat>, queue: seq<string>,
                            level: nat, busy: set<string>) {
    level <= DEPTH_LIMIT && Exact(edges, roots, depth) && Layered(depth, queue, level)
      && Explored(edges, depth, queue, busy)
  }

  lemma InRest(queue: seq<string>)
    requires queue != []
    ensures forall n :: n in queue ==> n == queue[0] || n in queue[1..]
    ensures forall n :: n in queue[1..] ==> n in queue
  {
  }

  lemma StartSearching(edges: set<Edge>, roots: set<string>, queue: seq<string>)
    requires Elems(queue) == roots
    ensures Searching(edges, roots, map n | n in roots :: 0, queue, 0, {})
  {
    assert forall n :: n in queue <==> n in Elems(queue);
  }

  lemma DepthAtMost(edges: set<Edge>, roots: set<string>, depth: map<string, nat>, n: string, k: nat)
    requires n in depth && AtDepth(edges, roots, n, depth[n]) && n in Ball(edges, roots, k)
    ensures depth[n] <= k
  {
    if depth[n] > k { BallGrows(edges, roots, k, depth[n] - 1); }
  }

  /** Everything as near as the front of the queue has been seen. */
  lemma {:induction false} BallSeen(edges: set<Edge>, roots: set<string>, depth: map<string, nat>, queue: seq<string>,
                                    level: nat, k: nat)
    requires Searching(edges, roots, depth, queue, level, {})
    requires k <= DEPTH_LIMIT && forall i :: 0 <= i < |queue| ==> k <= depth[queue[i]]
    ensures Ball(edges, roots, k) <= depth.Keys
  {
    hide AtDepth;
    if k > 0 {
      BallSeen(edges, roots, depth, queue, level, k - 1);
      forall e | e in edges && e.from in Ball(edges, roots, k - 1) ensures e.to in depth {
        DepthAtMost(edges, roots, depth, e.from, k - 1);
      }
    }
  }

  /** Taking the front of the queue. */
  lemma TakeFront(edges: set<Edge>, roots: set<string>, depth: map<string, nat>, queue: seq<string>, level: nat)
    requires Searching(edges, roots, depth, queue, level, {}) && queue != []
    ensures Searching(edges, roots, depth, queue[1..], depth[queue[0]], {queue[0]})
    ensures Ball(edges, roots, depth[queue[0]]) <= depth.Keys
  {
    BallSeen(edges, roots, depth, queue, level, depth[queue[0]]);
    hide AtDepth, Ball, Layered, Explored;
    FrontLayered(depth, queue, level);
    FrontExplored(edges, depth, queue);
  }

  lemma FrontLayered(depth: map<string, nat>, queue: seq<string>, level: nat)
    requires Layered(depth, queue, level) && queue != []
    ensures queue[0] in depth && level <= depth[queue[0]] && Layered(depth, queue[1..], depth[queue[0]])
  {
    InRest(queue);
  }

  lemma FrontExplored(edges: set<Edge>, depth: map<string, nat>, queue: seq<string>)
    requires Explored(edges, depth, queue, {}) && queue != []
    ensures Explored(edges, depth, queue[1..], {queue[0]})
  {
    InRest(queue);
  }

  /** Seeing a new successor of the busy node. */
  lemma SeeNext(edges: set<Edge>, roots: set<string>, depth: map<string, nat>, queue: seq<string>, level: nat,
                current: string, next: string)
    requires Searching(edges, roots, depth, queue, level, {current}) && level < DEPTH_LIMIT
    requires current in depth && depth[current] == level && Edge(current, next) in edges && next !in depth
    requires Ball(edges, roots, level) <= depth.Keys
    ensures Searching(edges, roots, depth[next := level + 1], queue + [next], level, {current})
  {
    hide Ball, Layered, Explored, AtDepth;
    NextDepth(edges, roots, depth, level, current, next);
    NextLayered(depth, queue, level, next);
    NextExplored(edges, depth, queue, level, current, next);
  }

  lemma NextDepth(edges: set<Edge>, roots: set<string>, depth: map<string, nat>, level: nat, current: string,
                  next: string)
    requires Exact(edges, roots, depth) && current in depth && depth[current] == level
    requires Edge(current, next) in edges && next !in depth && Ball(edges, roots, level) <= depth.Keys
    ensures AtDepth(edges, roots, next, level + 1)
  {
    assert Edge(current, next).to == next && current in Ball(edges, roots, level);
    assert next in Targets(edges, Ball(edges, roots, level));
  }

  lemma NextLayered(depth: map<string, nat>, queue: seq<string>, level: nat, next: string)
    requires Layered(depth, queue, level) && next !in depth
    ensures Layered(depth[next := level + 1], queue + [next], level)
  {
    var queue' := queue + [next];
    assert queue'[|queue|] == next && forall i :: 0 <= i < |queue| ==> queue'[i] == queue[i] && queue[i] != next;
    assert forall n :: n in queue' <==> n in queue || n == next;
  }

  lemma NextExplored(edges: set<Edge>, depth: map<string, nat>, queue: seq<string>, level: nat, current: string,
                     next: string)
    requires Explored(edges, depth, queue, {current}) && next !in depth
    ensures Explored(edges, depth[next := level + 1], queue + [next], {current})
  {
    assert forall n :: n in queue + [next] <==> n in queue || n == next;
  }

  /** All successors seen: the node is done. */
  lemma Done(edges: set<Edge>, roots: set<string>, depth: map<string, nat>, queue: seq<string>, level: nat,
             current: string)
    requires Searching(edges, roots, depth, queue, level, {current})
    requires (current in depth && depth[current] >= DEPTH_LIMIT)
      || forall e :: e in edges && e.from == current ==> e.to in depth
    ensures Searching(edges, roots, depth, queue, level, {})
  {
  }

  /** With the queue empty, the greatest depth seen is the answer. */
  lemma Finished(edges: set<Edge>, roots: set<string>, depth: map<string, nat>, level: nat, maxDepth: nat)
    requires Searching(edges, roots, depth, [], level, {}) && roots != {}
    requires (forall n :: n in depth ==> depth[n] <= maxDepth) && exists n :: n in depth && depth[n] == maxDepth
    ensures GreatestDistance(edges, roots, maxDepth)
  {
    var far :| far in depth && depth[far] == maxDepth;
    AtDepthIsDistance(edges, roots, far, maxDepth);
    forall n, d: nat | Distance(edges, roots, n, d) ensures d <= maxDepth || maxDepth == DEPTH_LIMIT {
      AtDepthIsDistance(edges, roots, n, d);
      if d <= DEPTH_LIMIT {
        BallSeen(edges, roots, depth, [], level, d);
        SameDepth(edges, roots, depth, n, d);
      } else {
        var m := NodeAt(edges, roots, n, d, DEPTH_LIMIT);
        BallSeen(edges, roots, depth, [], level, DEPTH_LIMIT);
        SameDepth(edges, roots, depth, m, DEPTH_LIMIT);
      }
    }
  }

  lemma SameDepth(edges: set<Edge>, roots: set<string>, depth: map<string, nat>, n: string, d: nat)
    requires n in depth && AtDepth(edges, roots, n, depth[n]) && AtDepth(edges, roots, n, d)
    ensures depth[n] == d
  {
    DepthAtMost(edges, roots, depth, n, d);
    if depth[n] < d { BallGrows(edges, roots, depth[n], d - 1); }
  }

  lemma StepsOut(edges: set<Edge>, roots: set<string>, e: Edge, d: nat)
    requires e in edges
    ensures e.from in Ball(edges, roots, d) ==> e.to in Ball(edges, roots, d + 1)
  {
  }

  /** On the way to a node at distance `d` there is one at every smaller distance. */
  lemma {:induction false} NodeAt(edges: set<Edge>, roots: set<string>, n: string, d: nat, k: nat) returns (m: string)
    requires AtDepth(edges, roots, n, d) && k <= d
    ensures AtDepth(edges, roots, m, k)
    decreases d
  {
    if k == d {
      m := n;
    } else {
      var e :| e in edges && e.from in Ball(edges, roots, d - 1) && e.to == n;
      if d > 1 { StepsOut(edges, roots, e, d - 2); }
      m := NodeAt(edges, roots, e.from, d - 1, k);
    }
  }

  /** Sorted, distinct successor lists of the nodes that have any. */
  method AdjacencyOf(dependencies: set<Edge>) returns (adjacency: map<string, seq<string>>)
    ensures forall n, t :: Edge(n, t) in dependencies <==> n in adjacency && t in adjacency[n]
  {
    adjacency := map[];
    var todo := dependencies;
    while todo != {}
      invariant todo <= dependencies
      invariant forall n, t :: Edge(n, t) in dependencies - todo <==> n in adjacency && t in adjacency[n]
      decreases |todo|
    {
      var e :| e in todo;
      ghost var before := adjacency;
      var targets := if e.from in adjacency then adjacency[e.from] else [];
      var sorted := SortUnique(targets + [e.to]);
      forall t ensures t in sorted <==> t in targets || t == e.to {
        assert t in sorted <==> t in Elems(sorted);
        assert t in targets + [e.to] <==> t in Elems(targets + [e.to]);
      }
      adjacency := adjacency[e.from := sorted];
      todo := todo - {e};
      assert e == Edge(e.from, e.to);
    }
  }

  method ComputeTraversalDepth(dependencies: set<Edge>, roots: set<string>) returns (maxDepth: nat)
    ensures GreatestDistance(dependencies, roots, maxDepth)
  {
    if dependencies == {} || roots == {} {
      NothingReached(dependencies, roots);
      return 0;
    }
    var adjacency := AdjacencyOf(dependencies);
    hide AtDepth, GreatestDistance, Ball, Searching, Farthest;
    var queue := InOrder(roots);
    var depthByNode: map<string, nat> := map n | n in roots :: 0;
    StartSearching(dependencies, roots, queue);
    ghost var all := Nodes(dependencies, roots);
    ghost var level: nat := 0;
    maxDepth := 0;
    RootsSeen(roots, depthByNode, queue);
    while queue != []
      invariant Searching(dependencies, roots, depthByNode, queue, level, {})
      invariant depthByNode.Keys <= all && Farthest(depthByNode, queue, maxDepth)
      decreases |all - depthByNode.Keys|, |queue|
    {
      var current := queue[0];
      TakeFront(dependencies, roots, depthByNode, queue, level);
      QueueKnown(dependencies, roots, depthByNode, queue, level);
      FrontTaken(depthByNode, queue, maxDepth);
      queue := queue[1..];
      var currentDepth := depthByNode[current];
      level := currentDepth;
      maxDepth := if currentDepth > maxDepth then currentDepth else maxDepth;
      if currentDepth < DEPTH_LIMIT && current in adjacency {
        ghost var seen := depthByNode.Keys;
        depthByNode, queue := PushUnseen(dependencies, roots, current, adjacency[current], depthByNode, queue,
          maxDepth);
        FewerUnseen(all, seen, depthByNode.Keys);
      }
      Done(dependencies, roots, depthByNode, queue, level, current);
    }
    AllTaken(depthByNode, maxDepth);
    Finished(dependencies, roots, depthByNode, level, maxDepth);
  }

  ghost function Nodes(edges: set<Edge>, roots: set<string>): set<string> {
    roots + set e | e in edges :: e.to
  }

  /** Gives every successor not seen before its depth, and queues it. */
  method PushUnseen(ghost edges: set<Edge>, ghost roots: set<string>, current: string, successors: seq<string>,
                    depthByNode: map<string, nat>, queue: seq<string>, ghost maxDepth: nat)
    returns (depth': map<string, nat>, queue': seq<string>)
    requires current in depthByNode && depthByNode[current] < DEPTH_LIMIT
    requires forall t :: t in successors ==> Edge(current, t) in edges
    requires Searching(edges, roots, depthByNode, queue, depthByNode[current], {current})
    requires Ball(edges, roots, depthByNode[current]) <= depthByNode.Keys <= Nodes(edges, roots)
    requires Farthest(depthByNode, queue, maxDepth)
    ensures Searching(edges, roots, depth', queue', depthByNode[current], {current})
    ensures depthByNode.Keys <= depth'.Keys <= Nodes(edges, roots) && Farthest(depth', queue', maxDepth)
    ensures forall t :: t in successors ==> t in depth'
    ensures depth'.Keys == depthByNode.Keys ==> |queue'| == |queue|
  {
    hide *;
    depth', queue' := depthByNode, queue;
    var currentDepth := depthByNode[current];
    assert currentDepth < DEPTH_LIMIT;
    var i := 0;
    while i < |successors|
      invariant 0 <= i <= |successors|
      invariant Searching(edges, roots, depth', queue', currentDepth, {current})
      invariant Ball(edges, roots, currentDepth) <= depth'.Keys <= Nodes(edges, roots)
      invariant Farthest(depth', queue', maxDepth)
      invariant current in depth' && depth'[current] == currentDepth && depthByNode.Keys <= depth'.Keys
      invariant forall j :: 0 <= j < i ==> successors[j] in depth'
      invariant depth'.Keys == depthByNode.Keys ==> |queue'| == |queue|
    {
      var next := successors[i];
      assert next in successors && Edge(current, next) in edges;
      if next !in depth' {
        SeeNext(edges, roots, depth', queue', currentDepth, current, next);
        NextSeen(depth', queue', maxDepth, next, currentDepth + 1);
        InNodes(edges, roots, Edge(current, next));
        assert Edge(current, next).to == next;
        depth' := depth'[next := currentDepth + 1];
        queue' := queue' + [next];
        assert next in depth' && next !in depthByNode;
      }
      i := i + 1;
    }
  }

  /** Every taken node is at most this deep, and some seen node exactly; before the first is taken, zero. */
  ghost predicate Farthest(depth: map<string, nat>, queue: seq<string>, maxDepth: nat) {
    && (forall n :: n in depth && n !in queue ==> depth[n] <= maxDepth)
    && exists n :: n in depth && depth[n] == maxDepth
  }

  lemma RootsSeen(roots: set<string>, depth: map<string, nat>, queue: seq<string>)
    requires roots != {} && depth == (map n | n in roots :: 0)
    ensures Farthest(depth, queue, 0)
  {
    var n :| n in roots;
    assert depth[n] == 0;
  }

  lemma FrontTaken(depth: map<string, nat>, queue: seq<string>, maxDepth: nat)
    requires queue != [] && queue[0] in depth && Farthest(depth, queue, maxDepth)
    ensures Farthest(depth, queue[1..], if depth[queue[0]] > maxDepth then depth[queue[0]] else maxDepth)
  {
    InRest(queue);
  }

  lemma NextSeen(depth: map<string, nat>, queue: seq<string>, maxDepth: nat, next: string, d: nat)
    requires next !in depth && Farthest(depth, queue, maxDepth)
    ensures Farthest(depth[next := d], queue + [next], maxDepth)
  {
    var far :| far in depth && depth[far] == maxDepth;
    assert depth[next := d][far] == maxDepth;
    assert (queue + [next])[|queue|] == next;
    assert forall n :: n in queue ==> n in queue + [next];
  }

  lemma AllTaken(depth: map<string, nat>, maxDepth: nat)
    requires Farthest(depth, [], maxDepth)
    ensures (forall n :: n in depth ==> depth[n] <= maxDepth) && exists n :: n in depth && depth[n] == maxDepth
  {
  }

  lemma QueueKnown(edges: set<Edge>, roots: set<string>, depth: map<string, nat>, queue: seq<string>, level: nat)
    requires Searching(edges, roots, depth, queue, level, {}) && queue != []
    ensures queue[0] in depth && depth[queue[0]] <= DEPTH_LIMIT
  {
  }

  lemma InNodes(edges: set<Edge>, roots: set<string>, e: Edge)
    requires e in edges
    ensures e.to in Nodes(edges, roots)
  {
  }

  lemma FewerUnseen(all: set<string>, seen: set<string>, seen': set<string>)
    requires seen <= seen' <= all
    ensures |all - seen'| <= |all - seen| && (seen != seen' ==> |all - seen'| < |all - seen|)
  {
    SubsetSize(all - seen', all - seen);
    if seen != seen' {
      var x :| x in seen' && x !in seen;
      assert x in all - seen && x !in all - seen';
    }
  }

  lemma NothingReached(edges: set<Edge>, roots: set<string>)
    requires edges == {} || roots == {}
    ensures GreatestDistance(edges, roots, 0)
  {
    if roots != {} {
      var n :| n in roots;
      AtDepthIsDistance(edges, roots, n, 0);
      forall m, d: nat | Distance(edges, roots, m, d) ensures d == 0 {
        var w :| Walk(edges, w) && |w| == d + 1 && w[0] in roots && w[d] == m;
        StepNeedsEdge(edges, w);
      }
    }
  }

  lemma StepNeedsEdge(edges: set<Edge>, w: seq<string>)
    requires Walk(edges, w)
    ensures edges == {} ==> |w| == 1
  {
    if |w| > 1 { assert Edge(w[0], w[0 + 1]) in edges; }
  }
}
