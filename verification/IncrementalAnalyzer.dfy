/** `ultra::incremental::IncrementalAnalyzer`: the worklist closure of the changed files
    under `getDependencies`. */
module IncrementalAnalysis {
  import opened Orders
  import opened Graphs
  import opened DependencyGraphs

  ghost predicate Closed(edges: set<Edge>, files: set<string>) {
    forall e :: e in edges && e.from in files ==> e.to in files
  }

  /** The least set that holds `changed` and is closed under the edges. */
  ghost predicate RebuildSet(edges: set<Edge>, changed: set<string>, files: set<string>) {
    && changed <= files && Closed(edges, files)
    && forall other :: changed <= other && Closed(edges, other) ==> files <= other
  }

  /** The files a walk from a changed file leads to. */
  ghost predicate Reached(edges: set<Edge>, changed: set<string>, file: string) {
    exists w :: Walk(edges, w) && w[0] in changed && w[|w| - 1] == file
  }

  lemma {:induction false} WalkStaysClosed(edges: set<Edge>, files: set<string>, w: seq<string>)
    requires Walk(edges, w) && Closed(edges, files) && w[0] in files
    ensures w[|w| - 1] in files
    decreases |w|
  {
    if |w| > 1 {
      assert Edge(w[0], w[1]) in edges;
      WalkPart(edges, w, 1, |w|);
      WalkStaysClosed(edges, files, w[1..]);
    }
  }

  lemma ReachedIsClosed(edges: set<Edge>, changed: set<string>, e: Edge)
    requires e in edges && Reached(edges, changed, e.from)
    ensures Reached(edges, changed, e.to)
  {
    var w :| Walk(edges, w) && w[0] in changed && w[|w| - 1] == e.from;
    var longer := w + [e.to];
    forall i | 0 <= i < |longer| - 1 ensures Edge(longer[i], longer[i + 1]) in edges {
      if i < |w| - 1 { assert Edge(w[i], w[i + 1]) in edges; } else { assert Edge(e.from, e.to) in edges; }
    }
    assert Walk(edges, longer);
  }

  /** The rebuild set is exactly what walks from the changed files reach. */
  lemma RebuildSetIsReachability(edges: set<Edge>, changed: set<string>, files: set<string>)
    requires RebuildSet(edges, changed, files)
    ensures forall f :: f in files <==> Reached(edges, changed, f)
  {
    var reached := set f | f in files && Reached(edges, changed, f);
    forall f | f in changed ensures f in reached {
      assert Walk(edges, [f]);
    }
    forall e | e in edges && e.from in reached ensures e.to in reached {
      ReachedIsClosed(edges, changed, e);
    }
    assert files <= reached;
    forall f | Reached(edges, changed, f) ensures f in files {
      var w :| Walk(edges, w) && w[0] in changed && w[|w| - 1] == f;
      WalkStaysClosed(edges, files, w);
    }
  }

  lemma RebuildSetUnique(edges: set<Edge>, changed: set<string>, a: set<string>, b: set<string>)
    requires RebuildSet(edges, changed, a) && RebuildSet(edges, changed, b)
    ensures a == b
  {
    hide Closed;
    assert a <= b && b <= a;
  }

  /** Rebuilding the rebuild set adds nothing. */
  lemma RebuildSetIdempotent(edges: set<Edge>, changed: set<string>, files: set<string>, again: set<string>)
    requires RebuildSet(edges, changed, files) && RebuildSet(edges, files, again)
    ensures again == files
  {
    hide Closed;
    assert again <= files;
  }

  /** Two batches of changes may be analysed together or apart. */
  lemma RebuildSetUnion(edges: set<Edge>, c1: set<string>, c2: set<string>, f1: set<string>, f2: set<string>)
    requires RebuildSet(edges, c1, f1) && RebuildSet(edges, c2, f2)
    ensures RebuildSet(edges, c1 + c2, f1 + f2)
  {
    forall other | c1 + c2 <= other && Closed(edges, other) ensures f1 + f2 <= other {
      assert f1 <= other && f2 <= other;
    }
  }

  /** Everything marked was forced, and only queued files may still have unmarked targets. */
  ghost predicate Working(edges: set<Edge>, changed: set<string>, marked: set<string>, queued: set<string>) {
    && changed <= marked && queued <= marked
    && (forall e :: e in edges && e.from in marked && e.from !in queued ==> e.to in marked)
    && (forall other :: changed <= other && Closed(edges, other) ==> marked <= other)
  }

  method ComputeRebuildSet(changedFiles: seq<string>, graph: DependencyGraph) returns (out: seq<string>)
    requires graph.Valid()
    ensures Ascending(out)
    ensures RebuildSet(graph.Edges(), Elems(changedFiles), Elems(out))
  {
    var marked, queue := MarkChanged(changedFiles);
    ghost var edges, nodes := graph.Edges(), graph.Nodes();
    assert forall e :: e in edges ==> e.to in nodes;
    ghost var universe := nodes + marked;
    assert Working(edges, Elems(changedFiles), marked, Elems(queue));
    while queue != []
      invariant marked <= universe
      invariant Working(edges, Elems(changedFiles), marked, Elems(queue))
      decreases universe - marked, |queue|
    {
      var n := queue[0];
      ghost var before := marked;
      var targets := graph.GetDependencies(n);
      QueuePop(queue);
      marked, queue := MarkTargets(edges, Elems(changedFiles), n, targets, marked, queue[1..]);
      if marked == before { assert universe - marked == universe - before; }
        else { assert universe - marked < universe - before; }
    }
    out := InOrder(marked);
  }

  method MarkChanged(changedFiles: seq<string>) returns (marked: set<string>, queue: seq<string>)
    ensures marked == Elems(changedFiles) == Elems(queue)
  {
    marked, queue := {}, [];
    var i := 0;
    while i < |changedFiles|
      invariant i <= |changedFiles| && marked == Elems(changedFiles[..i]) == Elems(queue)
    {
      var f := changedFiles[i];
      ElemsStep(changedFiles, i);
      if f !in marked {
        ElemsAppend(queue, f);
        marked, queue := marked + {f}, queue + [f];
      }
      i := i + 1;
    }
    assert changedFiles[..i] == changedFiles;
  }

  /** The inner loop: marks and queues the targets of `n`, which has left the queue. */
  method MarkTargets(ghost edges: set<Edge>, ghost changed: set<string>, n: string, targets: seq<string>,
                     marked: set<string>, queue: seq<string>)
    returns (marked': set<string>, queue': seq<string>)
    requires n in marked && Working(edges, changed, marked, Elems(queue) + {n})
    requires Elems(targets) == set e | e in edges && e.from == n :: e.to
    ensures Working(edges, changed, marked', Elems(queue'))
    ensures marked <= marked' <= marked + Elems(targets)
    ensures marked' == marked ==> queue' == queue
  {
    marked', queue' := marked, queue;
    ghost var waiting := {n};
    var i := 0;
    while i < |targets|
      invariant i <= |targets|
      invariant marked <= marked' <= marked + Elems(targets) && Elems(targets[..i]) <= marked'
      invariant marked' == marked ==> queue' == queue
      invariant Working(edges, changed, marked', Elems(queue') + {n})
    {
      var t := targets[i];
      ElemsStep(targets, i);
      assert t in Elems(targets);
      if t !in marked' {
        WorkingGrows(edges, changed, marked', Elems(queue'), n, t);
        ElemsAppend(queue', t);
        marked', queue' := marked' + {t}, queue' + [t];
      }
      i := i + 1;
    }
    assert targets[..i] == targets;
  }

  lemma WorkingGrows(edges: set<Edge>, changed: set<string>, marked: set<string>, queued: set<string>, n: string,
                     t: string)
    requires Working(edges, changed, marked, queued + {n})
    requires n in marked && Edge(n, t) in edges
    ensures Working(edges, changed, marked + {t}, queued + {t} + {n})
  {
    forall other | changed <= other && Closed(edges, other) ensures marked + {t} <= other {
      assert n in other;
    }
  }

  lemma QueuePop(queue: seq<string>)
    requires queue != []
    ensures Elems(queue) == Elems(queue[1..]) + {queue[0]}
  {
    assert queue == [queue[0]] + queue[1..];
  }

  lemma ElemsStep(s: seq<string>, i: nat)
    requires i < |s|
    ensures Elems(s[..i + 1]) == Elems(s[..i]) + {s[i]}
  {
    assert s[..i + 1] == s[..i] + [s[i]];
  }

  lemma ElemsAppend(s: seq<string>, x: string)
    ensures Elems(s + [x]) == Elems(s) + {x}
  {
  }
}
