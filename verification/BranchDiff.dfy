/** `ultra::diff::DiffEngine::diffBranches`: what changed between two snapshots of the semantic graph. Scores are
    real numbers. This module says what the lists of the report hold; `BranchImpacts` computes them. */
module BranchDiffs {
  import opened Orders
  import opened Decimals
  import opened Graphs

  datatype NodeType = SymbolNode | OtherNode
  datatype EdgeType = DependsOn | OtherEdge

  /** A node with the payload fields the comparison reads; `usedIn` is a list the code sorts and makes unique. */
  datatype StateNode = StateNode(nodeId: string, nodeType: NodeType, name: string, definedIn: string,
                                 usedIn: seq<string>, centrality: real)
  datatype StateEdge = StateEdge(sourceId: string, targetId: string, edgeType: EdgeType)
  datatype StateSnapshot = StateSnapshot(nodes: seq<StateNode>, edges: seq<StateEdge>)

  datatype SymbolView = SymbolView(name: string, definedIn: string, usedIn: set<string>, centrality: real)

  datatype DiffType = Added | Removed | Renamed | Moved | Modified {
    function Code(): nat {
      match this
      case Added => 0
      case Removed => 1
      case Renamed => 2
      case Moved => 3
      case Modified => 4
    }
  }
  datatype SignatureChange = Signature | Relocation | Rename
  datatype RiskLevel = LOW | MEDIUM | HIGH

  datatype SymbolEntry = SymbolEntry(id: string, kind: DiffType)
  datatype SignatureEntry = SignatureEntry(id: string, change: SignatureChange)
  datatype DependencyEntry = DependencyEntry(edge: Edge, kind: DiffType)

  datatype BranchDiffReport = BranchDiffReport(
    symbols: seq<SymbolEntry>, signatures: seq<SignatureEntry>, dependencies: seq<DependencyEntry>,
    overallRisk: RiskLevel, impactScore: real)

  type Views = map<string, SymbolView>

  // ----- what the snapshots hold -----

  function ViewOf(n: StateNode): SymbolView {
    SymbolView(n.name, n.definedIn, (set x | x in n.usedIn), n.centrality)
  }

  /** Symbol nodes by id; the first node of an id counts. */
  function SymbolsOf(nodes: seq<StateNode>): Views {
    if nodes == [] then map[]
    else
      var front, n := SymbolsOf(nodes[..|nodes| - 1]), nodes[|nodes| - 1];
      if n.nodeType != SymbolNode || n.nodeId == "" || n.nodeId in front then front else front[n.nodeId := ViewOf(n)]
  }

  function DependenciesOf(edges: seq<StateEdge>): set<Edge> {
    set e | e in edges && e.edgeType == DependsOn && e.sourceId != ""
      && e.targetId != "" :: Edge(e.sourceId, e.targetId)
  }

  method CollectSymbols(nodes: seq<StateNode>) returns (symbols: Views)
    ensures symbols == SymbolsOf(nodes)
  {
    symbols := map[];
    var i := 0;
    while i < |nodes|
      invariant 0 <= i <= |nodes| && symbols == SymbolsOf(nodes[..i])
    {
      assert nodes[..i + 1][..i] == nodes[..i];
      var n := nodes[i];
      if n.nodeType == SymbolNode && n.nodeId != "" && n.nodeId !in symbols {
        symbols := symbols[n.nodeId := ViewOf(n)];
      }
      i := i + 1;
    }
    assert nodes[..i] == nodes;
  }

  method CollectDependencies(edges: seq<StateEdge>) returns (dependencies: set<Edge>)
    ensures dependencies == DependenciesOf(edges)
  {
    dependencies := {};
    var i := 0;
    while i < |edges|
      invariant 0 <= i <= |edges| && dependencies == DependenciesOf(edges[..i])
    {
      DependenciesNext(edges, i);
      var e := edges[i];
      if e.edgeType == DependsOn && e.sourceId != "" && e.targetId != "" {
        dependencies := dependencies + {Edge(e.sourceId, e.targetId)};
      }
      i := i + 1;
    }
    assert edges[..i] == edges;
  }

  lemma DependenciesNext(edges: seq<StateEdge>, i: nat)
    requires i < |edges|
    ensures var e := edges[i];
      DependenciesOf(edges[..i + 1]) == DependenciesOf(edges[..i])
        + if e.edgeType == DependsOn && e.sourceId != "" && e.targetId != "" then {Edge(e.sourceId, e.targetId)} else {}
  {
    assert edges[..i + 1] == edges[..i] + [edges[i]];
    assert forall e :: e in edges[..i + 1] <==> e in edges[..i] || e == edges[i];
  }

  // ----- what changed, symbol by symbol and edge by edge -----

  /** A changed name outweighs a changed file, which outweighs changed uses. */
  function Kind(o: Views, n: Views, id: string): Option<DiffType> {
    if id !in o && id !in n then None
    else if id !in o then Some(Added)
    else if id !in n then Some(Removed)
    else if o[id].name != n[id].name then Some(Renamed)
    else if o[id].definedIn != n[id].definedIn then Some(Moved)
    else if o[id].usedIn != n[id].usedIn then Some(Modified)
    else None
  }

  function SignatureOf(kind: Option<DiffType>): Option<SignatureChange> {
    match kind
    case Some(Renamed) => Some(Rename)
    case Some(Moved) => Some(Relocation)
    case Some(Modified) => Some(Signature)
    case _ => None
  }

  function EdgeKind(o: set<Edge>, n: set<Edge>, e: Edge): Option<DiffType> {
    if e in o && e !in n then Some(Removed) else if e in n && e !in o then Some(Added) else None
  }

  function SymbolId(x: SymbolEntry): string { x.id }
  function SignatureId(x: SignatureEntry): string { x.id }

  predicate SymbolLess(x: SymbolEntry, y: SymbolEntry) {
    if x.id != y.id then Lt(x.id, y.id) else x.kind.Code() < y.kind.Code()
  }

  predicate DependencyLess(x: DependencyEntry, y: DependencyEntry) {
    if x.edge.from != y.edge.from then Lt(x.edge.from, y.edge.from)
    else if x.edge.to != y.edge.to then Lt(x.edge.to, y.edge.to)
    else x.kind.Code() < y.kind.Code()
  }

  /** In the order of their ids, once each, exactly the changed symbols. */
  ghost predicate SymbolsListed(o: Views, n: Views, list: seq<SymbolEntry>) {
    Ascending(Mapped(SymbolId, list)) && forall x :: x in list <==> Kind(o, n, x.id) == Some(x.kind)
  }

  ghost predicate SignaturesListed(o: Views, n: Views, list: seq<SignatureEntry>) {
    Ascending(Mapped(SignatureId, list)) && forall x :: x in list <==> SignatureOf(Kind(o, n, x.id)) == Some(x.change)
  }

  /** In order, once each, exactly the edges on one side only. */
  ghost predicate DependenciesListed(o: set<Edge>, n: set<Edge>, list: seq<DependencyEntry>) {
    StrictlySorted(DependencyLess, list) && forall x :: x in list <==> EdgeKind(o, n, x.edge) == Some(x.kind)
  }

  // ----- mirroring -----

  function Opposite(k: DiffType): DiffType {
    match k
    case Added => Removed
    case Removed => Added
    case _ => k
  }

  lemma KindMirrors(o: Views, n: Views, id: string)
    ensures Kind(n, o, id) == match Kind(o, n, id) case None => None case Some(k) => Some(Opposite(k))
  {
  }

  function SwapSymbol(x: SymbolEntry): SymbolEntry {
    SymbolEntry(x.id, Opposite(x.kind))
  }

  function SwapDependency(x: DependencyEntry): DependencyEntry {
    DependencyEntry(x.edge, Opposite(x.kind))
  }

  /** Lists in the order of their ids are determined by their elements. */
  lemma ListedUnique<T(!new)>(id: T -> string, a: seq<T>, b: seq<T>)
    requires Ascending(Mapped(id, a)) && Ascending(Mapped(id, b)) && forall x :: x in a <==> x in b
    ensures a == b
  {
    var before := (x: T, y: T) => Lt(id(x), id(y));
    LtComparator();
    forall i, j | 0 <= i < j < |a| ensures before(a[i], a[j]) {
      assert Lt(Mapped(id, a)[i], Mapped(id, a)[j]);
    }
    forall i, j | 0 <= i < j < |b| ensures before(b[i], b[j]) {
      assert Lt(Mapped(id, b)[i], Mapped(id, b)[j]);
    }
    StrictUnique(before, a, b);
  }

  lemma SymbolsListedUnique(o: Views, n: Views, a: seq<SymbolEntry>, b: seq<SymbolEntry>)
    requires SymbolsListed(o, n, a) && SymbolsListed(o, n, b)
    ensures a == b
  {
    hide Kind, Ascending;
    ListedUnique(SymbolId, a, b);
  }

  lemma SignaturesListedUnique(o: Views, n: Views, a: seq<SignatureEntry>, b: seq<SignatureEntry>)
    requires SignaturesListed(o, n, a) && SignaturesListed(o, n, b)
    ensures a == b
  {
    hide Kind, Ascending;
    ListedUnique(SignatureId, a, b);
  }

  lemma DependenciesListedUnique(o: set<Edge>, n: set<Edge>, a: seq<DependencyEntry>, b: seq<DependencyEntry>)
    requires DependenciesListed(o, n, a) && DependenciesListed(o, n, b)
    ensures a == b
  {
    hide DependencyLess;
    DependencyComparator();
    StrictUnique(DependencyLess, a, b);
  }

  lemma DependencyComparator()
    ensures Comparator(DependencyLess)
  {
    LtComparator();
  }

  /** Swapping the snapshots swaps additions and removals and leaves everything else in place. */
  lemma SymbolsMirror(o: Views, n: Views, list: seq<SymbolEntry>)
    requires SymbolsListed(o, n, list)
    ensures SymbolsListed(n, o, Mapped(SwapSymbol, list))
  {
    var swapped := Mapped(SwapSymbol, list);
    assert Mapped(SymbolId, swapped) == Mapped(SymbolId, list);
    forall x ensures x in swapped <==> Kind(n, o, x.id) == Some(x.kind) {
      KindMirrors(o, n, x.id);
      var y := SwapSymbol(x);
      assert SwapSymbol(y) == x;
      if x in swapped {
        var i :| 0 <= i < |swapped| && swapped[i] == x;
        assert list[i] in list;
      }
      if Kind(n, o, x.id) == Some(x.kind) {
        assert y in list;
        var i :| 0 <= i < |list| && list[i] == y;
        assert swapped[i] == x;
      }
    }
  }

  lemma SignaturesMirror(o: Views, n: Views, list: seq<SignatureEntry>)
    requires SignaturesListed(o, n, list)
    ensures SignaturesListed(n, o, list)
  {
    forall x: SignatureEntry ensures SignatureOf(Kind(n, o, x.id)) == SignatureOf(Kind(o, n, x.id)) {
      KindMirrors(o, n, x.id);
    }
  }

  lemma DependenciesMirror(o: set<Edge>, n: set<Edge>, list: seq<DependencyEntry>)
    requires DependenciesListed(o, n, list)
    ensures DependenciesListed(n, o, Mapped(SwapDependency, list))
  {
    var swapped := Mapped(SwapDependency, list);
    forall i, j | 0 <= i < j < |swapped| ensures DependencyLess(swapped[i], swapped[j]) {
      assert DependencyLess(list[i], list[j]);
      assert list[i] in list && list[j] in list;
    }
    forall x ensures x in swapped <==> EdgeKind(n, o, x.edge) == Some(x.kind) {
      var y := SwapDependency(x);
      assert SwapDependency(y) == x;
      if x in swapped {
        var i :| 0 <= i < |swapped| && swapped[i] == x;
        assert list[i] in list;
      }
      if EdgeKind(n, o, x.edge) == Some(x.kind) {
        assert y in list;
        var i :| 0 <= i < |list| && list[i] == y;
        assert swapped[i] == x;
      }
    }
  }
}
