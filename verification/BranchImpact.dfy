/** The report of `diffBranches`: the three lists, the risk level and the impact score. The loops over symbols and
    dependencies collect sets and flags, each proved to be what a condition on the two snapshots says. */
module BranchImpacts {
  import opened Orders
  import opened Decimals
  import opened Graphs
  import opened TraversalDepths
  import opened BranchDiffs

  // ----- paths -----

  function Slashed(s: string): (r: string)
    ensures |r| == |s|
  {
    seq(|s|, i requires 0 <= i < |s| => if s[i] == '\\' then '/' else s[i])
  }

  function Lower(s: string): (r: string)
    ensures |r| == |s|
  {
    seq(|s|, i requires 0 <= i < |s| => if 'A' <= s[i] <= 'Z' then (s[i] as int + 32) as char else s[i])
  }

  predicate Contains(s: string, t: string) {
    |t| <= |s| && (s[..|t|] == t || Contains(s[1..], t))
  }

  /** From the last dot on; empty without one. */
  function Extension(s: string): string {
    if s == [] then "" else if s[|s| - 1] == '.' then "."
    else
      var e := Extension(s[..|s| - 1]);
      if e == "" then "" else e + [s[|s| - 1]]
  }

  predicate IsHeaderPath(path: string) {
    var p := Lower(Slashed(path));
    Contains(p, "/include/") || Extension(p) == ".h" || Extension(p) == ".hh" || Extension(p) == ".hpp"
      || Extension(p) == ".hxx"
  }

  predicate IsPublic(v: SymbolView) {
    v.definedIn != "" && IsHeaderPath(v.definedIn)
  }

  const FILE_PREFIX := "file:"

  predicate IsFileNode(id: string) {
    |id| >= 5 && id[..5] == FILE_PREFIX
  }

  function FileNode(path: string): string {
    if path == "" then "" else FILE_PREFIX + path
  }

  function UpToSlash(s: string): string {
    if s == "" || s[0] == '/' then "" else [s[0]] + UpToSlash(s[1..])
  }

  function ModuleOf(id: string): string {
    if !IsFileNode(id) then "" else UpToSlash(Slashed(id[5..]))
  }

  // ----- what the report depends on -----

  ghost function AffectedSymbols(o: Views, n: Views): set<string> {
    set id | id in o.Keys + n.Keys && Kind(o, n, id).Some?
  }

  /** The file a changed symbol is now in, or was in. */
  function RootOf(o: Views, n: Views, id: string): string {
    if id in n && n[id].definedIn != "" then FileNode(n[id].definedIn)
    else if id in o then FileNode(o[id].definedIn)
    else ""
  }

  predicate RemovesPublic(o: Views, n: Views, id: string) {
    id in o && id !in n && IsPublic(o[id])
  }

  predicate TouchesPublic(o: Views, n: Views, id: string) {
    Kind(o, n, id).Some? && ((id in o && IsPublic(o[id])) || (id in n && IsPublic(n[id])))
  }

  ghost function Changed(o: set<Edge>, n: set<Edge>): set<Edge> {
    (o - n) + (n - o)
  }

  ghost function Endpoints(edges: set<Edge>): set<string> {
    (set e | e in edges :: e.from) + (set e | e in edges :: e.to)
  }

  predicate Crosses(e: Edge) {
    ModuleOf(e.from) != "" && ModuleOf(e.to) != "" && ModuleOf(e.from) != ModuleOf(e.to)
  }

  predicate Internal(e: Edge) {
    ModuleOf(e.from) != "" && ModuleOf(e.to) != "" && ModuleOf(e.from) == ModuleOf(e.to)
  }

  function Abs(x: real): (r: real)
    ensures r >= 0.0
  {
    if x < 0.0 then -x else x
  }

  function Clamp01(x: real): (r: real)
    ensures 0.0 <= r <= 1.0
  {
    if x < 0.0 then 0.0 else if x > 1.0 then 1.0 else x
  }

  const SPIKE_THRESHOLD := 0.20

  predicate Spikes(o: Views, n: Views, id: string) {
    id in o && id in n && Abs(n[id].centrality - o[id].centrality) > SPIKE_THRESHOLD
  }

  /** The symbols whose centrality counts: the changed ones, or all old ones when nothing changed. */
  ghost function Weighed(o: Views, affected: set<string>): set<string> {
    if affected == {} then o.Keys else affected
  }

  function DeltaSum(o: Views, n: Views, ids: seq<string>): (r: real)
    ensures r >= 0.0
  {
    if ids == [] then 0.0
    else
      var id := ids[|ids| - 1];
      DeltaSum(o, n, ids[..|ids| - 1]) + if id in o && id in n then Abs(n[id].centrality - o[id].centrality) else 0.0
  }

  function DeltaCount(o: Views, n: Views, ids: seq<string>): nat {
    if ids == [] then 0
    else DeltaCount(o, n, ids[..|ids| - 1]) + if ids[|ids| - 1] in o && ids[|ids| - 1] in n then 1 else 0
  }

  function MeanDelta(o: Views, n: Views, ids: seq<string>): real {
    if DeltaCount(o, n, ids) == 0 then 0.0 else Clamp01(DeltaSum(o, n, ids) / DeltaCount(o, n, ids) as real)
  }

  // ----- the pass over the symbols -----

  datatype SymbolScan = SymbolScan(
    symbols: seq<SymbolEntry>, signatures: seq<SignatureEntry>, affected: set<string>, roots: set<string>,
    publicRemoval: bool, publicImpact: bool)

  function Extended(o: Views, n: Views, id: string, s: SymbolScan): SymbolScan {
    var kind := Kind(o, n, id);
    if kind.None? then s
    else
      SymbolScan(
        s.symbols + [SymbolEntry(id, kind.value)],
        s.signatures + (if SignatureOf(kind).Some? then [SignatureEntry(id, SignatureOf(kind).value)] else []),
        s.affected + {id},
        s.roots + (if RootOf(o, n, id) != "" then {RootOf(o, n, id)} else {}),
        s.publicRemoval || RemovesPublic(o, n, id),
        s.publicImpact || TouchesPublic(o, n, id))
  }

  /** One turn of the loop over all symbol ids. */
  method ScanSymbol(o: Views, n: Views, id: string, s: SymbolScan) returns (r: SymbolScan)
    requires id in o || id in n
    ensures r == Extended(o, n, id, s)
  {
    hide IsHeaderPath;
    r := s;
    if id !in o {
      r := r.(symbols := r.symbols + [SymbolEntry(id, Added)], affected := r.affected + {id},
              publicImpact := r.publicImpact || IsPublic(n[id]));
      if n[id].definedIn != "" {
        r := r.(roots := r.roots + {FileNode(n[id].definedIn)});
      }
      return;
    }
    if id !in n {
      r := r.(symbols := r.symbols + [SymbolEntry(id, Removed)], affected := r.affected + {id},
              publicRemoval := r.publicRemoval || IsPublic(o[id]), publicImpact := r.publicImpact || IsPublic(o[id]));
      if o[id].definedIn != "" {
        r := r.(roots := r.roots + {FileNode(o[id].definedIn)});
      }
      return;
    }
    if o[id].name != n[id].name {
      r := r.(symbols := r.symbols + [SymbolEntry(id, Renamed)],
        signatures := r.signatures + [SignatureEntry(id, Rename)],
              affected := r.affected + {id});
    } else if o[id].definedIn != n[id].definedIn {
      r := r.(symbols := r.symbols + [SymbolEntry(id, Moved)],
        signatures := r.signatures + [SignatureEntry(id, Relocation)],
              affected := r.affected + {id});
    } else if o[id].usedIn != n[id].usedIn {
      r := r.(symbols := r.symbols + [SymbolEntry(id, Modified)],
        signatures := r.signatures + [SignatureEntry(id, Signature)],
              affected := r.affected + {id});
    } else {
      return;
    }
    r := r.(publicImpact := r.publicImpact || IsPublic(o[id]) || IsPublic(n[id]));
    if n[id].definedIn != "" {
      r := r.(roots := r.roots + {FileNode(n[id].definedIn)});
    } else if o[id].definedIn != "" {
      r := r.(roots := r.roots + {FileNode(o[id].definedIn)});
    }
  }

  ghost predicate ScannedLists(o: Views, n: Views, done: seq<string>, s: SymbolScan) {
    && Ascending(Mapped(SymbolId, s.symbols)) && Ascending(Mapped(SignatureId, s.signatures))
    && (forall x :: x in s.symbols <==> x.id in done && Kind(o, n, x.id) == Some(x.kind))
    && (forall x :: x in s.signatures <==> x.id in done && SignatureOf(Kind(o, n, x.id)) == Some(x.change))
  }

  ghost predicate ScannedSets(o: Views, n: Views, done: seq<string>, s: SymbolScan) {
    && s.affected == (set id | id in done && Kind(o, n, id).Some?)
    && s.roots == (set id | id in s.affected && RootOf(o, n, id) != "" :: RootOf(o, n, id))
    && (s.publicRemoval <==> exists id :: id in done && RemovesPublic(o, n, id))
    && (s.publicImpact <==> exists id :: id in done && TouchesPublic(o, n, id))
  }

  lemma AscendingSnoc(s: seq<string>, x: string)
    requires Ascending(s) && forall y :: y in s ==> Lt(y, x)
    ensures Ascending(s + [x])
  {
  }

  lemma ScanStepLists(o: Views, n: Views, done: seq<string>, id: string, s: SymbolScan)
    requires ScannedLists(o, n, done, s) && Ascending(done + [id])
    ensures ScannedLists(o, n, done + [id], Extended(o, n, id, s))
  {
    hide RemovesPublic, TouchesPublic, RootOf, Lt;
    var kind := Kind(o, n, id);
    assert forall x :: x in done + [id] <==> x in done || x == id;
    forall y | y in done ensures Lt(y, id) {
      var i :| 0 <= i < |done| && done[i] == y;
      assert (done + [id])[i] == y && (done + [id])[|done|] == id;
    }
    if kind.Some? {
      var x, y := SymbolEntry(id, kind.value), SignatureEntry(id, Rename);
      assert Mapped(SymbolId, s.symbols + [x]) == Mapped(SymbolId, s.symbols) + [id];
      forall z | z in Mapped(SymbolId, s.symbols) ensures Lt(z, id) {
        var i :| 0 <= i < |s.symbols| && Mapped(SymbolId, s.symbols)[i] == z;
        assert s.symbols[i] in s.symbols;
      }
      AscendingSnoc(Mapped(SymbolId, s.symbols), id);
      if SignatureOf(kind).Some? {
        y := SignatureEntry(id, SignatureOf(kind).value);
        assert Mapped(SignatureId, s.signatures + [y]) == Mapped(SignatureId, s.signatures) + [id];
        forall z | z in Mapped(SignatureId, s.signatures) ensures Lt(z, id) {
          var i :| 0 <= i < |s.signatures| && Mapped(SignatureId, s.signatures)[i] == z;
          assert s.signatures[i] in s.signatures;
        }
        AscendingSnoc(Mapped(SignatureId, s.signatures), id);
      }
    }
    hide Kind, Ascending;
  }

  lemma ScanStepSets(o: Views, n: Views, done: seq<string>, id: string, s: SymbolScan)
    requires ScannedSets(o, n, done, s)
    ensures ScannedSets(o, n, done + [id], Extended(o, n, id, s))
  {
    KindNeeded(o, n, id);
    hide RemovesPublic, TouchesPublic, RootOf, Kind, SignatureOf;
    assert forall x :: x in done + [id] <==> x in done || x == id;
    var s' := Extended(o, n, id, s);
    if Kind(o, n, id).Some? {
      assert s'.roots == (set x | x in s'.affected && RootOf(o, n, x) != "" :: RootOf(o, n, x));
    }
  }

  /** Only changed symbols remove or touch something public. */
  lemma KindNeeded(o: Views, n: Views, id: string)
    ensures Kind(o, n, id).None? ==> !RemovesPublic(o, n, id) && !TouchesPublic(o, n, id)
  {
  }

  method ScanSymbols(o: Views, n: Views) returns (s: SymbolScan)
    ensures SymbolsListed(o, n, s.symbols) && SignaturesListed(o, n, s.signatures)
    ensures s.affected == AffectedSymbols(o, n)
    ensures s.roots == (set id | id in AffectedSymbols(o, n) && RootOf(o, n, id) != "" :: RootOf(o, n, id))
    ensures s.publicRemoval <==> exists id :: RemovesPublic(o, n, id)
    ensures s.publicImpact <==> exists id :: TouchesPublic(o, n, id)
  {
    hide *;
    var allSymbolIds := InOrder(o.Keys + n.Keys);
    s := SymbolScan([], [], {}, {}, false, false);
    NothingScanned(o, n, s);
    assert allSymbolIds[..0] == [];
    var i := 0;
    while i < |allSymbolIds|
      invariant 0 <= i <= |allSymbolIds|
      invariant ScannedLists(o, n, allSymbolIds[..i], s) && ScannedSets(o, n, allSymbolIds[..i], s)
    {
      var id := allSymbolIds[i];
      IdKnown(o, n, allSymbolIds, i);
      assert allSymbolIds[..i + 1] == allSymbolIds[..i] + [id];
      PrefixAscends(allSymbolIds, i + 1);
      ScanStepLists(o, n, allSymbolIds[..i], id, s);
      ScanStepSets(o, n, allSymbolIds[..i], id, s);
      s := ScanSymbol(o, n, id, s);
      i := i + 1;
    }
    assert allSymbolIds[..i] == allSymbolIds;
    AllScanned(o, n, allSymbolIds, s);
  }

  lemma NothingScanned(o: Views, n: Views, s: SymbolScan)
    requires s == SymbolScan([], [], {}, {}, false, false)
    ensures ScannedLists(o, n, [], s) && ScannedSets(o, n, [], s)
  {
  }

  lemma IdKnown(o: Views, n: Views, ids: seq<string>, i: nat)
    requires i < |ids| && Elems(ids) == o.Keys + n.Keys
    ensures ids[i] in o || ids[i] in n
  {
    assert ids[i] in Elems(ids);
  }

  lemma PrefixAscends(s: seq<string>, k: nat)
    requires Ascending(s) && k <= |s|
    ensures Ascending(s[..k])
  {
  }

  lemma AllScanned(o: Views, n: Views, ids: seq<string>, s: SymbolScan)
    requires Elems(ids) == o.Keys + n.Keys && ScannedLists(o, n, ids, s) && ScannedSets(o, n, ids, s)
    ensures SymbolsListed(o, n, s.symbols) && SignaturesListed(o, n, s.signatures)
    ensures s.affected == AffectedSymbols(o, n)
    ensures s.roots == (set id | id in AffectedSymbols(o, n) && RootOf(o, n, id) != "" :: RootOf(o, n, id))
    ensures s.publicRemoval <==> exists id :: RemovesPublic(o, n, id)
    ensures s.publicImpact <==> exists id :: TouchesPublic(o, n, id)
  {
    hide IsPublic, RootOf, Ascending;
    assert forall id :: id in ids <==> id in Elems(ids);
    assert s.affected == AffectedSymbols(o, n);
  }

  // ----- the passes over the dependencies -----

  /** The entries of one side not on the other. */
  method OneSided(these: set<Edge>, others: set<Edge>, kind: DiffType)
    returns (list: seq<DependencyEntry>, crossing: bool, internal: bool)
    ensures NoDup(list) && forall x :: x in list <==> x.kind == kind && x.edge in these - others
    ensures crossing <==> exists e :: e in these - others && Crosses(e)
    ensures internal <==> exists e :: e in these - others && Internal(e)
  {
    hide ModuleOf;
    list, crossing, internal := [], false, false;
    var todo := these;
    while todo != {}
      invariant todo <= these
      invariant NoDup(list) && forall x :: x in list <==> x.kind == kind && x.edge in these - others - todo
      invariant crossing <==> exists e :: e in these - others - todo && Crosses(e)
      invariant internal <==> exists e :: e in these - others - todo && Internal(e)
      decreases |todo|
    {
      var e :| e in todo;
      assert these - others - (todo - {e}) == (these - others - todo) + if e in others then {} else {e};
      if e !in others {
        var longer := list + [DependencyEntry(e, kind)];
        assert forall x :: x in longer <==> x in list || x == DependencyEntry(e, kind);
        list := longer;
        crossing := crossing || Crosses(e);
        internal := internal || Internal(e);
      }
      todo := todo - {e};
    }
  }

  method DiffDependencies(o: set<Edge>, n: set<Edge>)
    returns (list: seq<DependencyEntry>, introducesCrossing: bool, internal: bool)
    ensures DependenciesListed(o, n, list)
    ensures introducesCrossing <==> exists e :: e in n - o && Crosses(e)
    ensures internal <==> exists e :: e in Changed(o, n) && Internal(e)
  {
    hide Crosses, Internal, DependencyLess;
    var removed, removedCrossing, removedInternal := OneSided(o, n, Removed);
    var added, addedCrossing, addedInternal := OneSided(n, o, Added);
    DependencyComparator();
    list := Sort(removed + added, DependencyLess);
    SortedDependencies(o, n, removed, added, list);
    introducesCrossing, internal := addedCrossing, removedInternal || addedInternal;
    assert forall e :: e in Changed(o, n) <==> e in o - n || e in n - o;
  }

  lemma DependencyTotal(x: DependencyEntry, y: DependencyEntry)
    requires x != y && x.kind.Code() <= 1 && y.kind.Code() <= 1
    ensures DependencyLess(x, y) || DependencyLess(y, x)
  {
    LtTotal(x.edge.from, y.edge.from);
    LtTotal(x.edge.to, y.edge.to);
    assert x.edge == Edge(x.edge.from, x.edge.to) && y.edge == Edge(y.edge.from, y.edge.to);
  }

  lemma SortedDependencies(o: set<Edge>, n: set<Edge>, removed: seq<DependencyEntry>, added: seq<DependencyEntry>,
                           list: seq<DependencyEntry>)
    requires NoDup(removed) && forall x :: x in removed <==> x.kind == Removed && x.edge in o - n
    requires NoDup(added) && forall x :: x in added <==> x.kind == Added && x.edge in n - o
    requires SortedBy(DependencyLess, list) && multiset(list) == multiset(removed + added)
    ensures DependenciesListed(o, n, list)
  {
    hide DependencyLess;
    var all := removed + added;
    forall i, j | 0 <= i < j < |all| ensures all[i] != all[j] {
      if i < |removed| <= j {
        assert all[i] in removed && all[j] in added;
      }
    }
    PermutationNoDup(all, list);
    MultisetElems(list, all);
    forall x ensures x in list <==> EdgeKind(o, n, x.edge) == Some(x.kind) {
      assert x in list <==> x in Elems(list);
      assert x in all <==> x in Elems(all);
      assert x in all <==> x in removed || x in added;
    }
    forall i, j | 0 <= i < j < |list| ensures DependencyLess(list[i], list[j]) {
      assert list[i] in list && list[j] in list;
      DependencyTotal(list[i], list[j]);
    }
  }

  // ----- centrality -----

  method HasCentralitySpike(o: Views, n: Views, affected: set<string>) returns (spike: bool)
    ensures spike <==> exists id :: id in Weighed(o, affected) && Spikes(o, n, id)
  {
    var ids := InOrder(if affected == {} then o.Keys else affected);
    assert forall id :: id in ids <==> id in Elems(ids);
    var i := 0;
    while i < |ids|
      invariant 0 <= i <= |ids|
      invariant forall j :: 0 <= j < i ==> !Spikes(o, n, ids[j])
    {
      if Spikes(o, n, ids[i]) {
        assert ids[i] in Elems(ids);
        return true;
      }
      i := i + 1;
    }
    return false;
  }

  method ComputeCentralityDelta(o: Views, n: Views, affected: set<string>) returns (r: real)
    ensures exists ids :: Ascending(ids) && Elems(ids) == Weighed(o, affected) && r == MeanDelta(o, n, ids)
  {
    var ids := InOrder(if affected == {} then o.Keys else affected);
    var total, count, i := 0.0, 0, 0;
    while i < |ids|
      invariant 0 <= i <= |ids|
      invariant total == DeltaSum(o, n, ids[..i]) && count == DeltaCount(o, n, ids[..i])
    {
      assert ids[..i + 1][..i] == ids[..i];
      if ids[i] in o && ids[i] in n {
        total := total + Abs(n[ids[i]].centrality - o[ids[i]].centrality);
        count := count + 1;
      }
      i := i + 1;
    }
    assert ids[..i] == ids;
    r := if count == 0 then 0.0 else Clamp01(total / count as real);
  }

  // ----- the report -----

  function Share(part: nat, whole: nat): real
    requires whole > 0
  {
    Clamp01(part as real / whole as real)
  }

  /** To six digits: the nearest multiple of a millionth, halves going up. */
  function Round6(x: real): (r: real)
    requires 0.0 <= x <= 1.0
    ensures x - 0.0000005 < r <= x + 0.0000005 && 0.0 <= r <= 1.0
    ensures exists k: nat :: r == Millionths(k)
  {
    var k := (x * 1000000.0 + 0.5).Floor;
    assert 0 <= k <= 1000000;
    Millionths(k)
  }

  function Millionths(k: nat): real {
    k as real / 1000000.0
  }

  /** Nodes touched, steps travelled, mean change of centrality, public interface: weighted, clamped and rounded. */
  function Score(affectedNodes: nat, totalNodes: nat, depth: nat, centralityDelta: real, publicWeight: real): (r: real)
    requires totalNodes > 0
    ensures 0.0 <= r <= 1.0
  {
    Round6(Clamp01(0.35 * Share(affectedNodes, totalNodes) + 0.25 * Share(depth, DEPTH_LIMIT) + 0.25 * centralityDelta +
      0.15 * publicWeight))
  }

  ghost predicate RiskIs(o: Views, n: Views, od: set<Edge>, nd: set<Edge>, signatures: seq<SignatureEntry>,
                         risk: RiskLevel) {
    if (exists id :: RemovesPublic(o, n, id)) || (exists e :: e in nd - od && Crosses(e))
       || (exists id :: id in Weighed(o, AffectedSymbols(o, n)) && Spikes(o, n, id))
    then risk == HIGH
    else if signatures != [] || (exists e :: e in Changed(od, nd) && Internal(e)) then risk == MEDIUM
    else risk == LOW
  }

  ghost function Roots(o: Views, n: Views, od: set<Edge>, nd: set<Edge>): set<string> {
    (set id | id in AffectedSymbols(o, n) && RootOf(o, n, id) != "" :: RootOf(o, n, id)) + Endpoints(Changed(od, nd))
  }

  ghost predicate ScoreIs(o: Views, n: Views, od: set<Edge>, nd: set<Edge>, totalNodes: nat, score: real)
    requires totalNodes > 0
  {
    exists depth, ids ::
      && GreatestDistance(nd, Roots(o, n, od, nd), depth)
      && Ascending(ids) && Elems(ids) == Weighed(o, AffectedSymbols(o, n))
      && score == Score(|AffectedSymbols(o, n) + Endpoints(Changed(od, nd))|, totalNodes, depth, MeanDelta(o, n, ids),
                        if exists id :: RemovesPublic(o, n, id) then 1.0
                          else if exists id :: TouchesPublic(o, n, id) then 0.5 else 0.0)
  }

  function TotalNodes(a: StateSnapshot, b: StateSnapshot): (r: nat)
    ensures r > 0
  {
    var most := if |a.nodes| > |b.nodes| then |a.nodes| else |b.nodes|;
    if most < 1 then 1 else most
  }

  ghost predicate Reported(a: StateSnapshot, b: StateSnapshot, r: BranchDiffReport) {
    var o, n := SymbolsOf(a.nodes), SymbolsOf(b.nodes);
    var od, nd := DependenciesOf(a.edges), DependenciesOf(b.edges);
    && SymbolsListed(o, n, r.symbols) && SignaturesListed(o, n, r.signatures)
    && DependenciesListed(od, nd, r.dependencies)
    && RiskIs(o, n, od, nd, r.signatures, r.overallRisk)
    && ScoreIs(o, n, od, nd, TotalNodes(a, b), r.impactScore)
  }

  method EndpointsOf(list: seq<DependencyEntry>, ghost edges: set<Edge>) returns (nodes: set<string>)
    requires forall e :: e in edges <==> exists x :: x in list && x.edge == e
    ensures nodes == Endpoints(edges)
  {
    nodes := {};
    var i := 0;
    while i < |list|
      invariant 0 <= i <= |list|
      invariant nodes == Endpoints(set j | 0 <= j < i :: list[j].edge)
    {
      ghost var before := set j | 0 <= j < i :: list[j].edge;
      assert (set j | 0 <= j < i + 1 :: list[j].edge) == before + {list[i].edge};
      EndpointsNext(before, list[i].edge);
      nodes := nodes + {list[i].edge.from, list[i].edge.to};
      i := i + 1;
    }
    assert (set j | 0 <= j < |list| :: list[j].edge) == edges;
  }

  lemma EndpointsNext(edges: set<Edge>, e: Edge)
    ensures Endpoints(edges + {e}) == Endpoints(edges) + {e.from, e.to}
  {
  }

  method DiffBranches(branchA: StateSnapshot, branchB: StateSnapshot) returns (report: BranchDiffReport)
    ensures Reported(branchA, branchB, report)
  {
    hide *;
    var oldSymbols := CollectSymbols(branchA.nodes);
    var newSymbols := CollectSymbols(branchB.nodes);
    var oldDependencies := CollectDependencies(branchA.edges);
    var newDependencies := CollectDependencies(branchB.edges);
    var scan := ScanSymbols(oldSymbols, newSymbols);
    var dependencies, introducesCrossing, internal := DiffDependencies(oldDependencies, newDependencies);
    ChangedListed(oldDependencies, newDependencies, dependencies);
    var endpoints := EndpointsOf(dependencies, Changed(oldDependencies, newDependencies));
    var spike := HasCentralitySpike(oldSymbols, newSymbols, scan.affected);
    var risk := if scan.publicRemoval || introducesCrossing || spike then HIGH
                else if scan.signatures != [] || internal then MEDIUM else LOW;
    var depth := ComputeTraversalDepth(newDependencies, scan.roots + endpoints);
    var centralityDelta := ComputeCentralityDelta(oldSymbols, newSymbols, scan.affected);
    var publicWeight := if scan.publicRemoval then 1.0 else if scan.publicImpact then 0.5 else 0.0;
    var score := Score(|scan.affected + endpoints|, TotalNodes(branchA, branchB), depth, centralityDelta, publicWeight);
    report := BranchDiffReport(scan.symbols, scan.signatures, dependencies, risk, score);
    RiskAssessed(oldSymbols, newSymbols, oldDependencies, newDependencies, scan, introducesCrossing, internal, spike,
                 risk);
    Scored(oldSymbols, newSymbols, oldDependencies, newDependencies, scan, endpoints, TotalNodes(branchA, branchB),
           depth, centralityDelta, publicWeight, score);
    Assembled(branchA, branchB, report);
  }

  lemma RiskAssessed(o: Views, n: Views, od: set<Edge>, nd: set<Edge>, scan: SymbolScan, crossing: bool, internal: bool,
                     spike: bool, risk: RiskLevel)
    requires scan.affected == AffectedSymbols(o, n) && (scan.publicRemoval <==> exists id :: RemovesPublic(o, n, id))
    requires crossing <==> exists e :: e in nd - od && Crosses(e)
    requires internal <==> exists e :: e in Changed(od, nd) && Internal(e)
    requires spike <==> exists id :: id in Weighed(o, scan.affected) && Spikes(o, n, id)
    requires risk == if scan.publicRemoval || crossing || spike then HIGH
      else if scan.signatures != [] || internal then MEDIUM else LOW
    ensures RiskIs(o, n, od, nd, scan.signatures, risk)
  {
    hide RemovesPublic, Crosses, Internal, Spikes, Changed, Weighed, AffectedSymbols;
  }

  lemma Scored(o: Views, n: Views, od: set<Edge>, nd: set<Edge>, scan: SymbolScan, endpoints: set<string>, total: nat,
               depth: nat, delta: real, weight: real, score: real)
    requires total > 0 && scan.affected == AffectedSymbols(o, n) && endpoints == Endpoints(Changed(od, nd))
    requires scan.roots == (set id | id in AffectedSymbols(o, n) && RootOf(o, n, id) != "" :: RootOf(o, n, id))
    requires scan.publicRemoval <==> exists id :: RemovesPublic(o, n, id)
    requires scan.publicImpact <==> exists id :: TouchesPublic(o, n, id)
    requires GreatestDistance(nd, scan.roots + endpoints, depth)
    requires exists ids :: Ascending(ids) && Elems(ids) == Weighed(o, scan.affected) && delta == MeanDelta(o, n, ids)
    requires weight == if scan.publicRemoval then 1.0 else if scan.publicImpact then 0.5 else 0.0
    requires score == Score(|scan.affected + endpoints|, total, depth, delta, weight)
    ensures ScoreIs(o, n, od, nd, total, score)
  {
    hide RemovesPublic, TouchesPublic, Changed, Weighed, AffectedSymbols, Endpoints, Score, MeanDelta, Ascending,
      GreatestDistance, RootOf;
    var ids :| Ascending(ids) && Elems(ids) == Weighed(o, scan.affected) && delta == MeanDelta(o, n, ids);
    assert scan.roots + endpoints == Roots(o, n, od, nd);
  }

  lemma Assembled(a: StateSnapshot, b: StateSnapshot, r: BranchDiffReport)
    requires var o, n := SymbolsOf(a.nodes), SymbolsOf(b.nodes);
      var od, nd := DependenciesOf(a.edges), DependenciesOf(b.edges);
      && SymbolsListed(o, n, r.symbols) && SignaturesListed(o, n, r.signatures)
      && DependenciesListed(od, nd, r.dependencies)
      && RiskIs(o, n, od, nd, r.signatures, r.overallRisk)
      && ScoreIs(o, n, od, nd, TotalNodes(a, b), r.impactScore)
    ensures Reported(a, b, r)
  {
    hide SymbolsListed, SignaturesListed, DependenciesListed, RiskIs, ScoreIs, SymbolsOf, DependenciesOf;
  }

  lemma ChangedListed(o: set<Edge>, n: set<Edge>, list: seq<DependencyEntry>)
    requires DependenciesListed(o, n, list)
    ensures forall e :: e in Changed(o, n) <==> exists x :: x in list && x.edge == e
  {
    hide DependencyLess;
    forall e ensures e in Changed(o, n) <==> exists x :: x in list && x.edge == e {
      if e in Changed(o, n) {
        var x := DependencyEntry(e, if e in o then Removed else Added);
        assert EdgeKind(o, n, x.edge) == Some(x.kind);
        assert x in list;
      }
    }
  }

  // ----- what a report tells -----

  /** Nothing is listed exactly when no symbol and no dependency differs. */
  lemma NothingListed(a: StateSnapshot, b: StateSnapshot, r: BranchDiffReport)
    requires Reported(a, b, r)
    ensures r.symbols == [] <==> forall id :: Kind(SymbolsOf(a.nodes), SymbolsOf(b.nodes), id).None?
    ensures r.dependencies == [] <==> DependenciesOf(a.edges) == DependenciesOf(b.edges)
    ensures 0.0 <= r.impactScore <= 1.0
  {
    hide *;
    ReportedParts(a, b, r);
    NoSymbols(SymbolsOf(a.nodes), SymbolsOf(b.nodes), r.symbols);
    NoDependencies(DependenciesOf(a.edges), DependenciesOf(b.edges), r.dependencies);
  }

  lemma ReportedParts(a: StateSnapshot, b: StateSnapshot, r: BranchDiffReport)
    requires Reported(a, b, r)
    ensures SymbolsListed(SymbolsOf(a.nodes), SymbolsOf(b.nodes), r.symbols)
    ensures DependenciesListed(DependenciesOf(a.edges), DependenciesOf(b.edges), r.dependencies)
    ensures 0.0 <= r.impactScore <= 1.0
  {
    hide Kind, SymbolsOf, DependenciesOf, DependencyLess, RiskIs, Ascending, GreatestDistance, MeanDelta,
      DependenciesListed, SymbolsListed;
  }

  lemma NoSymbols(o: Views, n: Views, list: seq<SymbolEntry>)
    requires SymbolsListed(o, n, list)
    ensures list == [] <==> forall id :: Kind(o, n, id).None?
  {
    hide Kind, Ascending;
    HasFirst(list);
    forall id | Kind(o, n, id).Some? ensures list != [] {
      var x := SymbolEntry(id, Kind(o, n, id).value);
      assert Kind(o, n, x.id) == Some(x.kind);
    }
    if list != [] {
      assert Kind(o, n, list[0].id).Some?;
    }
  }

  lemma NoDependencies(o: set<Edge>, n: set<Edge>, list: seq<DependencyEntry>)
    requires DependenciesListed(o, n, list)
    ensures list == [] <==> o == n
  {
    hide DependencyLess;
    HasFirst(list);
    ChangedListed(o, n, list);
    if o != n {
      var e :| (e in o) != (e in n);
      assert e in Changed(o, n);
      assert exists x :: x in list && x.edge == e;
    }
  }

  /** Snapshots that agree on symbols and dependencies give an empty report of low risk and score zero. */
  lemma EqualInputs(a: StateSnapshot, b: StateSnapshot, r: BranchDiffReport)
    requires Reported(a, b, r)
    requires SymbolsOf(a.nodes) == SymbolsOf(b.nodes) && DependenciesOf(a.edges) == DependenciesOf(b.edges)
    ensures r == BranchDiffReport([], [], [], LOW, 0.0)
  {
    hide SymbolsOf, DependenciesOf;
    var o, od := SymbolsOf(a.nodes), DependenciesOf(a.edges);
    assert forall id :: Kind(o, o, id).None?;
    EqualLists(o, od, r);
    assert AffectedSymbols(o, o) == {} && Changed(od, od) == {};
    assert Endpoints(Changed(od, od)) == {};
    EqualScore(o, od, a, b, r.impactScore);
    hide Kind;
    assert forall e :: e !in od - od;
    assert r.overallRisk == LOW;
  }

  lemma EqualLists(o: Views, od: set<Edge>, r: BranchDiffReport)
    requires SymbolsListed(o, o, r.symbols) && SignaturesListed(o, o, r.signatures)
      && DependenciesListed(od, od, r.dependencies)
    ensures r.symbols == [] && r.signatures == [] && r.dependencies == []
  {
    hide Ascending, DependencyLess;
    HasFirst(r.symbols);
    HasFirst(r.signatures);
    HasFirst(r.dependencies);
  }

  lemma {:induction false} NoDelta(o: Views, ids: seq<string>)
    ensures DeltaSum(o, o, ids) == 0.0 && MeanDelta(o, o, ids) == 0.0
  {
    if ids != [] { NoDelta(o, ids[..|ids| - 1]); }
  }

  lemma EqualScore(o: Views, od: set<Edge>, a: StateSnapshot, b: StateSnapshot, score: real)
    requires ScoreIs(o, o, od, od, TotalNodes(a, b), score)
    requires AffectedSymbols(o, o) == {} && Endpoints(Changed(od, od)) == {}
    ensures score == 0.0
  {
    hide AffectedSymbols, Endpoints, Changed, MeanDelta, Ascending, RemovesPublic, TouchesPublic, RootOf,
      GreatestDistance;
    var depth, ids :|
      && GreatestDistance(od, Roots(o, o, od, od), depth)
      && Ascending(ids) && Elems(ids) == Weighed(o, AffectedSymbols(o, o))
      && score == Score(|AffectedSymbols(o, o) + Endpoints(Changed(od, od))|, TotalNodes(a, b), depth,
                        MeanDelta(o, o, ids),
                        if exists id :: RemovesPublic(o, o, id) then 1.0
                          else if exists id :: TouchesPublic(o, o, id) then 0.5 else 0.0);
    NoDelta(o, ids);
    NothingPublic(o);
    assert Roots(o, o, od, od) == {};
    NoDepth(od, depth);
  }

  lemma NothingPublic(o: Views)
    ensures forall id :: !RemovesPublic(o, o, id) && !TouchesPublic(o, o, id)
  {
    hide IsPublic;
  }

  lemma NoDepth(edges: set<Edge>, depth: nat)
    requires GreatestDistance(edges, {}, depth)
    ensures depth == 0
  {
  }

  /** Swapping the snapshots mirrors the three lists. */
  lemma ReportMirrors(a: StateSnapshot, b: StateSnapshot, r: BranchDiffReport, back: BranchDiffReport)
    requires Reported(a, b, r) && Reported(b, a, back)
    ensures back.symbols == Mapped(SwapSymbol, r.symbols)
    ensures back.signatures == r.signatures
    ensures back.dependencies == Mapped(SwapDependency, r.dependencies)
  {
    hide Kind, SymbolsOf, DependenciesOf, DependencyLess, RiskIs, ScoreIs, Ascending, EdgeKind;
    var o, n := SymbolsOf(a.nodes), SymbolsOf(b.nodes);
    var od, nd := DependenciesOf(a.edges), DependenciesOf(b.edges);
    SymbolsMirror(o, n, r.symbols);
    SymbolsListedUnique(n, o, back.symbols, Mapped(SwapSymbol, r.symbols));
    SignaturesMirror(o, n, r.signatures);
    SignaturesListedUnique(n, o, back.signatures, r.signatures);
    DependenciesMirror(od, nd, r.dependencies);
    DependenciesListedUnique(nd, od, back.dependencies, Mapped(SwapDependency, r.dependencies));
  }
}
