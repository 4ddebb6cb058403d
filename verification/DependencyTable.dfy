/** `ultra::ai::DependencyTable`: sorting file edges, resolving names to symbols, and deriving symbol edges from both.
    The edges between symbols are stated as a relation to the tables, because the symbol order leaves ties open. */
module DependencyTables {
  import opened Orders
  import opened Decimals
  import opened Symbols
  import opened SymbolTables

  datatype FileEdge = FileEdge(fromFileId: nat, toFileId: nat)
  datatype SymbolEdge = SymbolEdge(fromSymbolId: nat, toSymbolId: nat)
  datatype SemanticDependency = SemanticDependency(fromSymbol: string, toSymbol: string, lineNumber: nat)

  type Semantics = map<nat, seq<SemanticDependency>>

  predicate FileEdgeLess(a: FileEdge, b: FileEdge) {
    a.fromFileId < b.fromFileId || (a.fromFileId == b.fromFileId && a.toFileId < b.toFileId)
  }

  predicate SymbolEdgeLess(a: SymbolEdge, b: SymbolEdge) {
    a.fromSymbolId < b.fromSymbolId || (a.fromSymbolId == b.fromSymbolId && a.toSymbolId < b.toSymbolId)
  }

  method SortFileEdges(edges: seq<FileEdge>) returns (r: seq<FileEdge>)
    ensures StrictlySorted(FileEdgeLess, r) && forall e :: e in r <==> e in edges
    ensures forall i, j :: 0 <= i < j < |r| ==>
      r[i].fromFileId < r[j].fromFileId || (r[i].fromFileId == r[j].fromFileId && r[i].toFileId < r[j].toFileId)
  {
    var sorted := Sort(edges, FileEdgeLess);
    UniqueSorted(FileEdgeLess, sorted);
    MultisetElems(sorted, edges);
    r := Unique(sorted);
    assert forall e :: (e in r <==> e in Elems(r)) && (e in edges <==> e in Elems(edges));
  }

  method SortSymbolEdges(edges: seq<SymbolEdge>) returns (r: seq<SymbolEdge>)
    ensures StrictlySorted(SymbolEdgeLess, r) && forall e :: e in r <==> e in edges
    ensures forall i, j :: 0 <= i < j < |r| ==>
      || r[i].fromSymbolId < r[j].fromSymbolId
      || (r[i].fromSymbolId == r[j].fromSymbolId && r[i].toSymbolId < r[j].toSymbolId)
  {
    var sorted := Sort(edges, SymbolEdgeLess);
    UniqueSorted(SymbolEdgeLess, sorted);
    MultisetElems(sorted, edges);
    r := Unique(sorted);
    assert forall e :: (e in r <==> e in Elems(r)) && (e in edges <==> e in Elems(edges));
  }

  // ----- resolving a name -----

  ghost predicate Candidate(symbols: seq<SymbolRecord>, file: Option<nat>, name: string, s: SymbolRecord) {
    s in symbols && s.name == name && (file.Some? ==> s.fileId == file.value)
  }

  /** The candidate with the smallest id, imports only when there is nothing else. */
  ghost predicate Best(symbols: seq<SymbolRecord>, file: Option<nat>, name: string, s: SymbolRecord) {
    && Candidate(symbols, file, name, s)
    && (s.symbolType == Import ==> forall x :: Candidate(symbols, file, name, x) ==> x.symbolType == Import)
    && forall x :: Candidate(symbols, file, name, x) && (x.symbolType == Import <==> s.symbolType == Import) ==>
      s.symbolId <= x.symbolId
  }

  ghost predicate Resolves(symbols: seq<SymbolRecord>, file: Option<nat>, name: string, id: nat) {
    if exists s :: Candidate(symbols, file, name, s) then exists s :: Best(symbols, file, name, s) && s.symbolId == id
      else id == 0
  }

  ghost predicate PositiveIds(symbols: seq<SymbolRecord>) {
    forall s :: s in symbols ==> s.symbolId > 0
  }

  /** What the loop has found among the first symbols. */
  ghost predicate Found(symbols: seq<SymbolRecord>, name: string, bestId: nat, preferred: bool) {
    if exists s :: Candidate(symbols, None, name, s)
    then exists s :: Best(symbols, None, name, s) && s.symbolId == bestId && (preferred <==> s.symbolType != Import)
    else bestId == 0 && !preferred
  }

  lemma FoundStep(symbols: seq<SymbolRecord>, i: nat, name: string, bestId: nat, preferred: bool)
    requires i < |symbols| && PositiveIds(symbols) && Found(symbols[..i], name, bestId, preferred)
    ensures var s := symbols[i];
      var isPreferred := s.symbolType != Import;
      if s.name == name && (bestId == 0 || (isPreferred && !preferred)
        || (isPreferred == preferred && s.symbolId < bestId))
      then Found(symbols[..i + 1], name, s.symbolId, isPreferred)
      else Found(symbols[..i + 1], name, bestId, preferred)
  {
    var s, front, longer := symbols[i], symbols[..i], symbols[..i + 1];
    assert longer == front + [s];
    assert forall x :: Candidate(longer, None, name, x) <==>
      Candidate(front, None, name, x) || (x == s && s.name == name);
    if exists x :: Candidate(front, None, name, x) {
      var b :| Best(front, None, name, b) && b.symbolId == bestId && (preferred <==> b.symbolType != Import);
      assert b in symbols;
      if s.name == name && ((s.symbolType != Import && !preferred)
        || ((s.symbolType != Import) == preferred && s.symbolId < bestId)) {
        assert Best(longer, None, name, s);
      } else {
        assert Best(longer, None, name, b);
      }
    } else if s.name == name {
      assert Best(longer, None, name, s);
    }
  }

  method ResolveSymbolId(symbols: seq<SymbolRecord>, name: string) returns (bestId: nat)
    requires PositiveIds(symbols)
    ensures Resolves(symbols, None, name, bestId)
  {
    hide Found, PositiveIds;
    bestId := 0;
    var preferredFound := false;
    NothingFound(name);
    assert symbols[..0] == [];
    var i := 0;
    while i < |symbols|
      invariant 0 <= i <= |symbols| && Found(symbols[..i], name, bestId, preferredFound)
    {
      FoundStep(symbols, i, name, bestId, preferredFound);
      if symbols[i].name == name {
        var isPreferred := symbols[i].symbolType != Import;
        if bestId == 0 || (isPreferred && !preferredFound)
          || (isPreferred == preferredFound && symbols[i].symbolId < bestId) {
          bestId, preferredFound := symbols[i].symbolId, isPreferred;
        }
      }
      i := i + 1;
    }
    assert symbols[..i] == symbols;
    FoundResolves(symbols, name, bestId, preferredFound);
  }

  lemma NothingFound(name: string)
    ensures Found([], name, 0, false)
  {
  }

  lemma FoundResolves(symbols: seq<SymbolRecord>, name: string, bestId: nat, preferred: bool)
    requires Found(symbols, name, bestId, preferred)
    ensures Resolves(symbols, None, name, bestId)
  {
    hide Best, Candidate;
  }

  // ----- grouping -----

  ghost predicate HasFile(symbols: seq<SymbolRecord>, f: nat) {
    exists s :: s in symbols && s.fileId == f
  }

  /** The symbols by file, each list in the order of symbols. */
  ghost predicate ByFile(symbols: seq<SymbolRecord>, groups: map<nat, seq<SymbolRecord>>) {
    && (forall f :: f in groups <==> HasFile(symbols, f))
    && (forall f :: f in groups ==> groups[f] != [] && SortedBy(SymbolLess, groups[f]))
    && (forall f, s :: f in groups ==> (s in groups[f] <==> s in symbols && s.fileId == f))
  }

  ghost predicate Partitioned(symbols: seq<SymbolRecord>, groups: map<nat, seq<SymbolRecord>>) {
    && (forall f :: f in groups <==> HasFile(symbols, f))
    && (forall f :: f in groups ==> groups[f] != [])
    && (forall f, s :: f in groups ==> (s in groups[f] <==> s in symbols && s.fileId == f))
  }

  lemma PartitionStep(symbols: seq<SymbolRecord>, i: nat, groups: map<nat, seq<SymbolRecord>>)
    requires i < |symbols| && Partitioned(symbols[..i], groups)
    ensures var s := symbols[i];
      Partitioned(symbols[..i + 1], groups[s.fileId := (if s.fileId in groups then groups[s.fileId] else []) + [s]])
  {
    var s, longer := symbols[i], symbols[..i + 1];
    assert longer == symbols[..i] + [s];
    assert forall x :: x in longer <==> x in symbols[..i] || x == s;
    var before := if s.fileId in groups then groups[s.fileId] else [];
    var after := groups[s.fileId := before + [s]];
    assert forall x :: x in before <==> x in symbols[..i] && x.fileId == s.fileId by {
      if s.fileId !in groups { assert !HasFile(symbols[..i], s.fileId); }
    }
    assert forall x :: x in before + [s] <==> x in before || x == s;
    forall f ensures f in after <==> HasFile(longer, f) {
      if HasFile(symbols[..i], f) {
        var x :| x in symbols[..i] && x.fileId == f;
        assert x in longer;
      }
    }
  }

  method GroupByFileId(symbols: seq<SymbolRecord>) returns (groups: map<nat, seq<SymbolRecord>>)
    ensures ByFile(symbols, groups)
  {
    hide SymbolLess, Partitioned;
    groups := map[];
    NothingPartitioned();
    assert symbols[..0] == [];
    var i := 0;
    while i < |symbols|
      invariant 0 <= i <= |symbols| && Partitioned(symbols[..i], groups)
    {
      PartitionStep(symbols, i, groups);
      var s := symbols[i];
      groups := groups[s.fileId := (if s.fileId in groups then groups[s.fileId] else []) + [s]];
      i := i + 1;
    }
    assert symbols[..i] == symbols;
    groups := SortGroups(symbols, groups);
  }

  lemma NothingPartitioned()
    ensures Partitioned([], map[])
  {
  }

  method SortGroups(ghost symbols: seq<SymbolRecord>, groups: map<nat, seq<SymbolRecord>>)
    returns (sorted: map<nat, seq<SymbolRecord>>)
    requires Partitioned(symbols, groups)
    ensures ByFile(symbols, sorted)
  {
    hide SymbolLess, HasFile;
    sorted := map[];
    var todo := groups.Keys;
    while todo != {}
      invariant todo <= groups.Keys && sorted.Keys == groups.Keys - todo
      invariant forall f :: f in sorted ==> sorted[f] != [] && SortedBy(SymbolLess, sorted[f])
      invariant forall f, s :: f in sorted ==> (s in sorted[f] <==> s in groups[f])
      decreases |todo|
    {
      var f :| f in todo;
      SymbolLessComparator();
      var v := Sort(groups[f], SymbolLess);
      MultisetElems(v, groups[f]);
      assert forall s :: (s in v <==> s in Elems(v)) && (s in groups[f] <==> s in Elems(groups[f]));
      sorted := sorted[f := v];
      todo := todo - {f};
    }
  }

  // ----- symbol edges -----

  ghost predicate IsFront(symbols: seq<SymbolRecord>, f: nat, s: SymbolRecord) {
    s in symbols && s.fileId == f && forall x :: x in symbols && x.fileId == f ==> !SymbolLess(x, s)
  }

  /** The first symbol of each file that has any. Symbols the order does not separate leave a choice. */
  ghost predicate Fronts(symbols: seq<SymbolRecord>, first: map<nat, SymbolRecord>) {
    && (forall f :: f in first <==> HasFile(symbols, f))
    && forall f :: f in first ==> IsFront(symbols, f, first[f])
  }

  /** An edge between the first symbols of two files, one depending on the other. */
  ghost predicate FromFiles(first: map<nat, SymbolRecord>, fileEdges: seq<FileEdge>, y: SymbolEdge) {
    exists e :: e in fileEdges && e.fromFileId in first && e.toFileId in first
      && y == SymbolEdge(first[e.fromFileId].symbolId, first[e.toFileId].symbolId)
  }

  /** An edge for one named dependency: from the best symbol of that file to the best symbol anywhere. */
  ghost predicate Named(symbols: seq<SymbolRecord>, f: nat, c: SemanticDependency, y: SymbolEdge) {
    && c.fromSymbol != "" && c.toSymbol != ""
    && exists a, b :: Best(symbols, Some(f), c.fromSymbol, a) && Best(symbols, None, c.toSymbol, b)
         && a.symbolId != b.symbolId && y == SymbolEdge(a.symbolId, b.symbolId)
  }

  ghost predicate FromSemantics(symbols: seq<SymbolRecord>, semantics: Semantics, y: SymbolEdge) {
    exists f, c :: f in semantics && c in semantics[f] && Named(symbols, f, c, y)
  }

  ghost predicate EdgesFrom(symbols: seq<SymbolRecord>, first: map<nat, SymbolRecord>, fileEdges: seq<FileEdge>,
                            semantics: Semantics, symbolEdges: seq<SymbolEdge>) {
    StrictlySorted(SymbolEdgeLess, symbolEdges)
    && forall y :: y in symbolEdges <==> FromFiles(first, fileEdges, y) || FromSemantics(symbols, semantics, y)
  }

  /** The symbol edges are what these tables give, computed from nothing. */
  ghost predicate Derived(symbols: seq<SymbolRecord>, fileEdges: seq<FileEdge>, semantics: Semantics,
                          symbolEdges: seq<SymbolEdge>) {
    exists first :: Fronts(symbols, first) && EdgesFrom(symbols, first, fileEdges, semantics, symbolEdges)
  }

  ghost function FirstOf(groups: map<nat, seq<SymbolRecord>>): map<nat, SymbolRecord>
    requires forall f :: f in groups ==> groups[f] != []
  {
    map f | f in groups :: groups[f][0]
  }

  lemma GroupsHaveFronts(symbols: seq<SymbolRecord>, groups: map<nat, seq<SymbolRecord>>)
    requires ByFile(symbols, groups)
    ensures Fronts(symbols, FirstOf(groups))
  {
    hide SymbolLess;
    SymbolLessComparator();
    forall f | f in groups ensures IsFront(symbols, f, groups[f][0]) {
      assert groups[f][0] in groups[f];
      forall x | x in symbols && x.fileId == f ensures !SymbolLess(x, groups[f][0]) {
        assert x in groups[f];
        var i :| 0 <= i < |groups[f]| && groups[f][i] == x;
      }
    }
  }

  method BuildSymbolEdgesFromFileEdges(fileEdges: seq<FileEdge>, groups: map<nat, seq<SymbolRecord>>)
    returns (edges: seq<SymbolEdge>)
    requires forall f :: f in groups ==> groups[f] != []
    ensures StrictlySorted(SymbolEdgeLess, edges)
      && forall y :: y in edges <==> FromFiles(FirstOf(groups), fileEdges, y)
  {
    edges := [];
    var i := 0;
    while i < |fileEdges|
      invariant 0 <= i <= |fileEdges|
      invariant forall y :: y in edges <==> FromFiles(FirstOf(groups), fileEdges[..i], y)
    {
      var e := fileEdges[i];
      assert forall x :: x in fileEdges[..i + 1] <==>
        x in fileEdges[..i] || x == e by { assert fileEdges[..i + 1] == fileEdges[..i] + [e]; }
      if e.fromFileId in groups && e.toFileId in groups {
        var y := SymbolEdge(groups[e.fromFileId][0].symbolId, groups[e.toFileId][0].symbolId);
        assert forall z :: z in edges + [y] <==> z in edges || z == y;
        edges := edges + [y];
      }
      i := i + 1;
    }
    assert fileEdges[..i] == fileEdges;
    edges := SortSymbolEdges(edges);
  }

  /** All symbols of all groups. */
  method Ungroup(ghost symbols: seq<SymbolRecord>, groups: map<nat, seq<SymbolRecord>>) returns (all: seq<SymbolRecord>)
    requires ByFile(symbols, groups)
    ensures forall s :: s in all <==> s in symbols
  {
    hide SymbolLess;
    all := [];
    var todo := groups.Keys;
    while todo != {}
      invariant todo <= groups.Keys
      invariant forall s :: s in all <==> s in symbols && s.fileId in groups && s.fileId !in todo
      decreases |todo|
    {
      var f :| f in todo;
      assert forall s :: s in all + groups[f] <==> s in all || s in groups[f];
      all := all + groups[f];
      todo := todo - {f};
    }
    forall s | s in symbols ensures s.fileId in groups { assert HasFile(symbols, s.fileId); }
  }

  /** Resolution depends only on which symbols there are. */
  lemma ResolvesSame(a: seq<SymbolRecord>, b: seq<SymbolRecord>, file: Option<nat>, name: string, id: nat)
    requires forall s :: s in a <==> s in b && (file.Some? ==> s.fileId == file.value)
    requires Resolves(a, None, name, id)
    ensures Resolves(b, file, name, id)
    ensures forall s :: Best(a, None, name, s) <==> Best(b, file, name, s)
  {
    assert forall s :: Candidate(a, None, name, s) <==> Candidate(b, file, name, s);
  }

  /** The test of the loop body, and what it lets through. */
  predicate Usable(c: SemanticDependency, fromId: nat, toId: nat) {
    c.fromSymbol != "" && c.toSymbol != "" && fromId != 0 && toId != 0 && fromId != toId
  }

  lemma NamedAre(symbols: seq<SymbolRecord>, f: nat, c: SemanticDependency, fromId: nat, toId: nat)
    requires PositiveIds(symbols) && Resolves(symbols, Some(f), c.fromSymbol, fromId)
      && Resolves(symbols, None, c.toSymbol, toId)
    ensures forall y :: Named(symbols, f, c, y) <==> Usable(c, fromId, toId) && y == SymbolEdge(fromId, toId)
  {
    hide Candidate;
    BestUnique(symbols, Some(f), c.fromSymbol, fromId);
    BestUnique(symbols, None, c.toSymbol, toId);
    hide Best, Resolves;
  }

  /** The best symbol's id is the one resolved. */
  lemma BestUnique(symbols: seq<SymbolRecord>, file: Option<nat>, name: string, id: nat)
    requires PositiveIds(symbols) && Resolves(symbols, file, name, id)
    ensures forall s :: Best(symbols, file, name, s) ==> s.symbolId == id
    ensures id != 0 <==> exists s :: Best(symbols, file, name, s)
    ensures id != 0 ==> exists s :: Best(symbols, file, name, s) && s.symbolId == id
  {
  }

  ghost predicate NamedIn(symbols: seq<SymbolRecord>, f: nat, candidates: seq<SemanticDependency>, y: SymbolEdge) {
    exists c :: c in candidates && Named(symbols, f, c, y)
  }

  lemma NamedSoFar(symbols: seq<SymbolRecord>, f: nat, candidates: seq<SemanticDependency>, i: nat)
    requires i < |candidates|
    ensures forall y :: NamedIn(symbols, f, candidates[..i + 1], y) <==>
      NamedIn(symbols, f, candidates[..i], y) || Named(symbols, f, candidates[i], y)
    ensures forall y :: !NamedIn(symbols, f, [], y)
  {
    hide Named;
    assert candidates[..i + 1] == candidates[..i] + [candidates[i]];
    assert forall x :: x in candidates[..i + 1] <==> x in candidates[..i] || x == candidates[i];
  }

  /** Edges for the named dependencies of one file. */
  method EdgesOfFile(ghost symbols: seq<SymbolRecord>, all: seq<SymbolRecord>, f: nat, group: seq<SymbolRecord>,
                     candidates: seq<SemanticDependency>) returns (edges: seq<SymbolEdge>)
    requires PositiveIds(symbols) && forall s :: s in all <==> s in symbols
    requires forall s :: s in group <==> s in symbols && s.fileId == f
    ensures forall y :: y in edges <==> NamedIn(symbols, f, candidates, y)
  {
    hide Named, Resolves, Best, Usable;
    edges := [];
    var i := 0;
    while i < |candidates|
      invariant 0 <= i <= |candidates|
      invariant forall y :: y in edges <==> NamedIn(symbols, f, candidates[..i], y)
    {
      var c := candidates[i];
      var fromId := ResolveSymbolId(group, c.fromSymbol);
      var toId := ResolveSymbolId(all, c.toSymbol);
      ResolvesSame(group, symbols, Some(f), c.fromSymbol, fromId);
      ResolvesSame(all, symbols, None, c.toSymbol, toId);
      NamedAre(symbols, f, c, fromId, toId);
      NamedSoFar(symbols, f, candidates, i);
      ghost var before := edges;
      if Usable(c, fromId, toId) {
        assert forall z :: z in edges + [SymbolEdge(fromId, toId)] <==> z in edges || z == SymbolEdge(fromId, toId);
        edges := edges + [SymbolEdge(fromId, toId)];
      }
      assert forall y :: y in edges <==> y in before || (Usable(c, fromId, toId) && y == SymbolEdge(fromId, toId));
      assert forall y :: y in edges <==> y in before || Named(symbols, f, c, y);
      assert forall y :: y in edges <==> NamedIn(symbols, f, candidates[..i], y) || Named(symbols, f, c, y);
      assert forall y :: y in edges <==> NamedIn(symbols, f, candidates[..i + 1], y);
      i := i + 1;
    }
    assert candidates[..i] == candidates;
  }

  method BuildSymbolEdgesFromSemanticDependencies(ghost symbols: seq<SymbolRecord>, semantics: Semantics,
                                                  groups: map<nat, seq<SymbolRecord>>)
    returns (edges: seq<SymbolEdge>)
    requires ByFile(symbols, groups) && PositiveIds(symbols)
    ensures StrictlySorted(SymbolEdgeLess, edges) && forall y :: y in edges <==> FromSemantics(symbols, semantics, y)
  {
    hide SymbolLess, Named, PositiveIds;
    var all := Ungroup(symbols, groups);
    edges := [];
    var todo := semantics.Keys;
    while todo != {}
      invariant todo <= semantics.Keys
      invariant forall y :: y in edges <==>
        exists f, c :: f in semantics && f !in todo && c in semantics[f] && Named(symbols, f, c, y)
      decreases |todo|
    {
      var f :| f in todo;
      if f in groups {
        var more := EdgesOfFile(symbols, all, f, groups[f], semantics[f]);
        assert forall y :: y in edges + more <==> y in edges || y in more;
        edges := edges + more;
      } else {
        NoSymbolsNoEdges(symbols, f);
      }
      todo := todo - {f};
    }
    edges := SortSymbolEdges(edges);
  }

  lemma NoSymbolsNoEdges(symbols: seq<SymbolRecord>, f: nat)
    requires !HasFile(symbols, f)
    ensures forall c, y :: !Named(symbols, f, c, y)
  {
  }

  /** Both kinds of edges, sorted together. */
  method DeriveSymbolEdges(symbols: seq<SymbolRecord>, fileEdges: seq<FileEdge>, semantics: Semantics)
    returns (edges: seq<SymbolEdge>)
    requires PositiveIds(symbols)
    ensures Derived(symbols, fileEdges, semantics, edges)
  {
    hide SymbolLess, PositiveIds, FromFiles, FromSemantics, Fronts;
    var groups := GroupByFileId(symbols);
    GroupsHaveFronts(symbols, groups);
    var a := BuildSymbolEdgesFromFileEdges(fileEdges, groups);
    var b := BuildSymbolEdgesFromSemanticDependencies(symbols, semantics, groups);
    assert forall y :: y in a + b <==> y in a || y in b;
    edges := SortSymbolEdges(a + b);
    assert EdgesFrom(symbols, FirstOf(groups), fileEdges, semantics, edges);
  }

  // ----- what the symbol edges keep -----

  /** Every symbol edge joins two existing, different or equal symbols. */
  lemma NothingDangles(symbols: seq<SymbolRecord>, fileEdges: seq<FileEdge>, semantics: Semantics,
                       edges: seq<SymbolEdge>)
    requires Derived(symbols, fileEdges, semantics, edges)
    ensures forall y :: y in edges ==>
      (exists s :: s in symbols && s.symbolId == y.fromSymbolId)
      && exists s :: s in symbols && s.symbolId == y.toSymbolId
  {
    hide SymbolLess;
    var first: map<nat, SymbolRecord> :| Fronts(symbols, first)
      && EdgesFrom(symbols, first, fileEdges, semantics, edges);
    forall y | y in edges
      ensures (exists s :: s in symbols && s.symbolId == y.fromSymbolId)
      && exists s :: s in symbols && s.symbolId == y.toSymbolId {
      if FromFiles(first, fileEdges, y) {
        var e :| e in fileEdges && e.fromFileId in first && e.toFileId in first
          && y == SymbolEdge(first[e.fromFileId].symbolId, first[e.toFileId].symbolId);
        assert IsFront(symbols, e.fromFileId, first[e.fromFileId]) && IsFront(symbols, e.toFileId, first[e.toFileId]);
      } else {
        var f, c :| f in semantics && c in semantics[f] && Named(symbols, f, c, y);
      }
    }
  }

  /** Symbols the order separates leave no choice: then the symbol edges are a function of the tables. */
  lemma DerivedUnique(symbols: seq<SymbolRecord>, fileEdges: seq<FileEdge>, semantics: Semantics, a: seq<SymbolEdge>,
                      b: seq<SymbolEdge>)
    requires Derived(symbols, fileEdges, semantics, a) && Derived(symbols, fileEdges, semantics, b)
    requires forall x, y :: x in symbols && y in symbols && x != y ==> SymbolLess(x, y) || SymbolLess(y, x)
    ensures a == b
  {
    hide *;
    var first := DerivedFirst(symbols, fileEdges, semantics, a);
    var first' := DerivedFirst(symbols, fileEdges, semantics, b);
    FrontsUnique(symbols, first, first');
    EdgesUnique(symbols, first, fileEdges, semantics, a, b);
  }

  lemma DerivedFirst(symbols: seq<SymbolRecord>, fileEdges: seq<FileEdge>, semantics: Semantics, edges: seq<SymbolEdge>)
    returns (first: map<nat, SymbolRecord>)
    requires Derived(symbols, fileEdges, semantics, edges)
    ensures Fronts(symbols, first) && EdgesFrom(symbols, first, fileEdges, semantics, edges)
  {
    hide Fronts, EdgesFrom;
    first :| Fronts(symbols, first) && EdgesFrom(symbols, first, fileEdges, semantics, edges);
  }

  lemma FrontsUnique(symbols: seq<SymbolRecord>, first: map<nat, SymbolRecord>, first': map<nat, SymbolRecord>)
    requires Fronts(symbols, first) && Fronts(symbols, first')
    requires forall x, y :: x in symbols && y in symbols && x != y ==> SymbolLess(x, y) || SymbolLess(y, x)
    ensures first == first'
  {
    hide SymbolLess, HasFile;
    forall f | f in first ensures first[f] == first'[f] {
      assert IsFront(symbols, f, first[f]) && IsFront(symbols, f, first'[f]);
    }
  }

  lemma EdgesUnique(symbols: seq<SymbolRecord>, first: map<nat, SymbolRecord>, fileEdges: seq<FileEdge>,
                    semantics: Semantics, a: seq<SymbolEdge>, b: seq<SymbolEdge>)
    requires EdgesFrom(symbols, first, fileEdges, semantics, a) && EdgesFrom(symbols, first, fileEdges, semantics, b)
    ensures a == b
  {
    hide FromFiles, FromSemantics;
    StrictUnique(SymbolEdgeLess, a, b);
  }
}
