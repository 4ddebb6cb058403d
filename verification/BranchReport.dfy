/** What a report of `diffBranches` says about the nodes and edges of the two snapshots: which paths are public, which
    modules an edge joins, what makes a risk high, and how far a score may be from the weighted sum. */
module BranchReports {
  import opened Orders
  import opened Decimals
  import opened Graphs
  import opened TraversalDepths
  import opened BranchDiffs
  import opened BranchImpacts

  // ----- public paths -----

  /** The text reads as the pattern once separators and the case of letters are ignored. */
  ghost predicate Reads(s: string, pattern: string) {
    && |s| == |pattern|
    && forall k :: 0 <= k < |s| ==>
         || s[k] == pattern[k]
         || (pattern[k] == '/' && s[k] == '\\')
         || ('a' <= pattern[k] <= 'z' && s[k] as int + 32 == pattern[k] as int)
  }

  ghost predicate ReadsAt(s: string, i: nat, pattern: string) {
    i + |pattern| <= |s| && Reads(s[i..i + |pattern|], pattern)
  }

  ghost predicate EndsWith(s: string, pattern: string) {
    |pattern| <= |s| && Reads(s[|s| - |pattern|..], pattern)
  }

  /** A file below an include directory that is not the first part of the path, or a C or C++ header. */
  ghost predicate HeaderPath(path: string) {
    || (exists i: nat :: ReadsAt(path, i, "/include/"))
    || EndsWith(path, ".h") || EndsWith(path, ".hh") || EndsWith(path, ".hpp") || EndsWith(path, ".hxx")
  }

  /** Lower-case text without backslashes. */
  ghost predicate Plain(s: string) {
    forall k :: 0 <= k < |s| ==> s[k] != '\\' && !('A' <= s[k] <= 'Z')
  }

  lemma ReadsIff(s: string, i: nat, pattern: string)
    requires i + |pattern| <= |s| && Plain(pattern)
    ensures Lower(Slashed(s))[i..i + |pattern|] == pattern <==> Reads(s[i..i + |pattern|], pattern)
  {
    var low, part := Lower(Slashed(s))[i..i + |pattern|], s[i..i + |pattern|];
    forall k | 0 <= k < |pattern|
      ensures low[k] == pattern[k] <==>
        || part[k] == pattern[k]
        || (pattern[k] == '/' && part[k] == '\\')
        || ('a' <= pattern[k] <= 'z' && part[k] as int + 32 == pattern[k] as int)
    {
      assert part[k] == s[i + k] && low[k] == Lower(Slashed(s))[i + k];
    }
    if low == pattern {
      assert forall k :: 0 <= k < |pattern| ==> low[k] == pattern[k];
    }
  }

  ghost predicate PartAt(s: string, i: nat, t: string) {
    i + |t| <= |s| && s[i..i + |t|] == t
  }

  lemma {:induction false} ContainsIff(s: string, t: string)
    ensures Contains(s, t) <==> exists i: nat :: PartAt(s, i, t)
  {
    if |t| <= |s| {
      if s[..|t|] == t {
        assert PartAt(s, 0, t);
      } else {
        ContainsIff(s[1..], t);
        if i: nat :| PartAt(s[1..], i, t) {
          assert s[i + 1..(i + 1) + |t|] == s[1..][i..i + |t|];
          assert PartAt(s, i + 1, t);
        }
        if i: nat :| PartAt(s, i, t) {
          assert i > 0 && s[1..][i - 1..(i - 1) + |t|] == s[i..i + |t|];
          assert PartAt(s[1..], i - 1, t);
        }
      }
    }
  }

  lemma {:induction false} ExtensionIs(s: string)
    ensures |Extension(s)| <= |s| && s[|s| - |Extension(s)|..] == Extension(s)
    ensures Extension(s) == "" ==> '.' !in s
    ensures Extension(s) != "" ==> Extension(s)[0] == '.' && '.' !in Extension(s)[1..]
  {
    if s != "" && s[|s| - 1] != '.' {
      var front := s[..|s| - 1];
      ExtensionIs(front);
      assert s == front + [s[|s| - 1]];
    }
  }

  /** There is only one last dot. */
  lemma LastDot(s: string, i: nat, j: nat)
    requires i < |s| && s[i] == '.' && '.' !in s[i..][1..]
    requires j < |s| && s[j] == '.' && '.' !in s[j..][1..]
    ensures i == j
  {
  }

  lemma ExtensionIff(s: string, t: string)
    requires '.' !in t
    ensures Extension(s) == "." + t <==> |t| + 1 <= |s| && s[|s| - |t| - 1..] == "." + t
  {
    ExtensionIs(s);
    hide Extension;
    var e, i := Extension(s), |s| - |t| - 1;
    if i >= 0 && s[i..] == "." + t {
      assert s[i] == s[i..][0] == '.' && s[i..][1..] == t;
      assert s[|s| - |e|] == e[0];
      LastDot(s, i, |s| - |e|);
    }
  }

  lemma EndsIff(path: string, t: string)
    requires '.' !in t && Plain(t)
    ensures Extension(Lower(Slashed(path))) == "." + t <==> EndsWith(path, "." + t)
  {
    hide Lower, Slashed, Extension, Reads;
    var p := Lower(Slashed(path));
    ExtensionIff(p, t);
    if |t| + 1 <= |path| {
      var i := |path| - |t| - 1;
      PlainDot(t);
      ReadsIff(path, i, "." + t);
      assert p[i..i + |"." + t|] == p[i..] && path[i..i + |"." + t|] == path[i..];
    }
  }

  lemma PlainDot(t: string)
    requires Plain(t)
    ensures Plain("." + t)
  {
  }

  lemma BelowInclude(path: string)
    ensures Contains(Lower(Slashed(path)), "/include/") <==> exists i: nat :: ReadsAt(path, i, "/include/")
  {
    var p := Lower(Slashed(path));
    ContainsIff(p, "/include/");
    hide Lower, Slashed, Contains, Reads;
    forall i: nat ensures PartAt(p, i, "/include/") <==> ReadsAt(path, i, "/include/") {
      if i + 9 <= |p| { ReadsIff(path, i, "/include/"); }
    }
  }

  /** A path is public exactly when it lies below an include directory or ends as a header. */
  lemma HeaderIff(path: string)
    ensures IsHeaderPath(path) <==> HeaderPath(path)
  {
    hide Lower, Slashed, Contains, Extension, ReadsAt, EndsWith;
    BelowInclude(path);
    EndsIff(path, "h");
    EndsIff(path, "hh");
    EndsIff(path, "hpp");
    EndsIff(path, "hxx");
    assert "." + "h" == ".h" && "." + "hh" == ".hh" && "." + "hpp" == ".hpp" && "." + "hxx" == ".hxx";
  }

  // ----- modules -----

  predicate Separator(c: char) {
    c == '/' || c == '\\'
  }

  ghost predicate Unseparated(s: string) {
    forall k :: 0 <= k < |s| ==> !Separator(s[k])
  }

  /** The id of a file whose path is the name, or goes on behind it with a separator. */
  ghost predicate FileIn(id: string, name: string) {
    var start := "file:" + name;
    id == start || (|id| > |start| && id[..|start|] == start && Separator(id[|start|]))
  }

  lemma {:induction false} UpToSlashIff(s: string, m: string)
    ensures UpToSlash(s) == m <==>
      && '/' !in m && |m| <= |s| && s[..|m|] == m && (|m| == |s| || s[|m|] == '/')
  {
    if s == "" || s[0] == '/' {
      if m != "" && |m| <= |s| && s[..|m|] == m { assert s[0] == m[0]; }
    } else {
      if m != "" {
        UpToSlashIff(s[1..], m[1..]);
        assert m == [m[0]] + m[1..];
        if |m| <= |s| {
          assert s[..|m|] == [s[0]] + s[1..][..|m| - 1];
          assert '/' !in m <==> m[0] != '/' && '/' !in m[1..];
        }
      }
    }
  }

  /** The module of a file node is the first part of its path; other nodes and rooted paths have none. */
  lemma ModuleIff(id: string, name: string)
    requires name != ""
    ensures ModuleOf(id) == name <==> Unseparated(name) && FileIn(id, name)
  {
    var start := "file:" + name;
    if IsFileNode(id) {
      var path := id[5..];
      UpToSlashIff(Slashed(path), name);
      assert id == "file:" + path;
      SlashedStart(path, name);
      if |start| <= |id| {
        assert id[..|start|] == "file:" + path[..|name|];
        assert id[..|start|] == start <==> path[..|name|] == name;
      }
      if |start| < |id| { assert id[|start|] == path[|name|]; }
    } else {
      assert start[..5] == "file:";
      if |start| <= |id| {
        assert id[..|start|][..5] == id[..5];
      }
    }
  }

  lemma SlashedStart(path: string, name: string)
    ensures '/' !in name && |name| <= |path| && Slashed(path)[..|name|] == name <==>
      Unseparated(name) && |name| <= |path| && path[..|name|] == name
  {
    if |name| <= |path| {
      var start := Slashed(path)[..|name|];
      if '/' !in name && start == name {
        forall k | 0 <= k < |name| ensures path[k] == name[k] && !Separator(name[k]) {
          assert start[k] == name[k] && name[k] in name;
        }
      }
      if Unseparated(name) && path[..|name|] == name {
        forall k | 0 <= k < |name| ensures start[k] == name[k] {
          assert path[..|name|][k] == name[k];
        }
      }
    }
  }

  // ----- what the maps made of the snapshots hold -----

  ghost predicate IsSymbol(n: StateNode) {
    n.nodeType == SymbolNode && n.nodeId != ""
  }

  /** The first symbol node of its id. */
  ghost predicate First(nodes: seq<StateNode>, i: nat) {
    && i < |nodes| && IsSymbol(nodes[i])
    && forall j :: 0 <= j < i && IsSymbol(nodes[j]) ==> nodes[j].nodeId != nodes[i].nodeId
  }

  /** The node that counts for the id. */
  ghost predicate Shown(nodes: seq<StateNode>, id: string, n: StateNode) {
    n.nodeId == id && exists i: nat :: First(nodes, i) && nodes[i] == n
  }

  ghost predicate Shows(v: SymbolView, n: StateNode) {
    && v.name == n.name && v.definedIn == n.definedIn && v.centrality == n.centrality
    && forall x :: x in v.usedIn <==> x in n.usedIn
  }

  ghost predicate Present(nodes: seq<StateNode>, id: string) {
    exists n :: Shown(nodes, id, n)
  }

  lemma {:induction false} FirstCounts(nodes: seq<StateNode>, i: nat)
    requires First(nodes, i)
    ensures nodes[i].nodeId in SymbolsOf(nodes) && Shows(SymbolsOf(nodes)[nodes[i].nodeId], nodes[i])
    decreases |nodes|
  {
    var n := |nodes| - 1;
    if i < n {
      FirstCounts(nodes[..n], i);
    } else if nodes[i].nodeId in SymbolsOf(nodes[..n]) {
      var j := ViewHasFirst(nodes[..n], nodes[i].nodeId);
    }
  }

  lemma {:induction false} ViewHasFirst(nodes: seq<StateNode>, id: string) returns (i: nat)
    requires id in SymbolsOf(nodes)
    ensures First(nodes, i) && nodes[i].nodeId == id
    decreases |nodes|
  {
    var n := |nodes| - 1;
    if id in SymbolsOf(nodes[..n]) {
      i := ViewHasFirst(nodes[..n], id);
    } else {
      i := n;
      forall j | 0 <= j < n && IsSymbol(nodes[j]) ensures nodes[j].nodeId != id {
        if nodes[j].nodeId == id { SomeFirst(nodes[..n], j); }
      }
    }
  }

  lemma {:induction false} SomeFirst(nodes: seq<StateNode>, j: nat)
    requires j < |nodes| && IsSymbol(nodes[j])
    ensures nodes[j].nodeId in SymbolsOf(nodes)
    decreases |nodes|
  {
    if j < |nodes| - 1 { SomeFirst(nodes[..|nodes| - 1], j); }
  }

  /** Exactly the symbols present are collected, each with the fields of the first node of its id. */
  lemma CollectedIff(nodes: seq<StateNode>, id: string)
    ensures id in SymbolsOf(nodes) <==> Present(nodes, id)
    ensures forall n :: Shown(nodes, id, n) ==> id in SymbolsOf(nodes) && Shows(SymbolsOf(nodes)[id], n)
  {
    if id in SymbolsOf(nodes) {
      var i := ViewHasFirst(nodes, id);
      assert Shown(nodes, id, nodes[i]);
    }
    forall n | Shown(nodes, id, n) ensures id in SymbolsOf(nodes) && Shows(SymbolsOf(nodes)[id], n) {
      var i: nat :| First(nodes, i) && nodes[i] == n;
      FirstCounts(nodes, i);
    }
  }

  ghost predicate Depends(edges: seq<StateEdge>, e: Edge) {
    e.from != "" && e.to != "" && StateEdge(e.from, e.to, DependsOn) in edges
  }

  lemma DependsIff(edges: seq<StateEdge>)
    ensures forall e :: e in DependenciesOf(edges) <==> Depends(edges, e)
  {
    forall e ensures e in DependenciesOf(edges) <==> Depends(edges, e) {
      if Depends(edges, e) {
        var x := StateEdge(e.from, e.to, DependsOn);
        assert x in edges && Edge(x.sourceId, x.targetId) == e;
      }
    }
  }

  // ----- the lists -----

  /** How a symbol of the first snapshot stands in the second. */
  ghost predicate Became(a: seq<StateNode>, b: seq<StateNode>, id: string, kind: DiffType) {
    match kind
    case Added => !Present(a, id) && Present(b, id)
    case Removed => Present(a, id) && !Present(b, id)
    case Renamed => exists m, n :: Shown(a, id, m) && Shown(b, id, n) && m.name != n.name
    case Moved => exists m, n :: Shown(a, id, m) && Shown(b, id, n) && m.name == n.name && m.definedIn != n.definedIn
    case Modified =>
      exists m, n :: Shown(a, id, m) && Shown(b, id, n) && m.name == n.name && m.definedIn == n.definedIn
        && exists x :: (x in m.usedIn) != (x in n.usedIn)
  }

  lemma BecameIff(a: seq<StateNode>, b: seq<StateNode>, id: string, kind: DiffType)
    ensures Kind(SymbolsOf(a), SymbolsOf(b), id) == Some(kind) <==> Became(a, b, id, kind)
  {
    CollectedIff(a, id);
    CollectedIff(b, id);
    hide SymbolsOf, Shown;
    if Present(a, id) && Present(b, id) {
      var m, n :| Shown(a, id, m) && Shown(b, id, n);
      var v, w := SymbolsOf(a)[id], SymbolsOf(b)[id];
      assert v.usedIn == w.usedIn <==> forall x :: (x in m.usedIn) == (x in n.usedIn);
    }
  }

  lemma Parts(a: StateSnapshot, b: StateSnapshot, r: BranchDiffReport)
    requires Reported(a, b, r)
    ensures SymbolsListed(SymbolsOf(a.nodes), SymbolsOf(b.nodes), r.symbols)
    ensures SignaturesListed(SymbolsOf(a.nodes), SymbolsOf(b.nodes), r.signatures)
    ensures DependenciesListed(DependenciesOf(a.edges), DependenciesOf(b.edges), r.dependencies)
    ensures RiskIs(SymbolsOf(a.nodes), SymbolsOf(b.nodes), DependenciesOf(a.edges), DependenciesOf(b.edges),
      r.signatures, r.overallRisk)
    ensures ScoreIs(SymbolsOf(a.nodes), SymbolsOf(b.nodes), DependenciesOf(a.edges), DependenciesOf(b.edges),
      TotalNodes(a, b), r.impactScore)
  {
    hide SymbolsListed, SignaturesListed, DependenciesListed, RiskIs, ScoreIs, SymbolsOf, DependenciesOf;
  }

  /** The symbols listed, in the order of their ids, are those that differ between the snapshots, each with the first
      difference of presence, name, file and uses. */
  lemma SymbolEntries(a: StateSnapshot, b: StateSnapshot, r: BranchDiffReport)
    requires Reported(a, b, r)
    ensures forall x :: x in r.symbols <==> Became(a.nodes, b.nodes, x.id, x.kind)
    ensures forall i, j :: 0 <= i < j < |r.symbols| ==> Lt(r.symbols[i].id, r.symbols[j].id)
  {
    Parts(a, b, r);
    hide Reported, Kind, Became, SymbolsOf;
    forall x ensures x in r.symbols <==> Became(a.nodes, b.nodes, x.id, x.kind) {
      BecameIff(a.nodes, b.nodes, x.id, x.kind);
    }
    forall i, j | 0 <= i < j < |r.symbols| ensures Lt(r.symbols[i].id, r.symbols[j].id) {
      assert Lt(Mapped(SymbolId, r.symbols)[i], Mapped(SymbolId, r.symbols)[j]);
    }
  }

  ghost predicate SameChange(change: SignatureChange, kind: DiffType) {
    match change
    case Rename => kind == Renamed
    case Relocation => kind == Moved
    case Signature => kind == Modified
  }

  lemma SignatureIff(o: Views, n: Views, symbols: seq<SymbolEntry>, signatures: seq<SignatureEntry>, x: SignatureEntry)
    requires SymbolsListed(o, n, symbols) && SignaturesListed(o, n, signatures)
    ensures x in signatures <==> exists y :: y in symbols && y.id == x.id && SameChange(x.change, y.kind)
  {
    hide Kind, Ascending;
    if x in signatures {
      var y := SymbolEntry(x.id, Kind(o, n, x.id).value);
      assert y in symbols && SameChange(x.change, y.kind);
    }
  }

  /** The signature changes are the listed symbols present on both sides, in the same order. */
  lemma SignatureEntries(a: StateSnapshot, b: StateSnapshot, r: BranchDiffReport)
    requires Reported(a, b, r)
    ensures forall x :: x in r.signatures <==>
      exists y :: y in r.symbols && y.id == x.id && SameChange(x.change, y.kind)
    ensures forall i, j :: 0 <= i < j < |r.signatures| ==> Lt(r.signatures[i].id, r.signatures[j].id)
  {
    Parts(a, b, r);
    hide Reported, Kind, SymbolsOf, DependenciesOf, RiskIs, ScoreIs, SameChange, SymbolsListed;
    forall x ensures x in r.signatures <==> exists y :: y in r.symbols && y.id == x.id && SameChange(x.change, y.kind) {
      SignatureIff(SymbolsOf(a.nodes), SymbolsOf(b.nodes), r.symbols, r.signatures, x);
    }
    forall i, j | 0 <= i < j < |r.signatures| ensures Lt(r.signatures[i].id, r.signatures[j].id) {
      assert Lt(Mapped(SignatureId, r.signatures)[i], Mapped(SignatureId, r.signatures)[j]);
    }
  }

  ghost predicate Before(x: Edge, y: Edge) {
    Lt(x.from, y.from) || (x.from == y.from && Lt(x.to, y.to))
  }

  /** The dependencies listed, by source and then target, are those of one snapshot only. */
  lemma DependencyEntries(a: StateSnapshot, b: StateSnapshot, r: BranchDiffReport)
    requires Reported(a, b, r)
    ensures forall x :: x in r.dependencies <==>
      || (x.kind == Added && Depends(b.edges, x.edge) && !Depends(a.edges, x.edge))
      || (x.kind == Removed && Depends(a.edges, x.edge) && !Depends(b.edges, x.edge))
    ensures forall i, j :: 0 <= i < j < |r.dependencies| ==> Before(r.dependencies[i].edge, r.dependencies[j].edge)
  {
    Parts(a, b, r);
    DependsIff(a.edges);
    DependsIff(b.edges);
    hide Reported, DependenciesOf, Depends;
    forall i, j | 0 <= i < j < |r.dependencies| ensures Before(r.dependencies[i].edge, r.dependencies[j].edge) {
      var x, y := r.dependencies[i], r.dependencies[j];
      assert x in r.dependencies && y in r.dependencies && DependencyLess(x, y);
      assert x.edge == y.edge ==> x.kind == y.kind;
      assert x.edge == Edge(x.edge.from, x.edge.to) && y.edge == Edge(y.edge.from, y.edge.to);
    }
  }

  // ----- the risk -----

  ghost predicate PublicNode(n: StateNode) {
    n.definedIn != "" && HeaderPath(n.definedIn)
  }

  ghost predicate PublicRemoved(a: StateSnapshot, r: BranchDiffReport) {
    exists x: SymbolEntry, n: StateNode :: x in r.symbols && x.kind == Removed && Shown(a.nodes, x.id, n)
      && PublicNode(n)
  }

  /** The two ends lie in these modules. */
  ghost predicate Joins(e: Edge, from: string, to: string) {
    && from != "" && to != "" && Unseparated(from) && Unseparated(to) && FileIn(e.from, from) && FileIn(e.to, to)
  }

  ghost predicate CrossingAdded(r: BranchDiffReport) {
    exists x: DependencyEntry, from: string, to: string ::
      x in r.dependencies && x.kind == Added && Joins(x.edge, from, to) && from != to
  }

  ghost predicate ChangedInside(r: BranchDiffReport) {
    exists x: DependencyEntry, m: string :: x in r.dependencies && Joins(x.edge, m, m)
  }

  ghost predicate Listed(r: BranchDiffReport, id: string) {
    exists x :: x in r.symbols && x.id == id
  }

  /** A listed symbol, or any when none is listed, whose centrality moved by more than a fifth. */
  ghost predicate Spike(a: StateSnapshot, b: StateSnapshot, r: BranchDiffReport) {
    exists m: StateNode, n: StateNode ::
      && Shown(a.nodes, m.nodeId, m) && Shown(b.nodes, m.nodeId, n) && (r.symbols == [] || Listed(r, m.nodeId))
      && Jumped(m, n)
  }

  lemma JoinsIff(e: Edge, from: string, to: string)
    requires from != "" && to != ""
    ensures Joins(e, from, to) <==> ModuleOf(e.from) == from && ModuleOf(e.to) == to
  {
    ModuleIff(e.from, from);
    ModuleIff(e.to, to);
    hide ModuleOf, Unseparated, FileIn;
  }

  lemma CrossesIff(e: Edge)
    ensures Crosses(e) <==> exists from, to :: Joins(e, from, to) && from != to
    ensures Internal(e) <==> exists m :: Joins(e, m, m)
  {
    hide ModuleOf, Joins;
    if ModuleOf(e.from) != "" && ModuleOf(e.to) != "" {
      JoinsIff(e, ModuleOf(e.from), ModuleOf(e.to));
    }
    forall from, to | Joins(e, from, to) ensures ModuleOf(e.from) == from != "" && ModuleOf(e.to) == to != "" {
      JoinsNamed(e, from, to);
      JoinsIff(e, from, to);
    }
  }

  lemma JoinsNamed(e: Edge, from: string, to: string)
    requires Joins(e, from, to)
    ensures from != "" && to != ""
  {
  }

  lemma PublicIff(nodes: seq<StateNode>, id: string, n: StateNode)
    requires Shown(nodes, id, n)
    ensures id in SymbolsOf(nodes) && (IsPublic(SymbolsOf(nodes)[id]) <==> PublicNode(n))
  {
    CollectedIff(nodes, id);
    HeaderIff(n.definedIn);
    hide SymbolsOf, Shown, HeaderPath, IsHeaderPath;
  }

  lemma PublicRemovedIff(a: StateSnapshot, b: StateSnapshot, r: BranchDiffReport)
    requires Reported(a, b, r)
    ensures PublicRemoved(a, r) <==> exists id :: RemovesPublic(SymbolsOf(a.nodes), SymbolsOf(b.nodes), id)
  {
    Parts(a, b, r);
    var o, n := SymbolsOf(a.nodes), SymbolsOf(b.nodes);
    hide Reported, SymbolsOf, DependenciesOf, RiskIs, ScoreIs, IsPublic, PublicNode, Shown;
    if x: SymbolEntry, m: StateNode :| x in r.symbols && x.kind == Removed && Shown(a.nodes, x.id, m) && PublicNode(m) {
      PublicIff(a.nodes, x.id, m);
      assert RemovesPublic(o, n, x.id);
    }
    if id :| RemovesPublic(o, n, id) {
      CollectedIff(a.nodes, id);
      var m :| Shown(a.nodes, id, m);
      PublicIff(a.nodes, id, m);
      assert SymbolEntry(id, Removed) in r.symbols;
    }
  }

  lemma ListedEdges(od: set<Edge>, nd: set<Edge>, list: seq<DependencyEntry>, e: Edge)
    requires DependenciesListed(od, nd, list)
    ensures e in nd - od <==> DependencyEntry(e, Added) in list
    ensures e in Changed(od, nd) <==> exists x :: x in list && x.edge == e
  {
    hide DependencyLess;
    ChangedListed(od, nd, list);
  }

  lemma CrossingIff(od: set<Edge>, nd: set<Edge>, r: BranchDiffReport)
    requires DependenciesListed(od, nd, r.dependencies)
    ensures CrossingAdded(r) <==> exists e :: e in nd - od && Crosses(e)
  {
    hide DependenciesListed, Joins, Crosses;
    if x: DependencyEntry, from: string, to: string :|
      x in r.dependencies && x.kind == Added && Joins(x.edge, from, to) && from != to {
      assert x == DependencyEntry(x.edge, Added);
      ListedEdges(od, nd, r.dependencies, x.edge);
      CrossesIff(x.edge);
    }
    if e :| e in nd - od && Crosses(e) {
      ListedEdges(od, nd, r.dependencies, e);
      CrossesIff(e);
      var x := DependencyEntry(e, Added);
      assert x in r.dependencies && x.kind == Added && x.edge == e;
    }
  }

  lemma InsideIff(od: set<Edge>, nd: set<Edge>, r: BranchDiffReport)
    requires DependenciesListed(od, nd, r.dependencies)
    ensures ChangedInside(r) <==> exists e :: e in Changed(od, nd) && Internal(e)
  {
    hide DependenciesListed, Joins, Internal, Changed;
    if x: DependencyEntry, m: string :| x in r.dependencies && Joins(x.edge, m, m) {
      ListedEdges(od, nd, r.dependencies, x.edge);
      CrossesIff(x.edge);
    }
    if e :| e in Changed(od, nd) && Internal(e) {
      ListedEdges(od, nd, r.dependencies, e);
      CrossesIff(e);
    }
  }

  lemma ListedIff(a: StateSnapshot, b: StateSnapshot, r: BranchDiffReport, id: string)
    requires Reported(a, b, r)
    ensures Listed(r, id) <==> id in AffectedSymbols(SymbolsOf(a.nodes), SymbolsOf(b.nodes))
  {
    Parts(a, b, r);
    var o, n := SymbolsOf(a.nodes), SymbolsOf(b.nodes);
    hide Reported, SymbolsOf, DependenciesOf, RiskIs, ScoreIs, Ascending;
    if id in AffectedSymbols(o, n) {
      assert SymbolEntry(id, Kind(o, n, id).value) in r.symbols;
    }
  }

  lemma NoneListed(a: StateSnapshot, b: StateSnapshot, r: BranchDiffReport)
    requires Reported(a, b, r)
    ensures r.symbols == [] <==> AffectedSymbols(SymbolsOf(a.nodes), SymbolsOf(b.nodes)) == {}
  {
    hide Reported, SymbolsOf, AffectedSymbols;
    HasFirst(r.symbols);
    forall id ensures Listed(r, id) <==> id in AffectedSymbols(SymbolsOf(a.nodes), SymbolsOf(b.nodes)) {
      ListedIff(a, b, r, id);
    }
    if r.symbols != [] {
      assert Listed(r, r.symbols[0].id);
    }
  }

  ghost predicate Jumped(m: StateNode, n: StateNode) {
    m.centrality - n.centrality > 0.2 || n.centrality - m.centrality > 0.2
  }

  lemma SpikesIff(a: seq<StateNode>, b: seq<StateNode>, id: string)
    ensures Spikes(SymbolsOf(a), SymbolsOf(b), id) <==>
      exists m, n :: Shown(a, id, m) && Shown(b, id, n) && Jumped(m, n)
  {
    CollectedIff(a, id);
    CollectedIff(b, id);
    hide SymbolsOf, Shown;
  }

  lemma SpikeIff(a: StateSnapshot, b: StateSnapshot, r: BranchDiffReport)
    requires Reported(a, b, r)
    ensures var o, n := SymbolsOf(a.nodes), SymbolsOf(b.nodes);
      Spike(a, b, r) <==> exists id :: id in Weighed(o, AffectedSymbols(o, n)) && Spikes(o, n, id)
  {
    var o, n := SymbolsOf(a.nodes), SymbolsOf(b.nodes);
    NoneListed(a, b, r);
    hide Reported, SymbolsOf, AffectedSymbols, Shown, Listed, Spikes, Jumped;
    if x: StateNode, y: StateNode :|
      && Shown(a.nodes, x.nodeId, x) && Shown(b.nodes, x.nodeId, y) && (r.symbols == [] || Listed(r, x.nodeId))
      && Jumped(x, y) {
      SpikesIff(a.nodes, b.nodes, x.nodeId);
      ListedIff(a, b, r, x.nodeId);
      CollectedIff(a.nodes, x.nodeId);
    }
    if id :| id in Weighed(o, AffectedSymbols(o, n)) && Spikes(o, n, id) {
      SpikesIff(a.nodes, b.nodes, id);
      ListedIff(a, b, r, id);
      var x, y :| Shown(a.nodes, id, x) && Shown(b.nodes, id, y) && Jumped(x, y);
      ShownId(a.nodes, id, x);
    }
  }

  lemma ShownId(nodes: seq<StateNode>, id: string, n: StateNode)
    requires Shown(nodes, id, n)
    ensures n.nodeId == id
  {
  }

  /** The risk is high exactly when a public symbol is gone, an added dependency joins two modules, or a centrality
      jumped; otherwise medium exactly when a symbol was renamed, moved or modified or a dependency within one module
      changed. */
  lemma RiskExplained(a: StateSnapshot, b: StateSnapshot, r: BranchDiffReport)
    requires Reported(a, b, r)
    ensures r.overallRisk == HIGH <==> PublicRemoved(a, r) || CrossingAdded(r) || Spike(a, b, r)
    ensures r.overallRisk == MEDIUM <==>
      && !PublicRemoved(a, r) && !CrossingAdded(r) && !Spike(a, b, r)
      && (r.signatures != [] || ChangedInside(r))
  {
    Parts(a, b, r);
    PublicRemovedIff(a, b, r);
    CrossingIff(DependenciesOf(a.edges), DependenciesOf(b.edges), r);
    InsideIff(DependenciesOf(a.edges), DependenciesOf(b.edges), r);
    SpikeIff(a, b, r);
    hide Reported, SymbolsOf, DependenciesOf, ScoreIs, RemovesPublic, Crosses, Internal, Spikes, Weighed, Changed,
      PublicRemoved, CrossingAdded, ChangedInside, Spike, SymbolsListed, SignaturesListed, DependenciesListed;
  }

  // ----- the score -----

  ghost predicate PublicTouched(a: StateSnapshot, b: StateSnapshot, r: BranchDiffReport) {
    exists x: SymbolEntry, n: StateNode ::
      x in r.symbols && (Shown(a.nodes, x.id, n) || Shown(b.nodes, x.id, n)) && PublicNode(n)
  }

  ghost function PublicWeight(a: StateSnapshot, b: StateSnapshot, r: BranchDiffReport): real {
    if PublicRemoved(a, r) then 1.0 else if PublicTouched(a, b, r) then 0.5 else 0.0
  }

  /** The nodes named in the report. */
  ghost function NamedNodes(r: BranchDiffReport): set<string> {
    (set x | x in r.symbols :: x.id) + (set x | x in r.dependencies :: x.edge.from)
    + (set x | x in r.dependencies :: x.edge.to)
  }

  /** The file a listed symbol is in now, or was in. */
  ghost predicate FileNow(a: StateSnapshot, b: StateSnapshot, id: string, path: string) {
    path != "" &&
    ((exists n :: Shown(b.nodes, id, n) && n.definedIn == path)
     || ((forall n :: Shown(b.nodes, id, n) ==> n.definedIn == "")
         && exists m :: Shown(a.nodes, id, m) && m.definedIn == path))
  }

  ghost predicate RootNode(a: StateSnapshot, b: StateSnapshot, r: BranchDiffReport, node: string) {
    || (exists x: DependencyEntry :: x in r.dependencies && (node == x.edge.from || node == x.edge.to))
    || FileRoot(a, b, r, node)
  }

  /** The distance travelled from the roots along the dependencies of the second snapshot. */
  ghost predicate Travelled(a: StateSnapshot, b: StateSnapshot, r: BranchDiffReport, depth: nat) {
    exists edges, roots ::
      && (forall e :: e in edges <==> Depends(b.edges, e))
      && (forall x :: x in roots <==> RootNode(a, b, r, x)) && GreatestDistance(edges, roots, depth)
  }

  ghost function Total(xs: seq<real>): real {
    if xs == [] then 0.0 else xs[0] + Total(xs[1..])
  }

  ghost predicate Move(a: StateSnapshot, b: StateSnapshot, id: string, move: real) {
    exists m, n :: Shown(a.nodes, id, m) && Shown(b.nodes, id, n)
      && move >= 0.0 && (move == m.centrality - n.centrality || move == n.centrality - m.centrality)
  }

  /** The mean of the moves of centrality of the listed symbols on both sides, or of all when none is listed; at most 1,
      and 0 when there is none. */
  ghost predicate MeanMove(a: StateSnapshot, b: StateSnapshot, r: BranchDiffReport, mean: real) {
    exists ids: seq<string>, moves: seq<real> ::
      && NoDup(ids) && |moves| == |ids| && (forall i :: 0 <= i < |ids| ==> Move(a, b, ids[i], moves[i]))
      && (forall id :: id in ids <==>
           Present(a.nodes, id) && Present(b.nodes, id) && (r.symbols == [] || Listed(r, id)))
      && mean == if ids == [] then 0.0 else AtMost1(Total(moves) / |ids| as real)
  }

  ghost function AtMost1(x: real): real {
    if x > 1.0 then 1.0 else x
  }

  ghost function Most(a: StateSnapshot, b: StateSnapshot): (r: nat)
    ensures r >= 1 && r >= |a.nodes| && r >= |b.nodes| && (r == 1 || r == |a.nodes| || r == |b.nodes|)
  {
    if |a.nodes| >= |b.nodes| && |a.nodes| >= 1 then |a.nodes| else if |b.nodes| >= 1 then |b.nodes| else 1
  }

  ghost predicate Millionth(x: real, k: nat) {
    x * 1000000.0 == k as real
  }

  ghost predicate Weighted(a: StateSnapshot, b: StateSnapshot, r: BranchDiffReport, depth: nat, mean: real) {
    var sum := 0.35 * AtMost1(|NamedNodes(r)| as real / Most(a, b) as real) + 0.25 * AtMost1(depth as real / 8.0)
      + 0.25 * mean + 0.15 * PublicWeight(a, b, r);
    -0.0000005 < r.impactScore - AtMost1(sum) <= 0.0000005
  }

  lemma PublicTouchedIff(a: StateSnapshot, b: StateSnapshot, r: BranchDiffReport)
    requires Reported(a, b, r)
    ensures PublicTouched(a, b, r) <==> exists id :: TouchesPublic(SymbolsOf(a.nodes), SymbolsOf(b.nodes), id)
  {
    Parts(a, b, r);
    var o, n := SymbolsOf(a.nodes), SymbolsOf(b.nodes);
    hide Reported, SymbolsOf, DependenciesOf, RiskIs, ScoreIs, IsPublic, PublicNode, Shown, SignaturesListed,
      DependenciesListed, Ascending;
    if x: SymbolEntry, m: StateNode :|
      x in r.symbols && (Shown(a.nodes, x.id, m) || Shown(b.nodes, x.id, m)) && PublicNode(m) {
      if Shown(a.nodes, x.id, m) { PublicIff(a.nodes, x.id, m); } else { PublicIff(b.nodes, x.id, m); }
      assert TouchesPublic(o, n, x.id);
    }
    if id :| TouchesPublic(o, n, id) {
      var x := SymbolEntry(id, Kind(o, n, id).value);
      assert x in r.symbols;
      CollectedIff(a.nodes, id);
      CollectedIff(b.nodes, id);
      if id in o && IsPublic(o[id]) {
        var m :| Shown(a.nodes, id, m);
        PublicIff(a.nodes, id, m);
      } else {
        var m :| Shown(b.nodes, id, m);
        PublicIff(b.nodes, id, m);
      }
    }
  }

  lemma IdsListed(list: seq<SymbolEntry>, ids: set<string>)
    requires forall id :: id in ids <==> exists x :: x in list && x.id == id
    ensures ids == (set x | x in list :: x.id)
  {
  }

  lemma EdgeListedIff(a: StateSnapshot, b: StateSnapshot, r: BranchDiffReport, e: Edge)
    requires Reported(a, b, r)
    ensures e in Changed(DependenciesOf(a.edges), DependenciesOf(b.edges)) <==>
      exists x :: x in r.dependencies && x.edge == e
  {
    Parts(a, b, r);
    hide *;
    ListedEdges(DependenciesOf(a.edges), DependenciesOf(b.edges), r.dependencies, e);
  }

  lemma NamedParts(r: BranchDiffReport)
    ensures NamedNodes(r) == (set x | x in r.symbols :: x.id) + ((set x | x in r.dependencies :: x.edge.from)
      + (set x | x in r.dependencies :: x.edge.to))
    ensures forall id :: Listed(r, id) <==> exists x :: x in r.symbols && x.id == id
  {
  }

  lemma NamedAre(a: StateSnapshot, b: StateSnapshot, r: BranchDiffReport)
    requires Reported(a, b, r)
    ensures NamedNodes(r) == AffectedSymbols(SymbolsOf(a.nodes), SymbolsOf(b.nodes))
      + Endpoints(Changed(DependenciesOf(a.edges), DependenciesOf(b.edges)))
  {
    hide *;
    NamedParts(r);
    var affected := AffectedSymbols(SymbolsOf(a.nodes), SymbolsOf(b.nodes));
    forall id ensures id in affected <==> exists x :: x in r.symbols && x.id == id {
      ListedIff(a, b, r, id);
    }
    IdsListed(r.symbols, affected);
    var changed := Changed(DependenciesOf(a.edges), DependenciesOf(b.edges));
    forall e ensures e in changed <==> exists x :: x in r.dependencies && x.edge == e {
      EdgeListedIff(a, b, r, e);
    }
    EndsListed(r.dependencies, changed);
  }

  lemma EndsListed(list: seq<DependencyEntry>, edges: set<Edge>)
    requires forall e :: e in edges <==> exists x :: x in list && x.edge == e
    ensures Endpoints(edges) == (set x | x in list :: x.edge.from) + (set x | x in list :: x.edge.to)
  {
  }

  ghost predicate FileRoot(a: StateSnapshot, b: StateSnapshot, r: BranchDiffReport, node: string) {
    exists x: SymbolEntry, path: string :: x in r.symbols && FileNow(a, b, x.id, path) && node == "file:" + path
  }

  lemma FileRootIff(a: StateSnapshot, b: StateSnapshot, r: BranchDiffReport, node: string)
    requires Reported(a, b, r)
    ensures var o, n := SymbolsOf(a.nodes), SymbolsOf(b.nodes);
      FileRoot(a, b, r, node) <==> exists id :: id in AffectedSymbols(o, n) && RootOf(o, n, id) == node != ""
  {
    var o, n := SymbolsOf(a.nodes), SymbolsOf(b.nodes);
    hide Reported, SymbolsOf, AffectedSymbols, RootOf, FileNow;
    if x: SymbolEntry, path: string :| x in r.symbols && FileNow(a, b, x.id, path) && node == "file:" + path {
      ListedIff(a, b, r, x.id);
      RootIs(a, b, x.id, node);
    }
    if id :| id in AffectedSymbols(o, n) && RootOf(o, n, id) == node != "" {
      ListedIff(a, b, r, id);
      RootIs(a, b, id, node);
      var x, path :| x in r.symbols && x.id == id && FileNow(a, b, id, path) && node == "file:" + path;
    }
  }

  lemma RootsMember(o: Views, n: Views, od: set<Edge>, nd: set<Edge>, node: string)
    ensures node in Roots(o, n, od, nd) <==>
      || (exists id :: id in AffectedSymbols(o, n) && RootOf(o, n, id) == node != "")
      || node in Endpoints(Changed(od, nd))
  {
    hide AffectedSymbols, RootOf, Endpoints, Changed;
  }

  lemma RootsAre(a: StateSnapshot, b: StateSnapshot, r: BranchDiffReport, node: string)
    requires Reported(a, b, r)
    ensures RootNode(a, b, r, node) <==>
      node in Roots(SymbolsOf(a.nodes), SymbolsOf(b.nodes), DependenciesOf(a.edges), DependenciesOf(b.edges))
  {
    var od, nd := DependenciesOf(a.edges), DependenciesOf(b.edges);
    FileRootIff(a, b, r, node);
    RootsMember(SymbolsOf(a.nodes), SymbolsOf(b.nodes), od, nd, node);
    EndpointListed(a, b, r, node);
    hide Reported, SymbolsOf, DependenciesOf, AffectedSymbols, RootOf, FileRoot, Roots, Endpoints, Changed;
  }

  lemma EndpointListed(a: StateSnapshot, b: StateSnapshot, r: BranchDiffReport, node: string)
    requires Reported(a, b, r)
    ensures node in Endpoints(Changed(DependenciesOf(a.edges), DependenciesOf(b.edges))) <==>
      exists x: DependencyEntry :: x in r.dependencies && (node == x.edge.from || node == x.edge.to)
  {
    hide *;
    var changed := Changed(DependenciesOf(a.edges), DependenciesOf(b.edges));
    forall e ensures e in changed <==> exists x :: x in r.dependencies && x.edge == e {
      EdgeListedIff(a, b, r, e);
    }
    EndsListed(r.dependencies, changed);
  }

  lemma RootIs(a: StateSnapshot, b: StateSnapshot, id: string, node: string)
    ensures RootOf(SymbolsOf(a.nodes), SymbolsOf(b.nodes), id) == node != "" <==>
      exists path :: FileNow(a, b, id, path) && node == "file:" + path
  {
    CollectedIff(a.nodes, id);
    CollectedIff(b.nodes, id);
    hide SymbolsOf, Shown;
  }

  // ----- the mean move -----

  lemma {:induction false} TotalSnoc(xs: seq<real>, x: real)
    ensures Total(xs + [x]) == Total(xs) + x
  {
    if xs == [] {
      assert xs + [x] == [x];
    } else {
      TotalSnoc(xs[1..], x);
      assert (xs + [x])[1..] == xs[1..] + [x];
    }
  }

  /** The symbols on both sides and how far each moved. */
  lemma {:induction false} MovesOf(o: Views, n: Views, ids: seq<string>) returns (common: seq<string>, moves: seq<real>)
    requires NoDup(ids)
    ensures NoDup(common) && |common| == |moves| == DeltaCount(o, n, ids) && Total(moves) == DeltaSum(o, n, ids)
    ensures forall id :: id in common <==> id in ids && id in o && id in n
    ensures forall i :: 0 <= i < |common| ==>
      common[i] in o && common[i] in n && moves[i] == Abs(n[common[i]].centrality - o[common[i]].centrality)
    decreases |ids|
  {
    if ids == [] {
      common, moves := [], [];
    } else {
      var k := |ids| - 1;
      assert ids == ids[..k] + [ids[k]];
      common, moves := MovesOf(o, n, ids[..k]);
      if ids[k] in o && ids[k] in n {
        TotalSnoc(moves, Abs(n[ids[k]].centrality - o[ids[k]].centrality));
        assert ids[k] !in common;
        common, moves := common + [ids[k]], moves + [Abs(n[ids[k]].centrality - o[ids[k]].centrality)];
      }
    }
  }

  lemma MoveIs(a: StateSnapshot, b: StateSnapshot, id: string)
    requires id in SymbolsOf(a.nodes) && id in SymbolsOf(b.nodes)
    ensures Move(a, b, id, Abs(SymbolsOf(b.nodes)[id].centrality - SymbolsOf(a.nodes)[id].centrality))
  {
    CollectedIff(a.nodes, id);
    CollectedIff(b.nodes, id);
    hide SymbolsOf, Shown;
    var m, n :| Shown(a.nodes, id, m) && Shown(b.nodes, id, n);
  }

  lemma CommonIff(a: StateSnapshot, b: StateSnapshot, r: BranchDiffReport, ids: seq<string>, id: string)
    requires Reported(a, b, r)
    requires Elems(ids) == Weighed(SymbolsOf(a.nodes), AffectedSymbols(SymbolsOf(a.nodes), SymbolsOf(b.nodes)))
    ensures id in ids && id in SymbolsOf(a.nodes) && id in SymbolsOf(b.nodes) <==>
      Present(a.nodes, id) && Present(b.nodes, id) && (r.symbols == [] || Listed(r, id))
  {
    NoneListed(a, b, r);
    ListedIff(a, b, r, id);
    CollectedIff(a.nodes, id);
    CollectedIff(b.nodes, id);
    hide Reported, SymbolsOf, AffectedSymbols, Present, Listed;
    assert id in ids <==> id in Elems(ids);
  }

  lemma MeanValue(o: Views, n: Views, ids: seq<string>, moves: seq<real>)
    requires |moves| == DeltaCount(o, n, ids) && Total(moves) == DeltaSum(o, n, ids)
    ensures MeanDelta(o, n, ids) == if moves == [] then 0.0 else AtMost1(Total(moves) / |moves| as real)
  {
    if moves != [] {
      NotNegative(DeltaSum(o, n, ids), |moves|);
    }
    hide DeltaSum, DeltaCount, Total;
  }

  lemma NotNegative(x: real, k: nat)
    requires x >= 0.0 && k > 0
    ensures x / k as real >= 0.0
  {
  }

  lemma MeanIs(a: StateSnapshot, b: StateSnapshot, r: BranchDiffReport, ids: seq<string>)
    requires Reported(a, b, r) && Ascending(ids)
    requires Elems(ids) == Weighed(SymbolsOf(a.nodes), AffectedSymbols(SymbolsOf(a.nodes), SymbolsOf(b.nodes)))
    ensures MeanMove(a, b, r, MeanDelta(SymbolsOf(a.nodes), SymbolsOf(b.nodes), ids))
  {
    AscendingNoDup(ids);
    hide *;
    MeanOfMoves(a, b, r, ids);
  }

  lemma MeanOfMoves(a: StateSnapshot, b: StateSnapshot, r: BranchDiffReport, ids: seq<string>)
    requires Reported(a, b, r) && NoDup(ids)
    requires Elems(ids) == Weighed(SymbolsOf(a.nodes), AffectedSymbols(SymbolsOf(a.nodes), SymbolsOf(b.nodes)))
    ensures MeanMove(a, b, r, MeanDelta(SymbolsOf(a.nodes), SymbolsOf(b.nodes), ids))
  {
    hide *;
    var o, n := SymbolsOf(a.nodes), SymbolsOf(b.nodes);
    var common, moves := MovesOf(o, n, ids);
    MeanValue(o, n, ids, moves);
    forall i | 0 <= i < |common| ensures Move(a, b, common[i], moves[i]) {
      MoveIs(a, b, common[i]);
    }
    forall id ensures id in common <==>
      Present(a.nodes, id) && Present(b.nodes, id) && (r.symbols == [] || Listed(r, id)) {
      CommonIff(a, b, r, ids, id);
    }
    MeanFrom(a, b, r, common, moves);
  }

  lemma MeanFrom(a: StateSnapshot, b: StateSnapshot, r: BranchDiffReport, ids: seq<string>, moves: seq<real>)
    requires NoDup(ids) && |moves| == |ids| && forall i :: 0 <= i < |ids| ==> Move(a, b, ids[i], moves[i])
    requires forall id :: id in ids <==>
      Present(a.nodes, id) && Present(b.nodes, id) && (r.symbols == [] || Listed(r, id))
    ensures MeanMove(a, b, r, if moves == [] then 0.0 else AtMost1(Total(moves) / |moves| as real))
  {
    hide NoDup, Move, Present, Listed, Total;
  }

  // ----- the formula -----

  /** The score, a whole number of millionths, is the weighted sum of the share of nodes named in the report, the
      distance travelled out of eight steps, the mean move of centrality, and the public interface touched, at most 1,
      to within half a millionth. */
  lemma ScoreExplained(a: StateSnapshot, b: StateSnapshot, r: BranchDiffReport)
    requires Reported(a, b, r)
    ensures exists depth: nat, mean: real ::
      Travelled(a, b, r, depth) && MeanMove(a, b, r, mean) && mean >= 0.0 && Weighted(a, b, r, depth, mean)
    ensures exists k: nat :: Millionth(r.impactScore, k)
  {
    Parts(a, b, r);
    var o, n, od, nd := SymbolsOf(a.nodes), SymbolsOf(b.nodes), DependenciesOf(a.edges), DependenciesOf(b.edges);
    NamedAre(a, b, r);
    PublicRemovedIff(a, b, r);
    PublicTouchedIff(a, b, r);
    hide *;
    var depth, ids := ScoreParts(o, n, od, nd, TotalNodes(a, b), r.impactScore);
    TravelledIs(a, b, r, depth);
    MeanIs(a, b, r, ids);
    MeanInBounds(o, n, ids);
    WeightedIs(a, b, r, depth, MeanDelta(o, n, ids));
  }

  lemma MeanInBounds(o: Views, n: Views, ids: seq<string>)
    ensures 0.0 <= MeanDelta(o, n, ids) <= 1.0
  {
    hide DeltaSum, DeltaCount;
  }

  lemma ScoreParts(o: Views, n: Views, od: set<Edge>, nd: set<Edge>, total: nat, score: real)
    returns (depth: nat, ids: seq<string>)
    requires total > 0 && ScoreIs(o, n, od, nd, total, score)
    ensures GreatestDistance(nd, Roots(o, n, od, nd), depth)
    ensures Ascending(ids) && Elems(ids) == Weighed(o, AffectedSymbols(o, n))
    ensures score == Score(|AffectedSymbols(o, n) + Endpoints(Changed(od, nd))|, total, depth, MeanDelta(o, n, ids),
                      if exists id :: RemovesPublic(o, n, id) then 1.0
                        else if exists id :: TouchesPublic(o, n, id) then 0.5 else 0.0)
  {
    hide GreatestDistance, Roots, Ascending, Weighed, AffectedSymbols, Endpoints, Changed, RemovesPublic,
      TouchesPublic, Score, MeanDelta;
    depth, ids :|
      && GreatestDistance(nd, Roots(o, n, od, nd), depth)
      && Ascending(ids) && Elems(ids) == Weighed(o, AffectedSymbols(o, n))
      && score == Score(|AffectedSymbols(o, n) + Endpoints(Changed(od, nd))|, total, depth, MeanDelta(o, n, ids),
                        if exists id :: RemovesPublic(o, n, id) then 1.0
                          else if exists id :: TouchesPublic(o, n, id) then 0.5 else 0.0);
  }

  lemma TravelledIs(a: StateSnapshot, b: StateSnapshot, r: BranchDiffReport, depth: nat)
    requires Reported(a, b, r)
    requires GreatestDistance(DependenciesOf(b.edges),
      Roots(SymbolsOf(a.nodes), SymbolsOf(b.nodes), DependenciesOf(a.edges), DependenciesOf(b.edges)), depth)
    ensures Travelled(a, b, r, depth)
  {
    DependsIff(b.edges);
    var roots := Roots(SymbolsOf(a.nodes), SymbolsOf(b.nodes), DependenciesOf(a.edges), DependenciesOf(b.edges));
    hide Reported, SymbolsOf, DependenciesOf, Roots, RootNode, Depends, GreatestDistance;
    forall x ensures x in roots <==> RootNode(a, b, r, x) {
      RootsAre(a, b, r, x);
    }
  }

  lemma WeightedIs(a: StateSnapshot, b: StateSnapshot, r: BranchDiffReport, depth: nat, mean: real)
    requires r.impactScore == Score(|NamedNodes(r)|, TotalNodes(a, b), depth, mean, PublicWeight(a, b, r))
    requires mean >= 0.0
    ensures Weighted(a, b, r, depth, mean) && exists k: nat :: Millionth(r.impactScore, k)
  {
    var k: nat :| r.impactScore == Millionths(k);
    assert Millionth(r.impactScore, k);
    hide NamedNodes, PublicRemoved, PublicTouched;
  }

  /** A public symbol gone weighs 0.15 by itself. */
  lemma PublicRemovalScores(a: StateSnapshot, b: StateSnapshot, r: BranchDiffReport)
    requires Reported(a, b, r) && PublicRemoved(a, r)
    ensures r.impactScore > 0.149
  {
    hide Reported, PublicRemoved, NamedNodes, Travelled, MeanMove, Most, Weighted, Millionth;
    ScoreExplained(a, b, r);
    var depth: nat, mean: real :|
      Travelled(a, b, r, depth) && MeanMove(a, b, r, mean) && mean >= 0.0 && Weighted(a, b, r, depth, mean);
    WeightAlone(a, b, r, depth, mean);
  }

  lemma WeightAlone(a: StateSnapshot, b: StateSnapshot, r: BranchDiffReport, depth: nat, mean: real)
    requires Weighted(a, b, r, depth, mean) && mean >= 0.0 && PublicRemoved(a, r)
    ensures r.impactScore > 0.149
  {
    hide PublicRemoved, NamedNodes;
    NotNegative(|NamedNodes(r)| as real, Most(a, b));
    NotNegative(depth as real, 8);
    AtLeast(AtMost1(|NamedNodes(r)| as real / Most(a, b) as real), AtMost1(depth as real / 8.0), mean, r.impactScore);
  }

  lemma AtLeast(share: real, way: real, mean: real, score: real)
    requires share >= 0.0 && way >= 0.0 && mean >= 0.0
    requires score - AtMost1(0.35 * share + 0.25 * way + 0.25 * mean + 0.15 * 1.0) > -0.0000005
    ensures score > 0.149
  {
  }
}
