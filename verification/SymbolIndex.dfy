/** `buildSymbolIndex`: for every defined name, the file that defines it and the files that use it. The loops fill maps
    whose content is fixed by the tables, so neither the order of the tables nor that of hashing shows in the index. */
module SymbolIndexes {
  import opened Orders
  import opened Symbols
  import opened DependencyTables

  datatype FileRecord = FileRecord(fileId: nat, path: string, hash: seq<bv8>, language: nat, lastModified: nat)

  datatype SymbolNode = SymbolNode(name: string, definedIn: string, usedInFiles: set<string>, weight: real,
                                   centrality: real)

  predicate IsDefinition(s: SymbolRecord) {
    s.symbolType == Class || s.symbolType == Function || s.symbolType == EntryPoint || s.symbolType == ReactComponent
  }

  ghost predicate UniqueIds(files: seq<FileRecord>) {
    forall i, j :: 0 <= i < j < |files| ==> files[i].fileId != files[j].fileId
  }

  ghost predicate NonEmptyPaths(files: seq<FileRecord>) {
    forall r :: r in files ==> r.path != ""
  }

  ghost predicate UniqueSymbolIds(symbols: seq<SymbolRecord>) {
    forall i, j :: 0 <= i < j < |symbols| ==> symbols[i].symbolId != symbols[j].symbolId
  }

  // ----- what the index says -----

  ghost predicate InFile(files: seq<FileRecord>, fileId: nat, path: string) {
    exists r :: r in files && r.fileId == fileId && r.path == path
  }

  ghost predicate Defines(files: seq<FileRecord>, symbols: seq<SymbolRecord>, name: string, path: string) {
    exists s :: s in symbols && s.name == name && IsDefinition(s) && InFile(files, s.fileId, path)
  }

  ghost predicate Mentions(files: seq<FileRecord>, symbols: seq<SymbolRecord>, name: string, path: string) {
    exists s :: s in symbols && s.name == name && !IsDefinition(s) && InFile(files, s.fileId, path)
  }

  /** A symbol in that file has an edge to a symbol of that name. */
  ghost predicate Reaches(files: seq<FileRecord>, symbols: seq<SymbolRecord>, edges: seq<SymbolEdge>, name: string,
                          path: string) {
    exists y, a, b :: y in edges && a in symbols && b in symbols && a.symbolId == y.fromSymbolId
      && b.symbolId == y.toSymbolId
      && b.name == name && InFile(files, a.fileId, path)
  }

  ghost predicate Uses(files: seq<FileRecord>, symbols: seq<SymbolRecord>, edges: seq<SymbolEdge>, name: string,
                       path: string) {
    Mentions(files, symbols, name, path) || Reaches(files, symbols, edges, name, path)
  }

  /** The share of the other files that use the name. */
  function Centrality(users: nat, files: nat): real {
    if files > 1 then users as real / (files - 1) as real else 0.0
  }

  function NodeOf(name: string, definedIn: string, users: set<string>, files: nat): SymbolNode {
    SymbolNode(name, definedIn, users, 1.0 + 0.25 * Centrality(|users|, files), Centrality(|users|, files))
  }

  ghost predicate NodeFits(files: seq<FileRecord>, symbols: seq<SymbolRecord>, edges: seq<SymbolEdge>, name: string,
                           node: SymbolNode) {
    && node == NodeOf(name, node.definedIn, node.usedInFiles, |files|)
    && Defines(files, symbols, name, node.definedIn)
    && (forall p :: Defines(files, symbols, name, p) && p != node.definedIn ==> Lt(node.definedIn, p))
    && (forall p :: p in node.usedInFiles <==> Uses(files, symbols, edges, name, p))
  }

  ghost predicate Indexed(files: seq<FileRecord>, symbols: seq<SymbolRecord>, edges: seq<SymbolEdge>,
                          index: map<string, SymbolNode>) {
    && (forall n :: n in index <==> n != "" && exists p :: Defines(files, symbols, n, p))
    && (forall n :: n in index ==> NodeFits(files, symbols, edges, n, index[n]))
  }

  /** The index is a function of the tables. */
  lemma IndexedUnique(files: seq<FileRecord>, symbols: seq<SymbolRecord>, edges: seq<SymbolEdge>,
                      a: map<string, SymbolNode>, b: map<string, SymbolNode>)
    requires Indexed(files, symbols, edges, a) && Indexed(files, symbols, edges, b)
    ensures a == b
  {
    hide Defines, Uses;
    forall n | n in a ensures a[n] == b[n] {
      assert NodeFits(files, symbols, edges, n, a[n]) && NodeFits(files, symbols, edges, n, b[n]);
      if a[n].definedIn != b[n].definedIn {
        LtAsymmetric(a[n].definedIn, b[n].definedIn);
      }
      assert a[n].usedInFiles == b[n].usedInFiles;
    }
  }

  /** Of the files only their number and the paths under the ids matter. */
  lemma SameFilesIndexed(files: seq<FileRecord>, files': seq<FileRecord>, symbols: seq<SymbolRecord>,
                         edges: seq<SymbolEdge>, index: map<string, SymbolNode>)
    requires |files'| == |files| && forall f, p :: InFile(files, f, p) <==> InFile(files', f, p)
    requires Indexed(files, symbols, edges, index)
    ensures Indexed(files', symbols, edges, index)
  {
    hide InFile;
    forall n, p ensures Defines(files, symbols, n, p) <==> Defines(files', symbols, n, p) {}
    forall n, p ensures Uses(files, symbols, edges, n, p) <==> Uses(files', symbols, edges, n, p) {}
    hide Defines, Uses;
    forall n | n in index ensures NodeFits(files', symbols, edges, n, index[n]) {
      assert NodeFits(files, symbols, edges, n, index[n]);
    }
  }

  // ----- building it -----

  type Paths = map<string, set<string>>

  function Put(m: Paths, name: string, path: string): Paths {
    m[name := (if name in m then m[name] else {}) + {path}]
  }

  ghost predicate Holds(m: Paths, name: string, path: string) {
    name in m && path in m[name]
  }

  ghost predicate NoneEmpty(m: Paths) {
    forall n :: n in m ==> m[n] != {}
  }

  lemma PutHolds(m: Paths, name: string, path: string)
    requires NoneEmpty(m)
    ensures NoneEmpty(Put(m, name, path))
    ensures forall n, p :: Holds(Put(m, name, path), n, p) <==> Holds(m, n, p) || (n == name && p == path)
  {
    assert path in Put(m, name, path)[name];
  }

  method PathsById(files: seq<FileRecord>) returns (pathByFileId: map<nat, string>)
    requires UniqueIds(files)
    ensures forall f, p :: (f in pathByFileId && pathByFileId[f] == p) <==> InFile(files, f, p)
  {
    pathByFileId := map[];
    var i := 0;
    while i < |files|
      invariant 0 <= i <= |files|
      invariant forall f :: f in pathByFileId <==> exists j :: 0 <= j < i && files[j].fileId == f
      invariant forall j :: 0 <= j < i ==> pathByFileId[files[j].fileId] == files[j].path
    {
      pathByFileId := pathByFileId[files[i].fileId := files[i].path];
      i := i + 1;
    }
    forall f, p ensures (f in pathByFileId && pathByFileId[f] == p) <==> InFile(files, f, p) {
      if f in pathByFileId && pathByFileId[f] == p {
        var j :| 0 <= j < |files| && files[j].fileId == f;
        assert files[j] in files;
      }
    }
  }

  method SymbolsById(symbols: seq<SymbolRecord>) returns (symbolById: map<nat, SymbolRecord>)
    requires UniqueSymbolIds(symbols)
    ensures forall s :: s in symbols <==> s.symbolId in symbolById && symbolById[s.symbolId] == s
    ensures forall id :: id in symbolById ==> symbolById[id].symbolId == id
  {
    symbolById := map[];
    var i := 0;
    while i < |symbols|
      invariant 0 <= i <= |symbols|
      invariant forall j :: 0 <= j < i ==>
        symbols[j].symbolId in symbolById && symbolById[symbols[j].symbolId] == symbols[j]
      invariant forall id :: id in symbolById ==> symbolById[id].symbolId == id && symbolById[id] in symbols
    {
      symbolById := symbolById[symbols[i].symbolId := symbols[i]];
      i := i + 1;
    }
  }

  /** First pass: the files that define a name, and the files with other symbols of that name. */
  method CollectNames(files: seq<FileRecord>, symbols: seq<SymbolRecord>, pathByFileId: map<nat, string>)
    returns (definitions: Paths, usage: Paths)
    requires forall f, p :: (f in pathByFileId && pathByFileId[f] == p) <==> InFile(files, f, p)
    ensures NoneEmpty(definitions) && NoneEmpty(usage)
    ensures forall n, p :: Holds(definitions, n, p) <==> n != "" && Defines(files, symbols, n, p)
    ensures forall n, p :: Holds(usage, n, p) <==> n != "" && Mentions(files, symbols, n, p)
  {
    definitions, usage := map[], map[];
    hide IsDefinition, Holds, NoneEmpty, Put;
    NothingHeld();
    var i := 0;
    while i < |symbols|
      invariant 0 <= i <= |symbols| && NoneEmpty(definitions) && NoneEmpty(usage)
      invariant forall n, p :: Holds(definitions, n, p) <==> n != "" && Defines(files, symbols[..i], n, p)
      invariant forall n, p :: Holds(usage, n, p) <==> n != "" && Mentions(files, symbols[..i], n, p)
    {
      var s := symbols[i];
      NamesNext(files, symbols, i);
      if s.name != "" && s.fileId in pathByFileId {
        var path := pathByFileId[s.fileId];
        assert forall p :: InFile(files, s.fileId, p) <==> p == path;
        if IsDefinition(s) {
          PutHolds(definitions, s.name, path);
          definitions := Put(definitions, s.name, path);
        } else {
          PutHolds(usage, s.name, path);
          usage := Put(usage, s.name, path);
        }
      }
      i := i + 1;
    }
    assert symbols[..i] == symbols;
  }

  lemma NothingHeld()
    ensures NoneEmpty(map[]) && forall n, p :: !Holds(map[], n, p)
  {
  }

  lemma NamesNext(files: seq<FileRecord>, symbols: seq<SymbolRecord>, i: nat)
    requires i < |symbols|
    ensures forall n, p :: Defines(files, symbols[..i + 1], n, p) <==>
      Defines(files, symbols[..i], n, p)
        || (symbols[i].name == n && IsDefinition(symbols[i]) && InFile(files, symbols[i].fileId, p))
    ensures forall n, p :: Mentions(files, symbols[..i + 1], n, p) <==>
      Mentions(files, symbols[..i], n, p)
        || (symbols[i].name == n && !IsDefinition(symbols[i]) && InFile(files, symbols[i].fileId, p))
    ensures forall n, p :: !Defines(files, [], n, p) && !Mentions(files, [], n, p)
  {
    hide InFile, IsDefinition;
    var front, longer, s := symbols[..i], symbols[..i + 1], symbols[i];
    assert longer == front + [s];
    assert forall x :: x in longer <==> x in front || x == s;
    forall n, p ensures Defines(files, longer, n, p) <==>
      Defines(files, front, n, p) || (s.name == n && IsDefinition(s) && InFile(files, s.fileId, p)) {
      assert s in longer;
    }
    forall n, p ensures Mentions(files, longer, n, p) <==>
      Mentions(files, front, n, p) || (s.name == n && !IsDefinition(s) && InFile(files, s.fileId, p)) {
      assert s in longer;
    }
  }

  /** Second pass: the files whose symbols have an edge to a symbol of that name. */
  method CollectEdges(files: seq<FileRecord>, symbols: seq<SymbolRecord>, edges: seq<SymbolEdge>,
                      pathByFileId: map<nat, string>, symbolById: map<nat, SymbolRecord>, usage: Paths)
                        returns (all: Paths)
    requires forall f, p :: (f in pathByFileId && pathByFileId[f] == p) <==> InFile(files, f, p)
    requires forall s :: s in symbols <==> s.symbolId in symbolById && symbolById[s.symbolId] == s
    requires forall id :: id in symbolById ==> symbolById[id].symbolId == id
    requires NoneEmpty(usage)
    ensures NoneEmpty(all)
    ensures forall n, p :: Holds(all, n, p) <==> Holds(usage, n, p) || (n != "" && Reaches(files, symbols, edges, n, p))
  {
    all := usage;
    hide Holds, NoneEmpty, Put;
    var i := 0;
    while i < |edges|
      invariant 0 <= i <= |edges| && NoneEmpty(all)
      invariant forall n, p :: Holds(all, n, p) <==>
        Holds(usage, n, p) || (n != "" && Reaches(files, symbols, edges[..i], n, p))
    {
      var y := edges[i];
      EdgesNext(files, symbols, edges, i);
      EdgeJoins(files, symbols, y, symbolById);
      if y.fromSymbolId in symbolById && y.toSymbolId in symbolById {
        var a, b := symbolById[y.fromSymbolId], symbolById[y.toSymbolId];
        if b.name != "" && a.fileId in pathByFileId {
          var path := pathByFileId[a.fileId];
          assert forall p :: InFile(files, a.fileId, p) <==> p == path;
          PutHolds(all, b.name, path);
          all := Put(all, b.name, path);
        }
      }
      i := i + 1;
    }
    assert edges[..i] == edges;
  }

  lemma EdgesNext(files: seq<FileRecord>, symbols: seq<SymbolRecord>, edges: seq<SymbolEdge>, i: nat)
    requires i < |edges|
    ensures forall n, p :: Reaches(files, symbols, edges[..i + 1], n, p) <==>
      Reaches(files, symbols, edges[..i], n, p) || Reaches(files, symbols, [edges[i]], n, p)
    ensures forall n, p :: !Reaches(files, symbols, [], n, p)
  {
    hide InFile;
    assert edges[..i + 1] == edges[..i] + [edges[i]];
    assert forall x :: x in edges[..i + 1] <==> x in edges[..i] || x == edges[i];
    assert forall x :: x in [edges[i]] <==> x == edges[i];
  }

  lemma EdgeJoins(files: seq<FileRecord>, symbols: seq<SymbolRecord>, y: SymbolEdge, symbolById: map<nat, SymbolRecord>)
    requires forall s :: s in symbols <==> s.symbolId in symbolById && symbolById[s.symbolId] == s
    requires forall id :: id in symbolById ==> symbolById[id].symbolId == id
    ensures forall n, p :: Reaches(files, symbols, [y], n, p) <==>
      && y.fromSymbolId in symbolById && y.toSymbolId in symbolById
      && symbolById[y.toSymbolId].name == n && InFile(files, symbolById[y.fromSymbolId].fileId, p)
  {
    hide InFile;
    assert forall x :: x in [y] <==> x == y;
    if y.fromSymbolId in symbolById && y.toSymbolId in symbolById {
      assert symbolById[y.fromSymbolId] in symbols && symbolById[y.toSymbolId] in symbols;
    }
  }

  method BuildSymbolIndex(files: seq<FileRecord>, symbols: seq<SymbolRecord>, edges: seq<SymbolEdge>)
    returns (index: map<string, SymbolNode>)
    requires UniqueIds(files) && UniqueSymbolIds(symbols) && NonEmptyPaths(files)
    ensures Indexed(files, symbols, edges, index)
  {
    hide *;
    var pathByFileId := PathsById(files);
    var symbolById := SymbolsById(symbols);
    var definitions, mentions := CollectNames(files, symbols, pathByFileId);
    var usage := CollectEdges(files, symbols, edges, pathByFileId, symbolById, mentions);
    index := map[];
    var todo := definitions.Keys;
    while todo != {}
      invariant todo <= definitions.Keys && index.Keys == definitions.Keys - todo
      invariant forall n :: n in index ==> NodeFits(files, symbols, edges, n, index[n])
      decreases |todo|
    {
      var name :| name in todo;
      HasPaths(definitions, name);
      var definedIn := Least(definitions[name]);
      var users := if name in usage then usage[name] else {};
      NodeBuilt(files, symbols, edges, definitions, mentions, usage, name, definedIn);
      index := index[name := NodeOf(name, definedIn, users, |files|)];
      todo := todo - {name};
    }
    AllNamed(files, symbols, definitions);
    IndexComplete(files, symbols, edges, index);
  }

  lemma IndexComplete(files: seq<FileRecord>, symbols: seq<SymbolRecord>, edges: seq<SymbolEdge>,
                      index: map<string, SymbolNode>)
    requires forall n :: n in index <==> n != "" && exists p :: Defines(files, symbols, n, p)
    requires forall n :: n in index ==> NodeFits(files, symbols, edges, n, index[n])
    ensures Indexed(files, symbols, edges, index)
  {
    hide Defines, NodeFits;
  }

  lemma HasPaths(m: Paths, name: string)
    requires NoneEmpty(m) && name in m
    ensures m[name] != {}
  {
  }

  lemma AllNamed(files: seq<FileRecord>, symbols: seq<SymbolRecord>, definitions: Paths)
    requires NoneEmpty(definitions)
      && forall n, p :: Holds(definitions, n, p) <==> n != "" && Defines(files, symbols, n, p)
    ensures forall n :: n in definitions <==> n != "" && exists p :: Defines(files, symbols, n, p)
  {
    hide Defines;
    forall n ensures n in definitions <==> n != "" && exists p :: Defines(files, symbols, n, p) {
      if n in definitions {
        var p :| p in definitions[n];
        assert Holds(definitions, n, p);
      }
      if n != "" && exists p :: Defines(files, symbols, n, p) {
        var p :| Defines(files, symbols, n, p);
        assert Holds(definitions, n, p);
      }
    }
  }

  lemma NodeBuilt(files: seq<FileRecord>, symbols: seq<SymbolRecord>, edges: seq<SymbolEdge>, definitions: Paths,
                  mentions: Paths, usage: Paths,
                  name: string, definedIn: string)
    requires name in definitions && NoneEmpty(definitions) && IsLeast(definedIn, definitions[name])
    requires forall n, p :: Holds(definitions, n, p) <==> n != "" && Defines(files, symbols, n, p)
    requires forall n, p :: Holds(mentions, n, p) <==> n != "" && Mentions(files, symbols, n, p)
    requires forall n, p :: Holds(usage, n, p) <==>
      Holds(mentions, n, p) || (n != "" && Reaches(files, symbols, edges, n, p))
    ensures NodeFits(files, symbols, edges, name,
      NodeOf(name, definedIn, if name in usage then usage[name] else {}, |files|))
  {
    hide Defines, Mentions, Reaches, Lt;
    assert Holds(definitions, name, definedIn);
    var users := if name in usage then usage[name] else {};
    assert forall p :: p in users <==> Holds(usage, name, p);
    forall p | Defines(files, symbols, name, p) && p != definedIn ensures Lt(definedIn, p) {
      assert Holds(definitions, name, p);
    }
  }

  // ----- what an entry tells -----

  /** Imports, exports and symbols of unknown type do not define a name; everything else does. */
  ghost predicate MentionOnly(t: SymbolType) {
    t.UnknownType? || t.Import? || t.Export?
  }

  /** A symbol of that name in that file, a mention or more. */
  ghost predicate FoundIn(files: seq<FileRecord>, symbols: seq<SymbolRecord>, n: string, path: string, mention: bool) {
    exists s, r ::
      && s in symbols && r in files && s.name == n && s.fileId == r.fileId && r.path == path
      && MentionOnly(s.symbolType) == mention
  }

  lemma OccurrencesAre(files: seq<FileRecord>, symbols: seq<SymbolRecord>, n: string, path: string)
    ensures FoundIn(files, symbols, n, path, false) <==> Defines(files, symbols, n, path)
    ensures FoundIn(files, symbols, n, path, true) <==> Mentions(files, symbols, n, path)
  {
  }

  /** A name is indexed exactly when some file holds a symbol of that name that is more than a mention. Its entry bears
      the name, the least such file, and the files that mention it or have an edge to it; its centrality is their share
      of the other files, and its weight one and a quarter of that. */
  lemma EntryExplained(files: seq<FileRecord>, symbols: seq<SymbolRecord>, edges: seq<SymbolEdge>,
                       index: map<string, SymbolNode>, n: string)
    requires Indexed(files, symbols, edges, index)
    ensures n in index <==> n != "" && exists p :: FoundIn(files, symbols, n, p, false)
    ensures n in index ==>
      && index[n].name == n && FoundIn(files, symbols, n, index[n].definedIn, false)
      && (forall p :: FoundIn(files, symbols, n, p, false) ==> p == index[n].definedIn || Lt(index[n].definedIn, p))
      && (forall p :: p in index[n].usedInFiles <==>
           FoundIn(files, symbols, n, p, true) || Reaches(files, symbols, edges, n, p))
      && index[n].weight == 1.0 + index[n].centrality / 4.0
      && (if |files| > 1 then index[n].centrality * (|files| - 1) as real == |index[n].usedInFiles| as real
          else index[n].centrality == 0.0)
  {
    hide FoundIn, Defines, Mentions, Reaches, NodeOf, Lt;
    forall p ensures FoundIn(files, symbols, n, p, false) <==> Defines(files, symbols, n, p) {
      OccurrencesAre(files, symbols, n, p);
    }
    forall p ensures FoundIn(files, symbols, n, p, true) <==> Mentions(files, symbols, n, p) {
      OccurrencesAre(files, symbols, n, p);
    }
    if n in index {
      assert NodeFits(files, symbols, edges, n, index[n]);
      NodeShare(n, index[n], |files|);
    }
  }

  lemma NodeShare(n: string, node: SymbolNode, files: nat)
    requires node == NodeOf(n, node.definedIn, node.usedInFiles, files)
    ensures node.name == n && node.weight == 1.0 + node.centrality / 4.0
    ensures if files > 1 then node.centrality * (files - 1) as real == |node.usedInFiles| as real
      else node.centrality == 0.0
  {
    ShareOf(|node.usedInFiles|, files);
    hide Centrality;
  }

  lemma ShareOf(users: nat, files: nat)
    ensures if files > 1 then Centrality(users, files) * (files - 1) as real == users as real
      else Centrality(users, files) == 0.0
  {
  }
}
