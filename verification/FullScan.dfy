/** `ParallelScanner::runFullScan` and `Scanner::fullScanParallel`: workers take the files from a queue and collect what
    they find in buffers of their own, which are joined when all are done. */
module FullScans {
  // Which worker takes which file only shows in the order in which the files' findings are joined; here that order is
  // arbitrary.

  import opened Orders
  import opened Decimals
  import opened Symbols
  import opened SymbolTables
  import opened DependencyTables
  import opened SymbolIndexes
  import opened Scanners

  predicate SemanticLess(a: SemanticDependency, b: SemanticDependency) {
    if a.fromSymbol != b.fromSymbol then Lt(a.fromSymbol, b.fromSymbol)
    else if a.toSymbol != b.toSymbol then Lt(a.toSymbol, b.toSymbol)
    else a.lineNumber < b.lineNumber
  }

  lemma SemanticOrder()
    ensures Comparator(SemanticLess)
    ensures forall a, b :: a != b ==> SemanticLess(a, b) || SemanticLess(b, a)
  {
    LtComparator();
    forall a: SemanticDependency, b: SemanticDependency | a != b ensures SemanticLess(a, b) || SemanticLess(b, a) {
      LtTotal(a.fromSymbol, b.fromSymbol);
      LtTotal(a.toSymbol, b.toSymbol);
    }
  }

  const ZERO_HASH: seq<bv8> :=
    [0, 0, 0, 0, 0, 0, 0, 0, 0, 0, 0, 0, 0, 0, 0, 0, 0, 0, 0, 0, 0, 0, 0, 0, 0, 0, 0, 0, 0, 0, 0, 0]

  // ----- what a full scan gives -----

  /** The file can be hashed and parsed and does not hold too many symbols; a digest of zeros counts as none. */
  predicate Scannable(path: string, disk: Disk) {
    path in disk.hashes && disk.hashes[path] != ZERO_HASH && Readable(path, disk)
  }

  function RecordAt(disk: Disk, i: nat, path: string): FileRecord
    requires path in disk.discovered && path in disk.hashes
  {
    FileRecord(i + 1, path, disk.hashes[path], disk.discovered[path].language, disk.discovered[path].lastModified)
  }

  /** One record per file found, by ascending path, numbered from one. */
  ghost predicate Registered(disk: Disk, files: seq<FileRecord>) {
    && Ascending(Mapped(FilePathOf, files)) && Elems(Mapped(FilePathOf, files)) == disk.discovered.Keys
    && forall i :: 0 <= i < |files| ==>
         files[i].path in disk.discovered && files[i].path in disk.hashes
           && files[i] == RecordAt(disk, i, files[i].path)
  }

  /** What is found in one file. */
  datatype Piece = Piece(symbols: seq<SymbolRecord>, dependencies: seq<SemanticDependency>, edges: seq<FileEdge>)

  ghost predicate PieceOf(disk: Disk, resolve: Resolver, files: seq<FileRecord>, i: nat, p: Piece) {
    && i < |files| && Readable(files[i].path, disk)
    && Built(i + 1, disk.parses[files[i].path].symbols, p.symbols)
    && StrictlySorted(SemanticLess, p.dependencies)
    && (forall d :: d in p.dependencies <==> d in disk.parses[files[i].path].dependencies)
    && p.edges == NewEdges(resolve, files, i + 1, files[i].path, disk.parses[files[i].path].references)
  }

  ghost predicate PiecesOf(disk: Disk, resolve: Resolver, files: seq<FileRecord>, pieces: seq<Piece>) {
    |pieces| == |files| && forall i: nat :: i < |pieces| ==> PieceOf(disk, resolve, files, i, pieces[i])
  }

  ghost predicate Within(order: seq<nat>, n: nat) {
    forall k :: 0 <= k < |order| ==> order[k] < n
  }

  /** Each of the first `n` numbers once. */
  ghost predicate Permutes(order: seq<nat>, n: nat) {
    Within(order, n) && NoDup(order) && forall i: nat :: i < n ==> i in order
  }

  /** The findings of one more file behind those joined so far. */
  function Extended(t: Tables, i: nat, p: Piece): Tables {
    t.(symbols := t.symbols + p.symbols, fileEdges := t.fileEdges + p.edges,
      semantics := t.semantics[i + 1 := p.dependencies])
  }

  /** The findings joined in this order. */
  ghost function Joined(files: seq<FileRecord>, pieces: seq<Piece>, order: seq<nat>): Tables
    requires Within(order, |pieces|)
  {
    if order == [] then Tables(files, [], [], [], map[], map[])
    else Extended(Joined(files, pieces, order[..|order| - 1]), order[|order| - 1], pieces[order[|order| - 1]])
  }

  /** Everything found in some order, and the derived tables computed from it. */
  ghost predicate ScannedAs(disk: Disk, resolve: Resolver, files: seq<FileRecord>, pieces: seq<Piece>, order: seq<nat>,
                            t: Tables) {
    && Registered(disk, files) && PiecesOf(disk, resolve, files, pieces) && Permutes(order, |pieces|)
    && RebuiltTo(Joined(files, pieces, order), t)
  }

  ghost predicate FullScanned(disk: Disk, resolve: Resolver, t: Tables) {
    exists files, pieces, order :: ScannedAs(disk, resolve, files, pieces, order, t)
  }

  // ----- the tables are sound -----

  lemma LastOf(order: seq<nat>)
    requires order != []
    ensures forall i :: i in order <==> i in order[..|order| - 1] || i == order[|order| - 1]
  {
    assert order == order[..|order| - 1] + [order[|order| - 1]];
  }

  lemma {:induction false} JoinedSymbols(files: seq<FileRecord>, pieces: seq<Piece>, order: seq<nat>)
    requires Within(order, |pieces|)
    ensures forall s :: s in Joined(files, pieces, order).symbols <==> exists i :: i in order && s in pieces[i].symbols
  {
    if order != [] {
      JoinedSymbols(files, pieces, order[..|order| - 1]);
      LastOf(order);
    }
  }

  lemma {:induction false} JoinedEdges(files: seq<FileRecord>, pieces: seq<Piece>, order: seq<nat>)
    requires Within(order, |pieces|)
    ensures forall e :: e in Joined(files, pieces, order).fileEdges <==> exists i :: i in order && e in pieces[i].edges
  {
    if order != [] {
      JoinedEdges(files, pieces, order[..|order| - 1]);
      LastOf(order);
    }
  }

  lemma {:induction false} JoinedSemantics(files: seq<FileRecord>, pieces: seq<Piece>, order: seq<nat>)
    requires Within(order, |pieces|)
    ensures Joined(files, pieces, order).files == files
    ensures forall f :: f in Joined(files, pieces, order).semantics <==> f > 0 && f - 1 in order
    ensures forall i :: i in order ==> Joined(files, pieces, order).semantics[i + 1] == pieces[i].dependencies
  {
    if order != [] {
      JoinedSemantics(files, pieces, order[..|order| - 1]);
      LastOf(order);
    }
  }

  /** What has been joined is what was found in the files joined so far. */
  lemma JoinedHolds(files: seq<FileRecord>, pieces: seq<Piece>, order: seq<nat>)
    requires Within(order, |pieces|)
    ensures Joined(files, pieces, order).files == files
    ensures forall s :: s in Joined(files, pieces, order).symbols <==> exists i :: i in order && s in pieces[i].symbols
    ensures forall e :: e in Joined(files, pieces, order).fileEdges <==> exists i :: i in order && e in pieces[i].edges
    ensures forall f :: f in Joined(files, pieces, order).semantics <==> f > 0 && f - 1 in order
    ensures forall i :: i in order ==> Joined(files, pieces, order).semantics[i + 1] == pieces[i].dependencies
  {
    hide Joined;
    JoinedSymbols(files, pieces, order);
    JoinedEdges(files, pieces, order);
    JoinedSemantics(files, pieces, order);
  }

  lemma FileHasId(disk: Disk, files: seq<FileRecord>, i: nat)
    requires Registered(disk, files) && i < |files|
    ensures HasId(files, i + 1)
  {
    assert files[i] in files;
  }

  lemma RegisteredSound(disk: Disk, files: seq<FileRecord>)
    requires Registered(disk, files) && "" !in disk.discovered && |files| < TWO_32
    ensures FilesSound(files)
  {
    var paths := Mapped(FilePathOf, files);
    forall i, j | 0 <= i < j < |files| ensures files[i].fileId != files[j].fileId && files[i].path != files[j].path {
      assert Lt(paths[i], paths[j]);
      LtIrreflexive(paths[i]);
    }
    forall r | r in files ensures r.path != "" && r.fileId < TWO_32 {
      var i :| 0 <= i < |files| && files[i] == r;
    }
  }

  lemma ExtendedPresound(disk: Disk, resolve: Resolver, t: Tables, i: nat, p: Piece)
    requires Presound(t) && PieceOf(disk, resolve, t.files, i, p) && HasId(t.files, i + 1) && i + 1 < TWO_32
    requires forall s :: s in t.symbols ==> s.fileId != i + 1
    ensures Presound(Extended(t, i, p))
  {
    hide PieceOf, FilesSound, SymbolsSound, HasId, NotOf;
    KeepsOthers(t.symbols, i + 1);
    PieceSymbols(disk, resolve, t.files, i, p, t.symbols);
    PieceEdges(disk, resolve, t.files, i, p);
  }

  lemma KeepsOthers(symbols: seq<SymbolRecord>, id: nat)
    requires forall s :: s in symbols ==> s.fileId != id
    ensures Filter(NotOf(id), symbols) == symbols
  {
    FilterAll(NotOf(id), symbols);
  }

  lemma {:induction false} JoinedPresound(disk: Disk, resolve: Resolver, files: seq<FileRecord>, pieces: seq<Piece>,
                                          order: seq<nat>)
    requires Registered(disk, files) && "" !in disk.discovered && |files| < TWO_32
    requires PiecesOf(disk, resolve, files, pieces) && Within(order, |pieces|) && NoDup(order)
    ensures Presound(Joined(files, pieces, order))
  {
    hide Registered, PieceOf, FilesSound, SymbolsSound, LinksSound, HasId, Extended, Presound;
    if order == [] {
      RegisteredSound(disk, files);
      NothingJoined(files);
    } else {
      var n := |order| - 1;
      var front, i := order[..n], order[n];
      JoinedPresound(disk, resolve, files, pieces, front);
      JoinedHolds(files, pieces, front);
      var t := Joined(files, pieces, front);
      FileHasId(disk, files, i);
      forall s | s in t.symbols ensures s.fileId != i + 1 {
        var k :| k in front && s in pieces[k].symbols;
        PieceFile(disk, resolve, files, k, pieces[k], s);
      }
      ExtendedPresound(disk, resolve, t, i, pieces[i]);
    }
  }

  lemma NothingJoined(files: seq<FileRecord>)
    requires FilesSound(files)
    ensures Presound(Tables(files, [], [], [], map[], map[]))
  {
  }

  lemma PieceFile(disk: Disk, resolve: Resolver, files: seq<FileRecord>, i: nat, p: Piece, s: SymbolRecord)
    requires PieceOf(disk, resolve, files, i, p) && s in p.symbols && i + 1 < TWO_32
    ensures s.fileId == i + 1
  {
    hide Built, SymbolLess;
    BuiltSound(i + 1, disk.parses[files[i].path].symbols, p.symbols);
  }

  lemma PieceSymbols(disk: Disk, resolve: Resolver, files: seq<FileRecord>, i: nat, p: Piece,
                     symbols: seq<SymbolRecord>)
    requires PieceOf(disk, resolve, files, i, p) && HasId(files, i + 1) && i + 1 < TWO_32
    requires SymbolsSound(files, symbols) && Filter(NotOf(i + 1), symbols) == symbols
    ensures SymbolsSound(files, symbols + p.symbols)
  {
    hide Built, SymbolsSound, HasId;
    ReplacedSymbols(files, symbols, i + 1, disk.parses[files[i].path].symbols, p.symbols);
  }

  lemma PieceEdges(disk: Disk, resolve: Resolver, files: seq<FileRecord>, i: nat, p: Piece)
    requires PieceOf(disk, resolve, files, i, p)
    ensures forall e :: e in p.edges ==> e.fromFileId == i + 1 && HasId(files, e.toFileId)
  {
    hide HasId, Built;
  }

  /** Whatever the order, a full scan gives sound tables. */
  lemma FullScanSound(disk: Disk, resolve: Resolver, t: Tables)
    requires FullScanned(disk, resolve, t) && "" !in disk.discovered && |disk.discovered| < TWO_32
    ensures Sound(t)
  {
    hide Registered, PiecesOf, RebuiltTo, Joined, Sound, Presound;
    var files, pieces, order :| ScannedAs(disk, resolve, files, pieces, order, t);
    FileCount(disk, files);
    JoinedPresound(disk, resolve, files, pieces, order);
    RebuildSound(Joined(files, pieces, order), t);
  }

  lemma FileCount(disk: Disk, files: seq<FileRecord>)
    requires Registered(disk, files)
    ensures |files| == |disk.discovered|
  {
    var paths := Mapped(FilePathOf, files);
    AscendingNoDup(paths);
    NoDupSize(paths);
  }

  // ----- no schedule shows in the result -----

  /** Equal in all that the symbol order compares. */
  predicate Tied(x: ExtractedSymbol, y: ExtractedSymbol) {
    && x.lineNumber == y.lineNumber && x.name == y.name && x.signature == y.signature
    && x.symbolType == y.symbolType && x.visibility == y.visibility
  }

  ghost predicate Untied(extracted: seq<ExtractedSymbol>) {
    forall i, j :: 0 <= i < j < |extracted| ==> !Tied(extracted[i], extracted[j])
  }

  ghost predicate NoTies(disk: Disk) {
    forall path :: path in disk.parses ==> Untied(disk.parses[path].symbols)
  }

  lemma UntiedSeparates(id: nat, x: ExtractedSymbol, y: ExtractedSymbol)
    requires !Tied(x, y)
    ensures SymbolLess(Draft(id, x), Draft(id, y)) || SymbolLess(Draft(id, y), Draft(id, x))
  {
    LtTotal(x.name, y.name);
    LtTotal(x.signature, y.signature);
  }

  /** The symbols of a file without ties are strictly sorted. */
  lemma BuiltStrict(id: nat, extracted: seq<ExtractedSymbol>, symbols: seq<SymbolRecord>)
    requires Untied(extracted) && Built(id, extracted, symbols)
    ensures StrictlySorted(SymbolLess, symbols)
  {
    hide SymbolLess, Draft, Tied;
    var drafts := Drafts(id, extracted);
    var sorted :| SortedBy(SymbolLess, sorted) && multiset(sorted) == multiset(drafts)
      && symbols == Numbered(id, sorted);
    SymbolLessComparator();
    forall i, j | 0 <= i < j < |drafts| ensures SymbolLess(drafts[i], drafts[j]) || SymbolLess(drafts[j], drafts[i]) {
      UntiedSeparates(id, extracted[i], extracted[j]);
    }
    assert NoDup(drafts);
    PermutationNoDup(drafts, sorted);
    MultisetElems(sorted, drafts);
    forall i, j | 0 <= i < j < |symbols| ensures SymbolLess(symbols[i], symbols[j]) {
      InBag(sorted, drafts, i);
      InBag(sorted, drafts, j);
      assert sorted[i] != sorted[j];
      IdsDoNotCount(sorted[i], sorted[j], symbols[i].symbolId, symbols[j].symbolId);
    }
  }

  lemma FilesDetermined(disk: Disk, files: seq<FileRecord>, files': seq<FileRecord>)
    requires Registered(disk, files) && Registered(disk, files')
    ensures files == files'
  {
    var paths, paths' := Mapped(FilePathOf, files), Mapped(FilePathOf, files');
    AscendingUnique(paths, paths');
    forall i | 0 <= i < |files| ensures files[i] == files'[i] {
      assert paths[i] == paths'[i];
    }
  }

  lemma PieceDetermined(disk: Disk, resolve: Resolver, files: seq<FileRecord>, i: nat, p: Piece, p': Piece)
    requires PieceOf(disk, resolve, files, i, p) && PieceOf(disk, resolve, files, i, p')
      && Untied(disk.parses[files[i].path].symbols)
    requires i + 1 < TWO_32
    ensures p == p'
  {
    hide SymbolLess, SemanticLess, Built, Untied, NewEdges;
    var parse := disk.parses[files[i].path];
    SemanticOrder();
    StrictUnique(SemanticLess, p.dependencies, p'.dependencies);
    BuiltDetermined(i + 1, parse.symbols, p.symbols, p'.symbols);
  }

  lemma BuiltDetermined(id: nat, extracted: seq<ExtractedSymbol>, symbols: seq<SymbolRecord>,
                        symbols': seq<SymbolRecord>)
    requires Untied(extracted) && Built(id, extracted, symbols) && Built(id, extracted, symbols')
    ensures symbols == symbols'
  {
    hide SymbolLess, Draft, Tied;
    var drafts := Drafts(id, extracted);
    var a :| SortedBy(SymbolLess, a) && multiset(a) == multiset(drafts) && symbols == Numbered(id, a);
    var b :| SortedBy(SymbolLess, b) && multiset(b) == multiset(drafts) && symbols' == Numbered(id, b);
    BuiltStrict(id, extracted, symbols);
    BuiltStrict(id, extracted, symbols');
    StrictBefore(id, a);
    StrictBefore(id, b);
    SymbolLessComparator();
    SameSymbols(a, b);
    StrictUnique(SymbolLess, a, b);
  }

  lemma StrictBefore(id: nat, sorted: seq<SymbolRecord>)
    requires StrictlySorted(SymbolLess, Numbered(id, sorted))
    ensures StrictlySorted(SymbolLess, sorted)
  {
    hide SymbolLess;
    var symbols := Numbered(id, sorted);
    forall i, j | 0 <= i < j < |sorted| ensures SymbolLess(sorted[i], sorted[j]) {
      assert SymbolLess(symbols[i], symbols[j]);
      IdsDoNotCount(sorted[i], sorted[j], symbols[i].symbolId, symbols[j].symbolId);
    }
  }

  lemma PiecesDetermined(disk: Disk, resolve: Resolver, files: seq<FileRecord>, pieces: seq<Piece>, pieces': seq<Piece>)
    requires PiecesOf(disk, resolve, files, pieces) && PiecesOf(disk, resolve, files, pieces') && NoTies(disk)
      && |files| < TWO_32
    ensures pieces == pieces'
  {
    hide PieceOf, Untied;
    forall i: nat | i < |pieces| ensures pieces[i] == pieces'[i] {
      PieceParsed(disk, resolve, files, i, pieces[i]);
      PieceDetermined(disk, resolve, files, i, pieces[i], pieces'[i]);
    }
  }

  lemma PieceParsed(disk: Disk, resolve: Resolver, files: seq<FileRecord>, i: nat, p: Piece)
    requires PieceOf(disk, resolve, files, i, p)
    ensures i < |files| && files[i].path in disk.parses
  {
    hide Built, NewEdges;
  }

  /** Two symbols found in the project are never tied. */
  lemma JoinedSeparates(disk: Disk, resolve: Resolver, files: seq<FileRecord>, pieces: seq<Piece>, order: seq<nat>,
                        x: SymbolRecord, y: SymbolRecord)
    requires PiecesOf(disk, resolve, files, pieces) && Within(order, |pieces|) && NoTies(disk) && |files| < TWO_32
    requires x in Joined(files, pieces, order).symbols && y in Joined(files, pieces, order).symbols && x != y
    ensures SymbolLess(x, y) || SymbolLess(y, x)
  {
    hide PieceOf, Joined, Untied, SymbolLess;
    JoinedHolds(files, pieces, order);
    var i :| i in order && x in pieces[i].symbols;
    var j :| j in order && y in pieces[j].symbols;
    PieceFile(disk, resolve, files, i, pieces[i], x);
    PieceFile(disk, resolve, files, j, pieces[j], y);
    if i != j {
      OtherFileSeparates(x, y);
    } else {
      PieceStrict(disk, resolve, files, i, pieces[i]);
      StrictSeparates(pieces[i].symbols, x, y);
    }
  }

  lemma OtherFileSeparates(x: SymbolRecord, y: SymbolRecord)
    requires x.fileId != y.fileId
    ensures SymbolLess(x, y) || SymbolLess(y, x)
  {
  }

  lemma StrictSeparates(s: seq<SymbolRecord>, x: SymbolRecord, y: SymbolRecord)
    requires StrictlySorted(SymbolLess, s) && x in s && y in s && x != y
    ensures SymbolLess(x, y) || SymbolLess(y, x)
  {
    hide SymbolLess;
    var i :| 0 <= i < |s| && s[i] == x;
    var j :| 0 <= j < |s| && s[j] == y;
  }

  lemma PieceStrict(disk: Disk, resolve: Resolver, files: seq<FileRecord>, i: nat, p: Piece)
    requires PieceOf(disk, resolve, files, i, p) && NoTies(disk)
    ensures StrictlySorted(SymbolLess, p.symbols)
  {
    hide SymbolLess, Built, Untied, NewEdges;
    BuiltStrict(i + 1, disk.parses[files[i].path].symbols, p.symbols);
  }

  /** Joined in another order, the findings are the same but for the order of symbols and edges. */
  lemma JoinedSame(files: seq<FileRecord>, pieces: seq<Piece>, order: seq<nat>, order': seq<nat>)
    requires Permutes(order, |pieces|) && Permutes(order', |pieces|)
    ensures var a, b := Joined(files, pieces, order), Joined(files, pieces, order');
      && a.files == b.files && a.semantics == b.semantics
      && (forall s :: s in a.symbols <==> s in b.symbols) && forall e :: e in a.fileEdges <==> e in b.fileEdges
  {
    hide Joined;
    assert forall i :: i in order <==> i in order' by {
      forall i | i in order ensures i in order' { var k :| 0 <= k < |order| && order[k] == i; }
      forall i | i in order' ensures i in order { var k :| 0 <= k < |order'| && order'[k] == i; }
    }
    JoinedHolds(files, pieces, order);
    JoinedHolds(files, pieces, order');
    var a, b := Joined(files, pieces, order).semantics, Joined(files, pieces, order').semantics;
    forall f | f in a ensures f in b && a[f] == b[f] {
      assert f - 1 in order;
    }
    assert a.Keys == b.Keys;
  }

  /** What a rebuild makes of tables without ties depends on nothing but the elements of their lists. */
  lemma RebuildDetermined(t: Tables, t': Tables, a: Tables, b: Tables)
    requires Presound(t) && Presound(t') && RebuiltTo(t, a) && RebuiltTo(t', b)
    requires t.files == t'.files && t.semantics == t'.semantics
    requires (forall s :: s in t.symbols <==> s in t'.symbols) && forall e :: e in t.fileEdges <==> e in t'.fileEdges
    requires forall x, y :: x in t.symbols && y in t.symbols && x != y ==> SymbolLess(x, y) || SymbolLess(y, x)
    ensures a == b
  {
    hide SymbolLess, FileEdgeLess, Derived, Indexed, FilesSound, UniqueSymbolIds;
    SameSymbols(a.symbols, t.symbols);
    SameSymbols(b.symbols, t'.symbols);
    UniqueIdsBag(t.symbols, a.symbols);
    UniqueIdsBag(t'.symbols, b.symbols);
    SortedIsStrict(a.symbols);
    SortedIsStrict(b.symbols);
    SymbolLessComparator();
    StrictUnique(SymbolLess, a.symbols, b.symbols);
    EdgeOrders();
    StrictUnique(FileEdgeLess, a.fileEdges, b.fileEdges);
    DerivedUnique(a.symbols, a.fileEdges, a.semantics, a.symbolEdges, b.symbolEdges);
    IndexedUnique(a.files, a.symbols, a.symbolEdges, a.index, b.index);
  }

  /** However the files were shared out among the workers, a full scan of a project without ties gives the
      same tables. */
  lemma ScheduleDoesNotShow(disk: Disk, resolve: Resolver, a: Tables, b: Tables)
    requires FullScanned(disk, resolve, a) && FullScanned(disk, resolve, b)
    requires NoTies(disk) && "" !in disk.discovered && |disk.discovered| < TWO_32
    ensures a == b
  {
    hide Registered, PiecesOf, RebuiltTo, Joined, Presound, SymbolLess, NoTies;
    var files, pieces, order :| ScannedAs(disk, resolve, files, pieces, order, a);
    var files', pieces', order' :| ScannedAs(disk, resolve, files', pieces', order', b);
    FileCount(disk, files);
    FilesDetermined(disk, files, files');
    PiecesDetermined(disk, resolve, files, pieces, pieces');
    JoinedPresound(disk, resolve, files, pieces, order);
    JoinedPresound(disk, resolve, files, pieces, order');
    JoinedSame(files, pieces, order, order');
    forall x, y | x in Joined(files, pieces, order).symbols && y in Joined(files, pieces, order).symbols && x != y
      ensures SymbolLess(x, y) || SymbolLess(y, x)
    {
      JoinedSeparates(disk, resolve, files, pieces, order, x, y);
    }
    RebuildDetermined(Joined(files, pieces, order), Joined(files, pieces, order'), a, b);
  }

  // ----- the scan -----

  method SortDependencies(dependencies: seq<SemanticDependency>) returns (r: seq<SemanticDependency>)
    ensures StrictlySorted(SemanticLess, r) && forall d :: d in r <==> d in dependencies
  {
    SemanticOrder();
    var sorted := Sort(dependencies, SemanticLess);
    UniqueSorted(SemanticLess, sorted);
    MultisetElems(sorted, dependencies);
    r := Unique(sorted);
    assert forall d :: (d in r <==> d in Elems(r)) && (d in dependencies <==> d in Elems(dependencies));
  }

  /** The record before the file has been hashed. */
  function Blank(disk: Disk, i: nat, path: string): FileRecord
    requires path in disk.discovered
  {
    FileRecord(i + 1, path, ZERO_HASH, disk.discovered[path].language, disk.discovered[path].lastModified)
  }

  /** The same files, whatever their digests. */
  ghost predicate SameFiles(files: seq<FileRecord>, files': seq<FileRecord>) {
    |files| == |files'|
      && forall i :: 0 <= i < |files| ==> files[i].fileId == files'[i].fileId && files[i].path == files'[i].path
  }

  lemma {:induction false} SameIdAt(files: seq<FileRecord>, files': seq<FileRecord>, path: string)
    requires SameFiles(files, files')
    ensures IdAt(files, path) == IdAt(files', path)
  {
    if files != [] { SameIdAt(files[..|files| - 1], files'[..|files| - 1], path); }
  }

  lemma SamePaths(files: seq<FileRecord>, files': seq<FileRecord>)
    requires SameFiles(files, files')
    ensures PathsOf(files) == PathsOf(files')
  {
    forall p ensures p in PathsOf(files) <==> p in PathsOf(files') {
      SameIdAt(files, files', p);
    }
  }

  lemma {:induction false} SameNewEdges(resolve: Resolver, files: seq<FileRecord>, files': seq<FileRecord>, id: nat,
                                        path: string, references: seq<string>)
    requires SameFiles(files, files')
    ensures NewEdges(resolve, files, id, path, references) == NewEdges(resolve, files', id, path, references)
  {
    SamePaths(files, files');
    if references != [] {
      SameNewEdges(resolve, files, files', id, path, references[..|references| - 1]);
      var target := resolve(path, references[|references| - 1], PathsOf(files));
      if target.Some? { SameIdAt(files, files', target.value); }
    }
  }

  /** The record once the file has been hashed. */
  function Hashed(disk: Disk, i: nat, path: string): FileRecord
    requires path in disk.discovered
  {
    if path in disk.hashes then RecordAt(disk, i, path) else Blank(disk, i, path)
  }

  function Blanks(disk: Disk, paths: seq<string>): (r: seq<FileRecord>)
    requires forall p :: p in paths ==> p in disk.discovered
    ensures |r| == |paths| && forall i :: 0 <= i < |r| ==> r[i] == Blank(disk, i, paths[i])
  {
    seq(|paths|, i requires 0 <= i < |paths| => Blank(disk, i, paths[i]))
  }

  function AllHashed(disk: Disk, paths: seq<string>): (r: seq<FileRecord>)
    requires forall p :: p in paths ==> p in disk.discovered
    ensures |r| == |paths| && forall i :: 0 <= i < |r| ==> r[i] == Hashed(disk, i, paths[i])
  {
    seq(|paths|, i requires 0 <= i < |paths| => Hashed(disk, i, paths[i]))
  }

  lemma {:induction false} JoinedElsewhere(files: seq<FileRecord>, pieces: seq<Piece>, order: seq<nat>, i: nat,
                                           p: Piece)
    requires Within(order, |pieces|) && i < |pieces| && i !in order
    ensures Joined(files, pieces[i := p], order) == Joined(files, pieces, order)
  {
    if order != [] {
      assert order == order[..|order| - 1] + [order[|order| - 1]];
      JoinedElsewhere(files, pieces, order[..|order| - 1], i, p);
    }
  }

  lemma JoinedNext(files: seq<FileRecord>, pieces: seq<Piece>, order: seq<nat>, k: nat, p: Piece)
    requires Permutes(order, |pieces|) && k < |order|
    ensures Joined(files, pieces[order[k] := p], order[..k + 1]) ==
      Extended(Joined(files, pieces, order[..k]), order[k], p)
  {
    JoinedElsewhere(files, pieces, order[..k], order[k], p);
    assert order[..k + 1][..k] == order[..k];
  }

  /** The files found, in the order of their paths. */
  lemma HashedRegistered(disk: Disk, paths: seq<string>)
    requires Ascending(paths) && Elems(paths) == disk.discovered.Keys
      && forall p :: p in paths ==> p in disk.discovered && p in disk.hashes
    ensures Registered(disk, AllHashed(disk, paths))
  {
    var files := AllHashed(disk, paths);
    assert Mapped(FilePathOf, files) == paths;
    forall i | 0 <= i < |files| ensures files[i] == RecordAt(disk, i, files[i].path) {
      assert paths[i] in paths;
    }
  }

  lemma PathCount(disk: Disk, paths: seq<string>)
    requires Ascending(paths) && Elems(paths) == disk.discovered.Keys
    ensures |paths| == |disk.discovered|
  {
    AscendingNoDup(paths);
    NoDupSize(paths);
  }

  /** What a worker does with one file: nothing when the file cannot be hashed or parsed or holds too many symbols. */
  method ScanFile(scanner: Scanner, disk: Disk, files: seq<FileRecord>, i: nat) returns (r: Option<Piece>)
    requires i < |files| && files[i].fileId == i + 1
    ensures r.Some? <==> files[i].path in disk.hashes && Readable(files[i].path, disk)
    ensures r.Some? ==> PieceOf(disk, scanner.resolve, files, i, r.value)
  {
    hide Built, NewEdges, SemanticLess;
    var path := files[i].path;
    if path !in disk.hashes || path !in disk.parses {
      return None;
    }
    var parse := disk.parses[path];
    var symbols := BuildFromExtracted(i + 1, parse.symbols);
    if symbols.None? {
      return None;
    }
    var edges := scanner.ResolveReferences(files, i + 1, path, parse.references);
    var dependencies := SortDependencies(parse.dependencies);
    return Some(Piece(symbols.value, dependencies, edges));
  }

  lemma SamePiece(disk: Disk, resolve: Resolver, files: seq<FileRecord>, files': seq<FileRecord>, i: nat, p: Piece)
    requires SameFiles(files, files') && PieceOf(disk, resolve, files, i, p)
    ensures PieceOf(disk, resolve, files', i, p)
  {
    hide Built, SemanticLess, SameFiles, NewEdges;
    SameNewEdges(resolve, files, files', i + 1, files[i].path, disk.parses[files[i].path].references);
    SameAt(files, files', i);
  }

  lemma SameAt(files: seq<FileRecord>, files': seq<FileRecord>, i: nat)
    requires SameFiles(files, files') && i < |files|
    ensures i < |files'| && files[i].path == files'[i].path
  {
  }

  /** Fills in the digests; a digest of zeros counts as none. */
  method FillHashes(disk: Disk, paths: seq<string>) returns (r: Option<seq<FileRecord>>)
    requires forall p :: p in paths ==> p in disk.discovered && p in disk.hashes
    ensures r.Some? <==> forall p :: p in paths ==> disk.hashes[p] != ZERO_HASH
    ensures r.Some? ==> r.value == AllHashed(disk, paths)
  {
    var files := Blanks(disk, paths);
    for i := 0 to |paths|
      invariant |files| == |paths|
      invariant forall j :: 0 <= j < i ==> files[j] == AllHashed(disk, paths)[j] && disk.hashes[paths[j]] != ZERO_HASH
      invariant forall j :: i <= j < |paths| ==> files[j] == Blank(disk, j, paths[j])
    {
      assert paths[i] in paths;
      files := files[i := files[i].(hash := disk.hashes[paths[i]])];
      if files[i].hash == ZERO_HASH {
        return None;
      }
    }
    return Some(files);
  }

  lemma {:induction false} JoinedFiles(files: seq<FileRecord>, files': seq<FileRecord>, pieces: seq<Piece>,
                                       order: seq<nat>)
    requires Within(order, |pieces|)
    ensures Joined(files', pieces, order) == Joined(files, pieces, order).(files := files')
  {
    if order != [] { JoinedFiles(files, files', pieces, order[..|order| - 1]); }
  }

  lemma SamePieces(disk: Disk, resolve: Resolver, files: seq<FileRecord>, files': seq<FileRecord>, pieces: seq<Piece>)
    requires SameFiles(files, files') && PiecesOf(disk, resolve, files, pieces)
    ensures PiecesOf(disk, resolve, files', pieces)
  {
    hide PieceOf;
    forall i: nat | i < |pieces| ensures PieceOf(disk, resolve, files', i, pieces[i]) {
      SamePiece(disk, resolve, files, files', i, pieces[i]);
    }
  }

  ghost predicate AllReadable(disk: Disk, files: seq<FileRecord>, order: seq<nat>, k: nat)
    requires Within(order, |files|) && k <= |order|
  {
    forall m :: 0 <= m < k ==> files[order[m]].path in disk.hashes && Readable(files[order[m]].path, disk)
  }

  ghost predicate AllPieces(disk: Disk, resolve: Resolver, files: seq<FileRecord>, pieces: seq<Piece>, order: seq<nat>,
                            k: nat)
    requires Within(order, |pieces|) && k <= |order|
  {
    forall m :: 0 <= m < k ==> PieceOf(disk, resolve, files, order[m], pieces[order[m]])
  }

  lemma OnePieceMore(disk: Disk, resolve: Resolver, files: seq<FileRecord>, pieces: seq<Piece>, order: seq<nat>, k: nat,
                     p: Piece)
    requires Permutes(order, |pieces|) && k < |order| && AllPieces(disk, resolve, files, pieces, order, k)
    requires PieceOf(disk, resolve, files, order[k], p)
    ensures AllPieces(disk, resolve, files, pieces[order[k] := p], order, k + 1)
  {
    hide PieceOf;
  }

  lemma EveryPiece(disk: Disk, resolve: Resolver, files: seq<FileRecord>, pieces: seq<Piece>, order: seq<nat>)
    requires |pieces| == |files| && Permutes(order, |pieces|) && AllPieces(disk, resolve, files, pieces, order, |order|)
    ensures PiecesOf(disk, resolve, files, pieces)
  {
    hide PieceOf;
    forall i: nat | i < |pieces| ensures PieceOf(disk, resolve, files, i, pieces[i]) {
      assert i in order;
    }
  }

  /** The workers' findings behind one another in this order, or a file that could not be read. */
  method ScanFiles(scanner: Scanner, disk: Disk, files: seq<FileRecord>, order: seq<nat>)
    returns (r: Option<Tables>, ghost pieces: seq<Piece>)
    requires Permutes(order, |files|) && forall i :: 0 <= i < |files| ==> files[i].fileId == i + 1
    ensures r.Some? <==> AllReadable(disk, files, order, |order|)
    ensures r.Some? ==> PiecesOf(disk, scanner.resolve, files, pieces) && r.value == Joined(files, pieces, order)
  {
    hide PieceOf, Readable, PiecesOf;
    pieces := seq(|files|, _ => Piece([], [], []));
    var t := Tables(files, [], [], [], map[], map[]);
    var k := 0;
    while k < |order|
      invariant 0 <= k <= |order| && |pieces| == |files|
      invariant t == Joined(files, pieces, order[..k])
      invariant AllReadable(disk, files, order, k) && AllPieces(disk, scanner.resolve, files, pieces, order, k)
    {
      var found := ScanFile(scanner, disk, files, order[k]);
      if found.None? {
        return None, pieces;
      }
      OnePieceMore(disk, scanner.resolve, files, pieces, order, k, found.value);
      JoinedNext(files, pieces, order, k, found.value);
      pieces := pieces[order[k] := found.value];
      t := Extended(t, order[k], found.value);
      k := k + 1;
    }
    assert order[..k] == order;
    EveryPiece(disk, scanner.resolve, files, pieces, order);
    return Some(t), pieces;
  }

  lemma ReadablePaths(disk: Disk, paths: seq<string>, files: seq<FileRecord>, order: seq<nat>)
    requires |files| == |paths| && forall i :: 0 <= i < |files| ==> files[i].path == paths[i]
    requires Permutes(order, |files|) && Elems(paths) == disk.discovered.Keys
    ensures AllReadable(disk, files, order, |order|) <==>
      forall p :: p in disk.discovered ==> p in disk.hashes && Readable(p, disk)
  {
    hide Readable;
    if AllReadable(disk, files, order, |order|) {
      forall p | p in disk.discovered ensures p in disk.hashes && Readable(p, disk) {
        assert p in Elems(paths);
        var i :| 0 <= i < |paths| && paths[i] == p;
        assert i in order;
      }
    }
    forall m | 0 <= m < |order| ensures files[order[m]].path in disk.discovered {
      assert paths[order[m]] in Elems(paths);
    }
  }

  lemma ScanDone(disk: Disk, resolve: Resolver, paths: seq<string>, pieces: seq<Piece>, order: seq<nat>)
    requires Ascending(paths) && Elems(paths) == disk.discovered.Keys && "" !in disk.discovered && |paths| < TWO_32
    requires forall p :: p in paths ==> p in disk.discovered && p in disk.hashes
    requires PiecesOf(disk, resolve, Blanks(disk, paths), pieces) && Permutes(order, |paths|)
    ensures var t := Joined(Blanks(disk, paths), pieces, order).(files := AllHashed(disk, paths));
      && Presound(t)
      && forall t' :: RebuiltTo(t, t') ==> FullScanned(disk, resolve, t') && Sound(t')
  {
    hide PieceOf, RebuiltTo, Presound, Sound, Registered, Joined;
    var blanks, hashed := Blanks(disk, paths), AllHashed(disk, paths);
    HashedRegistered(disk, paths);
    SamePieces(disk, resolve, blanks, hashed, pieces);
    JoinedFiles(blanks, hashed, pieces, order);
    JoinedPresound(disk, resolve, hashed, pieces, order);
    forall t' | RebuiltTo(Joined(hashed, pieces, order), t') ensures FullScanned(disk, resolve, t') && Sound(t') {
      RebuildSound(Joined(hashed, pieces, order), t');
      assert ScannedAs(disk, resolve, hashed, pieces, order, t');
    }
  }

  /** The full scan. `order` is the order in which the workers' findings come to stand behind one another. */
  method FullScan(scanner: Scanner, disk: Disk, order: seq<nat>) returns (r: Option<Tables>)
    requires Permutes(order, |disk.discovered|) && "" !in disk.discovered && |disk.discovered| < TWO_32
    ensures r.Some? <==> forall path :: path in disk.discovered ==> Scannable(path, disk)
    ensures r.Some? ==> FullScanned(disk, scanner.resolve, r.value) && Sound(r.value)
  {
    hide PiecesOf, RebuiltTo, Presound, Sound, Readable, FullScanned, Joined;
    var paths := InOrder(disk.discovered.Keys);
    PathCount(disk, paths);
    assert forall p :: p in paths <==> p in Elems(paths);
    var files := Blanks(disk, paths);
    ReadablePaths(disk, paths, files, order);
    var found, pieces := ScanFiles(scanner, disk, files, order);
    if found.None? {
      return None;
    }
    var hashed := FillHashes(disk, paths);
    if hashed.None? {
      return None;
    }
    ScanDone(disk, scanner.resolve, paths, pieces, order);
    var state := new RuntimeState();
    state.files, state.symbols, state.fileEdges := hashed.value, found.value.symbols, found.value.fileEdges;
    state.symbolEdges, state.semanticSymbolDepsByFileId := found.value.symbolEdges, found.value.semantics;
    state.symbolIndex := found.value.index;
    state.RebuildSymbolEdges();
    r := Some(Tables(state.files, state.symbols, state.fileEdges, state.symbolEdges, state.semanticSymbolDepsByFileId,
      state.symbolIndex));
  }
}
