/** `ultra::engine::Scanner`: adding, removing and rescanning one file in the tables of the runtime state. What the
    directory holds and what parsing returns are arbitrary inputs. */
module Scanners {
  import opened Orders
  import opened Decimals
  import opened Symbols
  import opened SymbolTables
  import opened DependencyTables
  import opened SymbolIndexes

  // ----- the outside -----

  datatype DiscoveredFile = DiscoveredFile(language: nat, lastModified: nat)
  datatype SemanticParse = SemanticParse(symbols: seq<ExtractedSymbol>, references: seq<string>,
                                         dependencies: seq<SemanticDependency>)

  /** The supported files by path; digests and parses of those that can be read and parsed. */
  datatype Disk = Disk(discovered: map<string, DiscoveredFile>, hashes: map<string, seq<bv8>>,
                       parses: map<string, SemanticParse>)

  /** Resolves a reference in a file to a path, given the paths known. */
  type Resolver = (string, string, set<string>) -> Option<string>

  // ----- the tables -----

  datatype Tables = Tables(
    files: seq<FileRecord>, symbols: seq<SymbolRecord>, fileEdges: seq<FileEdge>, symbolEdges: seq<SymbolEdge>,
    semantics: Semantics, index: map<string, SymbolNode>)

  ghost predicate HasId(files: seq<FileRecord>, id: nat) {
    exists r :: r in files && r.fileId == id
  }

  ghost predicate HasPath(files: seq<FileRecord>, path: string) {
    exists r :: r in files && r.path == path
  }

  ghost predicate UniquePaths(files: seq<FileRecord>) {
    forall i, j :: 0 <= i < j < |files| ==> files[i].path != files[j].path
  }

  ghost predicate FilesSound(files: seq<FileRecord>) {
    UniqueIds(files) && UniquePaths(files) && NonEmptyPaths(files) && forall r :: r in files ==> r.fileId < TWO_32
  }

  /** Ids are different, not zero, and decode to the symbol's own, existing file. */
  ghost predicate SymbolsSound(files: seq<FileRecord>, symbols: seq<SymbolRecord>) {
    && UniqueSymbolIds(symbols) && PositiveIds(symbols)
    && forall s :: s in symbols ==> HasId(files, s.fileId) && ExtractFileId(s.symbolId) == s.fileId
  }

  /** No dangling file edge and no dangling list of named dependencies. */
  ghost predicate LinksSound(files: seq<FileRecord>, fileEdges: seq<FileEdge>, semantics: Semantics) {
    && (forall e :: e in fileEdges ==> HasId(files, e.fromFileId) && HasId(files, e.toFileId))
    && forall f :: f in semantics ==> HasId(files, f)
  }

  ghost predicate Presound(t: Tables) {
    FilesSound(t.files) && SymbolsSound(t.files, t.symbols) && LinksSound(t.files, t.fileEdges, t.semantics)
  }

  /** The edited tables are sound, the lists sorted, and the derived tables are what a recomputation gives. */
  ghost predicate Sound(t: Tables) {
    && Presound(t)
    && SortedBy(SymbolLess, t.symbols) && StrictlySorted(FileEdgeLess, t.fileEdges)
    && Derived(t.symbols, t.fileEdges, t.semantics, t.symbolEdges)
    && Indexed(t.files, t.symbols, t.symbolEdges, t.index)
  }

  lemma EmptySound()
    ensures Sound(Tables([], [], [], [], map[], map[]))
  {
    var first: map<nat, SymbolRecord> := map[];
    assert Fronts([], first) && EdgesFrom([], first, [], map[], []);
  }

  /** In sound tables no symbol edge dangles. */
  lemma SoundEdges(t: Tables)
    requires Sound(t)
    ensures forall y :: y in t.symbolEdges ==>
      (exists s :: s in t.symbols && s.symbolId == y.fromSymbolId)
        && exists s :: s in t.symbols && s.symbolId == y.toSymbolId
  {
    hide Presound, Derived, Indexed;
    NothingDangles(t.symbols, t.fileEdges, t.semantics, t.symbolEdges);
  }

  // ----- recomputing the derived tables -----

  ghost predicate RebuiltTo(t: Tables, t': Tables) {
    && t'.files == t.files && t'.semantics == t.semantics
    && SortedBy(SymbolLess, t'.symbols) && multiset(t'.symbols) == multiset(t.symbols)
    && StrictlySorted(FileEdgeLess, t'.fileEdges) && (forall e :: e in t'.fileEdges <==> e in t.fileEdges)
    && Derived(t'.symbols, t'.fileEdges, t'.semantics, t'.symbolEdges)
    && Indexed(t'.files, t'.symbols, t'.symbolEdges, t'.index)
  }

  lemma SameSymbols(a: seq<SymbolRecord>, b: seq<SymbolRecord>)
    requires multiset(a) == multiset(b)
    ensures forall s :: s in a <==> s in b
  {
    MultisetElems(a, b);
    assert forall s :: (s in a <==> s in Elems(a)) && (s in b <==> s in Elems(b));
  }

  function IdOf(s: SymbolRecord): nat { s.symbolId }

  lemma UniqueIdsBag(a: seq<SymbolRecord>, b: seq<SymbolRecord>)
    requires multiset(a) == multiset(b) && UniqueSymbolIds(a)
    ensures UniqueSymbolIds(b)
  {
    var x, y := Mapped(IdOf, a), Mapped(IdOf, b);
    assert NoDup(x);
    MappedBag(IdOf, a, b);
    PermutationNoDup(x, y);
    forall i, j | 0 <= i < j < |b| ensures b[i].symbolId != b[j].symbolId {
      assert y[i] != y[j];
    }
  }

  /** Rebuilding makes presound tables sound. */
  lemma RebuildSound(t: Tables, t': Tables)
    requires Presound(t) && RebuiltTo(t, t')
    ensures Sound(t')
  {
    hide Derived, Indexed, SymbolLess, FilesSound, UniqueSymbolIds;
    SameSymbols(t.symbols, t'.symbols);
    UniqueIdsBag(t.symbols, t'.symbols);
  }

  // ----- the state -----

  class RuntimeState {
    var files: seq<FileRecord>
    var symbols: seq<SymbolRecord>
    var fileEdges: seq<FileEdge>
    var symbolEdges: seq<SymbolEdge>
    var semanticSymbolDepsByFileId: Semantics
    var symbolIndex: map<string, SymbolNode>

    ghost function Value(): Tables
      reads this
    {
      Tables(files, symbols, fileEdges, symbolEdges, semanticSymbolDepsByFileId, symbolIndex)
    }

    constructor ()
      ensures Value() == Tables([], [], [], [], map[], map[])
    {
      files, symbols, fileEdges, symbolEdges := [], [], [], [];
      semanticSymbolDepsByFileId, symbolIndex := map[], map[];
    }

    method RebuildSymbolEdges()
      requires Presound(Value())
      modifies this
      ensures RebuiltTo(old(Value()), Value())
    {
      hide SymbolLess, Derived, Indexed, UniqueSymbolIds, UniqueIds;
      SymbolLessComparator();
      ghost var before := symbols;
      symbols := Sort(symbols, SymbolLess);
      SameSymbols(before, symbols);
      UniqueIdsBag(before, symbols);
      fileEdges := SortFileEdges(fileEdges);
      symbolEdges := DeriveSymbolEdges(symbols, fileEdges, semanticSymbolDepsByFileId);
      symbolIndex := BuildSymbolIndex(files, symbols, symbolEdges);
    }
  }

  // ----- file ids -----

  function MaxId(files: seq<FileRecord>): (m: nat)
    ensures forall r :: r in files ==> r.fileId <= m
  {
    if files == [] then 0
    else
      var front, id := MaxId(files[..|files| - 1]), files[|files| - 1].fileId;
      assert files == files[..|files| - 1] + [files[|files| - 1]];
      if id > front then id else front
  }

  /** One more than the largest id, in 32 bits. */
  function NextId(files: seq<FileRecord>): nat {
    (MaxId(files) + 1) % TWO_32
  }

  method NextFileId(files: seq<FileRecord>) returns (id: nat)
    ensures id == NextId(files)
  {
    var maxId: nat, i := 0, 0;
    while i < |files|
      invariant 0 <= i <= |files| && maxId == MaxId(files[..i])
    {
      assert files[..i + 1][..i] == files[..i];
      if files[i].fileId > maxId {
        maxId := files[i].fileId;
      }
      i := i + 1;
    }
    assert files[..i] == files;
    id := (maxId + 1) % TWO_32;
  }

  ghost predicate IdsLeft(files: seq<FileRecord>) {
    MaxId(files) < TWO_32 - 1 || !HasId(files, 0)
  }

  /** The next id is new unless it has wrapped around to an id zero in use. */
  lemma NextIdFresh(files: seq<FileRecord>)
    requires forall r :: r in files ==> r.fileId < TWO_32
    ensures !HasId(files, NextId(files)) <==> IdsLeft(files)
    ensures NextId(files) < TWO_32
  {
    MaxIdBound(files);
    if MaxId(files) == TWO_32 - 1 {
      assert NextId(files) == 0;
    } else {
      assert NextId(files) == MaxId(files) + 1;
    }
  }

  /** A concrete table whose next id is taken. */
  lemma NextIdTaken()
    ensures var files := [FileRecord(0, "a.cpp", [], 0, 0), FileRecord(TWO_32 - 1, "b.cpp", [], 0, 0)];
      NextId(files) == 0 && HasId(files, NextId(files))
  {
    var files := [FileRecord(0, "a.cpp", [], 0, 0), FileRecord(TWO_32 - 1, "b.cpp", [], 0, 0)];
    assert files[0] in files && files[1] in files && files[..1] == [files[0]];
    assert files[..1][..0] == [] && MaxId(files[..1]) == 0;
  }

  lemma {:induction false} MaxIdBound(files: seq<FileRecord>)
    requires forall r :: r in files ==> r.fileId < TWO_32
    ensures MaxId(files) < TWO_32
  {
    if files != [] {
      assert files == files[..|files| - 1] + [files[|files| - 1]];
      MaxIdBound(files[..|files| - 1]);
    }
  }

  // ----- edits before the derived tables are recomputed -----

  predicate PathLess(a: FileRecord, b: FileRecord) {
    Lt(a.path, b.path)
  }

  function NotOf(id: nat): SymbolRecord -> bool {
    (s: SymbolRecord) => s.fileId != id
  }

  function NotTouching(id: nat): FileEdge -> bool {
    (e: FileEdge) => e.fromFileId != id && e.toFileId != id
  }

  function NotFrom(id: nat): FileEdge -> bool {
    (e: FileEdge) => e.fromFileId != id
  }

  function PathsOf(files: seq<FileRecord>): set<string> {
    set r | r in files :: r.path
  }

  /** The id under which a path is registered; the last record counts. */
  function IdAt(files: seq<FileRecord>, path: string): (r: Option<nat>)
    ensures r.Some? ==> HasId(files, r.value)
    ensures r.Some? <==> path in PathsOf(files)
  {
    if files == [] then None
    else
      var last := files[|files| - 1];
      assert files == files[..|files| - 1] + [last];
      assert last in files;
      if last.path == path then Some(last.fileId) else IdAt(files[..|files| - 1], path)
  }

  /** An edge for each reference that resolves to a registered file. */
  function NewEdges(resolve: Resolver, files: seq<FileRecord>, id: nat, path: string,
                    references: seq<string>): (r: seq<FileEdge>)
    ensures forall e :: e in r ==> e.fromFileId == id && HasId(files, e.toFileId)
  {
    if references == [] then []
    else
      var front := NewEdges(resolve, files, id, path, references[..|references| - 1]);
      var target := resolve(path, references[|references| - 1], PathsOf(files));
      if target.Some? && IdAt(files, target.value).Some? then front + [FileEdge(id, IdAt(files, target.value).value)]
        else front
  }

  function NewRecord(t: Tables, path: string, disk: Disk): FileRecord
    requires path in disk.discovered && path in disk.hashes
  {
    FileRecord(NextId(t.files), path, disk.hashes[path], disk.discovered[path].language,
      disk.discovered[path].lastModified)
  }

  /** The new record among the others, sorted by path. */
  ghost predicate FileInserted(files: seq<FileRecord>, r: FileRecord, files': seq<FileRecord>) {
    SortedBy(PathLess, files') && multiset(files') == multiset(files + [r])
  }

  /** One file's symbols, named dependencies and outgoing edges put in place of whatever it had. */
  function WithParse(t: Tables, resolve: Resolver, id: nat, path: string, parse: SemanticParse,
                     symbols: seq<SymbolRecord>): Tables {
    t.(symbols := Filter(NotOf(id), t.symbols) + symbols,
       semantics := t.semantics[id := parse.dependencies],
       fileEdges := Filter(NotFrom(id), t.fileEdges) + NewEdges(resolve, t.files, id, path, parse.references))
  }

  function Dropped(t: Tables, i: nat): Tables
    requires i < |t.files|
  {
    var id := t.files[i].fileId;
    t.(files := RemoveAt(t.files, i),
       symbols := Filter(NotOf(id), t.symbols),
       fileEdges := Filter(NotTouching(id), t.fileEdges),
       semantics := t.semantics - {id})
  }

  function Refreshed(t: Tables, i: nat, path: string, disk: Disk): Tables
    requires i < |t.files| && path in disk.discovered && path in disk.hashes
  {
    t.(files := t.files[i := t.files[i].(hash := disk.hashes[path], lastModified := disk.discovered[path].lastModified,
                                         language := disk.discovered[path].language)])
  }

  // ----- the operations as steps -----

  ghost predicate RemoveStep(t: Tables, path: string, t': Tables) {
    if HasPath(t.files, path) then
      exists i: nat :: i < |t.files| && t.files[i].path == path && RebuiltTo(Dropped(t, i), t')
    else t' == t
  }

  /** The parse put in place and everything derived from it recomputed. */
  ghost predicate Parsed(t: Tables, resolve: Resolver, id: nat, path: string, parse: SemanticParse, t': Tables) {
    exists symbols :: Built(id, parse.symbols, symbols)
      && RebuiltTo(WithParse(t, resolve, id, path, parse, symbols), t')
  }

  ghost predicate AddNewStep(t: Tables, path: string, disk: Disk, resolve: Resolver, ok: bool, t': Tables) {
    if path !in disk.discovered then ok && t' == t
    else if path !in disk.hashes || path !in disk.parses then !ok && t' == t
    else
      var r, parse := NewRecord(t, path, disk), disk.parses[path];
      exists files' :: FileInserted(t.files, r, files')
        && if |parse.symbols| > LOCAL_LIMIT then !ok && t' == t.(files := files')
           else ok && Parsed(t.(files := files'), resolve, r.fileId, path, parse, t')
  }

  /** Digest, time and language are stored before the file is parsed. */
  ghost predicate ModifyAt(t: Tables, i: nat, path: string, disk: Disk, resolve: Resolver, ok: bool, t': Tables)
    requires i < |t.files| && path in disk.discovered && path in disk.hashes
  {
    var id, updated := t.files[i].fileId, Refreshed(t, i, path, disk);
    if disk.hashes[path] == t.files[i].hash && disk.discovered[path].lastModified == t.files[i].lastModified then
      ok && t' == t
    else if path !in disk.parses then !ok && t' == updated
    else if |disk.parses[path].symbols| > LOCAL_LIMIT then
      !ok && t' == updated.(symbols := Filter(NotOf(id), t.symbols))
    else ok && Parsed(updated, resolve, id, path, disk.parses[path], t')
  }

  ghost predicate ModifyOldStep(t: Tables, path: string, disk: Disk, resolve: Resolver, ok: bool, t': Tables) {
    if path !in disk.discovered then ok && RemoveStep(t, path, t')
    else if path !in disk.hashes then !ok && t' == t
    else exists i: nat :: i < |t.files| && t.files[i].path == path && ModifyAt(t, i, path, disk, resolve, ok, t')
  }

  ghost predicate AddStep(t: Tables, path: string, disk: Disk, resolve: Resolver, ok: bool, t': Tables) {
    if HasPath(t.files, path) then ModifyOldStep(t, path, disk, resolve, ok, t')
      else AddNewStep(t, path, disk, resolve, ok, t')
  }

  // ----- soundness of the edits -----

  lemma InsertedFiles(files: seq<FileRecord>, r: FileRecord, files': seq<FileRecord>)
    requires FilesSound(files) && FileInserted(files, r, files')
    requires !HasId(files, r.fileId) && !HasPath(files, r.path) && r.path != "" && r.fileId < TWO_32
    ensures FilesSound(files')
    ensures forall x :: x in files' <==> x in files || x == r
  {
    var all := files + [r];
    MultisetElems(files', all);
    assert forall x :: (x in files' <==> x in Elems(files')) && (x in all <==> x in Elems(all));
    assert forall x :: x in all <==> x in files || x == r;
    var ids, paths := Mapped(FileIdOf, all), Mapped(FilePathOf, all);
    forall i, j | 0 <= i < j < |all| ensures all[i].fileId != all[j].fileId && all[i].path != all[j].path {
      assert all[i] in files;
    }
    assert NoDup(ids) && NoDup(paths);
    MappedBag(FileIdOf, all, files');
    MappedBag(FilePathOf, all, files');
    PermutationNoDup(ids, Mapped(FileIdOf, files'));
    PermutationNoDup(paths, Mapped(FilePathOf, files'));
    NoDupFiles(files');
  }

  function FileIdOf(r: FileRecord): nat { r.fileId }
  function FilePathOf(r: FileRecord): string { r.path }

  lemma NoDupFiles(files: seq<FileRecord>)
    ensures NoDup(Mapped(FileIdOf, files)) ==> UniqueIds(files)
    ensures NoDup(Mapped(FilePathOf, files)) ==> UniquePaths(files)
  {
    var ids, paths := Mapped(FileIdOf, files), Mapped(FilePathOf, files);
    if NoDup(ids) {
      forall i, j | 0 <= i < j < |files| ensures files[i].fileId != files[j].fileId { assert ids[i] != ids[j]; }
    }
    if NoDup(paths) {
      forall i, j | 0 <= i < j < |files| ensures files[i].path != files[j].path { assert paths[i] != paths[j]; }
    }
  }

  /** Files that keep all ids keep the links and symbols sound. */
  lemma MoreFiles(files: seq<FileRecord>, files': seq<FileRecord>, t: Tables)
    requires forall f :: HasId(files, f) ==> HasId(files', f)
    ensures SymbolsSound(files, t.symbols) ==> SymbolsSound(files', t.symbols)
    ensures LinksSound(files, t.fileEdges, t.semantics) ==> LinksSound(files', t.fileEdges, t.semantics)
  {
    hide HasId, UniqueSymbolIds, PositiveIds;
  }

  lemma {:induction false} FilterUnique(keep: SymbolRecord -> bool, symbols: seq<SymbolRecord>)
    requires UniqueSymbolIds(symbols)
    ensures UniqueSymbolIds(Filter(keep, symbols))
  {
    if symbols != [] {
      assert forall i :: 0 < i < |symbols| ==> symbols[0].symbolId != symbols[i].symbolId;
      assert forall x :: x in symbols[1..] ==> x.symbolId != symbols[0].symbolId;
      FilterUnique(keep, symbols[1..]);
    }
  }

  /** The symbols of the other files, and new ones whose ids decode to this file. */
  lemma ReplacedSymbols(files: seq<FileRecord>, symbols: seq<SymbolRecord>, id: nat, extracted: seq<ExtractedSymbol>,
                        built: seq<SymbolRecord>)
    requires SymbolsSound(files, symbols) && HasId(files, id) && id < TWO_32
    requires |extracted| <= LOCAL_LIMIT && Built(id, extracted, built)
    ensures SymbolsSound(files, Filter(NotOf(id), symbols) + built)
  {
    hide SymbolLess, Built, ExtractFileId, HasId, ComposeSymbolId;
    BuiltSound(id, extracted, built);
    FilterUnique(NotOf(id), symbols);
    BuiltDistinct(id, built);
    var rest := Filter(NotOf(id), symbols);
    var all := rest + built;
    assert forall s :: s in all <==> s in rest || s in built;
    forall s | s in built ensures s.symbolId > 0 && s.fileId == id && ExtractFileId(s.symbolId) == id {
      var i :| 0 <= i < |built| && built[i] == s;
    }
    forall i, j | 0 <= i < j < |all| ensures all[i].symbolId != all[j].symbolId {
      if i < |rest| <= j {
        assert all[i] in rest && all[j] in built;
      } else if |rest| <= i {
        assert all[i] == built[i - |rest|] && all[j] == built[j - |rest|];
      }
    }
  }

  lemma BuiltDistinct(id: nat, built: seq<SymbolRecord>)
    requires forall i :: 0 <= i < |built| ==> built[i].symbolId == ComposeSymbolId(id, i + 1)
    ensures UniqueSymbolIds(built)
  {
  }

  lemma ParseSound(t: Tables, resolve: Resolver, id: nat, path: string, parse: SemanticParse,
                   symbols: seq<SymbolRecord>)
    requires Presound(t) && HasId(t.files, id) && id < TWO_32
    requires |parse.symbols| <= LOCAL_LIMIT && Built(id, parse.symbols, symbols)
    ensures Presound(WithParse(t, resolve, id, path, parse, symbols))
  {
    hide FilesSound, SymbolsSound, HasId, Built;
    ReplacedSymbols(t.files, t.symbols, id, parse.symbols, symbols);
    var more := NewEdges(resolve, t.files, id, path, parse.references);
    assert forall e :: e in Filter(NotFrom(id), t.fileEdges) + more <==>
      e in Filter(NotFrom(id), t.fileEdges) || e in more;
  }

  /** Where an entry of the shorter list was, and where an entry has gone. */
  lemma RemovedPlaces<T>(s: seq<T>, i: nat)
    requires i < |s|
    ensures forall j :: 0 <= j < |s| - 1 ==> RemoveAt(s, i)[j] == s[if j < i then j else j + 1]
    ensures forall x :: x in RemoveAt(s, i) ==> x in s
    ensures forall j :: 0 <= j < |s| && j != i ==> s[j] in RemoveAt(s, i)
  {
    var rest := RemoveAt(s, i);
    forall j | 0 <= j < |s| && j != i ensures s[j] in rest {
      assert rest[if j < i then j else j - 1] == s[j];
    }
  }

  lemma KeptIds(files: seq<FileRecord>, i: nat)
    requires i < |files| && FilesSound(files)
    ensures forall f :: HasId(RemoveAt(files, i), f) <==> HasId(files, f) && f != files[i].fileId
    ensures FilesSound(RemoveAt(files, i))
  {
    var rest := RemoveAt(files, i);
    RemovedPlaces(files, i);
    hide RemoveAt;
    forall f | HasId(rest, f) ensures HasId(files, f) && f != files[i].fileId {
      var r :| r in rest && r.fileId == f;
      var j :| 0 <= j < |rest| && rest[j] == r;
      var k := if j < i then j else j + 1;
      assert files[k] == r && k != i;
    }
    forall f | HasId(files, f) && f != files[i].fileId ensures HasId(rest, f) {
      var r :| r in files && r.fileId == f;
      var j :| 0 <= j < |files| && files[j] == r;
      assert j != i && files[j] in rest;
    }
    forall j, k | 0 <= j < k < |rest| ensures rest[j].fileId != rest[k].fileId && rest[j].path != rest[k].path {
      assert rest[j] == files[if j < i then j else j + 1] && rest[k] == files[if k < i then k else k + 1];
    }
  }

  lemma DroppedSound(t: Tables, i: nat)
    requires Presound(t) && i < |t.files|
    ensures Presound(Dropped(t, i))
  {
    hide FilesSound, HasId, UniqueSymbolIds;
    KeptIds(t.files, i);
    FilterUnique(NotOf(t.files[i].fileId), t.symbols);
  }

  lemma RefreshedSound(t: Tables, i: nat, path: string, disk: Disk)
    requires Presound(t) && i < |t.files| && path in disk.discovered && path in disk.hashes
    ensures Presound(Refreshed(t, i, path, disk))
    ensures forall f :: HasId(t.files, f) <==> HasId(Refreshed(t, i, path, disk).files, f)
  {
    var files, files' := t.files, Refreshed(t, i, path, disk).files;
    forall j | 0 <= j < |files| ensures files'[j].fileId == files[j].fileId && files'[j].path == files[j].path {
    }
    forall f ensures HasId(files, f) <==> HasId(files', f) {
      if HasId(files, f) {
        var r :| r in files && r.fileId == f;
        var j :| 0 <= j < |files| && files[j] == r;
        assert files'[j] in files';
      }
      if HasId(files', f) {
        var r :| r in files' && r.fileId == f;
        var j :| 0 <= j < |files| && files'[j] == r;
        assert files[j] in files;
      }
    }
    forall r | r in files' ensures r.path != "" && r.fileId < TWO_32 {
      var j :| 0 <= j < |files| && files'[j] == r;
      assert files[j] in files;
    }
    MoreFiles(files, files', t);
  }

  // ----- the operations keep the tables sound -----

  lemma RemoveKeepsSound(t: Tables, path: string, t': Tables)
    requires Presound(t) && RemoveStep(t, path, t')
    ensures Presound(t') && (Sound(t) || HasPath(t.files, path) ==> Sound(t'))
  {
    hide Presound, RebuiltTo, Dropped;
    if HasPath(t.files, path) {
      var i: nat :| i < |t.files| && t.files[i].path == path && RebuiltTo(Dropped(t, i), t');
      DroppedSound(t, i);
      RebuildSound(Dropped(t, i), t');
    }
    hide Derived, Indexed;
  }

  lemma ParsedSound(t: Tables, resolve: Resolver, id: nat, path: string, parse: SemanticParse, t': Tables)
    requires Presound(t) && HasId(t.files, id) && id < TWO_32 && |parse.symbols| <= LOCAL_LIMIT
    requires Parsed(t, resolve, id, path, parse, t')
    ensures Sound(t')
  {
    hide Presound, RebuiltTo, WithParse, Built;
    var symbols :| Built(id, parse.symbols, symbols) && RebuiltTo(WithParse(t, resolve, id, path, parse, symbols), t');
    ParseSound(t, resolve, id, path, parse, symbols);
    RebuildSound(WithParse(t, resolve, id, path, parse, symbols), t');
  }

  lemma SoundIsPresound(t: Tables)
    requires Sound(t)
    ensures Presound(t)
  {
  }

  lemma InsertedSound(t: Tables, r: FileRecord, files': seq<FileRecord>)
    requires Presound(t) && FileInserted(t.files, r, files')
    requires !HasId(t.files, r.fileId) && !HasPath(t.files, r.path) && r.path != "" && r.fileId < TWO_32
    ensures Presound(t.(files := files')) && HasId(files', r.fileId)
  {
    InsertedFiles(t.files, r, files');
    hide FilesSound, SymbolsSound, LinksSound, FileInserted;
    MoreFiles(t.files, files', t);
    assert r in files';
  }

  lemma AddNewKeepsSound(t: Tables, path: string, disk: Disk, resolve: Resolver, ok: bool, t': Tables)
    requires Presound(t) && IdsLeft(t.files) && !HasPath(t.files, path) && AddNewStep(t, path, disk, resolve, ok, t')
    requires path != "" || "" !in disk.discovered
    ensures Presound(t') && (ok && (Sound(t) || t' != t) ==> Sound(t'))
    ensures t' != t ==> path in disk.parses
  {
    if path in disk.discovered && path in disk.hashes && path in disk.parses {
      var r, parse := NewRecord(t, path, disk), disk.parses[path];
      NextIdFresh(t.files);
      assert r.fileId == NextId(t.files) && r.path == path;
      hide Presound, Sound, Parsed, FileInserted, NextId, HasPath, IdsLeft, NewRecord;
      var files' :| FileInserted(t.files, r, files')
        && if |parse.symbols| > LOCAL_LIMIT then !ok && t' == t.(files := files')
           else ok && Parsed(t.(files := files'), resolve, r.fileId, path, parse, t');
      InsertedSound(t, r, files');
      if |parse.symbols| <= LOCAL_LIMIT {
        ParsedSound(t.(files := files'), resolve, r.fileId, path, parse, t');
        SoundIsPresound(t');
      }
    }
  }

  lemma WithoutSymbols(t: Tables, id: nat)
    requires Presound(t)
    ensures Presound(t.(symbols := Filter(NotOf(id), t.symbols)))
  {
    hide FilesSound, LinksSound, HasId, UniqueSymbolIds;
    assert UniqueSymbolIds(t.symbols);
    FilterUnique(NotOf(id), t.symbols);
  }

  lemma ModifyOldKeepsSound(t: Tables, path: string, disk: Disk, resolve: Resolver, ok: bool, t': Tables)
    requires Presound(t) && HasPath(t.files, path) && ModifyOldStep(t, path, disk, resolve, ok, t')
    ensures Presound(t') && (ok && (Sound(t) || t' != t) ==> Sound(t'))
    ensures Sound(t) && !Overlong(path, disk) ==> Sound(t')
  {
    hide Presound, Sound, Parsed, RemoveStep, Refreshed, HasPath;
    if path !in disk.discovered {
      RemoveKeepsSound(t, path, t');
    } else if path in disk.hashes {
      var i: nat :| i < |t.files| && t.files[i].path == path && ModifyAt(t, i, path, disk, resolve, ok, t');
      var updated, id := Refreshed(t, i, path, disk), t.files[i].fileId;
      RefreshedSound(t, i, path, disk);
      RefreshedFields(t, i, path, disk);
      RefreshedDerived(t, i, path, disk);
      WithoutSymbols(updated, id);
      FileId(t, i);
      if path in disk.parses && |disk.parses[path].symbols| <= LOCAL_LIMIT && t' != t && ok {
        ParsedSound(updated, resolve, id, path, disk.parses[path], t');
        SoundIsPresound(t');
      }
    }
  }

  /** More symbols than a file can hold: the only failure that leaves the derived tables behind. */
  predicate Overlong(path: string, disk: Disk) {
    path in disk.parses && |disk.parses[path].symbols| > LOCAL_LIMIT
  }

  /** Digest, time and language of a file have no part in the derived tables. */
  lemma RefreshedDerived(t: Tables, i: nat, path: string, disk: Disk)
    requires i < |t.files| && path in disk.discovered && path in disk.hashes
    ensures Sound(t) ==> Sound(Refreshed(t, i, path, disk))
  {
    var t' := Refreshed(t, i, path, disk);
    if Sound(t) {
      RefreshedSound(t, i, path, disk);
      forall f, p ensures InFile(t.files, f, p) <==> InFile(t'.files, f, p) {
        if InFile(t.files, f, p) {
          var r :| r in t.files && r.fileId == f && r.path == p;
          var j :| 0 <= j < |t.files| && t.files[j] == r;
          assert t'.files[j] in t'.files;
        }
        if InFile(t'.files, f, p) {
          var r :| r in t'.files && r.fileId == f && r.path == p;
          var j :| 0 <= j < |t'.files| && t'.files[j] == r;
          assert t.files[j] in t.files;
        }
      }
      hide Presound, Derived, Indexed, InFile, SymbolLess;
      SameFilesIndexed(t.files, t'.files, t.symbols, t.symbolEdges, t.index);
    }
  }

  lemma RefreshedFields(t: Tables, i: nat, path: string, disk: Disk)
    requires i < |t.files| && path in disk.discovered && path in disk.hashes
    ensures Refreshed(t, i, path, disk).symbols == t.symbols
  {
  }

  lemma FileId(t: Tables, i: nat)
    requires Presound(t) && i < |t.files|
    ensures HasId(t.files, t.files[i].fileId) && t.files[i].fileId < TWO_32
  {
    assert t.files[i] in t.files;
  }

  /** One call, with what it found on disk. Adding and modifying do the same: each passes on to the other. */
  datatype Operation = Rescan(path: string, disk: Disk, ok: bool) | Remove(path: string)

  ghost predicate Step(t: Tables, op: Operation, resolve: Resolver, t': Tables) {
    match op
    case Rescan(path, disk, ok) => AddStep(t, path, disk, resolve, ok, t')
    case Remove(path) => RemoveStep(t, path, t')
  }

  /** No file on disk has an empty path, and a new file finds an id left. */
  ghost predicate Applicable(t: Tables, op: Operation) {
    op.Rescan? ==> (op.path != "" || "" !in op.disk.discovered) && (HasPath(t.files, op.path) || IdsLeft(t.files))
  }

  /** The call succeeded and changed the tables, so it ended by recomputing the derived ones. */
  ghost predicate Rebuilds(t: Tables, op: Operation, t': Tables) {
    t' != t && (op.Rescan? ==> op.ok)
  }

  /** The call failed on too many symbols and left edited tables behind. */
  ghost predicate Breaks(t: Tables, op: Operation, t': Tables) {
    t' != t && op.Rescan? && !op.ok && Overlong(op.path, op.disk)
  }

  lemma StepKeepsSound(t: Tables, op: Operation, resolve: Resolver, t': Tables)
    requires Presound(t) && Applicable(t, op) && Step(t, op, resolve, t')
    ensures Presound(t')
    ensures Rebuilds(t, op, t') ==> Sound(t')
    ensures Sound(t) && !Breaks(t, op, t') ==> Sound(t')
  {
    hide Presound, Sound, AddNewStep, ModifyOldStep, RemoveStep, HasPath, IdsLeft;
    match op {
      case Remove(path) =>
        RemoveKeepsSound(t, path, t');
        RemoveChanges(t, path, t');
      case Rescan(path, disk, ok) =>
        if HasPath(t.files, path) {
          ModifyOldKeepsSound(t, path, disk, resolve, ok, t');
        } else {
          AddNewKeepsSound(t, path, disk, resolve, ok, t');
          AddFails(t, path, disk, resolve, ok, t');
        }
    }
  }

  lemma RemoveChanges(t: Tables, path: string, t': Tables)
    requires RemoveStep(t, path, t')
    ensures t' != t ==> HasPath(t.files, path)
  {
    hide RebuiltTo;
  }

  lemma AddFails(t: Tables, path: string, disk: Disk, resolve: Resolver, ok: bool, t': Tables)
    requires AddNewStep(t, path, disk, resolve, ok, t')
    ensures !ok && t' != t ==> Overlong(path, disk)
  {
    hide Parsed, FileInserted;
  }

  ghost predicate Run(states: seq<Tables>, ops: seq<Operation>, resolve: Resolver) {
    && |states| == |ops| + 1
    && forall i :: 0 <= i < |ops| ==> Applicable(states[i], ops[i]) && Step(states[i], ops[i], resolve, states[i + 1])
  }

  ghost predicate RebuildsAt(states: seq<Tables>, ops: seq<Operation>, m: nat) {
    m < |ops| && m + 1 < |states| && Rebuilds(states[m], ops[m], states[m + 1])
  }

  ghost predicate BreaksAt(states: seq<Tables>, ops: seq<Operation>, k: nat) {
    k < |ops| && k + 1 < |states| && Breaks(states[k], ops[k], states[k + 1])
  }

  /** Each call that broke the derived tables has been followed by one that recomputed them. */
  ghost predicate Mended(states: seq<Tables>, ops: seq<Operation>, i: nat) {
    forall k: nat :: k < i && BreaksAt(states, ops, k) ==> exists m: nat :: k < m < i && RebuildsAt(states, ops, m)
  }

  /** Every run from tables in order, as a full scan or an empty project gives them, keeps ids, paths and links in
      order, and all derived tables equal to their recomputation except between a call that failed on too many symbols
      and the next one that changes the tables and succeeds. */
  lemma {:induction false} RunKeepsSound(states: seq<Tables>, ops: seq<Operation>, resolve: Resolver, i: nat)
    requires Run(states, ops, resolve) && Sound(states[0]) && i <= |ops|
    ensures Presound(states[i])
    ensures Mended(states, ops, i) ==> Sound(states[i])
  {
    hide Presound, Sound, Step, Applicable, Rebuilds, Breaks;
    if i == 0 {
      SoundIsPresound(states[0]);
    } else {
      RunKeepsSound(states, ops, resolve, i - 1);
      StepKeepsSound(states[i - 1], ops[i - 1], resolve, states[i]);
      if Mended(states, ops, i) && !RebuildsAt(states, ops, i - 1) {
        assert !BreaksAt(states, ops, i - 1);
        forall k: nat | k < i - 1 && BreaksAt(states, ops, k)
          ensures exists m: nat :: k < m < i - 1 && RebuildsAt(states, ops, m) {
          var m: nat :| k < m < i && RebuildsAt(states, ops, m);
          assert m != i - 1;
        }
      }
    }
  }

  /** In particular they do whenever the last call that changed the tables has succeeded, or none has changed them. */
  lemma LastChangeSound(states: seq<Tables>, ops: seq<Operation>, resolve: Resolver, i: nat, last: nat)
    requires Run(states, ops, resolve) && Sound(states[0]) && last <= i <= |ops|
    requires forall k: nat :: last <= k < i ==> !BreaksAt(states, ops, k)
    requires last > 0 ==> RebuildsAt(states, ops, last - 1)
    ensures Sound(states[i])
  {
    hide Presound, Sound, Step, Applicable;
    forall k: nat | k < i && BreaksAt(states, ops, k) ensures exists m: nat :: k < m < i && RebuildsAt(states, ops, m) {
      assert k < last - 1 && RebuildsAt(states, ops, last - 1);
    }
    RunKeepsSound(states, ops, resolve, i);
  }

  // ----- what a failed rescan leaves -----

  /** The file is known with the digest and the time it has on disk. */
  ghost predicate UpToDate(t: Tables, path: string, disk: Disk) {
    && path in disk.discovered && path in disk.hashes
    && exists r ::
         r in t.files && r.path == path && r.hash == disk.hashes[path]
         && r.lastModified == disk.discovered[path].lastModified
  }

  predicate Readable(path: string, disk: Disk) {
    path in disk.parses && |disk.parses[path].symbols| <= LOCAL_LIMIT
  }

  lemma PathAt(files: seq<FileRecord>, i: nat)
    requires FilesSound(files) && i < |files|
    ensures HasPath(files, files[i].path)
    ensures forall r :: r in files && r.path == files[i].path ==> r == files[i]
  {
    forall r | r in files && r.path == files[i].path ensures r == files[i] {
      var j :| 0 <= j < |files| && files[j] == r;
    }
  }

  /** A rescan of a file on disk succeeds exactly when the file is up to date already, or can be read and parsed and
      does not hold too many symbols. */
  lemma RescanSucceedsIff(t: Tables, path: string, disk: Disk, resolve: Resolver, ok: bool, t': Tables)
    requires FilesSound(t.files) && AddStep(t, path, disk, resolve, ok, t')
    ensures ok <==> path !in disk.discovered || UpToDate(t, path, disk) || (path in disk.hashes && Readable(path, disk))
    ensures UpToDate(t, path, disk) ==> t' == t
  {
    hide Parsed, FileInserted, RemoveStep, FilesSound;
    if path in disk.discovered && path in disk.hashes && HasPath(t.files, path) {
      var i: nat :| i < |t.files| && t.files[i].path == path && ModifyAt(t, i, path, disk, resolve, ok, t');
      PathAt(t.files, i);
      assert t.files[i] in t.files;
    }
  }

  lemma RefreshedAt(t: Tables, i: nat, path: string, disk: Disk)
    requires i < |t.files| && t.files[i].path == path && path in disk.discovered && path in disk.hashes
    requires FilesSound(t.files)
    ensures UpToDate(Refreshed(t, i, path, disk), path, disk) && FilesSound(Refreshed(t, i, path, disk).files)
  {
    var files, files' := t.files, Refreshed(t, i, path, disk).files;
    assert files'[i] in files';
    forall r | r in files' ensures r.path != "" && r.fileId < TWO_32 {
      var j :| 0 <= j < |files| && files'[j] == r;
      assert files[j] in files;
    }
  }

  /** A failed rescan of a file that can be read marks it up to date unless it was a new file that could not
      be parsed. */
  lemma FailureMarks(t: Tables, path: string, disk: Disk, resolve: Resolver, t': Tables)
    requires FilesSound(t.files) && path != "" && (HasPath(t.files, path) || IdsLeft(t.files))
    requires path in disk.discovered && path in disk.hashes && AddStep(t, path, disk, resolve, false, t')
    ensures FilesSound(t'.files)
    ensures HasPath(t.files, path) || path in disk.parses ==> UpToDate(t', path, disk)
    ensures !HasPath(t.files, path) && path !in disk.parses ==> t' == t
  {
    hide Parsed, IdsLeft, NextId;
    if HasPath(t.files, path) {
      var i: nat :| i < |t.files| && t.files[i].path == path && ModifyAt(t, i, path, disk, resolve, false, t');
      RefreshedAt(t, i, path, disk);
    } else if path in disk.parses {
      var r := NewRecord(t, path, disk);
      NextIdFresh(t.files);
      var files' :| FileInserted(t.files, r, files') && t' == t.(files := files');
      InsertedFiles(t.files, r, files');
    }
  }

  /** The next rescan, when the file is still the same on disk, succeeds without reading it exactly when the file was
      known or could be parsed: then the failure is never made up for. Otherwise the file is taken up as if for the
      first time. */
  lemma FailedRescanSticks(t: Tables, path: string, disk: Disk, resolve: Resolver, t': Tables, disk': Disk, ok: bool,
                           t'': Tables)
    requires FilesSound(t.files) && path != "" && (HasPath(t.files, path) || IdsLeft(t.files))
    requires path in disk.discovered && path in disk.hashes && AddStep(t, path, disk, resolve, false, t')
    requires path in disk'.discovered && path in disk'.hashes
    requires disk'.discovered[path] == disk.discovered[path] && disk'.hashes[path] == disk.hashes[path]
    requires AddStep(t', path, disk', resolve, ok, t'')
    ensures HasPath(t.files, path) || path in disk.parses ==> ok && t'' == t'
    ensures !HasPath(t.files, path) && path !in disk.parses ==> t' == t && (ok <==> Readable(path, disk'))
    ensures Readable(path, disk') ==> ok && (t'' == t' <==> HasPath(t.files, path) || path in disk.parses)
  {
    hide Parsed, FileInserted, RemoveStep, ModifyOldStep, FilesSound, IdsLeft, Built;
    FailureMarks(t, path, disk, resolve, t');
    RescanSucceedsIff(t', path, disk', resolve, ok, t'');
    if !HasPath(t.files, path) && path !in disk.parses && Readable(path, disk') {
      TakenUp(t, path, disk', resolve, t'');
    }
  }

  lemma TakenUp(t: Tables, path: string, disk: Disk, resolve: Resolver, t': Tables)
    requires !HasPath(t.files, path) && path in disk.discovered && path in disk.hashes && Readable(path, disk)
    requires AddNewStep(t, path, disk, resolve, true, t')
    ensures t' != t
  {
    var r := NewRecord(t, path, disk);
    hide Parsed, NextId;
    var files' :| FileInserted(t.files, r, files')
      && Parsed(t.(files := files'), resolve, r.fileId, path, disk.parses[path], t');
    ParsedFiles(t.(files := files'), resolve, r.fileId, path, disk.parses[path], t');
    InsertedRecorded(t.files, r, files');
  }

  function OneFile(digest: bv8, time: nat): Tables {
    Tables([FileRecord(1, "a.cpp", [digest], 0, time)], [], [], [], map[], map[])
  }

  function OneFileDisk(parses: map<string, SemanticParse>): Disk {
    Disk(map["a.cpp" := DiscoveredFile(0, 1)], map["a.cpp" := [2]], parses)
  }

  /** A concrete file that stays without its symbol: its first rescan cannot be parsed, and the second does not try. */
  lemma SymbolNeverFound(resolve: Resolver, symbol: ExtractedSymbol)
    ensures AddStep(OneFile(1, 0), "a.cpp", OneFileDisk(map[]), resolve, false, OneFile(2, 1))
    ensures AddStep(OneFile(2, 1), "a.cpp", OneFileDisk(map["a.cpp" := SemanticParse([symbol], [], [])]), resolve, true,
      OneFile(2, 1))
  {
    var t, t', disk' := OneFile(1, 0), OneFile(2, 1), OneFileDisk(map["a.cpp" := SemanticParse([symbol], [], [])]);
    assert t.files[0] in t.files && t'.files[0] in t'.files;
    assert ModifyAt(t, 0, "a.cpp", OneFileDisk(map[]), resolve, false, t')
      && ModifyAt(t', 0, "a.cpp", disk', resolve, true, t');
  }

  // ----- adding and removing again -----

  /** Files in the order of their paths, and no two symbols the order does not separate. */
  ghost predicate Canonical(t: Tables) {
    && Sound(t) && StrictlySorted(PathLess, t.files)
    && forall x, y :: x in t.symbols && y in t.symbols && x != y ==> SymbolLess(x, y) || SymbolLess(y, x)
  }

  lemma EdgeOrders()
    ensures Comparator(PathLess) && Comparator(FileEdgeLess) && Comparator(SymbolEdgeLess)
  {
    LtComparator();
  }

  lemma PathsDiffer(files: seq<FileRecord>)
    requires UniquePaths(files) && SortedBy(PathLess, files)
    ensures StrictlySorted(PathLess, files)
  {
    forall i, j | 0 <= i < j < |files| ensures PathLess(files[i], files[j]) {
      LtTotal(files[i].path, files[j].path);
    }
  }

  /** Dropping the inserted file gives the files back. */
  lemma FilesBack(files: seq<FileRecord>, r: FileRecord, files': seq<FileRecord>, i: nat)
    requires FilesSound(files) && StrictlySorted(PathLess, files) && FileInserted(files, r, files')
    requires !HasId(files, r.fileId) && !HasPath(files, r.path) && r.path != "" && r.fileId < TWO_32
    requires i < |files'| && files'[i].path == r.path
    ensures files'[i] == r && RemoveAt(files', i) == files
  {
    InsertedFiles(files, r, files');
    assert files'[i] in files';
    assert files'[i] == r;
    PathsDiffer(files');
    hide PathLess;
    RemovedPlaces(files', i);
    var rest := RemoveAt(files', i);
    forall j, k | 0 <= j < k < |rest| ensures PathLess(rest[j], rest[k]) {
      assert rest[j] == files'[if j < i then j else j + 1] && rest[k] == files'[if k < i then k else k + 1];
    }
    forall x ensures x in rest <==> x in files {
      if x in rest {
        var j :| 0 <= j < |rest| && rest[j] == x;
        assert rest[j] == files'[if j < i then j else j + 1];
      }
      if x in files {
        assert x in files';
        var j :| 0 <= j < |files'| && files'[j] == x;
        assert j != i;
      }
    }
    EdgeOrders();
    StrictUnique(PathLess, rest, files);
  }

  /** A sorted permutation of symbols the order separates is unique. */
  lemma SymbolsBack(symbols: seq<SymbolRecord>, symbols': seq<SymbolRecord>)
    requires UniqueSymbolIds(symbols) && multiset(symbols') == multiset(symbols)
    requires SortedBy(SymbolLess, symbols) && SortedBy(SymbolLess, symbols')
    requires forall x, y :: x in symbols && y in symbols && x != y ==> SymbolLess(x, y) || SymbolLess(y, x)
    ensures symbols' == symbols
  {
    hide SymbolLess;
    SameSymbols(symbols', symbols);
    UniqueIdsBag(symbols, symbols');
    SortedIsStrict(symbols);
    SortedIsStrict(symbols');
    SymbolLessComparator();
    StrictUnique(SymbolLess, symbols', symbols);
  }

  lemma SortedIsStrict(s: seq<SymbolRecord>)
    requires UniqueSymbolIds(s) && SortedBy(SymbolLess, s)
    requires forall x, y :: x in s && y in s && x != y ==> SymbolLess(x, y) || SymbolLess(y, x)
    ensures StrictlySorted(SymbolLess, s)
  {
    hide SymbolLess;
    forall i, j | 0 <= i < j < |s| ensures SymbolLess(s[i], s[j]) {
      assert s[i] in s && s[j] in s && s[i] != s[j];
    }
  }

  /** Keeping the other files' symbols undoes appending symbols of this file. */
  lemma FilterUndoes(id: nat, symbols: seq<SymbolRecord>, built: seq<SymbolRecord>, mixed: seq<SymbolRecord>)
    requires forall s :: s in symbols ==> s.fileId != id
    requires forall s :: s in built ==> s.fileId == id
    requires multiset(mixed) == multiset(Filter(NotOf(id), symbols) + built)
    ensures multiset(Filter(NotOf(id), mixed)) == multiset(symbols)
  {
    var keep := NotOf(id);
    forall x ensures multiset(Filter(keep, mixed))[x] == multiset(symbols)[x] {
      FilterBag(keep, mixed, x);
      FilterBag(keep, symbols, x);
      assert multiset(mixed)[x] == multiset(Filter(keep, symbols))[x] + multiset(built)[x];
      assert x in multiset(symbols) ==> x in symbols;
      assert x in multiset(built) ==> x in built;
    }
  }

  /** Dropping what touches the file undoes adding its outgoing edges. */
  lemma FileEdgesBack(id: nat, edges: seq<FileEdge>, more: seq<FileEdge>, mixed: seq<FileEdge>, back: seq<FileEdge>)
    requires StrictlySorted(FileEdgeLess, edges) && StrictlySorted(FileEdgeLess, back)
    requires forall e :: e in edges ==> e.fromFileId != id && e.toFileId != id
    requires forall e :: e in more ==> e.fromFileId == id
    requires forall e :: e in mixed <==> e in Filter(NotFrom(id), edges) + more
    requires forall e :: e in back <==> e in Filter(NotTouching(id), mixed)
    ensures back == edges
  {
    hide FileEdgeLess;
    assert forall e :: e in Filter(NotFrom(id), edges) + more <==> e in Filter(NotFrom(id), edges) || e in more;
    EdgeOrders();
    StrictUnique(FileEdgeLess, back, edges);
  }

  lemma AddedParts(t: Tables, path: string, disk: Disk, resolve: Resolver, t1: Tables)
    returns (files': seq<FileRecord>, symbols: seq<SymbolRecord>)
    requires path in disk.discovered && AddNewStep(t, path, disk, resolve, true, t1)
    ensures path in disk.hashes && path in disk.parses && |disk.parses[path].symbols| <= LOCAL_LIMIT
    ensures var r, parse := NewRecord(t, path, disk), disk.parses[path];
      && FileInserted(t.files, r, files') && Built(r.fileId, parse.symbols, symbols)
      && RebuiltTo(WithParse(t.(files := files'), resolve, r.fileId, path, parse, symbols), t1)
  {
    var r, parse := NewRecord(t, path, disk), disk.parses[path];
    hide FileInserted, Built, RebuiltTo, WithParse, NewRecord;
    files' :| FileInserted(t.files, r, files') && Parsed(t.(files := files'), resolve, r.fileId, path, parse, t1)
      && |parse.symbols| <= LOCAL_LIMIT;
    symbols :| Built(r.fileId, parse.symbols, symbols)
      && RebuiltTo(WithParse(t.(files := files'), resolve, r.fileId, path, parse, symbols), t1);
  }

  /** What the two rebuilds leave, before it is compared with the original tables. */
  lemma RemovedAgain(t: Tables, path: string, id: nat, resolve: Resolver, parse: SemanticParse, files': seq<FileRecord>,
                     symbols: seq<SymbolRecord>, t1: Tables, t2: Tables) returns (i: nat)
    requires RebuiltTo(WithParse(t.(files := files'), resolve, id, path, parse, symbols), t1)
    requires HasPath(files', path) && RemoveStep(t1, path, t2)
    requires forall j :: 0 <= j < |files'| && files'[j].path == path ==> files'[j].fileId == id
    ensures i < |files'| && files'[i].path == path && t2.files == RemoveAt(files', i)
    ensures t2.semantics == t.semantics - {id}
    ensures multiset(t1.symbols) == multiset(Filter(NotOf(id), t.symbols) + symbols)
    ensures SortedBy(SymbolLess, t2.symbols) && multiset(t2.symbols) == multiset(Filter(NotOf(id), t1.symbols))
    ensures forall e :: e in t1.fileEdges <==>
      e in Filter(NotFrom(id), t.fileEdges) + NewEdges(resolve, files', id, path, parse.references)
    ensures StrictlySorted(FileEdgeLess, t2.fileEdges)
      && forall e :: e in t2.fileEdges <==> e in Filter(NotTouching(id), t1.fileEdges)
    ensures Derived(t2.symbols, t2.fileEdges, t2.semantics, t2.symbolEdges)
      && Indexed(t2.files, t2.symbols, t2.symbolEdges, t2.index)
  {
    hide SymbolLess, FileEdgeLess, Derived, Indexed, Filter, NewEdges, RemoveAt, HasPath, NotOf, NotFrom, NotTouching;
    assert t1.files == files' && t1.semantics == t.semantics[id := parse.dependencies];
    i :| i < |t1.files| && t1.files[i].path == path && RebuiltTo(Dropped(t1, i), t2);
    assert t1.semantics - {id} == t.semantics - {id};
  }

  lemma OldAvoids(t: Tables, id: nat)
    requires Presound(t) && !HasId(t.files, id)
    ensures forall s :: s in t.symbols ==> s.fileId != id
    ensures forall e :: e in t.fileEdges ==> e.fromFileId != id && e.toFileId != id
    ensures t.semantics - {id} == t.semantics
  {
    hide HasId;
  }

  lemma BuiltOf(id: nat, extracted: seq<ExtractedSymbol>, symbols: seq<SymbolRecord>)
    requires id < TWO_32 && |extracted| <= LOCAL_LIMIT && Built(id, extracted, symbols)
    ensures forall s :: s in symbols ==> s.fileId == id
  {
    hide SymbolLess, Built;
    BuiltSound(id, extracted, symbols);
  }

  lemma InsertedHas(t: Tables, r: FileRecord, files': seq<FileRecord>)
    requires Presound(t) && FileInserted(t.files, r, files')
    requires !HasId(t.files, r.fileId) && !HasPath(t.files, r.path) && r.path != "" && r.fileId < TWO_32
    ensures HasPath(files', r.path)
      && forall j :: 0 <= j < |files'| && files'[j].path == r.path ==> files'[j].fileId == r.fileId
  {
    InsertedFiles(t.files, r, files');
    assert r in files';
    forall j | 0 <= j < |files'| && files'[j].path == r.path ensures files'[j].fileId == r.fileId {
      assert files'[j] in files';
    }
  }

  lemma CanonicalParts(t: Tables)
    requires Canonical(t)
    ensures Presound(t) && FilesSound(t.files) && StrictlySorted(PathLess, t.files) && UniqueSymbolIds(t.symbols)
    ensures SortedBy(SymbolLess, t.symbols) && StrictlySorted(FileEdgeLess, t.fileEdges)
    ensures forall x, y :: x in t.symbols && y in t.symbols && x != y ==> SymbolLess(x, y) || SymbolLess(y, x)
    ensures Derived(t.symbols, t.fileEdges, t.semantics, t.symbolEdges)
      && Indexed(t.files, t.symbols, t.symbolEdges, t.index)
  {
    hide Derived, Indexed, SymbolLess, UniqueSymbolIds, FilesSound;
  }

  lemma NewRecordIs(t: Tables, path: string, disk: Disk)
    requires path in disk.discovered && path in disk.hashes
    ensures NewRecord(t, path, disk).path == path && NewRecord(t, path, disk).fileId == NextId(t.files)
  {
  }

  lemma IdsFresh(t: Tables)
    requires Presound(t) && IdsLeft(t.files)
    ensures !HasId(t.files, NextId(t.files)) && NextId(t.files) < TWO_32
  {
    NextIdFresh(t.files);
  }

  /** Adding a new file and removing it again restores every table exactly. */
  lemma AddThenRemove(t: Tables, path: string, disk: Disk, resolve: Resolver, t1: Tables, t2: Tables)
    requires Canonical(t) && IdsLeft(t.files) && path != "" && !HasPath(t.files, path) && path in disk.discovered
    requires AddNewStep(t, path, disk, resolve, true, t1) && RemoveStep(t1, path, t2)
    ensures t2 == t
  {
    hide *;
    CanonicalParts(t);
    IdsFresh(t);
    var files', symbols := AddedParts(t, path, disk, resolve, t1);
    var r, parse, id := NewRecord(t, path, disk), disk.parses[path], NextId(t.files);
    NewRecordIs(t, path, disk);
    InsertedHas(t, r, files');
    var i := RemovedAgain(t, path, id, resolve, parse, files', symbols, t1, t2);
    FilesBack(t.files, r, files', i);
    OldAvoids(t, id);
    BuiltOf(id, parse.symbols, symbols);
    FilterUndoes(id, t.symbols, symbols, t1.symbols);
    SymbolsBack(t.symbols, t2.symbols);
    FileEdgesBack(id, t.fileEdges, NewEdges(resolve, files', id, path, parse.references), t1.fileEdges, t2.fileEdges);
    DerivedUnique(t.symbols, t.fileEdges, t.semantics, t.symbolEdges, t2.symbolEdges);
    IndexedUnique(t.files, t.symbols, t.symbolEdges, t.index, t2.index);
  }

  lemma RebuiltPresound(t: Tables, t': Tables)
    requires Presound(t) && RebuiltTo(t, t')
    ensures Presound(t')
  {
    hide Presound, RebuiltTo;
    RebuildSound(t, t');
    SoundIsPresound(t');
  }

  lemma {:induction false} FilterAll<T(!new)>(keep: T -> bool, s: seq<T>)
    requires forall x :: x in s ==> keep(x)
    ensures Filter(keep, s) == s
  {
    if s != [] { FilterAll(keep, s[1..]); }
  }

  lemma FilterTwice<T(!new)>(keep: T -> bool, s: seq<T>)
    ensures Filter(keep, Filter(keep, s)) == Filter(keep, s)
  {
    FilterAll(keep, Filter(keep, s));
  }

  lemma NoSymbolsYet(t: Tables, id: nat)
    requires Presound(t) && !HasId(t.files, id)
    ensures Filter(NotOf(id), t.symbols) == t.symbols
  {
    hide HasId;
    OldAvoids(t, id);
    FilterAll(NotOf(id), t.symbols);
  }

  lemma ParsedSame(t: Tables, filtered: Tables, resolve: Resolver, id: nat, path: string, parse: SemanticParse,
                   t': Tables)
    requires filtered == t.(symbols := Filter(NotOf(id), t.symbols)) && Parsed(filtered, resolve, id, path, parse, t')
    ensures Parsed(t, resolve, id, path, parse, t')
  {
    hide RebuiltTo, Built, Filter, NewEdges;
    FilterTwice(NotOf(id), t.symbols);
    var symbols :| Built(id, parse.symbols, symbols)
      && RebuiltTo(WithParse(filtered, resolve, id, path, parse, symbols), t');
    assert WithParse(filtered, resolve, id, path, parse, symbols) == WithParse(t, resolve, id, path, parse, symbols);
  }

  // ----- the scanner -----

  datatype ChangeKind = FileAdded | FileModified | FileDeleted
  datatype Change = Change(kind: ChangeKind, path: string, fileId: nat, timestamp: nat)

  ghost predicate Recorded(files: seq<FileRecord>, path: string, id: nat, time: nat) {
    exists r :: r in files && r.path == path && r.fileId == id && r.lastModified == time
  }

  ghost predicate RegisteredAs(files: seq<FileRecord>, path: string, id: nat) {
    exists r :: r in files && r.path == path && r.fileId == id
  }

  /** What is put into the change log is what became of the file; a success that logs nothing has changed nothing. */
  ghost predicate Logged(before: Tables, path: string, ok: bool, change: Option<Change>, after: Tables) {
    match change
    case None => ok ==> after == before
    case Some(c) =>
      && ok && c.path == path
      && match c.kind
         case FileAdded => !HasPath(before.files, path) && Recorded(after.files, path, c.fileId, c.timestamp)
         case FileModified => RegisteredAs(before.files, path, c.fileId)
           && Recorded(after.files, path, c.fileId, c.timestamp)
         case FileDeleted => Recorded(before.files, path, c.fileId, c.timestamp) && !HasPath(after.files, path)
  }

  lemma ParsedFiles(t: Tables, resolve: Resolver, id: nat, path: string, parse: SemanticParse, t': Tables)
    requires Parsed(t, resolve, id, path, parse, t')
    ensures t'.files == t.files
  {
    hide Built, NewEdges, Filter, Derived, Indexed;
  }

  lemma PresoundFiles(t: Tables)
    requires Presound(t)
    ensures FilesSound(t.files)
  {
  }

  lemma DroppedPath(t: Tables, i: nat, t': Tables)
    requires FilesSound(t.files) && i < |t.files| && RebuiltTo(Dropped(t, i), t')
    ensures Recorded(t.files, t.files[i].path, t.files[i].fileId, t.files[i].lastModified)
      && !HasPath(t'.files, t.files[i].path)
  {
    hide Filter, Derived, Indexed;
    assert t.files[i] in t.files;
    forall r | r in t'.files ensures r.path != t.files[i].path {
      var j :| 0 <= j < |t'.files| && t'.files[j] == r;
      assert r == t.files[if j < i then j else j + 1];
    }
  }

  lemma InsertedRecorded(files: seq<FileRecord>, r: FileRecord, files': seq<FileRecord>)
    requires FileInserted(files, r, files')
    ensures Recorded(files', r.path, r.fileId, r.lastModified)
  {
    assert r in multiset(files + [r]);
  }

  lemma RefreshedRecorded(t: Tables, i: nat, path: string, disk: Disk)
    requires i < |t.files| && t.files[i].path == path && path in disk.discovered && path in disk.hashes
    ensures RegisteredAs(t.files, path, t.files[i].fileId)
    ensures Recorded(Refreshed(t, i, path, disk).files, path, t.files[i].fileId, disk.discovered[path].lastModified)
  {
    assert Refreshed(t, i, path, disk).files[i] in Refreshed(t, i, path, disk).files;
  }

  /** The first record with this path. */
  method FindPath(files: seq<FileRecord>, path: string) returns (i: nat)
    ensures i <= |files| && (i < |files| <==> HasPath(files, path))
    ensures i < |files| ==> files[i].path == path
  {
    i := 0;
    while i < |files|
      invariant 0 <= i <= |files| && forall j :: 0 <= j < i ==> files[j].path != path
    {
      if files[i].path == path {
        assert files[i] in files;
        return;
      }
      i := i + 1;
    }
  }

  class Scanner {
    const resolve: Resolver

    constructor (resolve: Resolver)
      ensures this.resolve == resolve
    {
      this.resolve := resolve;
    }

    /** Edges for the references that resolve. */
    method ResolveReferences(files: seq<FileRecord>, id: nat, path: string, references: seq<string>)
      returns (edges: seq<FileEdge>)
      ensures edges == NewEdges(resolve, files, id, path, references)
    {
      edges := [];
      var i := 0;
      while i < |references|
        invariant 0 <= i <= |references| && edges == NewEdges(resolve, files, id, path, references[..i])
      {
        assert references[..i + 1][..i] == references[..i];
        var target := resolve(path, references[i], PathsOf(files));
        if target.Some? {
          var targetId := IdAt(files, target.value);
          if targetId.Some? {
            edges := edges + [FileEdge(id, targetId.value)];
          }
        }
        i := i + 1;
      }
      assert references[..i] == references;
    }

    method IncrementalRemove(state: RuntimeState, path: string) returns (change: Option<Change>)
      requires Presound(state.Value())
      modifies state
      ensures RemoveStep(old(state.Value()), path, state.Value()) && Presound(state.Value())
      ensures Logged(old(state.Value()), path, true, change, state.Value())
      ensures change.Some? <==> HasPath(old(state.files), path)
    {
      hide Presound, RebuiltTo, Recorded;
      ghost var t := state.Value();
      var i := FindPath(state.files, path);
      if i == |state.files| {
        return None;
      }
      var removed := state.files[i];
      DroppedSound(t, i);
      state.files := RemoveAt(state.files, i);
      state.symbols := Filter(NotOf(removed.fileId), state.symbols);
      state.fileEdges := Filter(NotTouching(removed.fileId), state.fileEdges);
      state.semanticSymbolDepsByFileId := state.semanticSymbolDepsByFileId - {removed.fileId};
      assert state.Value() == Dropped(t, i);
      state.RebuildSymbolEdges();
      RebuiltPresound(Dropped(t, i), state.Value());
      PresoundFiles(t);
      DroppedPath(t, i, state.Value());
      return Some(Change(FileDeleted, path, removed.fileId, removed.lastModified));
    }

    method IncrementalAdd(state: RuntimeState, path: string, disk: Disk) returns (ok: bool, change: Option<Change>)
      requires Presound(state.Value()) && (HasPath(state.files, path) || IdsLeft(state.files)) && "" !in disk.discovered
      modifies state
      ensures AddStep(old(state.Value()), path, disk, resolve, ok, state.Value()) && Presound(state.Value())
      ensures Logged(old(state.Value()), path, ok, change, state.Value())
      decreases if HasPath(state.files, path) then 1 else 0
    {
      hide Presound, RebuiltTo, NextId, IdsLeft, Built, Recorded, RegisteredAs;
      ghost var t := state.Value();
      var i := FindPath(state.files, path);
      if i < |state.files| {
        ok, change := IncrementalModify(state, path, disk);
        return;
      }
      if path !in disk.discovered {
        return true, None;
      }
      if path !in disk.hashes || path !in disk.parses {
        return false, None;
      }
      var parse := disk.parses[path];
      var fileId := NextFileId(state.files);
      IdsFresh(t);
      var record := FileRecord(fileId, path, disk.hashes[path], disk.discovered[path].language,
        disk.discovered[path].lastModified);
      EdgeOrders();
      state.files := Sort(state.files + [record], PathLess);
      ghost var t0 := state.Value();
      assert FileInserted(t.files, record, t0.files);
      InsertedSound(t, record, t0.files);
      NoSymbolsYet(t, fileId);
      var newSymbols := BuildFromExtracted(fileId, parse.symbols);
      if newSymbols.None? {
        return false, None;
      }
      ok := FinishParse(state, fileId, path, parse, newSymbols.value);
      InsertedRecorded(t.files, record, t0.files);
      ParsedFiles(t0, resolve, fileId, path, parse, state.Value());
      return ok, Some(Change(FileAdded, path, fileId, record.lastModified));
    }

    method IncrementalModify(state: RuntimeState, path: string, disk: Disk) returns (ok: bool, change: Option<Change>)
      requires Presound(state.Value()) && (HasPath(state.files, path) || IdsLeft(state.files)) && "" !in disk.discovered
      modifies state
      ensures AddStep(old(state.Value()), path, disk, resolve, ok, state.Value()) && Presound(state.Value())
      ensures Logged(old(state.Value()), path, ok, change, state.Value())
      decreases if HasPath(state.files, path) then 0 else 1
    {
      hide Presound, RebuiltTo, IdsLeft, Built, RemoveStep, Recorded, RegisteredAs;
      ghost var t := state.Value();
      var i := FindPath(state.files, path);
      if i == |state.files| {
        ok, change := IncrementalAdd(state, path, disk);
        return;
      }
      if path !in disk.discovered {
        change := IncrementalRemove(state, path);
        return true, change;
      }
      if path !in disk.hashes {
        return false, None;
      }
      var found := disk.discovered[path];
      if state.files[i].hash == disk.hashes[path] && state.files[i].lastModified == found.lastModified {
        assert ModifyAt(t, i, path, disk, resolve, true, t);
        return true, None;
      }
      var fileId := state.files[i].fileId;
      FileId(t, i);
      state.files := state.files[i := state.files[i].(hash := disk.hashes[path], lastModified := found.lastModified,
        language := found.language)];
      ghost var updated := state.Value();
      assert updated == Refreshed(t, i, path, disk);
      RefreshedSound(t, i, path, disk);
      if path !in disk.parses {
        assert ModifyAt(t, i, path, disk, resolve, false, updated);
        return false, None;
      }
      var parse := disk.parses[path];
      state.symbols := Filter(NotOf(fileId), state.symbols);
      WithoutSymbols(updated, fileId);
      var rebuilt := BuildFromExtracted(fileId, parse.symbols);
      if rebuilt.None? {
        assert ModifyAt(t, i, path, disk, resolve, false, state.Value());
        return false, None;
      }
      FilterTwice(NotOf(fileId), updated.symbols);
      ghost var filtered := state.Value();
      ok := FinishParse(state, fileId, path, parse, rebuilt.value);
      ParsedSame(updated, filtered, resolve, fileId, path, parse, state.Value());
      assert ModifyAt(t, i, path, disk, resolve, true, state.Value());
      ParsedFiles(updated, resolve, fileId, path, parse, state.Value());
      RefreshedRecorded(t, i, path, disk);
      return ok, Some(Change(FileModified, path, fileId, found.lastModified));
    }

    /** Stores the symbols, named dependencies and outgoing edges of a file, and recomputes what depends on them. */
    method FinishParse(state: RuntimeState, fileId: nat, path: string, parse: SemanticParse, symbols: seq<SymbolRecord>)
      returns (ok: bool)
      requires Presound(state.Value()) && HasId(state.files, fileId) && fileId < TWO_32
      requires |parse.symbols| <= LOCAL_LIMIT && Built(fileId, parse.symbols, symbols)
      requires Filter(NotOf(fileId), state.symbols) == state.symbols
      modifies state
      ensures ok && Parsed(old(state.Value()), resolve, fileId, path, parse, state.Value()) && Presound(state.Value())
    {
      hide Presound, RebuiltTo, Built, HasId, Filter, NewEdges;
      ghost var t := state.Value();
      ghost var t0 := WithParse(t, resolve, fileId, path, parse, symbols);
      ParseSound(t, resolve, fileId, path, parse, symbols);
      state.symbols := state.symbols + symbols;
      state.semanticSymbolDepsByFileId := state.semanticSymbolDepsByFileId[fileId := parse.dependencies];
      var more := ResolveReferences(state.files, fileId, path, parse.references);
      state.fileEdges := Filter(NotFrom(fileId), state.fileEdges) + more;
      assert state.Value() == t0;
      state.RebuildSymbolEdges();
      RebuiltPresound(t0, state.Value());
      return true;
    }
  }
}
