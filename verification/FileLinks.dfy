/** Whether the file edges are those a full scan would give: a full scan resolves every reference among all files, while
    a rescan resolves only those of the file rescanned and leaves the edges of the others. */
module FileLinks {
  import opened Orders
  import opened Decimals
  import opened Symbols
  import opened SymbolTables
  import opened DependencyTables
  import opened SymbolIndexes
  import opened Scanners
  import opened FullScans
  import opened IndexingServices
  import opened IndexContents

  /** The edges the references in the recorded content of a file resolve to among these files. */
  function Targets(files: seq<FileRecord>, r: FileRecord, resolve: Resolver, parser: Parser): (edges: seq<FileEdge>)
    ensures forall e :: e in edges ==> e.fromFileId == r.fileId && HasId(files, e.toFileId)
  {
    NewEdges(resolve, files, r.fileId, r.path, parser(r.hash, r.language).references)
  }

  ghost predicate LinksUp(t: Tables, r: FileRecord, resolve: Resolver, parser: Parser) {
    forall e: FileEdge :: e.fromFileId == r.fileId ==> (e in t.fileEdges <==> e in Targets(t.files, r, resolve, parser))
  }

  /** Every file is linked to all that its references resolve to. */
  ghost predicate FullyLinked(t: Tables, resolve: Resolver, parser: Parser) {
    forall r :: r in t.files ==> LinksUp(t, r, resolve, parser)
  }

  // ----- the full scan -----

  lemma PieceLinks(disk: Disk, resolve: Resolver, files: seq<FileRecord>, pieces: seq<Piece>, i: nat, parser: Parser)
    requires Registered(disk, files) && PiecesOf(disk, resolve, files, pieces) && i < |files| && Conforms(disk, parser)
    ensures pieces[i].edges == Targets(files, files[i], resolve, parser)
  {
    hide Built, NewEdges, SemanticLess;
    assert PieceOf(disk, resolve, files, i, pieces[i]);
    assert files[i] == RecordAt(disk, i, files[i].path);
  }

  lemma FullScanLinks(disk: Disk, resolve: Resolver, t: Tables, parser: Parser)
    requires FullScanned(disk, resolve, t) && Conforms(disk, parser)
    ensures FullyLinked(t, resolve, parser)
  {
    hide Registered, PiecesOf, Joined, Targets, Conforms, Derived, Indexed;
    var files, pieces: seq<Piece>, order :| ScannedAs(disk, resolve, files, pieces, order, t);
    JoinedHolds(files, pieces, order);
    PieceCount(disk, resolve, files, pieces);
    forall r, e: FileEdge | r in t.files && e.fromFileId == r.fileId
      ensures e in t.fileEdges <==> e in Targets(t.files, r, resolve, parser) {
      var i :| 0 <= i < |files| && files[i] == r;
      RegisteredId(disk, files, i);
      PieceLinks(disk, resolve, files, pieces, i, parser);
      assert i in order;
      forall k: nat | k in order && e in pieces[k].edges ensures k == i {
        RegisteredId(disk, files, k);
        PieceLinks(disk, resolve, files, pieces, k, parser);
      }
    }
  }

  lemma PieceCount(disk: Disk, resolve: Resolver, files: seq<FileRecord>, pieces: seq<Piece>)
    requires PiecesOf(disk, resolve, files, pieces)
    ensures |pieces| == |files|
  {
  }

  // ----- single calls -----

  /** The references of the file resolve as before, but for files that are gone. */
  ghost predicate SameTargets(files: seq<FileRecord>, files': seq<FileRecord>, r: FileRecord, resolve: Resolver,
                              parser: Parser) {
    forall e :: e in Targets(files', r, resolve, parser) <==>
      e in Targets(files, r, resolve, parser) && HasId(files', e.toFileId)
  }

  /** What a call does to the edges: those of other files stay unless they lead to a file that is gone, and its own file
      is linked up. */
  ghost predicate EdgesKept(t: Tables, path: string, t': Tables, resolve: Resolver, parser: Parser) {
    && (forall r, e: FileEdge :: r in t'.files && r.path != path && e.fromFileId == r.fileId ==>
         (e in t'.fileEdges <==> e in t.fileEdges && HasId(t'.files, e.toFileId)))
    && forall r :: r in t'.files && r.path == path ==> LinksUp(t', r, resolve, parser)
  }

  lemma ParsedEdges(t: Tables, resolve: Resolver, id: nat, path: string, parse: SemanticParse, t': Tables,
                    parser: Parser)
    requires Presound(t) && Parsed(t, resolve, id, path, parse, t')
    requires forall r :: r in t.files ==> (r.path == path <==> r.fileId == id)
    requires forall r :: r in t.files && r.path == path ==> parser(r.hash, r.language) == parse
    ensures EdgesKept(t, path, t', resolve, parser)
  {
    hide Built, Derived, Indexed, FilesSound, SymbolsSound, HasId, NewEdges, Filter;
    var built :| Built(id, parse.symbols, built) && RebuiltTo(WithParse(t, resolve, id, path, parse, built), t');
    var more := NewEdges(resolve, t.files, id, path, parse.references);
    assert forall e :: e in t'.fileEdges <==> e in Filter(NotFrom(id), t.fileEdges) || e in more;
  }

  lemma RemovedEdges(t: Tables, path: string, t': Tables, resolve: Resolver, parser: Parser)
    requires Presound(t) && RemoveStep(t, path, t')
    ensures EdgesKept(t, path, t', resolve, parser)
  {
    hide Derived, Indexed, SymbolsSound, Targets;
    if HasPath(t.files, path) {
      var i: nat :| i < |t.files| && t.files[i].path == path && RebuiltTo(Dropped(t, i), t');
      KeptIds(t.files, i);
      DroppedRecords(t, i, t');
      DroppedPath(t, i, t');
      hide HasId, FilesSound, RemoveAt, Recorded;
      forall r | r in t'.files ensures r.path != path {
      }
    } else {
      hide HasId, FilesSound;
    }
  }

  lemma AddedEdges(t: Tables, path: string, disk: Disk, resolve: Resolver, t': Tables, parser: Parser)
    requires Presound(t) && IdsLeft(t.files) && !HasPath(t.files, path) && (path != "" || "" !in disk.discovered)
      && Conforms(disk, parser)
    requires AddNewStep(t, path, disk, resolve, true, t')
    ensures EdgesKept(t, path, t', resolve, parser)
  {
    hide EdgesKept, Sound, NextId, SymbolsSound, LinksSound, Parsed, FileInserted;
    if path in disk.discovered {
      var n, parse := NewRecord(t, path, disk), disk.parses[path];
      NextIdFresh(t.files);
      var files' :| FileInserted(t.files, n, files') && Parsed(t.(files := files'), resolve, n.fileId, path, parse, t');
      InsertedSound(t, n, files');
      InsertedElems(t.files, n, files');
      var inserted := t.(files := files');
      forall r: FileRecord | r in files'
        ensures (r.path == path <==> r.fileId == n.fileId) && (r.path == path ==> parser(r.hash, r.language) == parse)
      {
        if r != n { assert HasId(t.files, r.fileId) && HasPath(t.files, r.path); }
      }
      ParsedFiles(inserted, resolve, n.fileId, path, parse, t');
      ParsedEdges(inserted, resolve, n.fileId, path, parse, t', parser);
      SameEdgesKept(inserted, t, path, t', resolve, parser);
    } else {
      NothingDone(t, path, resolve, parser);
    }
  }

  lemma SameEdgesKept(t: Tables, u: Tables, path: string, t': Tables, resolve: Resolver, parser: Parser)
    requires EdgesKept(t, path, t', resolve, parser) && u.fileEdges == t.fileEdges
    ensures EdgesKept(u, path, t', resolve, parser)
  {
    hide LinksUp, HasId;
  }

  lemma NothingDone(t: Tables, path: string, resolve: Resolver, parser: Parser)
    requires Presound(t) && !HasPath(t.files, path)
    ensures EdgesKept(t, path, t, resolve, parser)
  {
    hide HasId, FilesSound, SymbolsSound;
  }

  lemma ModifiedEdges(t: Tables, i: nat, path: string, disk: Disk, resolve: Resolver, t': Tables, parser: Parser)
    requires Presound(t) && Conforms(disk, parser) && FullyLinked(t, resolve, parser)
    requires i < |t.files| && t.files[i].path == path && path in disk.discovered && path in disk.hashes
    requires ModifyAt(t, i, path, disk, resolve, true, t')
    ensures EdgesKept(t, path, t', resolve, parser)
  {
    hide Parsed, SymbolsSound, HasId, Targets, NewEdges;
    if disk.hashes[path] != t.files[i].hash || disk.discovered[path].lastModified != t.files[i].lastModified {
      var updated, id, parse := Refreshed(t, i, path, disk), t.files[i].fileId, disk.parses[path];
      RefreshedSound(t, i, path, disk);
      forall r | r in updated.files
        ensures (r.path == path <==> r.fileId == id) && (r.path == path ==> parser(r.hash, r.language) == parse)
      {
        var j :| 0 <= j < |updated.files| && updated.files[j] == r;
      }
      ParsedFiles(updated, resolve, id, path, parse, t');
      ParsedEdges(updated, resolve, id, path, parse, t', parser);
    }
  }

  lemma StepEdges(t: Tables, op: Operation, resolve: Resolver, t': Tables, parser: Parser)
    requires Presound(t) && Applicable(t, op) && Step(t, op, resolve, t') && Succeeded(op)
    requires FullyLinked(t, resolve, parser) && (op.Rescan? ==> Conforms(op.disk, parser))
    ensures EdgesKept(t, op.path, t', resolve, parser)
  {
    hide Presound, FullyLinked, Conforms, RemoveStep, AddNewStep, ModifyAt, IdsLeft, EdgesKept;
    match op {
      case Remove(path) => RemovedEdges(t, path, t', resolve, parser);
      case Rescan(path, disk, ok) =>
        if !HasPath(t.files, path) {
          AddedEdges(t, path, disk, resolve, t', parser);
        } else if path !in disk.discovered {
          RemovedEdges(t, path, t', resolve, parser);
        } else {
          var i: nat :| i < |t.files| && t.files[i].path == path && ModifyAt(t, i, path, disk, resolve, ok, t');
          ModifiedEdges(t, i, path, disk, resolve, t', parser);
        }
    }
  }

  lemma LinkedIffTargets(t: Tables, op: Operation, resolve: Resolver, t': Tables, parser: Parser)
    requires Presound(t) && Applicable(t, op) && Step(t, op, resolve, t') && Succeeded(op)
    requires FullyLinked(t, resolve, parser) && (op.Rescan? ==> Conforms(op.disk, parser))
    ensures FullyLinked(t', resolve, parser) <==>
      forall r :: r in t'.files && r.path != op.path ==> SameTargets(t.files, t'.files, r, resolve, parser)
  {
    StepEdges(t, op, resolve, t', parser);
    hide Presound, Applicable, Step, Conforms, Targets, HasId;
    forall r | r in t'.files && r.path != op.path
      ensures LinksUp(t', r, resolve, parser) <==> SameTargets(t.files, t'.files, r, resolve, parser)
    {
      StepFrame(t, op, resolve, t', r);
      OtherLinksUpIff(t, op.path, t', r, resolve, parser);
    }
  }

  lemma OtherLinksUpIff(t: Tables, path: string, t': Tables, r: FileRecord, resolve: Resolver, parser: Parser)
    requires EdgesKept(t, path, t', resolve, parser) && r in t'.files && r.path != path
      && LinksUp(t, r, resolve, parser)
    ensures LinksUp(t', r, resolve, parser) <==> SameTargets(t.files, t'.files, r, resolve, parser)
  {
    hide HasId;
  }

  // ----- in terms of what the references resolve to -----

  /** The paths among these that the references of the file resolve to. */
  ghost function ResolvedTo(r: FileRecord, paths: set<string>, resolve: Resolver, parser: Parser): set<string> {
    set p | p in paths && exists x :: x in parser(r.hash, r.language).references && resolve(r.path, x, paths) == Some(p)
  }

  /** The paths once the call has succeeded. */
  function PathsAfter(paths: set<string>, op: Operation): set<string> {
    if op.Rescan? && op.path in op.disk.discovered then paths + {op.path} else paths - {op.path}
  }

  lemma {:induction false} NewEdgesAre(resolve: Resolver, files: seq<FileRecord>, id: nat, path: string,
                                       references: seq<string>, e: FileEdge)
    ensures e in NewEdges(resolve, files, id, path, references) <==>
      e.fromFileId == id && exists x ::
        x in references && resolve(path, x, PathsOf(files)).Some?
        && IdAt(files, resolve(path, x, PathsOf(files)).value) == Some(e.toFileId)
  {
    if references != [] {
      var front, last := references[..|references| - 1], references[|references| - 1];
      assert references == front + [last];
      NewEdgesAre(resolve, files, id, path, front, e);
    }
  }

  lemma {:induction false} IdAtIs(files: seq<FileRecord>, path: string, id: nat)
    requires UniquePaths(files)
    ensures IdAt(files, path) == Some(id) <==> InFile(files, id, path)
  {
    if files != [] {
      var front, last := files[..|files| - 1], files[|files| - 1];
      assert files == front + [last];
      IdAtIs(front, path, id);
      if last.path == path {
        forall r | r in front ensures r.path != path {
          var i :| 0 <= i < |front| && front[i] == r;
          assert files[i].path != files[|files| - 1].path;
        }
      }
    }
  }

  /** A file is linked to those it resolves to. */
  lemma TargetsAre(files: seq<FileRecord>, r: FileRecord, resolve: Resolver, parser: Parser, e: FileEdge)
    requires UniquePaths(files)
    ensures e in Targets(files, r, resolve, parser) <==>
      e.fromFileId == r.fileId && exists p ::
        p in ResolvedTo(r, PathsOf(files), resolve, parser) && InFile(files, e.toFileId, p)
  {
    var references, paths := parser(r.hash, r.language).references, PathsOf(files);
    NewEdgesAre(resolve, files, r.fileId, r.path, references, e);
    forall p ensures IdAt(files, p) == Some(e.toFileId) <==> InFile(files, e.toFileId, p) {
      IdAtIs(files, p, e.toFileId);
    }
    forall p | InFile(files, e.toFileId, p) ensures p in paths {
      RegisteredPath(files, e.toFileId, p);
    }
    hide IdAt, InFile, NewEdges, PathsOf;
    if x :|
      && x in references && resolve(r.path, x, paths).Some?
      && IdAt(files, resolve(r.path, x, paths).value) == Some(e.toFileId)
    {
      assert resolve(r.path, x, paths).value in ResolvedTo(r, paths, resolve, parser);
    }
  }

  // ----- what a call does to ids and paths -----

  /** Files that stay keep their ids, and the id of a file that is gone is not in use. */
  ghost predicate IdsKept(files: seq<FileRecord>, files': seq<FileRecord>) {
    && (forall id, p :: InFile(files, id, p) && p in PathsOf(files') ==> InFile(files', id, p))
    && (forall id, p :: InFile(files, id, p) && HasId(files', id) ==> InFile(files', id, p))
  }

  lemma SameIdsKept(files: seq<FileRecord>)
    ensures IdsKept(files, files)
  {
  }

  lemma RemovedIds(files: seq<FileRecord>, i: nat)
    requires FilesSound(files) && i < |files|
    ensures IdsKept(files, RemoveAt(files, i))
  {
    var rest := RemoveAt(files, i);
    KeptIds(files, i);
    RemovedPlaces(files, i);
    hide RemoveAt;
    forall r | r in files && r != files[i] ensures r in rest {
      var j :| 0 <= j < |files| && files[j] == r;
      assert j != i;
    }
    forall r | r in rest ensures r.path != files[i].path {
      var j :| 0 <= j < |rest| && rest[j] == r;
      assert rest[j] == files[if j < i then j else j + 1];
    }
  }

  lemma InsertedIds(files: seq<FileRecord>, n: FileRecord, files': seq<FileRecord>)
    requires FileInserted(files, n, files')
    ensures IdsKept(files, files')
  {
    InsertedElems(files, n, files');
  }

  lemma RefreshedIds(t: Tables, i: nat, path: string, disk: Disk)
    requires i < |t.files| && path in disk.discovered && path in disk.hashes
    ensures IdsKept(t.files, Refreshed(t, i, path, disk).files)
  {
    var files' := Refreshed(t, i, path, disk).files;
    forall id, p | InFile(t.files, id, p) ensures InFile(files', id, p) {
      var r :| r in t.files && r.fileId == id && r.path == p;
      var j :| 0 <= j < |t.files| && t.files[j] == r;
      assert files'[j] in files';
    }
  }

  lemma RemoveIds(t: Tables, path: string, t': Tables)
    requires FilesSound(t.files) && RemoveStep(t, path, t')
    ensures IdsKept(t.files, t'.files)
  {
    hide IdsKept, Derived, Indexed, Filter, RemoveAt, FilesSound;
    if HasPath(t.files, path) {
      var i: nat :| i < |t.files| && t.files[i].path == path && RebuiltTo(Dropped(t, i), t');
      RemovedIds(t.files, i);
    } else {
      SameIdsKept(t.files);
    }
  }

  lemma StepIds(t: Tables, op: Operation, resolve: Resolver, t': Tables)
    requires FilesSound(t.files) && Step(t, op, resolve, t') && Succeeded(op)
    ensures IdsKept(t.files, t'.files)
  {
    hide IdsKept, Parsed, FileInserted, RemoveStep, FilesSound, NextId;
    SameIdsKept(t.files);
    match op {
      case Remove(path) => RemoveIds(t, path, t');
      case Rescan(path, disk, ok) =>
        if path !in disk.discovered {
          if HasPath(t.files, path) { RemoveIds(t, path, t'); }
        } else if HasPath(t.files, path) {
          var i: nat :| i < |t.files| && t.files[i].path == path && ModifyAt(t, i, path, disk, resolve, true, t');
          if disk.hashes[path] != t.files[i].hash || disk.discovered[path].lastModified != t.files[i].lastModified {
            RefreshedIds(t, i, path, disk);
            ParsedFiles(Refreshed(t, i, path, disk), resolve, t.files[i].fileId, path, disk.parses[path], t');
          }
        } else {
          var n, parse := NewRecord(t, path, disk), disk.parses[path];
          var files' :| FileInserted(t.files, n, files')
            && Parsed(t.(files := files'), resolve, n.fileId, path, parse, t');
          InsertedIds(t.files, n, files');
          ParsedFiles(t.(files := files'), resolve, n.fileId, path, parse, t');
        }
    }
  }

  lemma StepPaths(t: Tables, op: Operation, resolve: Resolver, t': Tables)
    requires Presound(t) && Applicable(t, op) && Step(t, op, resolve, t') && Succeeded(op)
    ensures PathsOf(t'.files) == PathsAfter(PathsOf(t.files), op)
  {
    SuccessIsCurrent(t, op, resolve, t');
    hide Step, Presound, Applicable, FilesSound;
    forall p ensures p in PathsOf(t'.files) <==> p in PathsAfter(PathsOf(t.files), op) {
      if p != op.path {
        forall r: FileRecord | r.path == p ensures r in t.files <==> r in t'.files {
          StepFrame(t, op, resolve, t', r);
        }
      }
    }
  }

  /** Same targets means resolving to the same paths, as far as these are there. */
  lemma SameTargetsIff(files: seq<FileRecord>, files': seq<FileRecord>, r: FileRecord, resolve: Resolver,
                       parser: Parser)
    requires FilesSound(files) && FilesSound(files') && IdsKept(files, files')
    ensures var paths, paths' := PathsOf(files), PathsOf(files');
      SameTargets(files, files', r, resolve, parser) <==>
      ResolvedTo(r, paths', resolve, parser) == ResolvedTo(r, paths, resolve, parser) * paths'
  {
    var paths, paths' := PathsOf(files), PathsOf(files');
    var before, after := ResolvedTo(r, paths, resolve, parser), ResolvedTo(r, paths', resolve, parser);
    forall e: FileEdge ensures
      && (e in Targets(files', r, resolve, parser) <==>
          e.fromFileId == r.fileId && exists p :: p in after && InFile(files', e.toFileId, p))
      && (e in Targets(files, r, resolve, parser) && HasId(files', e.toFileId) <==>
          e.fromFileId == r.fileId && exists p :: p in before * paths' && InFile(files', e.toFileId, p))
    {
      TargetsAre(files', r, resolve, parser, e);
      TargetsAre(files, r, resolve, parser, e);
      KeptTargets(files, files', before, e.toFileId);
    }
    assert before <= paths && after <= paths';
    hide Targets, ResolvedTo, InFile, HasId, FilesSound, IdsKept;
    if SameTargets(files, files', r, resolve, parser) {
      forall p | p in paths' ensures p in after <==> p in before * paths' {
        var id := PathId(files', p);
        var e := FileEdge(r.fileId, id);
        assert e in Targets(files', r, resolve, parser) <==>
          e in Targets(files, r, resolve, parser) && HasId(files', e.toFileId);
      }
    }
  }

  lemma KeptTargets(files: seq<FileRecord>, files': seq<FileRecord>, before: set<string>, id: nat)
    requires FilesSound(files) && FilesSound(files') && IdsKept(files, files') && before <= PathsOf(files)
    ensures (exists p :: p in before && InFile(files, id, p)) && HasId(files', id) <==>
      exists p :: p in before * PathsOf(files') && InFile(files', id, p)
  {
    if p :| p in before && InFile(files, id, p) && HasId(files', id) {
      assert InFile(files', id, p);
      RegisteredPath(files', id, p);
    }
    if p :| p in before * PathsOf(files') && InFile(files', id, p) {
      var id0 := PathId(files, p);
      assert InFile(files', id0, p);
      OneId(files', p, id0, id);
    }
  }

  lemma PathId(files: seq<FileRecord>, p: string) returns (id: nat)
    requires FilesSound(files) && p in PathsOf(files)
    ensures InFile(files, id, p) && HasId(files, id)
    ensures forall q :: InFile(files, id, q) ==> q == p
  {
    var r :| r in files && r.path == p;
    id := r.fileId;
    forall q | InFile(files, id, q) ensures q == p {
      var x :| x in files && x.fileId == id && x.path == q;
      var i :| 0 <= i < |files| && files[i] == r;
      var j :| 0 <= j < |files| && files[j] == x;
    }
  }

  lemma OneId(files: seq<FileRecord>, p: string, a: nat, b: nat)
    requires FilesSound(files) && InFile(files, a, p) && InFile(files, b, p)
    ensures a == b
  {
    var x :| x in files && x.fileId == a && x.path == p;
    var y :| y in files && y.fileId == b && y.path == p;
    var i :| 0 <= i < |files| && files[i] == x;
    var j :| 0 <= j < |files| && files[j] == y;
  }

  /** A successful call on tables that are fully linked leaves them so exactly when the references of every other file
      resolve to the same paths with the paths there are afterwards, but for one that is gone. */
  lemma StaysLinkedIff(t: Tables, op: Operation, resolve: Resolver, t': Tables, parser: Parser)
    requires Presound(t) && Applicable(t, op) && Step(t, op, resolve, t') && Succeeded(op)
    requires FullyLinked(t, resolve, parser) && (op.Rescan? ==> Conforms(op.disk, parser))
    ensures var paths, paths' := PathsOf(t.files), PathsAfter(PathsOf(t.files), op);
      FullyLinked(t', resolve, parser) <==>
      forall r :: r in t.files && r.path != op.path ==>
        ResolvedTo(r, paths', resolve, parser) == ResolvedTo(r, paths, resolve, parser) * paths'
  {
    LinkedIffTargets(t, op, resolve, t', parser);
    StepKeepsSound(t, op, resolve, t');
    PresoundFiles(t);
    PresoundFiles(t');
    StepIds(t, op, resolve, t');
    StepPaths(t, op, resolve, t');
    hide Presound, Applicable, Step, Conforms, FullyLinked, SameTargets, ResolvedTo, FilesSound, IdsKept, PathsAfter,
      PathsOf;
    forall r: FileRecord | r.path != op.path
      ensures r in t.files <==> r in t'.files
      ensures SameTargets(t.files, t'.files, r, resolve, parser) <==>
        ResolvedTo(r, PathsOf(t'.files), resolve, parser) ==
          ResolvedTo(r, PathsOf(t.files), resolve, parser) * PathsOf(t'.files)
    {
      StepFrame(t, op, resolve, t', r);
      SameTargetsIff(t.files, t'.files, r, resolve, parser);
    }
  }

  /** In particular a rescan of a known file that is still on disk always keeps the links complete. */
  lemma RescanStaysLinked(t: Tables, op: Operation, resolve: Resolver, t': Tables, parser: Parser)
    requires Presound(t) && Applicable(t, op) && Step(t, op, resolve, t') && Succeeded(op)
    requires FullyLinked(t, resolve, parser) && (op.Rescan? ==> Conforms(op.disk, parser))
    requires op.Rescan? && op.path in op.disk.discovered && HasPath(t.files, op.path)
    ensures FullyLinked(t', resolve, parser)
  {
    StaysLinkedIff(t, op, resolve, t', parser);
    hide Presound, Applicable, Step, Conforms, FullyLinked;
    var paths := PathsOf(t.files);
    assert PathsAfter(paths, op) == paths;
    forall r ensures ResolvedTo(r, paths, resolve, parser) * paths == ResolvedTo(r, paths, resolve, parser) {
    }
  }

  // ----- a file that comes late -----

  function ByName(path: string, reference: string, paths: set<string>): Option<string> {
    if reference in paths then Some(reference) else None
  }

  const A_FILE := FileRecord(1, "a.cpp", [1], 0, 1)
  const B_FILE := FileRecord(2, "b.cpp", [2], 0, 1)

  /** The first file refers to the second; neither holds a symbol. */
  function TwoFiles(both: bool): Disk {
    var a, b := DiscoveredFile(0, 1), DiscoveredFile(0, 1);
    Disk(if both then map["a.cpp" := a, "b.cpp" := b] else map["a.cpp" := a], map["a.cpp" := [1], "b.cpp" := [2]],
         map["a.cpp" := SemanticParse([], ["b.cpp"], []), "b.cpp" := SemanticParse([], [], [])])
  }

  function Bare(files: seq<FileRecord>, fileEdges: seq<FileEdge>, semantics: Semantics): Tables {
    Tables(files, [], fileEdges, [], semantics, map[])
  }

  lemma BareRebuilt(files: seq<FileRecord>, fileEdges: seq<FileEdge>, semantics: Semantics)
    requires StrictlySorted(FileEdgeLess, fileEdges) && forall f :: f in semantics ==> semantics[f] == []
    ensures RebuiltTo(Bare(files, fileEdges, semantics), Bare(files, fileEdges, semantics))
  {
    var first: map<nat, SymbolRecord> := map[];
    assert Fronts([], first) && EdgesFrom([], first, fileEdges, semantics, []);
  }

  lemma NoneBuilt(id: nat)
    ensures Built(id, [], [])
  {
    assert Drafts(id, []) == [] && Numbered(id, []) == [];
    assert SortedBy(SymbolLess, []) && multiset(Drafts(id, [])) == multiset([]);
  }

  lemma LateFileInserted()
    ensures FileInserted([A_FILE], B_FILE, [A_FILE, B_FILE])
    ensures NewRecord(Bare([A_FILE], [], map[1 := []]), "b.cpp", TwoFiles(true)) == B_FILE
  {
    assert [A_FILE][..0] == [] && MaxId([A_FILE]) == 1;
    assert [A_FILE] + [B_FILE] == [A_FILE, B_FILE];
  }

  lemma LateFileParsed()
    ensures Parsed(Bare([A_FILE, B_FILE], [], map[1 := []]), ByName, 2, "b.cpp", SemanticParse([], [], []),
                   Bare([A_FILE, B_FILE], [], map[1 := [], 2 := []]))
  {
    var files, parse := [A_FILE, B_FILE], SemanticParse([], [], []);
    hide Built, RebuiltTo;
    NoneBuilt(2);
    BareRebuilt(files, [], map[1 := [], 2 := []]);
    assert WithParse(Bare(files, [], map[1 := []]), ByName, 2, "b.cpp", parse, []) ==
      Bare(files, [], map[1 := [], 2 := []]);
  }

  lemma LateFileAdded()
    ensures AddStep(Bare([A_FILE], [], map[1 := []]), "b.cpp", TwoFiles(true), ByName, true,
                    Bare([A_FILE, B_FILE], [], map[1 := [], 2 := []]))
  {
    hide Parsed, FileInserted, NewRecord;
    LateFileInserted();
    LateFileParsed();
    assert Bare([A_FILE], [], map[1 := []]).(files := [A_FILE, B_FILE]) == Bare([A_FILE, B_FILE], [], map[1 := []]);
  }

  lemma OneRegistered()
    ensures Registered(TwoFiles(false), [A_FILE])
  {
    assert Mapped(FilePathOf, [A_FILE]) == ["a.cpp"] && Elems(["a.cpp"]) == {"a.cpp"};
  }

  lemma OnlyPiece()
    ensures PieceOf(TwoFiles(false), ByName, [A_FILE], 0, Piece([], [], []))
  {
    NoneBuilt(1);
    assert ["b.cpp"][..0] == [];
    assert PathsOf([A_FILE]) == {"a.cpp"};
    assert NewEdges(ByName, [A_FILE], 1, "a.cpp", ["b.cpp"]) == [];
  }

  lemma OneJoined()
    ensures Within([0], 1) && Joined([A_FILE], [Piece([], [], [])], [0]) == Bare([A_FILE], [], map[1 := []])
  {
    assert [0 as nat][..0] == [];
  }

  lemma FirstScan()
    ensures FullScanned(TwoFiles(false), ByName, Bare([A_FILE], [], map[1 := []]))
  {
    hide Registered, PieceOf, Joined, RebuiltTo, Bare;
    var files, pieces, order := [A_FILE], [Piece([], [], [])], [0 as nat];
    OneRegistered();
    OnlyPiece();
    OneJoined();
    BareRebuilt(files, [], map[1 := []]);
    assert order[0] == 0;
    assert ScannedAs(TwoFiles(false), ByName, files, pieces, order, Bare(files, [], map[1 := []]));
  }

  lemma TwoRegistered()
    ensures Registered(TwoFiles(true), [A_FILE, B_FILE])
  {
    assert Mapped(FilePathOf, [A_FILE, B_FILE]) == ["a.cpp", "b.cpp"]
      && Elems(["a.cpp", "b.cpp"]) == {"a.cpp", "b.cpp"};
  }

  lemma FirstPiece()
    ensures PieceOf(TwoFiles(true), ByName, [A_FILE, B_FILE], 0, Piece([], [], [FileEdge(1, 2)]))
  {
    var files := [A_FILE, B_FILE];
    NoneBuilt(1);
    assert ["b.cpp"][..0] == [];
    assert files[1] in files && "b.cpp" in PathsOf(files);
    assert IdAt(files, "b.cpp") == Some(2);
    assert NewEdges(ByName, files, 1, "a.cpp", ["b.cpp"]) == [FileEdge(1, 2)];
  }

  lemma SecondPiece()
    ensures PieceOf(TwoFiles(true), ByName, [A_FILE, B_FILE], 1, Piece([], [], []))
  {
    NoneBuilt(2);
  }

  lemma TwoJoined()
    ensures Within([0, 1], 2)
    ensures Joined([A_FILE, B_FILE], [Piece([], [], [FileEdge(1, 2)]), Piece([], [], [])], [0, 1])
      == Bare([A_FILE, B_FILE], [FileEdge(1, 2)], map[1 := [], 2 := []])
  {
    var files, pieces, order := [A_FILE, B_FILE], [Piece([], [], [FileEdge(1, 2)]), Piece([], [], [])], [0 as nat, 1];
    assert order[..1] == [0] && order[..1][..0] == [];
    assert Joined(files, pieces, order[..1]) == Bare(files, [FileEdge(1, 2)], map[1 := []]);
  }

  lemma SecondScan()
    ensures FullScanned(TwoFiles(true), ByName, Bare([A_FILE, B_FILE], [FileEdge(1, 2)], map[1 := [], 2 := []]))
  {
    hide Registered, PieceOf, Joined, RebuiltTo, Bare;
    var files, pieces, order := [A_FILE, B_FILE], [Piece([], [], [FileEdge(1, 2)]), Piece([], [], [])], [0 as nat, 1];
    TwoRegistered();
    FirstPiece();
    SecondPiece();
    TwoJoined();
    BareRebuilt(files, [FileEdge(1, 2)], map[1 := [], 2 := []]);
    assert order[0] == 0 && order[1] == 1;
    assert ScannedAs(TwoFiles(true), ByName, files, pieces, order,
      Bare(files, [FileEdge(1, 2)], map[1 := [], 2 := []]));
  }

  /** A concrete reference that is never resolved: the file it names is added after the full scan. Another full scan
      finds the link. */
  lemma LateFileUnlinked()
    ensures var t := Bare([A_FILE], [], map[1 := []]);
      && FullScanned(TwoFiles(false), ByName, t)
      && AddStep(t, "b.cpp", TwoFiles(true), ByName, true, Bare([A_FILE, B_FILE], [], map[1 := [], 2 := []]))
      && FullScanned(TwoFiles(true), ByName, Bare([A_FILE, B_FILE], [FileEdge(1, 2)], map[1 := [], 2 := []]))
  {
    hide *;
    FirstScan();
    LateFileAdded();
    SecondScan();
  }
}
