/** The file table: what a full scan writes into it, and that it stays in the order of the paths over every run. */
module FileTables {
  import opened Orders
  import opened Decimals
  import opened SymbolTables
  import opened DependencyTables
  import opened SymbolIndexes
  import opened Scanners
  import opened FullScans
  import opened IndexingServices

  ghost predicate PathOrdered(files: seq<FileRecord>) {
    forall i, j :: 0 <= i < j < |files| ==> Lt(files[i].path, files[j].path)
  }

  // ----- the full scan -----

  /** By the name of the source, then of the target, then by the line. */
  ghost predicate Precedes(a: SemanticDependency, b: SemanticDependency) {
    || Lt(a.fromSymbol, b.fromSymbol)
    || (a.fromSymbol == b.fromSymbol && Lt(a.toSymbol, b.toSymbol))
    || (a.fromSymbol == b.fromSymbol && a.toSymbol == b.toSymbol && a.lineNumber < b.lineNumber)
  }

  /** A full scan has one record for every file found, with digest, language and time as found, numbered from one in
      the order of the paths; and the named dependencies of every file once each and in order. */
  lemma FullScanRecords(disk: Disk, resolve: Resolver, t: Tables)
    requires FullScanned(disk, resolve, t)
    ensures PathOrdered(t.files)
    ensures forall p :: p in disk.discovered <==> exists r :: r in t.files && r.path == p
    ensures forall i :: 0 <= i < |t.files| ==>
      && t.files[i].fileId == i + 1 && t.files[i].path in disk.discovered && t.files[i].path in disk.hashes
      && t.files[i].hash == disk.hashes[t.files[i].path]
      && t.files[i].language == disk.discovered[t.files[i].path].language
      && t.files[i].lastModified == disk.discovered[t.files[i].path].lastModified
    ensures forall f, j, k :: f in t.semantics && 0 <= j < k < |t.semantics[f]| ==>
      Precedes(t.semantics[f][j], t.semantics[f][k])
  {
    hide Registered, PiecesOf, RebuiltTo, Joined, Precedes;
    var files, pieces, order :| ScannedAs(disk, resolve, files, pieces, order, t);
    RebuiltKeeps(Joined(files, pieces, order), t);
    JoinedHolds(files, pieces, order);
    RegisteredRecords(disk, files);
    forall f, j, k | f in t.semantics && 0 <= j < k < |t.semantics[f]|
      ensures Precedes(t.semantics[f][j], t.semantics[f][k]) {
      PieceInOrder(disk, resolve, files, pieces, f - 1, j, k);
    }
  }

  lemma RebuiltKeeps(t: Tables, t': Tables)
    requires RebuiltTo(t, t')
    ensures t'.files == t.files && t'.semantics == t.semantics
  {
  }

  lemma RegisteredRecords(disk: Disk, files: seq<FileRecord>)
    requires Registered(disk, files)
    ensures PathOrdered(files)
    ensures forall p :: p in disk.discovered <==> exists r :: r in files && r.path == p
    ensures forall i :: 0 <= i < |files| ==>
      && files[i].fileId == i + 1 && files[i].path in disk.discovered && files[i].path in disk.hashes
      && files[i].hash == disk.hashes[files[i].path]
      && files[i].language == disk.discovered[files[i].path].language
      && files[i].lastModified == disk.discovered[files[i].path].lastModified
  {
    var paths := Mapped(FilePathOf, files);
    forall i, j | 0 <= i < j < |files| ensures Lt(files[i].path, files[j].path) {
      assert Lt(paths[i], paths[j]);
    }
    forall p ensures p in disk.discovered <==> exists r :: r in files && r.path == p {
      assert p in disk.discovered.Keys <==> p in Elems(paths);
      if p in Elems(paths) {
        var i :| 0 <= i < |paths| && paths[i] == p;
        assert files[i] in files;
      }
      if r :| r in files && r.path == p {
        var i :| 0 <= i < |files| && files[i] == r;
        assert paths[i] == p;
      }
    }
  }

  lemma PieceInOrder(disk: Disk, resolve: Resolver, files: seq<FileRecord>, pieces: seq<Piece>, i: nat, j: nat, k: nat)
    requires PiecesOf(disk, resolve, files, pieces) && i < |pieces| && j < k < |pieces[i].dependencies|
    ensures Precedes(pieces[i].dependencies[j], pieces[i].dependencies[k])
  {
    hide Built, NewEdges;
    assert PieceOf(disk, resolve, files, i, pieces[i]);
  }

  // ----- the order of the table -----

  lemma RemovedOrdered(files: seq<FileRecord>, i: nat)
    requires PathOrdered(files) && i < |files|
    ensures PathOrdered(RemoveAt(files, i))
  {
  }

  lemma InsertedOrdered(files: seq<FileRecord>, r: FileRecord, files': seq<FileRecord>)
    requires FilesSound(files) && FileInserted(files, r, files') && !HasId(files, r.fileId) && !HasPath(files, r.path)
      && r.path != "" && r.fileId < TWO_32
    ensures PathOrdered(files')
  {
    InsertedFiles(files, r, files');
    forall i, j | 0 <= i < j < |files'| ensures Lt(files'[i].path, files'[j].path) {
      LtTotal(files'[i].path, files'[j].path);
    }
  }

  lemma ParsedOrdered(t: Tables, resolve: Resolver, id: nat, path: string, parse: SemanticParse, t': Tables)
    requires Parsed(t, resolve, id, path, parse, t') && PathOrdered(t.files)
    ensures PathOrdered(t'.files)
  {
    hide Built, RebuiltTo, PathOrdered;
    ParsedFiles(t, resolve, id, path, parse, t');
  }

  lemma RemoveOrdered(t: Tables, path: string, t': Tables)
    requires RemoveStep(t, path, t') && PathOrdered(t.files)
    ensures PathOrdered(t'.files)
  {
    hide RebuiltTo, PathOrdered;
    if HasPath(t.files, path) {
      var i: nat :| i < |t.files| && t.files[i].path == path && RebuiltTo(Dropped(t, i), t');
      RebuiltKeeps(Dropped(t, i), t');
      RemovedOrdered(t.files, i);
    }
  }

  lemma AddedOrdered(t: Tables, path: string, disk: Disk, resolve: Resolver, ok: bool, t': Tables)
    requires Presound(t) && AddNewStep(t, path, disk, resolve, ok, t') && PathOrdered(t.files)
    requires !HasPath(t.files, path) && IdsLeft(t.files) && (path != "" || "" !in disk.discovered)
    ensures PathOrdered(t'.files)
  {
    hide Parsed, FileInserted, PathOrdered, IdsLeft, SymbolsSound, LinksSound, NextId;
    PresoundFiles(t);
    if path in disk.discovered && path in disk.hashes && path in disk.parses {
      var r, parse := NewRecord(t, path, disk), disk.parses[path];
      var files' :| FileInserted(t.files, r, files')
        && if |parse.symbols| > LOCAL_LIMIT then !ok && t' == t.(files := files')
           else ok && Parsed(t.(files := files'), resolve, r.fileId, path, parse, t');
      NextIdFresh(t.files);
      InsertedOrdered(t.files, r, files');
      if ok { ParsedOrdered(t.(files := files'), resolve, r.fileId, path, parse, t'); }
    }
  }

  lemma ModifiedOrdered(t: Tables, i: nat, path: string, disk: Disk, resolve: Resolver, ok: bool, t': Tables)
    requires i < |t.files| && path in disk.discovered && path in disk.hashes
    requires ModifyAt(t, i, path, disk, resolve, ok, t') && PathOrdered(t.files)
    ensures PathOrdered(t'.files)
  {
    hide Parsed;
    var updated := Refreshed(t, i, path, disk);
    assert PathOrdered(updated.files);
    if path in disk.parses && Parsed(updated, resolve, t.files[i].fileId, path, disk.parses[path], t') {
      ParsedOrdered(updated, resolve, t.files[i].fileId, path, disk.parses[path], t');
    }
  }

  lemma StepOrdered(t: Tables, op: Operation, resolve: Resolver, t': Tables)
    requires Presound(t) && Applicable(t, op) && Step(t, op, resolve, t') && PathOrdered(t.files)
    ensures PathOrdered(t'.files)
  {
    hide Presound, PathOrdered, AddNewStep, RemoveStep, ModifyAt, IdsLeft;
    match op {
      case Remove(path) => RemoveOrdered(t, path, t');
      case Rescan(path, disk, ok) =>
        if !HasPath(t.files, path) {
          AddedOrdered(t, path, disk, resolve, ok, t');
        } else if path !in disk.discovered {
          RemoveOrdered(t, path, t');
        } else if path in disk.hashes {
          var i: nat :| i < |t.files| && t.files[i].path == path && ModifyAt(t, i, path, disk, resolve, ok, t');
          ModifiedOrdered(t, i, path, disk, resolve, ok, t');
        }
    }
  }

  lemma {:induction false} CallsOrdered(states: seq<Tables>, ops: seq<Operation>, resolve: Resolver, i: nat)
    requires Run(states, ops, resolve) && Sound(states[0]) && PathOrdered(states[0].files) && i <= |ops|
    requires forall k :: 0 <= k < i ==> Succeeded(ops[k])
    ensures PathOrdered(states[i].files)
  {
    hide Sound, Presound, Step, Applicable, PathOrdered;
    if i > 0 {
      CallsOrdered(states, ops, resolve, i - 1);
      SuccessesKeepSound(states, ops, resolve, i - 1);
      SoundIsPresound(states[i - 1]);
      StepOrdered(states[i - 1], ops[i - 1], resolve, states[i]);
    }
  }

  lemma EventOrdered(t: Tables, event: Event, resolve: Resolver, t': Tables)
    requires Sound(t) && PathOrdered(t.files) && Handled(t, event, resolve, t')
    ensures PathOrdered(t'.files)
  {
    hide Sound, PathOrdered, FullScanned, Rescans, Step;
    match event {
      case Changed(kind, path, disks) =>
        var accepted, applied :| Mutated(t, kind, path, disks, resolve, accepted, applied, t');
        var rescans, states, ops :| Tried(t, kind, path, disks, resolve, rescans, states, ops)
          && Concluded(t, rescans, states, ops, accepted, applied, t');
        if applied {
          CallsOrdered(states, ops, resolve, |ops|);
        }
      case RebuildRequest(disk) =>
        if forall p :: p in disk.discovered ==> Scannable(p, disk) {
          FullScanRecords(disk, resolve, t');
        }
      case ShutdownRequest =>
    }
  }

  /** Whatever events come, the file table stays in the order of the paths. */
  lemma {:induction false} DaemonFilesOrdered(tables: seq<Tables>, events: seq<Event>, resolve: Resolver, i: nat)
    requires DaemonRun(tables, events, resolve) && Sound(tables[0]) && PathOrdered(tables[0].files) && i <= |events|
    ensures PathOrdered(tables[i].files)
  {
    hide Sound, Handled, PathOrdered;
    if i > 0 {
      DaemonFilesOrdered(tables, events, resolve, i - 1);
      DaemonStaysSound(tables, events, resolve, i - 1);
      EventOrdered(tables[i - 1], events[i - 1], resolve, tables[i]);
    }
  }
}
