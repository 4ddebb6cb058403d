/** What the index says about a file is what its recorded content says. */
module IndexContents {
  // Over every run of the daemon the symbols and named dependencies of each file are those of the content whose digest
  // is recorded, parsed in the recorded language. Parsing is an arbitrary function of digest and language.

  import opened Orders
  import opened Symbols
  import opened SymbolTables
  import opened DependencyTables
  import opened SymbolIndexes
  import opened Scanners
  import opened FullScans
  import opened IndexingServices

  type Parser = (seq<bv8>, nat) -> SemanticParse

  /** What parsing the files on disk gives depends on their content and language only. */
  ghost predicate Conforms(disk: Disk, parser: Parser) {
    forall p :: p in disk.discovered && p in disk.hashes && p in disk.parses ==>
      disk.parses[p] == parser(disk.hashes[p], disk.discovered[p].language)
  }

  function Of(id: nat): SymbolRecord -> bool {
    (s: SymbolRecord) => s.fileId == id
  }

  /** The symbols and named dependencies under this id are those of the parse: name by name, line by line they read as
      what was extracted, and they are numbered as the symbols of one file. */
  ghost predicate Shows(t: Tables, id: nat, parse: SemanticParse) {
    && multiset(Mapped(ReadBack, Filter(Of(id), t.symbols))) == multiset(parse.symbols)
    && (exists built :: Built(id, parse.symbols, built) && multiset(Filter(Of(id), t.symbols)) == multiset(built))
    && id in t.semantics && forall d :: d in t.semantics[id] <==> d in parse.dependencies
  }

  ghost predicate Reflects(t: Tables, parser: Parser) {
    forall r :: r in t.files ==> Shows(t, r.fileId, parser(r.hash, r.language))
  }

  // ----- what edits leave of a file -----

  /** The symbols and dependencies of a file are the same in both. */
  ghost predicate SameAbout(t: Tables, t': Tables, id: nat) {
    && multiset(Filter(Of(id), t.symbols)) == multiset(Filter(Of(id), t'.symbols))
    && (id in t.semantics <==> id in t'.semantics) && (id in t.semantics ==> t.semantics[id] == t'.semantics[id])
  }

  lemma StillShows(t: Tables, t': Tables, id: nat, parse: SemanticParse)
    requires Shows(t, id, parse) && SameAbout(t, t', id)
    ensures Shows(t', id, parse)
  {
    hide Built, Mapped, Filter, Of;
    var built :| Built(id, parse.symbols, built) && multiset(Filter(Of(id), t.symbols)) == multiset(built);
    BagReadsBack(id, parse.symbols, built, Filter(Of(id), t'.symbols));
  }

  lemma BagReadsBack(id: nat, extracted: seq<ExtractedSymbol>, built: seq<SymbolRecord>, symbols: seq<SymbolRecord>)
    requires Built(id, extracted, built) && multiset(symbols) == multiset(built)
    ensures multiset(Mapped(ReadBack, symbols)) == multiset(extracted)
  {
    hide Built, Mapped;
    BuiltReadsBack(id, extracted, built);
    MappedBag(ReadBack, symbols, built);
  }

  lemma BagsOf(a: seq<SymbolRecord>, b: seq<SymbolRecord>, id: nat)
    requires forall x: SymbolRecord :: x.fileId == id ==> multiset(a)[x] == multiset(b)[x]
    ensures multiset(Filter(Of(id), a)) == multiset(Filter(Of(id), b))
  {
    forall x ensures multiset(Filter(Of(id), a))[x] == multiset(Filter(Of(id), b))[x] {
      FilterBag(Of(id), a, x);
      FilterBag(Of(id), b, x);
    }
  }

  lemma RebuiltSameAbout(t: Tables, t': Tables, id: nat)
    requires RebuiltTo(t, t')
    ensures SameAbout(t, t', id)
  {
    hide Derived, Indexed, SymbolLess, FileEdgeLess;
    BagsOf(t.symbols, t'.symbols, id);
  }

  lemma ParseSameAbout(t: Tables, resolve: Resolver, id: nat, path: string, parse: SemanticParse,
                       built: seq<SymbolRecord>, other: nat)
    requires other != id && forall s :: s in built ==> s.fileId == id
    ensures SameAbout(t, WithParse(t, resolve, id, path, parse, built), other)
  {
    hide NewEdges;
    var after := Filter(NotOf(id), t.symbols) + built;
    forall x: SymbolRecord | x.fileId == other ensures multiset(t.symbols)[x] == multiset(after)[x] {
      FilterBag(NotOf(id), t.symbols, x);
      assert multiset(after)[x] == multiset(Filter(NotOf(id), t.symbols))[x] + multiset(built)[x];
      assert x !in multiset(built);
    }
    BagsOf(t.symbols, after, other);
  }

  lemma BehindOthers(symbols: seq<SymbolRecord>, id: nat, built: seq<SymbolRecord>)
    requires forall s :: s in built ==> s.fileId == id
    ensures multiset(Filter(Of(id), Filter(NotOf(id), symbols) + built)) == multiset(built)
  {
    var after := Filter(NotOf(id), symbols) + built;
    forall x: SymbolRecord | x.fileId == id ensures multiset(built)[x] == multiset(after)[x] {
      FilterBag(NotOf(id), symbols, x);
      assert multiset(after)[x] == multiset(Filter(NotOf(id), symbols))[x] + multiset(built)[x];
    }
    BagsOf(built, after, id);
    FilterAll(Of(id), built);
  }

  lemma ParseShows(t: Tables, resolve: Resolver, id: nat, path: string, parse: SemanticParse, built: seq<SymbolRecord>)
    requires Built(id, parse.symbols, built) && forall s :: s in built ==> s.fileId == id
    ensures Shows(WithParse(t, resolve, id, path, parse, built), id, parse)
  {
    hide NewEdges, Built, Filter, Of, NotOf, Mapped;
    BehindOthers(t.symbols, id, built);
    BagReadsBack(id, parse.symbols, built, Filter(Of(id), WithParse(t, resolve, id, path, parse, built).symbols));
  }

  lemma DroppedSameAbout(t: Tables, i: nat, other: nat)
    requires i < |t.files| && other != t.files[i].fileId
    ensures SameAbout(t, Dropped(t, i), other)
  {
    var keep := NotOf(t.files[i].fileId);
    forall x: SymbolRecord | x.fileId == other ensures multiset(t.symbols)[x] == multiset(Filter(keep, t.symbols))[x] {
      FilterBag(keep, t.symbols, x);
    }
    BagsOf(t.symbols, Filter(keep, t.symbols), other);
  }

  // ----- successful calls -----

  /** A parse put in place and rebuilt: that file shows it, and the others show what they showed. */
  lemma ParsedReflects(t: Tables, resolve: Resolver, id: nat, path: string, parse: SemanticParse, t': Tables,
                       parser: Parser)
    requires Parsed(t, resolve, id, path, parse, t') && id < TWO_32 && |parse.symbols| <= LOCAL_LIMIT
    requires forall r :: r in t.files ==>
      if r.fileId == id then parser(r.hash, r.language) == parse else Shows(t, r.fileId, parser(r.hash, r.language))
    ensures Reflects(t', parser)
  {
    hide Built, RebuiltTo, Shows, WithParse, SameAbout;
    var built :| Built(id, parse.symbols, built) && RebuiltTo(WithParse(t, resolve, id, path, parse, built), t');
    BuiltOf(id, parse.symbols, built);
    var edited := WithParse(t, resolve, id, path, parse, built);
    ParsedFiles(t, resolve, id, path, parse, t');
    forall r | r in t.files ensures Shows(t', r.fileId, parser(r.hash, r.language)) {
      if r.fileId == id {
        ParseShows(t, resolve, id, path, parse, built);
      } else {
        ParseSameAbout(t, resolve, id, path, parse, built, r.fileId);
        StillShows(t, edited, r.fileId, parser(r.hash, r.language));
      }
      RebuiltSameAbout(edited, t', r.fileId);
      StillShows(edited, t', r.fileId, parser(r.hash, r.language));
    }
  }

  lemma RemoveReflects(t: Tables, path: string, t': Tables, parser: Parser)
    requires Presound(t) && Reflects(t, parser) && RemoveStep(t, path, t')
    ensures Reflects(t', parser)
  {
    hide RebuiltTo, Shows, SameAbout, Dropped, FilesSound, SymbolsSound, LinksSound;
    if HasPath(t.files, path) {
      var i: nat :| i < |t.files| && t.files[i].path == path && RebuiltTo(Dropped(t, i), t');
      DroppedRecords(t, i, t');
      forall r | r in t'.files ensures Shows(t', r.fileId, parser(r.hash, r.language)) {
        DroppedSameAbout(t, i, r.fileId);
        StillShows(t, Dropped(t, i), r.fileId, parser(r.hash, r.language));
        RebuiltSameAbout(Dropped(t, i), t', r.fileId);
        StillShows(Dropped(t, i), t', r.fileId, parser(r.hash, r.language));
      }
    }
  }

  lemma DroppedRecords(t: Tables, i: nat, t': Tables)
    requires FilesSound(t.files) && i < |t.files| && RebuiltTo(Dropped(t, i), t')
    ensures forall r :: r in t'.files ==> r in t.files && r.fileId != t.files[i].fileId
  {
    hide Filter, Derived, Indexed;
    RemovedPlaces(t.files, i);
    forall r | r in t'.files ensures r in t.files && r.fileId != t.files[i].fileId {
      var j :| 0 <= j < |t'.files| && t'.files[j] == r;
      assert r == t.files[if j < i then j else j + 1];
    }
  }

  lemma AddReflects(t: Tables, path: string, disk: Disk, resolve: Resolver, t': Tables, parser: Parser)
    requires Presound(t) && IdsLeft(t.files) && Reflects(t, parser) && Conforms(disk, parser)
    requires AddNewStep(t, path, disk, resolve, true, t')
    ensures Reflects(t', parser)
  {
    if path in disk.discovered {
      var n, parse := NewRecord(t, path, disk), disk.parses[path];
      NextIdFresh(t.files);
      assert n.fileId == NextId(t.files) && n.hash == disk.hashes[path] && n.language == disk.discovered[path].language;
      hide Parsed, FileInserted, NextId, Shows, IdsLeft, NewRecord, FilesSound, SymbolsSound, LinksSound;
      var files' :| FileInserted(t.files, n, files') && Parsed(t.(files := files'), resolve, n.fileId, path, parse, t');
      InsertedElems(t.files, n, files');
      forall r: FileRecord | r in files'
        ensures if r.fileId == n.fileId then parser(r.hash, r.language) == parse
                else Shows(t.(files := files'), r.fileId, parser(r.hash, r.language))
      {
        if r != n {
          assert HasId(t.files, r.fileId);
          StillShows(t, t.(files := files'), r.fileId, parser(r.hash, r.language));
        }
      }
      ParsedReflects(t.(files := files'), resolve, n.fileId, path, parse, t', parser);
    }
  }

  lemma ModifyReflects(t: Tables, i: nat, path: string, disk: Disk, resolve: Resolver, t': Tables, parser: Parser)
    requires Presound(t) && Reflects(t, parser) && Conforms(disk, parser)
    requires i < |t.files| && t.files[i].path == path && path in disk.discovered && path in disk.hashes
    requires ModifyAt(t, i, path, disk, resolve, true, t')
    ensures Reflects(t', parser)
  {
    hide Parsed, Shows, SymbolsSound, LinksSound;
    if disk.hashes[path] != t.files[i].hash || disk.discovered[path].lastModified != t.files[i].lastModified {
      var updated, id, parse := Refreshed(t, i, path, disk), t.files[i].fileId, disk.parses[path];
      FileId(t, i);
      forall r | r in updated.files
        ensures if r.fileId == id then parser(r.hash, r.language) == parse
          else Shows(updated, r.fileId, parser(r.hash, r.language))
      {
        var j :| 0 <= j < |updated.files| && updated.files[j] == r;
        if j != i {
          assert r == t.files[j] && t.files[j] in t.files;
          StillShows(t, updated, r.fileId, parser(r.hash, r.language));
        }
      }
      ParsedReflects(updated, resolve, id, path, parse, t', parser);
    }
  }

  /** A successful call leaves every file showing its recorded content. */
  lemma SuccessReflects(t: Tables, op: Operation, resolve: Resolver, t': Tables, parser: Parser)
    requires Presound(t) && Applicable(t, op) && Step(t, op, resolve, t') && Succeeded(op)
    requires Reflects(t, parser) && (op.Rescan? ==> Conforms(op.disk, parser))
    ensures Reflects(t', parser)
  {
    hide Presound, Reflects, Conforms, RemoveStep, AddNewStep, ModifyAt, IdsLeft;
    match op {
      case Remove(path) => RemoveReflects(t, path, t', parser);
      case Rescan(path, disk, ok) =>
        if !HasPath(t.files, path) {
          AddReflects(t, path, disk, resolve, t', parser);
        } else if path !in disk.discovered {
          RemoveReflects(t, path, t', parser);
        } else {
          var i: nat :| i < |t.files| && t.files[i].path == path && ModifyAt(t, i, path, disk, resolve, ok, t');
          ModifyReflects(t, i, path, disk, resolve, t', parser);
        }
    }
  }

  // ----- the full scan -----

  ghost function Expected(pieces: seq<Piece>, order: seq<nat>, i: nat): multiset<SymbolRecord>
    requires i < |pieces|
  {
    if i in order then multiset(pieces[i].symbols) else multiset{}
  }

  /** Every piece holds symbols of its own file only. */
  ghost predicate OwnSymbols(pieces: seq<Piece>) {
    forall k, s :: 0 <= k < |pieces| && s in pieces[k].symbols ==> s.fileId == k + 1
  }

  lemma {:induction false} JoinedAbout(files: seq<FileRecord>, pieces: seq<Piece>, order: seq<nat>, i: nat)
    requires Within(order, |pieces|) && NoDup(order) && i < |pieces| && OwnSymbols(pieces)
    ensures multiset(Filter(Of(i + 1), Joined(files, pieces, order).symbols)) == Expected(pieces, order, i)
  {
    if order != [] {
      var front, last := order[..|order| - 1], order[|order| - 1];
      assert order == front + [last];
      JoinedAbout(files, pieces, front, i);
      ExtendedAbout(Joined(files, pieces, front).symbols, pieces[last].symbols, last, i);
    }
  }

  lemma {:induction false} FilterAppend<T(!new)>(keep: T -> bool, a: seq<T>, b: seq<T>)
    ensures Filter(keep, a + b) == Filter(keep, a) + Filter(keep, b)
  {
    if a == [] {
      assert a + b == b;
    } else {
      assert (a + b)[1..] == a[1..] + b;
      FilterAppend(keep, a[1..], b);
    }
  }

  lemma {:induction false} FilterNone<T(!new)>(keep: T -> bool, s: seq<T>)
    requires forall x :: x in s ==> !keep(x)
    ensures Filter(keep, s) == []
  {
    if s != [] { FilterNone(keep, s[1..]); }
  }

  lemma ExtendedAbout(symbols: seq<SymbolRecord>, more: seq<SymbolRecord>, last: nat, i: nat)
    requires forall s :: s in more ==> s.fileId == last + 1
    ensures multiset(Filter(Of(i + 1), symbols + more)) ==
      multiset(Filter(Of(i + 1), symbols)) + if i == last then multiset(more) else multiset{}
  {
    FilterAppend(Of(i + 1), symbols, more);
    if i == last {
      FilterAll(Of(i + 1), more);
    } else {
      FilterNone(Of(i + 1), more);
    }
  }

  lemma PieceShows(disk: Disk, resolve: Resolver, files: seq<FileRecord>, pieces: seq<Piece>, order: seq<nat>, i: nat,
                   parser: Parser)
    requires Registered(disk, files) && PiecesOf(disk, resolve, files, pieces) && Permutes(order, |pieces|)
      && Conforms(disk, parser)
    requires i < |files| && |files| < TWO_32
    ensures Shows(Joined(files, pieces, order), i + 1, parser(files[i].hash, files[i].language))
  {
    hide Built, NewEdges, Filter, Joined, SemanticLess, Of;
    forall k, s | 0 <= k < |pieces| && s in pieces[k].symbols ensures s.fileId == k + 1 {
      PieceFile(disk, resolve, files, k, pieces[k], s);
    }
    JoinedAbout(files, pieces, order, i);
    JoinedHolds(files, pieces, order);
    assert i in order && PieceOf(disk, resolve, files, i, pieces[i]);
    var t, parse := Joined(files, pieces, order), disk.parses[files[i].path];
    assert files[i] == RecordAt(disk, i, files[i].path);
    assert i + 1 in t.semantics && t.semantics[i + 1] == pieces[i].dependencies;
    assert parse == parser(files[i].hash, files[i].language);
    ShownBy(t, i + 1, parse, pieces[i].symbols);
  }

  lemma ShownBy(t: Tables, id: nat, parse: SemanticParse, built: seq<SymbolRecord>)
    requires Built(id, parse.symbols, built) && multiset(Filter(Of(id), t.symbols)) == multiset(built)
    requires id in t.semantics && forall d :: d in t.semantics[id] <==> d in parse.dependencies
    ensures Shows(t, id, parse)
  {
    hide Built, Mapped, Filter, Of;
    BagReadsBack(id, parse.symbols, built, Filter(Of(id), t.symbols));
  }

  lemma FullScanReflects(disk: Disk, resolve: Resolver, t: Tables, parser: Parser)
    requires FullScanned(disk, resolve, t) && Orderly(disk) && Conforms(disk, parser)
    ensures Reflects(t, parser)
  {
    hide Registered, PiecesOf, RebuiltTo, Joined, Shows, SameAbout, Conforms;
    var files, pieces, order :| ScannedAs(disk, resolve, files, pieces, order, t);
    FileCount(disk, files);
    var joined := Joined(files, pieces, order);
    JoinedHolds(files, pieces, order);
    RebuiltFiles(joined, t);
    forall r | r in t.files ensures Shows(t, r.fileId, parser(r.hash, r.language)) {
      var i :| 0 <= i < |files| && files[i] == r;
      RegisteredId(disk, files, i);
      PieceShows(disk, resolve, files, pieces, order, i, parser);
      RebuiltSameAbout(joined, t, i + 1);
      StillShows(joined, t, i + 1, parser(r.hash, r.language));
    }
  }

  lemma RebuiltFiles(t: Tables, t': Tables)
    requires RebuiltTo(t, t')
    ensures t'.files == t.files
  {
  }

  lemma RegisteredId(disk: Disk, files: seq<FileRecord>, i: nat)
    requires Registered(disk, files) && i < |files|
    ensures files[i].fileId == i + 1
  {
  }

  // ----- whole runs -----

  lemma {:induction false} SuccessesReflect(states: seq<Tables>, ops: seq<Operation>, resolve: Resolver, i: nat,
                                            parser: Parser)
    requires Run(states, ops, resolve) && Sound(states[0]) && i <= |ops|
    requires forall k :: 0 <= k < |ops| ==> Succeeded(ops[k]) && (ops[k].Rescan? ==> Conforms(ops[k].disk, parser))
    requires Reflects(states[0], parser)
    ensures Reflects(states[i], parser)
  {
    hide Presound, Sound, Step, Applicable, Reflects, Conforms;
    if i > 0 {
      SuccessesReflect(states, ops, resolve, i - 1, parser);
      SuccessesKeepSound(states, ops, resolve, i - 1);
      SoundIsPresound(states[i - 1]);
      SuccessReflects(states[i - 1], ops[i - 1], resolve, states[i], parser);
    }
  }

  lemma MutationReflects(t: Tables, kind: EventKind, path: string, disks: nat -> Disk, resolve: Resolver,
                         accepted: bool, applied: bool,
                         t': Tables, parser: Parser)
    requires Sound(t) && Reflects(t, parser) && Mutated(t, kind, path, disks, resolve, accepted, applied, t')
    requires forall k: nat :: Conforms(disks(k), parser)
    ensures Reflects(t', parser)
  {
    hide Sound, Step, Applicable, Rescans, Reflects, Conforms;
    var rescans, states, ops :| Tried(t, kind, path, disks, resolve, rescans, states, ops)
      && Concluded(t, rescans, states, ops, accepted, applied, t');
    if applied {
      SuccessesReflect(states, ops, resolve, |ops|, parser);
    }
  }

  ghost predicate EventConforms(event: Event, parser: Parser) {
    match event
    case Changed(kind, path, disks) => forall k: nat :: Conforms(disks(k), parser)
    case RebuildRequest(disk) => Conforms(disk, parser)
    case ShutdownRequest => true
  }

  lemma EventReflects(t: Tables, event: Event, resolve: Resolver, t': Tables, parser: Parser)
    requires Sound(t) && Reflects(t, parser) && Handled(t, event, resolve, t') && EventConforms(event, parser)
    ensures Reflects(t', parser)
  {
    hide Sound, Mutated, FullScanned, Reflects, Conforms;
    match event {
      case Changed(kind, path, disks) =>
        var accepted, applied :| Mutated(t, kind, path, disks, resolve, accepted, applied, t');
        MutationReflects(t, kind, path, disks, resolve, accepted, applied, t', parser);
      case RebuildRequest(disk) =>
        if forall p :: p in disk.discovered ==> Scannable(p, disk) {
          FullScanReflects(disk, resolve, t', parser);
        }
      case ShutdownRequest =>
    }
  }

  /** Over every run of the daemon each file shows the content recorded for it; no failed call leaves a file behind. */
  lemma {:induction false} DaemonReflects(tables: seq<Tables>, events: seq<Event>, resolve: Resolver, i: nat,
                                          parser: Parser)
    requires DaemonRun(tables, events, resolve) && Sound(tables[0]) && Reflects(tables[0], parser) && i <= |events|
    requires forall k :: 0 <= k < |events| ==> EventConforms(events[k], parser)
    ensures Reflects(tables[i], parser)
  {
    hide Sound, Handled, Reflects, EventConforms;
    if i > 0 {
      DaemonReflects(tables, events, resolve, i - 1, parser);
      DaemonStaysSound(tables, events, resolve, i - 1);
      EventReflects(tables[i - 1], events[i - 1], resolve, tables[i], parser);
    }
  }

  /** In particular from empty tables on, with which the daemon starts. */
  lemma FreshDaemon(tables: seq<Tables>, events: seq<Event>, resolve: Resolver, i: nat, parser: Parser)
    requires DaemonRun(tables, events, resolve) && tables[0] == Tables([], [], [], [], map[], map[]) && i <= |events|
    requires forall k :: 0 <= k < |events| ==> EventConforms(events[k], parser)
    ensures Sound(tables[i]) && Reflects(tables[i], parser)
  {
    EmptySound();
    hide Sound, Handled, EventConforms;
    DaemonStaysSound(tables, events, resolve, i);
    DaemonReflects(tables, events, resolve, i, parser);
  }
}
