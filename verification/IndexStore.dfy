/** The writers and readers as loops over streams, writing each file by replacing it as a whole. What they read and
    write is stated by the functions of `IndexFiles`; here each loop is proved to compute them. A directory maps names
    to contents; a write goes to a temporary file that then takes the place of the old one, so that a failure leaves
    the old file or none. */
module IndexStore {
  import opened Decimals
  import opened Bytes
  import opened BinaryTables
  import opened BinaryIndex
  import opened IndexFiles

  /** Two tables are never mistaken for each other, nor one schema version for another. */
  lemma OtherVersionRefused(schema: u32, schema': u32, files: seq<FileRecord>, symbols: seq<SymbolRecord>,
                            deps: DependencyTable, dir: Files)
    requires schema' != schema
    ensures FilesIn(schema', dir[FILES_TBL := FilesText(schema, files)]).None?
    ensures SymbolsIn(schema', dir[SYMBOLS_TBL := SymbolsText(schema, symbols)]).None?
    ensures DepsIn(schema', dir[DEPS_TBL := DepsText(schema, deps)]).None?
  {
    hide TableAt, EncTable, EdgesOf;
    ForeignTable(FileParser(schema'), FileEncoder(schema), FILES_MAGIC, schema, files, FILES_MAGIC, schema');
    ForeignTable(SymbolAt, EncSymbol, SYMBOLS_MAGIC, schema, symbols, SYMBOLS_MAGIC, schema');
    ForeignTable(EdgeAt, EncEdge, DEPS_MAGIC, schema, EdgesOf(deps), DEPS_MAGIC, schema');
  }

  lemma OtherTableRefused(schema: u32, symbols: seq<SymbolRecord>, deps: DependencyTable, dir: Files)
    ensures FilesIn(schema, dir[FILES_TBL := SymbolsText(schema, symbols)]).None?
    ensures FilesIn(schema, dir[FILES_TBL := DepsText(schema, deps)]).None?
    ensures SymbolsIn(schema, dir[SYMBOLS_TBL := DepsText(schema, deps)]).None?
  {
    hide TableAt, EncTable, EdgesOf;
    ForeignTable(FileParser(schema), EncSymbol, SYMBOLS_MAGIC, schema, symbols, FILES_MAGIC, schema);
    ForeignTable(FileParser(schema), EncEdge, DEPS_MAGIC, schema, EdgesOf(deps), FILES_MAGIC, schema);
    ForeignTable(SymbolAt, EncEdge, DEPS_MAGIC, schema, EdgesOf(deps), SYMBOLS_MAGIC, schema);
  }

  /** Only ever the old file, the new file, or none: never part of one. */
  ghost predicate Whole(before: Files, after: Files, name: string, text: Text) {
    || (if name in before then name in after && after[name] == before[name] else name !in after)
    || (name in after && after[name] == text)
    || name !in after
  }

  class IndexDirectory {
    var files: Files

    constructor ()
      ensures files == map[]
    {
      files := map[];
    }

    /** A temporary file is written, the old file removed, and the temporary one renamed; any of these may fail. */
    method WriteAtomic(name: string, text: Text) returns (ok: bool)
      modifies this
      ensures ok ==> files == old(files)[name := text]
      ensures !ok ==> files == old(files) || files == old(files) - {name}
    {
      var written: bool, renamed: bool := *, *;
      if !written {
        return false;
      }
      files := files - {name};
      if !renamed {
        return false;
      }
      files := files[name := text];
      assert files == old(files)[name := text];
      return true;
    }
  }

  method PutHeader(output: OutputStream, magic: u32, schema: u32, n: nat)
    requires output.bytes == []
    modifies output
    ensures output.bytes == Header(magic, schema, n)
  {
    hide U32;
    output.PutUint32(magic);
    output.PutUint32(schema);
    output.PutUint32(Length(n));
  }

  method WriteCoreIndex(dir: IndexDirectory, core: CoreIndex) returns (ok: bool)
    modifies dir
    ensures ok ==> dir.files == old(dir.files)[CORE_IDX := EncCore(core)]
    ensures !ok ==> dir.files == old(dir.files) || dir.files == old(dir.files) - {CORE_IDX}
  {
    hide U32;
    var output := new OutputStream();
    output.PutUint32(core.magic);
    output.PutUint32(core.indexVersion);
    output.PutUint32(core.schemaVersion);
    output.PutUint8(core.runtimeActive);
    output.PutBytes(core.reserved);
    output.PutBytes(core.filesTblHash);
    output.PutBytes(core.symbolsTblHash);
    output.PutBytes(core.depsTblHash);
    output.PutBytes(core.projectRootHash);
    output.PutBytes(core.indexHash);
    assert output.bytes == EncCore(core);
    ok := dir.WriteAtomic(CORE_IDX, output.bytes);
  }

  method PutFile(output: OutputStream, schema: u32, record: FileRecord)
    modifies output
    ensures output.bytes == old(output.bytes) + EncFile(schema, record)
  {
    hide U32, U64, Str;
    output.PutUint32(record.fileId);
    output.PutString(record.path);
    output.PutBytes(record.hash);
    output.PutUint8(record.language);
    if schema <= 1 {
      output.PutUint64(record.lastModified);
    }
  }

  method WriteFilesTable(dir: IndexDirectory, schema: u32, records: seq<FileRecord>) returns (ok: bool)
    modifies dir
    ensures ok ==> dir.files == AfterFiles(old(dir.files), schema, records)
    ensures !ok ==>
      && Whole(old(dir.files), dir.files, FILES_TBL, FilesText(schema, records))
      && Whole(old(dir.files), dir.files, FILES_META, MetaText(records))
      && dir.files - {FILES_TBL, FILES_META} == old(dir.files) - {FILES_TBL, FILES_META}
  {
    hide EncFile, EncAll, EncStamp, Header;
    var output := new OutputStream();
    PutHeader(output, FILES_MAGIC, schema, |records|);
    ghost var start := output.bytes;
    EncNone(FileEncoder(schema), records);
    var i := 0;
    while i < |records|
      invariant 0 <= i <= |records| && fresh(output)
      invariant output.bytes == start + EncAll(FileEncoder(schema), records[..i])
      invariant dir.files == old(dir.files)
    {
      EncNext(FileEncoder(schema), records, i);
      PutFile(output, schema, records[i]);
      i := i + 1;
    }
    assert records[..i] == records;
    ok := dir.WriteAtomic(FILES_TBL, output.bytes);
    if !ok || schema < 2 {
      return;
    }
    var meta := new OutputStream();
    ghost var stamps := Stamps(records);
    EncNone(EncStamp, stamps);
    i := 0;
    while i < |records|
      invariant 0 <= i <= |records| && fresh(meta)
      invariant meta.bytes == EncAll(EncStamp, stamps[..i])
      invariant dir.files == old(dir.files)[FILES_TBL := FilesText(schema, records)]
    {
      EncNext(EncStamp, stamps, i);
      PutStamp(meta, records[i]);
      i := i + 1;
    }
    assert stamps[..i] == stamps;
    ok := dir.WriteAtomic(FILES_META, meta.bytes);
  }

  method PutStamp(output: OutputStream, record: FileRecord)
    modifies output
    ensures output.bytes == old(output.bytes) + EncStamp(StampOf(record))
  {
    hide U32, U64;
    output.PutUint32(record.fileId);
    output.PutUint64(record.lastModified);
  }

  method PutSymbol(output: OutputStream, symbol: SymbolRecord)
    modifies output
    ensures output.bytes == old(output.bytes) + EncSymbol(symbol)
  {
    hide EncHead, EncTail;
    PutSymbolHead(output, symbol);
    PutSymbolTail(output, symbol);
  }

  method PutSymbolHead(output: OutputStream, symbol: SymbolRecord)
    modifies output
    ensures output.bytes == old(output.bytes) + EncHead(HeadOf(symbol))
  {
    hide U32, U64, Str;
    output.PutUint64(symbol.symbolId);
    output.PutUint32(symbol.fileId);
    output.PutString(symbol.name);
    output.PutUint8(symbol.symbolType);
    output.PutUint8(symbol.visibility);
    output.PutUint32(symbol.lineNumber);
  }

  method PutSymbolTail(output: OutputStream, symbol: SymbolRecord)
    modifies output
    ensures output.bytes == old(output.bytes) + EncTail(TailOf(symbol))
  {
    hide Str, Strs;
    output.PutString(symbol.signature);
    output.PutStrings(symbol.calls);
    output.PutStrings(symbol.bases);
    output.PutStrings(symbol.typeRefs);
  }

  method WriteSymbolsTable(dir: IndexDirectory, schema: u32, symbols: seq<SymbolRecord>) returns (ok: bool)
    modifies dir
    ensures ok ==> dir.files == old(dir.files)[SYMBOLS_TBL := SymbolsText(schema, symbols)]
    ensures !ok ==> dir.files == old(dir.files) || dir.files == old(dir.files) - {SYMBOLS_TBL}
  {
    hide EncSymbol, EncAll, Header;
    var output := new OutputStream();
    PutHeader(output, SYMBOLS_MAGIC, schema, |symbols|);
    ghost var start := output.bytes;
    EncNone(EncSymbol, symbols);
    var i := 0;
    while i < |symbols|
      invariant 0 <= i <= |symbols| && fresh(output)
      invariant output.bytes == start + EncAll(EncSymbol, symbols[..i])
      invariant dir.files == old(dir.files)
    {
      EncNext(EncSymbol, symbols, i);
      PutSymbol(output, symbols[i]);
      i := i + 1;
    }
    assert symbols[..i] == symbols;
    ok := dir.WriteAtomic(SYMBOLS_TBL, output.bytes);
  }

  method WriteDependenciesTable(dir: IndexDirectory, schema: u32, deps: DependencyTable) returns (ok: bool)
    modifies dir
    ensures ok ==> dir.files == old(dir.files)[DEPS_TBL := DepsText(schema, deps)]
    ensures !ok ==> dir.files == old(dir.files) || dir.files == old(dir.files) - {DEPS_TBL}
  {
    hide *;
    ghost var edges := EdgesOf(deps);
    EdgesAre(deps);
    var output := new OutputStream();
    PutHeader(output, DEPS_MAGIC, schema, |deps.fileEdges| + |deps.symbolEdges|);
    ghost var start := output.bytes;
    EncNone(EncEdge, edges);
    PutFileEdges(output, deps, start);
    PutSymbolEdges(output, deps, start);
    EdgesWritten(schema, deps);
    ok := dir.WriteAtomic(DEPS_TBL, output.bytes);
  }

  lemma EdgesAre(deps: DependencyTable)
    ensures forall i :: 0 <= i < |deps.fileEdges| ==> EdgesOf(deps)[i] == OfFiles(deps.fileEdges[i])
    ensures forall i :: 0 <= i < |deps.symbolEdges| ==>
      EdgesOf(deps)[|deps.fileEdges| + i] == OfSymbols(deps.symbolEdges[i])
    ensures EdgesOf(deps)[..0] == []
  {
  }

  lemma EdgesWritten(schema: u32, deps: DependencyTable)
    ensures Header(DEPS_MAGIC, schema, |deps.fileEdges| + |deps.symbolEdges|) + EncAll(EncEdge, EdgesOf(deps)) ==
      DepsText(schema, deps)
  {
    hide Header, EncAll;
  }

  method PutFileEdges(output: OutputStream, deps: DependencyTable, ghost start: Text)
    requires output.bytes == start
    modifies output
    ensures output.bytes == start + EncAll(EncEdge, EdgesOf(deps)[..|deps.fileEdges|])
  {
    hide EncAll, EncEdge, EdgesOf;
    EdgesAre(deps);
    ghost var edges := EdgesOf(deps);
    EncNone(EncEdge, edges);
    var i := 0;
    while i < |deps.fileEdges|
      invariant 0 <= i <= |deps.fileEdges|
      invariant output.bytes == start + EncAll(EncEdge, edges[..i])
    {
      EncNext(EncEdge, edges, i);
      PutEdge(output, FILE_EDGE, deps.fileEdges[i].fromFileId, deps.fileEdges[i].toFileId, edges[i]);
      i := i + 1;
    }
  }

  method PutSymbolEdges(output: OutputStream, deps: DependencyTable, ghost start: Text)
    requires output.bytes == start + EncAll(EncEdge, EdgesOf(deps)[..|deps.fileEdges|])
    modifies output
    ensures output.bytes == start + EncAll(EncEdge, EdgesOf(deps))
  {
    hide *;
    EdgesAre(deps);
    ghost var edges, n := EdgesOf(deps), |deps.fileEdges|;
    var i := 0;
    while i < |deps.symbolEdges|
      invariant 0 <= i <= |deps.symbolEdges|
      invariant output.bytes == start + EncAll(EncEdge, edges[..n + i])
    {
      EncNext(EncEdge, edges, n + i);
      PutEdge(output, SYMBOL_EDGE, deps.symbolEdges[i].fromSymbolId, deps.symbolEdges[i].toSymbolId, edges[n + i]);
      i := i + 1;
    }
    assert edges[..n + i] == edges;
  }

  method PutEdge(output: OutputStream, edgeType: byte, fromId: u64, toId: u64, ghost e: Edge)
    requires match e
      case OfFiles(f) => edgeType == FILE_EDGE && fromId == f.fromFileId && toId == f.toFileId
      case OfSymbols(y) => edgeType == SYMBOL_EDGE && fromId == y.fromSymbolId && toId == y.toSymbolId
    modifies output
    ensures output.bytes == old(output.bytes) + EncEdge(e)
  {
    hide U64;
    output.PutUint8(edgeType);
    output.PutUint64(fromId);
    output.PutUint64(toId);
  }

  // ----- reading -----

  method ReadCoreIndex(dir: IndexDirectory) returns (r: Option<CoreIndex>)
    ensures r == if CORE_IDX in dir.files then CoreAt(dir.files[CORE_IDX]) else None
  {
    if CORE_IDX !in dir.files {
      return None;
    }
    ghost var s := dir.files[CORE_IDX];
    hide U32At;
    var input := new InputStream(dir.files[CORE_IDX]);
    NumberSizes(s);
    var magic := input.GetUint32();
    if magic.None? { return None; }
    var indexVersion := input.GetUint32();
    if indexVersion.None? { return None; }
    var schemaVersion := input.GetUint32();
    if schemaVersion.None? { return None; }
    var runtimeActive := input.GetUint8();
    if runtimeActive.None? { return None; }
    var reserved := input.GetBytes(3);
    if reserved.None? { return None; }
    var a := input.GetBytes(32);
    if a.None? { return None; }
    var b := input.GetBytes(32);
    if b.None? { return None; }
    var c := input.GetBytes(32);
    if c.None? { return None; }
    var d := input.GetBytes(32);
    if d.None? { return None; }
    var e := input.GetBytes(32);
    if e.None? { return None; }
    return Some(CoreIndex(magic.value, indexVersion.value, schemaVersion.value, runtimeActive.value, reserved.value,
                          a.value, b.value, c.value, d.value, e.value));
  }

  lemma NumberSizes(s: Text)
    ensures forall pos: nat {:trigger U32At(s, pos)} ::
      U32At(s, pos).Some? == (pos + 4 <= |s|) && (U32At(s, pos).Some? ==> U32At(s, pos).value.next == pos + 4)
  {
    hide LittleValue;
  }

  /** The record count, when magic and schema version are as expected. */
  method GetHeader(input: InputStream, magic: u32, schema: u32) returns (count: Option<u32>)
    requires input.position == 0
    modifies input
    ensures count.Some? ==> input.position == 12 && forall pos :: pos == 0 ==>
      U32At(input.bytes, pos) == Some(Parsed(magic, 4)) && U32At(input.bytes, 4) == Some(Parsed(schema, 8))
      && U32At(input.bytes, 8) == Some(Parsed(count.value, 12))
    ensures count.None? ==>
      || U32At(input.bytes, 0).None? || U32At(input.bytes, 4).None? || U32At(input.bytes, 8).None?
      || U32At(input.bytes, 0).value.value != magic || U32At(input.bytes, 4).value.value != schema
  {
    hide U32At;
    NumberSizes(input.bytes);
    var m := input.GetUint32();
    if m.None? { return None; }
    var v := input.GetUint32();
    if v.None? { return None; }
    var n := input.GetUint32();
    if n.None? { return None; }
    if m.value != magic { return None; }
    if v.value != schema { return None; }
    return n;
  }

  method GetFile(input: InputStream, schema: u32) returns (r: Option<FileRecord>)
    modifies input
    ensures r.Some? == FileAt(schema, input.bytes, old(input.position)).Some?
    ensures r.Some? ==> FileAt(schema, input.bytes, old(input.position)) == Some(Parsed(r.value, input.position))
  {
    hide U32At, U64At, StrAt, U8At;
    var fileId := input.GetUint32();
    if fileId.None? { return None; }
    var path := input.GetString();
    if path.None? { return None; }
    var hash := input.GetBytes(32);
    if hash.None? { return None; }
    var language := input.GetUint8();
    if language.None? { return None; }
    if schema <= 1 {
      var modified := input.GetUint64();
      if modified.None? { return None; }
      return Some(FileRecord(fileId.value, path.value, hash.value, language.value, modified.value));
    }
    return Some(FileRecord(fileId.value, path.value, hash.value, language.value, 0));
  }

  method GetSymbolHead(input: InputStream) returns (r: Option<SymbolHead>)
    modifies input
    ensures r.Some? == HeadAt(input.bytes, old(input.position)).Some?
    ensures r.Some? ==> HeadAt(input.bytes, old(input.position)) == Some(Parsed(r.value, input.position))
  {
    hide U32At, U64At, StrAt, U8At;
    var symbolId := input.GetUint64();
    if symbolId.None? { return None; }
    var fileId := input.GetUint32();
    if fileId.None? { return None; }
    var name := input.GetString();
    if name.None? { return None; }
    var symbolType := input.GetUint8();
    if symbolType.None? { return None; }
    var visibility := input.GetUint8();
    if visibility.None? { return None; }
    var line := input.GetUint32();
    if line.None? { return None; }
    return Some(SymbolHead(symbolId.value, fileId.value, name.value, symbolType.value, visibility.value, line.value));
  }

  method GetSymbol(input: InputStream) returns (r: Option<SymbolRecord>)
    modifies input
    ensures r.Some? == SymbolAt(input.bytes, old(input.position)).Some?
    ensures r.Some? ==> SymbolAt(input.bytes, old(input.position)) == Some(Parsed(r.value, input.position))
  {
    hide HeadAt, StrAt, StrsAt;
    var head := GetSymbolHead(input);
    if head.None? { return None; }
    var signature := input.GetString();
    if signature.None? { return None; }
    var calls := input.GetStrings();
    if calls.None? { return None; }
    var bases := input.GetStrings();
    if bases.None? { return None; }
    var typeRefs := input.GetStrings();
    if typeRefs.None? { return None; }
    return Some(Joined(head.value, SymbolTail(signature.value, calls.value, bases.value, typeRefs.value)));
  }

  method GetEdge(input: InputStream) returns (r: Option<Edge>)
    modifies input
    ensures r.Some? == EdgeAt(input.bytes, old(input.position)).Some?
    ensures r.Some? ==> EdgeAt(input.bytes, old(input.position)) == Some(Parsed(r.value, input.position))
  {
    hide U64At, U8At;
    var edgeType := input.GetUint8();
    if edgeType.None? { return None; }
    var fromId := input.GetUint64();
    if fromId.None? { return None; }
    var toId := input.GetUint64();
    if toId.None? { return None; }
    if edgeType.value == FILE_EDGE {
      return Some(OfFiles(FileEdge(fromId.value % TWO_32, toId.value % TWO_32)));
    } else if edgeType.value == SYMBOL_EDGE {
      return Some(OfSymbols(SymbolEdge(fromId.value, toId.value)));
    }
    return None;
  }

  method ReadSymbolsTable(dir: IndexDirectory, schema: u32) returns (r: Option<seq<SymbolRecord>>)
    ensures r == SymbolsIn(schema, dir.files)
  {
    hide AllAt, SymbolAt, U32At;
    if SYMBOLS_TBL !in dir.files {
      return None;
    }
    var input := new InputStream(dir.files[SYMBOLS_TBL]);
    var count := GetHeader(input, SYMBOLS_MAGIC, schema);
    if count.None? {
      return None;
    }
    var symbols: seq<SymbolRecord> := [];
    AllNone(SymbolAt, input.bytes, 12);
    var i := 0;
    while i < count.value
      invariant 0 <= i <= count.value && fresh(input)
      invariant AllAt(SymbolAt, i, input.bytes, 12) == Some(Parsed(symbols, input.position))
    {
      AllNext(SymbolAt, i, input.bytes, 12);
      var symbol := GetSymbol(input);
      if symbol.None? {
        AllFails(SymbolAt, i + 1, count.value, input.bytes, 12);
        return None;
      }
      symbols := symbols + [symbol.value];
      i := i + 1;
    }
    return Some(symbols);
  }

  lemma AllNone<T>(p: Parser<T>, s: Text, pos: nat)
    ensures AllAt(p, 0, s, pos) == Some(Parsed([], pos))
  {
  }

  /** Sorts the edges into two lists as they come. */
  method ReadDependenciesTable(dir: IndexDirectory, schema: u32) returns (r: Option<DependencyTable>)
    ensures r == DepsIn(schema, dir.files)
  {
    hide AllAt, EdgeAt, U32At, FileEdgesOf, SymbolEdgesOf;
    if DEPS_TBL !in dir.files {
      return None;
    }
    var input := new InputStream(dir.files[DEPS_TBL]);
    var count := GetHeader(input, DEPS_MAGIC, schema);
    if count.None? {
      return None;
    }
    var fileEdges: seq<FileEdge>, symbolEdges: seq<SymbolEdge> := [], [];
    ghost var edges: seq<Edge> := [];
    AllNone(EdgeAt, input.bytes, 12);
    NoEdges();
    var i := 0;
    while i < count.value
      invariant 0 <= i <= count.value && fresh(input)
      invariant AllAt(EdgeAt, i, input.bytes, 12) == Some(Parsed(edges, input.position))
      invariant fileEdges == FileEdgesOf(edges) && symbolEdges == SymbolEdgesOf(edges)
    {
      AllNext(EdgeAt, i, input.bytes, 12);
      var edge := GetEdge(input);
      if edge.None? {
        AllFails(EdgeAt, i + 1, count.value, input.bytes, 12);
        return None;
      }
      NextEdge(edges, edge.value);
      edges := edges + [edge.value];
      match edge.value {
        case OfFiles(f) => fileEdges := fileEdges + [f];
        case OfSymbols(y) => symbolEdges := symbolEdges + [y];
      }
      i := i + 1;
    }
    return Some(DependencyTable(fileEdges, symbolEdges));
  }

  lemma NoEdges()
    ensures FileEdgesOf([]) == [] && SymbolEdgesOf([]) == []
  {
  }

  method ReadFilesTable(dir: IndexDirectory, schema: u32) returns (r: Option<seq<FileRecord>>)
    ensures r == FilesIn(schema, dir.files)
  {
    hide AllAt, FileAt, U32At, LogAt, Times;
    if FILES_TBL !in dir.files {
      return None;
    }
    var input := new InputStream(dir.files[FILES_TBL]);
    var count := GetHeader(input, FILES_MAGIC, schema);
    if count.None? {
      return None;
    }
    ghost var p := FileParser(schema);
    var records: seq<FileRecord> := [];
    AllNone(p, input.bytes, 12);
    var i := 0;
    while i < count.value
      invariant 0 <= i <= count.value && fresh(input)
      invariant AllAt(p, i, input.bytes, 12) == Some(Parsed(records, input.position))
    {
      AllNext(p, i, input.bytes, 12);
      var record := GetFile(input, schema);
      if record.None? {
        AllFails(p, i + 1, count.value, input.bytes, 12);
        return None;
      }
      records := records + [record.value];
      i := i + 1;
    }
    if schema < 2 || FILES_META !in dir.files {
      return Some(records);
    }
    var metaMap := ReadMeta(dir.files[FILES_META]);
    if metaMap.None? {
      return None;
    }
    assert metaMap.value == Times(LogAt(StampAt, dir.files[FILES_META], 0).value);
    var dated := Redate(records, metaMap.value);
    assert TableAt(p, FILES_MAGIC, schema, dir.files[FILES_TBL], 0) == Some(Parsed(records, input.position));
    return Some(dated);
  }

  /** Sets the time of every record whose id has one. */
  method Redate(records: seq<FileRecord>, metaMap: map<u32, u64>) returns (r: seq<FileRecord>)
    ensures r == AllDated(records, metaMap)
  {
    r := records;
    var i := 0;
    while i < |records|
      invariant 0 <= i <= |records| == |r|
      invariant forall j :: 0 <= j < i ==> r[j] == Dated(records[j], metaMap)
      invariant r[i..] == records[i..]
    {
      assert r[i] == r[i..][0] == records[i];
      if r[i].fileId in metaMap {
        r := r[i := r[i].(lastModified := metaMap[r[i].fileId])];
      }
      i := i + 1;
    }
  }

  /** The side table as a map, later entries replacing earlier ones. */
  method ReadMeta(text: Text) returns (metaMap: Option<map<u32, u64>>)
    ensures metaMap == var stamps := LogAt(StampAt, text, 0); if stamps.None? then None else Some(Times(stamps.value))
  {
    hide LogAt, U32At, U64At, Times;
    var input := new InputStream(text);
    var times: map<u32, u64> := map[];
    ghost var stamps: seq<Stamp> := [];
    NoTimes();
    LogStarts(StampAt, text);
    while true
      invariant fresh(input) && times == Times(stamps)
      invariant LogAt(StampAt, text, 0) == After(stamps, LogAt(StampAt, text, input.position))
      decreases |text| - input.position
    {
      NumberSizes(text);
      LogNext(StampAt, text, stamps, input.position);
      var fileId := input.GetUint32();
      if fileId.None? {
        break;
      }
      var modified := input.GetUint64();
      if modified.None? {
        return None;
      }
      NextTime(stamps, Stamp(fileId.value, modified.value));
      stamps := stamps + [Stamp(fileId.value, modified.value)];
      times := times[fileId.value := modified.value];
      WideSizes(text);
    }
    return Some(times);
  }

  lemma WideSizes(s: Text)
    ensures forall pos: nat {:trigger U64At(s, pos)} ::
      U64At(s, pos).Some? == (pos + 8 <= |s|) && (U64At(s, pos).Some? ==> U64At(s, pos).value.next == pos + 8)
  {
    hide LittleValue;
  }

  lemma NoTimes()
    ensures Times([]) == map[]
  {
  }

  lemma NextTime(stamps: seq<Stamp>, x: Stamp)
    ensures Times(stamps + [x]) == Times(stamps)[x.fileId := x.lastModified]
  {
    assert (stamps + [x])[..|stamps|] == stamps;
  }
}
