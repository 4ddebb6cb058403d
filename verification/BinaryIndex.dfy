/** `ultra::ai::BinaryIndexWriter` and `BinaryIndexReader`: the four index files and the side table of timestamps. */
module BinaryIndex {
  import opened Decimals
  import opened Bytes

  const FILES_MAGIC: u32 := 0x53454C49
  const SYMBOLS_MAGIC: u32 := 0x424D5953
  const DEPS_MAGIC: u32 := 0x53504544

  type Digest = t: Text | |t| == 32 witness seq(32, _ => 0)

  datatype FileRecord = FileRecord(fileId: u32, path: Text, hash: Digest, language: byte, lastModified: u64)

  datatype SymbolRecord = SymbolRecord(
    symbolId: u64, fileId: u32, name: Text, signature: Text, symbolType: byte, visibility: byte, lineNumber: u32,
    calls: seq<Text>, bases: seq<Text>, typeRefs: seq<Text>)

  datatype FileEdge = FileEdge(fromFileId: u32, toFileId: u32)
  datatype SymbolEdge = SymbolEdge(fromSymbolId: u64, toSymbolId: u64)
  datatype DependencyTable = DependencyTable(fileEdges: seq<FileEdge>, symbolEdges: seq<SymbolEdge>)

  type Reserved = t: Text | |t| == 3 witness [0, 0, 0]

  datatype CoreIndex = CoreIndex(
    magic: u32, indexVersion: u32, schemaVersion: u32, runtimeActive: byte, reserved: Reserved,
    filesTblHash: Digest, symbolsTblHash: Digest, depsTblHash: Digest, projectRootHash: Digest, indexHash: Digest)

  // ----- one file record -----

  function EncFile(schema: u32, f: FileRecord): Text {
    U32(f.fileId) + Str(f.path) + f.hash + [f.language] + if schema <= 1 then U64(f.lastModified) else []
  }

  function FileAt(schema: u32, s: Text, pos: nat): Option<Parsed<FileRecord>> {
    var fileId := U32At(s, pos);
    if fileId.None? then None
    else
      var path := StrAt(s, fileId.value.next);
      if path.None? then None
      else
        var hash := BytesAt(s, path.value.next, 32);
        if hash.None? then None
        else
          var language := U8At(s, hash.value.next);
          if language.None? then None
          else if schema <= 1 then
            var modified := U64At(s, language.value.next);
            if modified.None? then None
            else Some(Parsed(FileRecord(fileId.value.value, path.value.value, hash.value.value, language.value.value,
                                        modified.value.value),
                             modified.value.next))
          else
            Some(Parsed(FileRecord(fileId.value.value, path.value.value, hash.value.value, language.value.value, 0),
                        language.value.next))
  }

  function FileParser(schema: u32): Parser<FileRecord> {
    (s: Text, pos: nat) => FileAt(schema, s, pos)
  }

  function FileEncoder(schema: u32): FileRecord -> Text {
    f => EncFile(schema, f)
  }

  /** From schema version 2 on, the table itself holds no timestamp. */
  function Listed(schema: u32, f: FileRecord): FileRecord {
    if schema <= 1 then f else f.(lastModified := 0)
  }

  predicate PathFits(f: FileRecord) {
    |f.path| < TWO_32
  }

  lemma ByteReads(b: byte, s: Text, pos: nat)
    requires Holds(s, pos, [b])
    ensures U8At(s, pos) == Some(Parsed(b, pos + 1))
  {
    assert s[pos..pos + 1][0] == b;
  }

  lemma FileReadsAt(schema: u32, f: FileRecord, s: Text, pos: nat)
    requires PathFits(f) && Holds(s, pos, EncFile(schema, f))
    ensures FileAt(schema, s, pos) == Some(Parsed(Listed(schema, f), pos + |EncFile(schema, f)|))
  {
    hide U32At, U64At, StrAt, U32, U64, Str, Reads, Holds, U8At;
    var a, b := U32(f.fileId), Str(f.path);
    var tail := if schema <= 1 then U64(f.lastModified) else [];
    HoldsSplit(s, pos, a + b + f.hash + [f.language], tail);
    HoldsSplit(s, pos, a + b + f.hash, [f.language]);
    HoldsSplit(s, pos, a + b, f.hash);
    HoldsSplit(s, pos, a, b);
    U32Reads(f.fileId);
    StrReads(f.path);
    U64Reads(f.lastModified);
    ReadsAt(U32At, a, f.fileId, s, pos);
    ReadsAt(StrAt, b, f.path, s, pos + |a|);
    BytesRead(f.hash, s, pos + |a + b|);
    ByteReads(f.language, s, pos + |a + b + f.hash|);
    if schema <= 1 {
      ReadsAt(U64At, tail, f.lastModified, s, pos + |a + b + f.hash + [f.language]|);
    }
  }

  lemma BytesRead(t: Text, s: Text, pos: nat)
    requires Holds(s, pos, t)
    ensures BytesAt(s, pos, |t|) == Some(Parsed(t, pos + |t|))
  {
  }

  lemma FileReads(schema: u32, f: FileRecord)
    requires PathFits(f)
    ensures Reads(FileParser(schema), FileEncoder(schema)(f), Listed(schema, f))
  {
    hide FileAt, EncFile, Holds;
    forall s: Text, pos: nat | Holds(s, pos, EncFile(schema, f))
      ensures FileAt(schema, s, pos) == Some(Parsed(Listed(schema, f), pos + |EncFile(schema, f)|))
    {
      FileReadsAt(schema, f, s, pos);
    }
  }

  lemma FileParserWell(schema: u32)
    ensures Extends(FileParser(schema)) && Advances(FileParser(schema)) && Yields(FileParser(schema), PathFits)
  {
    hide U32At, U64At, StrAt, U8At;
    NumbersExtend();
    StrExtends();
    StrsAdvance();
    StrsYield();
    NumbersAdvance();
    forall s: Text, more: Text, pos: nat | FileAt(schema, s, pos).Some?
      ensures FileAt(schema, s + more, pos) == FileAt(schema, s, pos) {
      FileExtendsAt(schema, s, more, pos);
    }
    forall s: Text, pos: nat | FileAt(schema, s, pos).Some?
      ensures PathFits(FileAt(schema, s, pos).value.value)
        && (pos <= |s| ==> pos <= FileAt(schema, s, pos).value.next <= |s|)
    {
      var path := StrAt(s, U32At(s, pos).value.next);
      assert StrFits(path.value.value);
    }
  }

  lemma NumbersAdvance()
    ensures Advances(U8At) && Advances(U32At) && Advances(U64At)
  {
  }

  lemma FileExtendsAt(schema: u32, s: Text, more: Text, pos: nat)
    requires FileAt(schema, s, pos).Some?
    ensures FileAt(schema, s + more, pos) == FileAt(schema, s, pos)
  {
    hide U32At, U64At, StrAt, U8At, BytesAt, Extends;
    NumbersExtend();
    StrExtends();
    var fileId := U32At(s, pos).value;
    var path := StrAt(s, fileId.next).value;
    var hash := BytesAt(s, path.next, 32).value;
    var language := U8At(s, hash.next).value;
    ExtendsAt(U32At, s, more, pos);
    ExtendsAt(StrAt, s, more, fileId.next);
    BytesExtend(s, more, path.next, 32);
    ExtendsAt(U8At, s, more, hash.next);
    ExtendsAt(U64At, s, more, language.next);
  }

  // ----- one symbol record -----

  datatype SymbolHead = SymbolHead(symbolId: u64, fileId: u32, name: Text, symbolType: byte, visibility: byte,
                                   lineNumber: u32)
  datatype SymbolTail = SymbolTail(signature: Text, calls: seq<Text>, bases: seq<Text>, typeRefs: seq<Text>)

  function Joined(h: SymbolHead, t: SymbolTail): SymbolRecord {
    SymbolRecord(h.symbolId, h.fileId, h.name, t.signature, h.symbolType, h.visibility, h.lineNumber, t.calls, t.bases,
      t.typeRefs)
  }

  function HeadOf(r: SymbolRecord): SymbolHead {
    SymbolHead(r.symbolId, r.fileId, r.name, r.symbolType, r.visibility, r.lineNumber)
  }

  function TailOf(r: SymbolRecord): SymbolTail {
    SymbolTail(r.signature, r.calls, r.bases, r.typeRefs)
  }

  function EncHead(h: SymbolHead): Text {
    U64(h.symbolId) + U32(h.fileId) + Str(h.name) + [h.symbolType] + [h.visibility] + U32(h.lineNumber)
  }

  function EncTail(t: SymbolTail): Text {
    Str(t.signature) + Strs(t.calls) + Strs(t.bases) + Strs(t.typeRefs)
  }

  function EncSymbol(r: SymbolRecord): Text {
    EncHead(HeadOf(r)) + EncTail(TailOf(r))
  }

  function HeadAt(s: Text, pos: nat): Option<Parsed<SymbolHead>> {
    var symbolId := U64At(s, pos);
    if symbolId.None? then None
    else
      var fileId := U32At(s, symbolId.value.next);
      if fileId.None? then None
      else
        var name := StrAt(s, fileId.value.next);
        if name.None? then None
        else
          var symbolType := U8At(s, name.value.next);
          if symbolType.None? then None
          else
            var visibility := U8At(s, symbolType.value.next);
            if visibility.None? then None
            else
              var line := U32At(s, visibility.value.next);
              if line.None? then None
              else Some(Parsed(SymbolHead(symbolId.value.value, fileId.value.value, name.value.value,
                                          symbolType.value.value, visibility.value.value, line.value.value),
                               line.value.next))
  }

  function TailAt(s: Text, pos: nat): Option<Parsed<SymbolTail>> {
    var signature := StrAt(s, pos);
    if signature.None? then None
    else
      var calls := StrsAt(s, signature.value.next);
      if calls.None? then None
      else
        var bases := StrsAt(s, calls.value.next);
        if bases.None? then None
        else
          var typeRefs := StrsAt(s, bases.value.next);
          if typeRefs.None? then None
          else Some(Parsed(SymbolTail(signature.value.value, calls.value.value, bases.value.value,
                                      typeRefs.value.value),
                           typeRefs.value.next))
  }

  function SymbolAt(s: Text, pos: nat): Option<Parsed<SymbolRecord>> {
    var h := HeadAt(s, pos);
    if h.None? then None
    else
      var t := TailAt(s, h.value.next);
      if t.None? then None else Some(Parsed(Joined(h.value.value, t.value.value), t.value.next))
  }

  predicate SymbolFits(r: SymbolRecord) {
    |r.name| < TWO_32 && |r.signature| < TWO_32 && StrsFit(r.calls) && StrsFit(r.bases) && StrsFit(r.typeRefs)
  }

  lemma HeadReads(h: SymbolHead, s: Text, pos: nat)
    requires |h.name| < TWO_32 && Holds(s, pos, EncHead(h))
    ensures HeadAt(s, pos) == Some(Parsed(h, pos + |EncHead(h)|))
  {
    hide U32At, U64At, StrAt, U8At, U32, U64, Str, Reads, Holds;
    var a, b, c, d := U64(h.symbolId), U32(h.fileId), Str(h.name), U32(h.lineNumber);
    HoldsSplit(s, pos, a + b + c + [h.symbolType] + [h.visibility], d);
    HoldsSplit(s, pos, a + b + c + [h.symbolType], [h.visibility]);
    HoldsSplit(s, pos, a + b + c, [h.symbolType]);
    HoldsSplit(s, pos, a + b, c);
    HoldsSplit(s, pos, a, b);
    U64Reads(h.symbolId);
    U32Reads(h.fileId);
    StrReads(h.name);
    U32Reads(h.lineNumber);
    ReadsAt(U64At, a, h.symbolId, s, pos);
    ReadsAt(U32At, b, h.fileId, s, pos + |a|);
    ReadsAt(StrAt, c, h.name, s, pos + |a + b|);
    ByteReads(h.symbolType, s, pos + |a + b + c|);
    ByteReads(h.visibility, s, pos + |a + b + c| + 1);
    ReadsAt(U32At, d, h.lineNumber, s, pos + |a + b + c| + 2);
  }

  lemma TailReads(t: SymbolTail, s: Text, pos: nat)
    requires |t.signature| < TWO_32 && StrsFit(t.calls) && StrsFit(t.bases) && StrsFit(t.typeRefs)
      && Holds(s, pos, EncTail(t))
    ensures TailAt(s, pos) == Some(Parsed(t, pos + |EncTail(t)|))
  {
    hide StrAt, StrsAt, Str, Strs, Reads, Holds, StrsFit;
    var a, b, c, d := Str(t.signature), Strs(t.calls), Strs(t.bases), Strs(t.typeRefs);
    HoldsSplit(s, pos, a + b + c, d);
    HoldsSplit(s, pos, a + b, c);
    HoldsSplit(s, pos, a, b);
    StrReads(t.signature);
    StrsRead(t.calls);
    StrsRead(t.bases);
    StrsRead(t.typeRefs);
    ReadsAt(StrAt, a, t.signature, s, pos);
    ReadsAt(StrsAt, b, t.calls, s, pos + |a|);
    ReadsAt(StrsAt, c, t.bases, s, pos + |a + b|);
    ReadsAt(StrsAt, d, t.typeRefs, s, pos + |a + b + c|);
  }

  lemma SymbolReads(r: SymbolRecord)
    requires SymbolFits(r)
    ensures Reads(SymbolAt, EncSymbol(r), r)
  {
    hide HeadAt, TailAt, EncHead, EncTail, Holds, StrsFit;
    forall s: Text, pos: nat | Holds(s, pos, EncSymbol(r))
      ensures SymbolAt(s, pos) == Some(Parsed(r, pos + |EncSymbol(r)|)) {
      HoldsSplit(s, pos, EncHead(HeadOf(r)), EncTail(TailOf(r)));
      HeadReads(HeadOf(r), s, pos);
      TailReads(TailOf(r), s, pos + |EncHead(HeadOf(r))|);
    }
  }

  lemma HeadExtends(s: Text, more: Text, pos: nat)
    requires HeadAt(s, pos).Some?
    ensures HeadAt(s + more, pos) == HeadAt(s, pos)
  {
    hide U32At, U64At, StrAt, U8At, Extends;
    NumbersExtend();
    StrExtends();
    var a := U64At(s, pos).value.next;
    var b := U32At(s, a).value.next;
    var c := StrAt(s, b).value.next;
    var d := U8At(s, c).value.next;
    var e := U8At(s, d).value.next;
    ExtendsAt(U64At, s, more, pos);
    ExtendsAt(U32At, s, more, a);
    ExtendsAt(StrAt, s, more, b);
    ExtendsAt(U8At, s, more, c);
    ExtendsAt(U8At, s, more, d);
    ExtendsAt(U32At, s, more, e);
  }

  lemma TailExtends(s: Text, more: Text, pos: nat)
    requires TailAt(s, pos).Some?
    ensures TailAt(s + more, pos) == TailAt(s, pos)
  {
    hide StrAt, StrsAt, Extends;
    StrExtends();
    StrsExtend();
    var a := StrAt(s, pos).value.next;
    var b := StrsAt(s, a).value.next;
    var c := StrsAt(s, b).value.next;
    ExtendsAt(StrAt, s, more, pos);
    ExtendsAt(StrsAt, s, more, a);
    ExtendsAt(StrsAt, s, more, b);
    ExtendsAt(StrsAt, s, more, c);
  }

  lemma HeadGood(s: Text, pos: nat)
    requires HeadAt(s, pos).Some?
    ensures |HeadAt(s, pos).value.value.name| < TWO_32 && (pos <= |s| ==> pos <= HeadAt(s, pos).value.next <= |s|)
  {
    hide U32At, U64At, StrAt, U8At;
    NumbersAdvance();
    StrsAdvance();
    StrsYield();
    assert StrFits(StrAt(s, U32At(s, U64At(s, pos).value.next).value.next).value.value);
  }

  lemma TailGood(s: Text, pos: nat)
    requires TailAt(s, pos).Some?
    ensures var r := TailAt(s, pos).value;
      && |r.value.signature| < TWO_32 && StrsFit(r.value.calls) && StrsFit(r.value.bases) && StrsFit(r.value.typeRefs)
      && (pos <= |s| ==> pos <= r.next <= |s|)
  {
    hide StrAt, StrsAt, StrsFit;
    StrsAdvance();
    StrsYield();
    var signature := StrAt(s, pos).value;
    assert StrFits(signature.value);
    var calls := StrsAt(s, signature.next).value;
    var bases := StrsAt(s, calls.next).value;
    assert StrsFit(calls.value) && StrsFit(bases.value) && StrsFit(StrsAt(s, bases.next).value.value);
  }

  lemma SymbolParserWell()
    ensures Extends(SymbolAt) && Advances(SymbolAt) && Yields(SymbolAt, SymbolFits)
  {
    hide HeadAt, TailAt, StrsFit;
    forall s: Text, more: Text, pos: nat | SymbolAt(s, pos).Some? ensures SymbolAt(s + more, pos) == SymbolAt(s, pos) {
      HeadExtends(s, more, pos);
      TailExtends(s, more, HeadAt(s, pos).value.next);
    }
    forall s: Text, pos: nat | SymbolAt(s, pos).Some?
      ensures SymbolFits(SymbolAt(s, pos).value.value) && (pos <= |s| ==> pos <= SymbolAt(s, pos).value.next <= |s|)
    {
      HeadGood(s, pos);
      TailGood(s, HeadAt(s, pos).value.next);
    }
  }

  // ----- one dependency record -----

  const FILE_EDGE: byte := 1
  const SYMBOL_EDGE: byte := 2

  datatype Edge = OfFiles(files: FileEdge) | OfSymbols(symbols: SymbolEdge)

  function EncEdge(e: Edge): Text {
    match e
    case OfFiles(f) => [FILE_EDGE] + U64(f.fromFileId) + U64(f.toFileId)
    case OfSymbols(y) => [SYMBOL_EDGE] + U64(y.fromSymbolId) + U64(y.toSymbolId)
  }

  /** File ids are stored in eight bytes; reading drops the upper four. */
  function EdgeAt(s: Text, pos: nat): Option<Parsed<Edge>> {
    var edgeType := U8At(s, pos);
    if edgeType.None? then None
    else
      var fromId := U64At(s, edgeType.value.next);
      if fromId.None? then None
      else
        var toId := U64At(s, fromId.value.next);
        if toId.None? then None
        else if edgeType.value.value == FILE_EDGE then
          Some(Parsed(OfFiles(FileEdge(fromId.value.value % TWO_32, toId.value.value % TWO_32)), toId.value.next))
        else if edgeType.value.value == SYMBOL_EDGE then
          Some(Parsed(OfSymbols(SymbolEdge(fromId.value.value, toId.value.value)), toId.value.next))
        else None
  }

  lemma EdgeReads(e: Edge)
    ensures Reads(EdgeAt, EncEdge(e), e)
  {
    hide EncEdge, EdgeAt, Holds;
    forall s: Text, pos: nat | Holds(s, pos, EncEdge(e)) ensures EdgeAt(s, pos) == Some(Parsed(e, pos + |EncEdge(e)|)) {
      EdgeReadsAt(e, s, pos);
    }
  }

  lemma EdgeReadsAt(e: Edge, s: Text, pos: nat)
    requires Holds(s, pos, EncEdge(e))
    ensures EdgeAt(s, pos) == Some(Parsed(e, pos + |EncEdge(e)|))
  {
    hide U64At, U64, Reads, Holds, U8At, Little;
    var k := if e.OfFiles? then FILE_EDGE else SYMBOL_EDGE;
    var a: u64 := if e.OfFiles? then e.files.fromFileId else e.symbols.fromSymbolId;
    var b: u64 := if e.OfFiles? then e.files.toFileId else e.symbols.toSymbolId;
    HoldsSplit(s, pos, [k] + U64(a), U64(b));
    HoldsSplit(s, pos, [k], U64(a));
    U64Reads(a);
    U64Reads(b);
    ByteReads(k, s, pos);
    ReadsAt(U64At, U64(a), a, s, pos + 1);
    ReadsAt(U64At, U64(b), b, s, pos + 1 + |U64(a)|);
  }

  lemma EdgeParserWell()
    ensures Extends(EdgeAt) && Advances(EdgeAt)
  {
    hide U64At, U8At;
    NumbersAdvance();
    NumbersExtend();
    forall s: Text, more: Text, pos: nat | EdgeAt(s, pos).Some? ensures EdgeAt(s + more, pos) == EdgeAt(s, pos) {
      var a := U8At(s, pos).value.next;
      ExtendsAt(U8At, s, more, pos);
      ExtendsAt(U64At, s, more, a);
      ExtendsAt(U64At, s, more, U64At(s, a).value.next);
    }
  }

  // ----- the core index -----

  function EncCore(c: CoreIndex): Text {
    U32(c.magic) + U32(c.indexVersion) + U32(c.schemaVersion) + [c.runtimeActive] + c.reserved
    + c.filesTblHash + c.symbolsTblHash + c.depsTblHash + c.projectRootHash + c.indexHash
  }

  const CORE_SIZE: nat := 176

  /** The fields of a text of at least 176 bytes. */
  function CoreAt(s: Text): Option<CoreIndex> {
    if |s| < CORE_SIZE then None
    else
      assert U32At(s, 0).Some? && U32At(s, 4).Some? && U32At(s, 8).Some?;
      Some(CoreIndex(U32At(s, 0).value.value, U32At(s, 4).value.value, U32At(s, 8).value.value, s[12], s[13..16],
                     s[16..48], s[48..80], s[80..112], s[112..144], s[144..176]))
  }

  /** The core index is read back, whatever follows it, and from nothing shorter. */
  lemma CoreRoundTrip(c: CoreIndex, more: Text, k: nat)
    ensures |EncCore(c)| == CORE_SIZE && CoreAt(EncCore(c) + more) == Some(c)
    ensures k < CORE_SIZE ==> CoreAt(EncCore(c)[..k]).None?
  {
    hide U32At, U32, Reads, Little, LittleValue;
    var s := EncCore(c) + more;
    var a, b, d := U32(c.magic), U32(c.indexVersion), U32(c.schemaVersion);
    LittleLength(c.magic);
    LittleLength(c.indexVersion);
    LittleLength(c.schemaVersion);
    U32Reads(c.magic);
    U32Reads(c.indexVersion);
    U32Reads(c.schemaVersion);
    assert Holds(s, 0, a) && Holds(s, 4, b) && Holds(s, 8, d);
    ReadsAt(U32At, a, c.magic, s, 0);
    ReadsAt(U32At, b, c.indexVersion, s, 4);
    ReadsAt(U32At, d, c.schemaVersion, s, 8);
    assert s[13..16] == c.reserved && s[16..48] == c.filesTblHash && s[48..80] == c.symbolsTblHash;
    assert s[80..112] == c.depsTblHash && s[112..144] == c.projectRootHash && s[144..176] == c.indexHash;
  }

  lemma LittleLength(v: u32)
    ensures |U32(v)| == 4
  {
  }
}
