/** Writing the index files to a directory and reading them back: round trips, cut files, and failed writes. */
module IndexFiles {
  import opened Decimals
  import opened Bytes
  import opened BinaryTables
  import opened BinaryIndex

  const FILES_TBL := "files.tbl"
  const FILES_META := "files.meta"
  const SYMBOLS_TBL := "symbols.tbl"
  const DEPS_TBL := "deps.tbl"
  const CORE_IDX := "core.idx"

  type Files = map<string, Text>

  // ----- what is written -----

  datatype Stamp = Stamp(fileId: u32, lastModified: u64)

  function StampOf(f: FileRecord): Stamp {
    Stamp(f.fileId, f.lastModified)
  }

  function Stamps(files: seq<FileRecord>): (r: seq<Stamp>)
    ensures |r| == |files| && forall i :: 0 <= i < |r| ==> r[i] == StampOf(files[i])
  {
    seq(|files|, i requires 0 <= i < |files| => StampOf(files[i]))
  }

  function EncStamp(x: Stamp): Text {
    U32(x.fileId) + U64(x.lastModified)
  }

  const STAMP_SIZE: nat := 12

  function FilesText(schema: u32, files: seq<FileRecord>): Text {
    EncTable(FileEncoder(schema), FILES_MAGIC, schema, files)
  }

  function MetaText(files: seq<FileRecord>): Text {
    EncAll(EncStamp, Stamps(files))
  }

  function AfterFiles(dir: Files, schema: u32, files: seq<FileRecord>): Files {
    var dir' := dir[FILES_TBL := FilesText(schema, files)];
    if schema < 2 then dir' else dir'[FILES_META := MetaText(files)]
  }

  function SymbolsText(schema: u32, symbols: seq<SymbolRecord>): Text {
    EncTable(EncSymbol, SYMBOLS_MAGIC, schema, symbols)
  }

  function EdgesOf(deps: DependencyTable): (r: seq<Edge>)
    ensures |r| == |deps.fileEdges| + |deps.symbolEdges|
  {
    seq(|deps.fileEdges|, i requires 0 <= i < |deps.fileEdges| => OfFiles(deps.fileEdges[i]))
    + seq(|deps.symbolEdges|, i requires 0 <= i < |deps.symbolEdges| => OfSymbols(deps.symbolEdges[i]))
  }

  function DepsText(schema: u32, deps: DependencyTable): Text {
    EncTable(EncEdge, DEPS_MAGIC, schema, EdgesOf(deps))
  }

  // ----- what is read -----

  function StampAt(s: Text, pos: nat): Option<Parsed<Stamp>> {
    var fileId := U32At(s, pos);
    if fileId.None? then None
    else
      var modified := U64At(s, fileId.value.next);
      if modified.None? then None
        else Some(Parsed(Stamp(fileId.value.value, modified.value.value), modified.value.next))
  }

  /** The last entry of an id counts. */
  function Times(stamps: seq<Stamp>): map<u32, u64> {
    if stamps == [] then map[]
    else Times(stamps[..|stamps| - 1])[stamps[|stamps| - 1].fileId := stamps[|stamps| - 1].lastModified]
  }

  function Dated(f: FileRecord, times: map<u32, u64>): FileRecord {
    if f.fileId in times then f.(lastModified := times[f.fileId]) else f
  }

  function AllDated(files: seq<FileRecord>, times: map<u32, u64>): (r: seq<FileRecord>)
    ensures |r| == |files| && forall i :: 0 <= i < |r| ==> r[i] == Dated(files[i], times)
  {
    seq(|files|, i requires 0 <= i < |files| => Dated(files[i], times))
  }

  function FilesIn(schema: u32, dir: Files): Option<seq<FileRecord>> {
    if FILES_TBL !in dir then None
    else
      var records := TableAt(FileParser(schema), FILES_MAGIC, schema, dir[FILES_TBL], 0);
      if records.None? then None
      else if schema < 2 || FILES_META !in dir then Some(records.value.value)
      else
        var stamps := LogAt(StampAt, dir[FILES_META], 0);
        if stamps.None? then None else Some(AllDated(records.value.value, Times(stamps.value)))
  }

  function SymbolsIn(schema: u32, dir: Files): Option<seq<SymbolRecord>> {
    if SYMBOLS_TBL !in dir then None
    else
      var records := TableAt(SymbolAt, SYMBOLS_MAGIC, schema, dir[SYMBOLS_TBL], 0);
      if records.None? then None else Some(records.value.value)
  }

  function FileEdgesOf(edges: seq<Edge>): seq<FileEdge> {
    if edges == [] then []
    else FileEdgesOf(edges[..|edges| - 1]) + if edges[|edges| - 1].OfFiles? then [edges[|edges| - 1].files] else []
  }

  function SymbolEdgesOf(edges: seq<Edge>): seq<SymbolEdge> {
    if edges == [] then []
    else SymbolEdgesOf(edges[..|edges| - 1]) + if edges[|edges| - 1].OfSymbols? then [edges[|edges| - 1].symbols]
      else []
  }

  function DepsIn(schema: u32, dir: Files): Option<DependencyTable> {
    if DEPS_TBL !in dir then None
    else
      var records := TableAt(EdgeAt, DEPS_MAGIC, schema, dir[DEPS_TBL], 0);
      if records.None? then None
      else Some(DependencyTable(FileEdgesOf(records.value.value), SymbolEdgesOf(records.value.value)))
  }

  // ----- files.tbl and files.meta -----

  predicate FilesFit(files: seq<FileRecord>) {
    |files| < TWO_32 && forall f :: f in files ==> PathFits(f)
  }

  function AllListed(schema: u32, files: seq<FileRecord>): (r: seq<FileRecord>)
    ensures |r| == |files| && forall i :: 0 <= i < |r| ==> r[i] == Listed(schema, files[i])
  {
    seq(|files|, i requires 0 <= i < |files| => Listed(schema, files[i]))
  }

  lemma FilesTableReads(schema: u32, files: seq<FileRecord>)
    requires FilesFit(files)
    ensures Reads(TableParser(FileParser(schema), FILES_MAGIC, schema), FilesText(schema, files),
      AllListed(schema, files))
    ensures TableAt(FileParser(schema), FILES_MAGIC, schema, FilesText(schema, files), 0)
         == Some(Parsed(AllListed(schema, files), |FilesText(schema, files)|))
  {
    hide Listed, FileParser, FileEncoder, EncTable, Reads, TableAt;
    var listed := AllListed(schema, files);
    forall i | 0 <= i < |files| ensures Reads(FileParser(schema), FileEncoder(schema)(files[i]), listed[i]) {
      FileReads(schema, files[i]);
    }
    TableReads(FileParser(schema), FileEncoder(schema), FILES_MAGIC, schema, files, listed);
    HoldsSelf(FilesText(schema, files), []);
    ReadsAt(TableParser(FileParser(schema), FILES_MAGIC, schema), FilesText(schema, files), listed,
      FilesText(schema, files), 0);
  }

  lemma StampsFixed()
    ensures Fixed(StampAt, EncStamp, STAMP_SIZE)
  {
    hide Little, LittleValue;
    forall x: Stamp ensures |EncStamp(x)| == STAMP_SIZE && Reads(StampAt, EncStamp(x), x) {
      forall s: Text, pos: nat | Holds(s, pos, EncStamp(x))
        ensures StampAt(s, pos) == Some(Parsed(x, pos + STAMP_SIZE)) {
        hide U32At, U64At, Reads, Holds;
        HoldsSplit(s, pos, U32(x.fileId), U64(x.lastModified));
        U32Reads(x.fileId);
        U64Reads(x.lastModified);
        ReadsAt(U32At, U32(x.fileId), x.fileId, s, pos);
        ReadsAt(U64At, U64(x.lastModified), x.lastModified, s, pos + 4);
      }
    }
  }

  /** The side table cut anywhere: only a cut inside the time of an entry is noticed. */
  lemma MetaPrefix(files: seq<FileRecord>, k: nat)
    requires k <= STAMP_SIZE * |files|
    ensures |MetaText(files)| == STAMP_SIZE * |files|
    ensures LogAt(StampAt, MetaText(files)[..k], 0) == if k % STAMP_SIZE < 4 then Some(Stamps(files)[..k / STAMP_SIZE])
      else None
  {
    hide Fixed, EncAll, LogAt, StampAt, EncStamp;
    StampsFixed();
    FixedLength(StampAt, EncStamp, STAMP_SIZE, Stamps(files));
    var q, r := k / STAMP_SIZE, k % STAMP_SIZE;
    assert STAMP_SIZE * q + r == k;
    LogPrefix(StampAt, EncStamp, STAMP_SIZE, Stamps(files), q, r, MetaText(files)[..k], 0);
  }

  predicate IsLast(stamps: seq<Stamp>, i: nat, id: u32) {
    i < |stamps| && stamps[i].fileId == id && forall j :: i < j < |stamps| ==> stamps[j].fileId != id
  }

  lemma {:induction false} TimesAt(stamps: seq<Stamp>, id: u32)
    ensures id in Times(stamps) <==> exists i :: 0 <= i < |stamps| && stamps[i].fileId == id
    ensures id in Times(stamps) ==>
      exists i: nat :: IsLast(stamps, i, id) && stamps[i].lastModified == Times(stamps)[id]
  {
    if stamps != [] {
      var n := |stamps| - 1;
      TimesAt(stamps[..n], id);
      if stamps[n].fileId == id {
        assert IsLast(stamps, n, id);
      } else {
        forall i: nat | IsLast(stamps[..n], i, id) ensures IsLast(stamps, i, id) && stamps[..n][i] == stamps[i] {
          assert forall j :: i < j < n ==> stamps[..n][j] == stamps[j];
        }
        assert forall i :: 0 <= i < n ==> stamps[..n][i] == stamps[i];
      }
    }
  }

  /** Records that share a file id also share a timestamp. */
  predicate SameTimes(files: seq<FileRecord>) {
    forall i, j :: 0 <= i < |files| && 0 <= j < |files| && files[i].fileId == files[j].fileId ==>
      files[i].lastModified == files[j].lastModified
  }

  lemma DatedAt(files: seq<FileRecord>, i: nat) returns (m: nat)
    requires i < |files|
    ensures m < |files| && files[m].fileId == files[i].fileId && files[i].fileId in Times(Stamps(files))
    ensures files[m].lastModified == Times(Stamps(files))[files[i].fileId]
    ensures AllDated(AllListed(2, files), Times(Stamps(files)))[i] == files[i].(lastModified := files[m].lastModified)
  {
    var stamps := Stamps(files);
    TimesAt(stamps, files[i].fileId);
    assert stamps[i].fileId == files[i].fileId;
    m :| IsLast(stamps, m, files[i].fileId) && stamps[m].lastModified == Times(stamps)[files[i].fileId];
  }

  lemma DatedBack(files: seq<FileRecord>)
    ensures AllDated(AllListed(2, files), Times(Stamps(files))) == files <==> SameTimes(files)
  {
    hide AllDated, AllListed, Stamps, Times;
    var back := AllDated(AllListed(2, files), Times(Stamps(files)));
    if SameTimes(files) {
      forall i | 0 <= i < |files| ensures back[i] == files[i] {
        var m := DatedAt(files, i);
      }
    } else {
      var i, j :| 0 <= i < |files| && 0 <= j < |files| && files[i].fileId == files[j].fileId
        && files[i].lastModified != files[j].lastModified;
      var m := DatedAt(files, i);
      var n := DatedAt(files, j);
      assert back[i].lastModified == back[j].lastModified;
    }
  }

  lemma ListedFrom2(schema: u32, files: seq<FileRecord>)
    requires schema >= 2
    ensures AllListed(schema, files) == AllListed(2, files)
  {
  }

  /** Reading back what was written gives the records, timestamps included, exactly when every count and length fits in
      32 bits and, from schema version 2 on, no two records share an id but not a timestamp. */
  lemma FilesRoundTrip(schema: u32, files: seq<FileRecord>, dir: Files)
    ensures FilesIn(schema, AfterFiles(dir, schema, files)) == Some(files) <==>
      FilesFit(files) && (schema < 2 || SameTimes(files))
  {
    hide TableAt, EncTable, LogAt, EncAll, Times, FilesText, MetaText;
    var after := AfterFiles(dir, schema, files);
    if FilesFit(files) {
      FilesTableReads(schema, files);
      if schema < 2 {
        assert AllListed(schema, files) == files;
      } else {
        MetaPrefix(files, STAMP_SIZE * |files|);
        assert MetaText(files)[..|MetaText(files)|] == MetaText(files);
        assert Stamps(files)[..|files|] == Stamps(files);
        DatedBack(files);
        ListedFrom2(schema, files);
      }
    } else if FilesIn(schema, after) == Some(files) {
      FilesReadFit(schema, after);
    }
  }

  lemma FilesReadFit(schema: u32, dir: Files)
    ensures FilesIn(schema, dir).Some? ==> FilesFit(FilesIn(schema, dir).value)
  {
    hide TableAt, LogAt, Times;
    if FilesIn(schema, dir).Some? {
      FileParserWell(schema);
      TableYields(FileParser(schema), PathFits, FILES_MAGIC, schema, dir[FILES_TBL], 0);
      var records, r := TableAt(FileParser(schema), FILES_MAGIC, schema, dir[FILES_TBL], 0).value.value,
        FilesIn(schema, dir).value;
      forall f | f in r ensures PathFits(f) {
        var i :| 0 <= i < |r| && r[i] == f;
        assert records[i] in records;
      }
    }
  }

  /** No strict prefix of the table is accepted, whatever the side table holds. */
  lemma FilesPrefixRefused(schema: u32, files: seq<FileRecord>, dir: Files, k: nat)
    requires FilesFit(files) && k < |FilesText(schema, files)|
    ensures FilesIn(schema, dir[FILES_TBL := FilesText(schema, files)[..k]]).None?
  {
    hide TableAt, FilesText, Reads, Extends, Advances, FileParser;
    FilesTableReads(schema, files);
    FileParserWell(schema);
    TableExtends(FileParser(schema), FILES_MAGIC, schema);
    TableAdvances(FileParser(schema), FILES_MAGIC, schema);
    PrefixRefused(TableParser(FileParser(schema), FILES_MAGIC, schema), FilesText(schema, files),
      AllListed(schema, files), k);
  }

  function Cut(t: Text, k: nat): Text {
    if k <= |t| then t[..k] else t
  }

  /** A side table cut after `q` entries and `r` bytes: the records come back with the times of the whole entries before
      the cut, unless the cut is inside the time of an entry. */
  lemma CutSideTable(schema: u32, files: seq<FileRecord>, dir: Files, q: nat, r: nat)
    requires FilesFit(files) && schema >= 2 && q <= |files| && r < STAMP_SIZE && (q == |files| ==> r == 0)
    ensures FilesIn(schema, AfterFiles(dir, schema, files)[FILES_META := Cut(MetaText(files), STAMP_SIZE * q + r)]) ==
      if r < 4 then Some(AllDated(AllListed(schema, files), Times(Stamps(files)[..q]))) else None
  {
    hide TableAt, EncTable, LogAt, EncAll, Times, FilesText, MetaText;
    FilesTableReads(schema, files);
    MetaPrefix(files, 0);
    MetaPrefix(files, STAMP_SIZE * q + r);
  }

  /** Of a cut side table nothing shows exactly when the cut is not inside a time and every record with a time has an
      entry before it. */
  lemma CutHarmlessIff(schema: u32, files: seq<FileRecord>, dir: Files, q: nat, r: nat)
    requires FilesFit(files) && SameTimes(files) && schema >= 2 && q <= |files| && r < STAMP_SIZE
      && (q == |files| ==> r == 0)
    ensures var cut := AfterFiles(dir, schema, files)[FILES_META := Cut(MetaText(files), STAMP_SIZE * q + r)];
      FilesIn(schema, cut) == Some(files) <==>
      r < 4 && forall i :: 0 <= i < |files| ==>
        files[i].lastModified == 0 || exists j :: 0 <= j < q && files[j].fileId == files[i].fileId
  {
    CutSideTable(schema, files, dir, q, r);
    ListedFrom2(schema, files);
    hide FilesIn, AfterFiles, AllDated, AllListed, Times, Stamps, Cut, FilesFit;
    var back := AllDated(AllListed(2, files), Times(Stamps(files)[..q]));
    forall i | 0 <= i < |files| ensures back[i] == files[i] <==>
      files[i].lastModified == 0 || exists j :: 0 <= j < q && files[j].fileId == files[i].fileId {
      CutDatedAt(files, q, i);
    }
    if forall i :: 0 <= i < |files| ==> back[i] == files[i] {
      assert back == files;
    }
  }

  lemma CutDatedAt(files: seq<FileRecord>, q: nat, i: nat)
    requires SameTimes(files) && q <= |files| && i < |files|
    ensures AllDated(AllListed(2, files), Times(Stamps(files)[..q]))[i] == files[i] <==>
      files[i].lastModified == 0 || exists j :: 0 <= j < q && files[j].fileId == files[i].fileId
  {
    var stamps, id := Stamps(files)[..q], files[i].fileId;
    TimesAt(stamps, id);
    if j :| 0 <= j < q && files[j].fileId == id { assert stamps[j].fileId == id; }
    if j :| 0 <= j < q && stamps[j].fileId == id { assert files[j].fileId == id; }
    hide Times;
  }

  /** A concrete cut that is not noticed: with nothing left of its side table, a record comes back without its time. */
  lemma TimeLost(f: FileRecord, dir: Files)
    requires PathFits(f)
    ensures var files := [f.(lastModified := 1)];
      FilesIn(2, AfterFiles(dir, 2, files)[FILES_META := Cut(MetaText(files), 0)]) == Some([f.(lastModified := 0)])
  {
    var files := [f.(lastModified := 1)];
    CutSideTable(2, files, dir, 0, 0);
    assert Stamps(files)[..0] == [];
    assert AllDated(AllListed(2, files), map[]) == [f.(lastModified := 0)];
    hide FilesIn, AfterFiles, Cut;
  }

  // ----- a write that stops between the two files -----

  /** The new table beside the old side table: what a write leaves that replaces the first file and fails at
      the second. */
  function HalfWritten(dir: Files, schema: u32, files: seq<FileRecord>): Files {
    dir[FILES_TBL := FilesText(schema, files)]
  }

  /** Then the new records come back under the old times of their ids, and without a time where there was none. */
  lemma HalfWrittenReads(schema: u32, before: seq<FileRecord>, files: seq<FileRecord>, dir: Files)
    requires FilesFit(files) && schema >= 2
    ensures FilesIn(schema, HalfWritten(AfterFiles(dir, schema, before), schema, files)) ==
      Some(AllDated(AllListed(schema, files), Times(Stamps(before))))
  {
    hide TableAt, EncTable, LogAt, EncAll, Times, FilesText, MetaText;
    FilesTableReads(schema, files);
    MetaPrefix(before, STAMP_SIZE * |before|);
    assert MetaText(before)[..|MetaText(before)|] == MetaText(before);
    assert Stamps(before)[..|before|] == Stamps(before);
  }

  /** Nothing shows of it exactly when each new record has the time last written for its id, or none when there
      was none. */
  lemma HalfWrittenHarmlessIff(schema: u32, before: seq<FileRecord>, files: seq<FileRecord>, dir: Files)
    requires FilesFit(files) && SameTimes(before) && schema >= 2
    ensures FilesIn(schema, HalfWritten(AfterFiles(dir, schema, before), schema, files)) == Some(files) <==>
      forall i :: 0 <= i < |files| ==>
        if exists j :: 0 <= j < |before| && before[j].fileId == files[i].fileId
        then exists j ::
          0 <= j < |before| && before[j].fileId == files[i].fileId && before[j].lastModified == files[i].lastModified
        else files[i].lastModified == 0
  {
    HalfWrittenReads(schema, before, files, dir);
    ListedFrom2(schema, files);
    hide FilesIn, AfterFiles, HalfWritten, AllDated, AllListed, Times, Stamps, FilesFit;
    var back := AllDated(AllListed(2, files), Times(Stamps(before)));
    forall i | 0 <= i < |files| ensures back[i] == files[i] <==>
      if exists j :: 0 <= j < |before| && before[j].fileId == files[i].fileId
      then exists j ::
        0 <= j < |before| && before[j].fileId == files[i].fileId && before[j].lastModified == files[i].lastModified
      else files[i].lastModified == 0 {
      StaleDatedAt(before, files, i);
    }
    if forall i :: 0 <= i < |files| ==> back[i] == files[i] {
      assert back == files;
    }
  }

  lemma StaleDatedAt(before: seq<FileRecord>, files: seq<FileRecord>, i: nat)
    requires SameTimes(before) && i < |files|
    ensures AllDated(AllListed(2, files), Times(Stamps(before)))[i] == files[i] <==>
      if exists j :: 0 <= j < |before| && before[j].fileId == files[i].fileId
      then exists j ::
        0 <= j < |before| && before[j].fileId == files[i].fileId && before[j].lastModified == files[i].lastModified
      else files[i].lastModified == 0
  {
    var stamps, id := Stamps(before), files[i].fileId;
    TimesAt(stamps, id);
    if j :| 0 <= j < |before| && before[j].fileId == id { assert stamps[j].fileId == id; }
    if j :| 0 <= j < |stamps| && stamps[j].fileId == id { assert before[j].fileId == id; }
    hide Times;
  }

  /** A concrete half-written table: a file touched since comes back under its old time. */
  lemma TimeStale(f: FileRecord, dir: Files)
    requires PathFits(f)
    ensures FilesIn(2, HalfWritten(AfterFiles(dir, 2, [f.(lastModified := 1)]), 2, [f.(lastModified := 2)])) ==
      Some([f.(lastModified := 1)])
  {
    var before, files := [f.(lastModified := 1)], [f.(lastModified := 2)];
    HalfWrittenReads(2, before, files, dir);
    assert Stamps(before) == [Stamp(f.fileId, 1)];
    assert [Stamp(f.fileId, 1)][..0] == [];
    assert AllDated(AllListed(2, files), Times(Stamps(before))) == [f.(lastModified := 1)];
    hide FilesIn, AfterFiles, HalfWritten;
  }

  /** Two concrete records that do not come back: they share an id and differ in their times. */
  lemma TimesMerged(f: FileRecord, dir: Files)
    ensures FilesIn(2, AfterFiles(dir, 2, [f.(lastModified := 1), f.(lastModified := 2)])) !=
      Some([f.(lastModified := 1), f.(lastModified := 2)])
  {
    var files := [f.(lastModified := 1), f.(lastModified := 2)];
    assert files[0].fileId == files[1].fileId && files[0].lastModified != files[1].lastModified;
    FilesRoundTrip(2, files, dir);
    hide FilesIn, AfterFiles;
  }

  // ----- symbols.tbl -----

  predicate SymbolsFit(symbols: seq<SymbolRecord>) {
    |symbols| < TWO_32 && forall r :: r in symbols ==> SymbolFits(r)
  }

  lemma SymbolsTableReads(schema: u32, symbols: seq<SymbolRecord>)
    requires SymbolsFit(symbols)
    ensures Reads(TableParser(SymbolAt, SYMBOLS_MAGIC, schema), SymbolsText(schema, symbols), symbols)
    ensures TableAt(SymbolAt, SYMBOLS_MAGIC, schema, SymbolsText(schema, symbols), 0)
         == Some(Parsed(symbols, |SymbolsText(schema, symbols)|))
  {
    hide SymbolAt, EncSymbol, EncTable, Reads, TableAt, SymbolFits;
    forall i | 0 <= i < |symbols| ensures Reads(SymbolAt, EncSymbol(symbols[i]), symbols[i]) {
      SymbolReads(symbols[i]);
    }
    TableReads(SymbolAt, EncSymbol, SYMBOLS_MAGIC, schema, symbols, symbols);
    HoldsSelf(SymbolsText(schema, symbols), []);
    ReadsAt(TableParser(SymbolAt, SYMBOLS_MAGIC, schema), SymbolsText(schema, symbols), symbols,
      SymbolsText(schema, symbols), 0);
  }

  /** Symbols come back exactly when every count and length fits in 32 bits. */
  lemma SymbolsRoundTrip(schema: u32, symbols: seq<SymbolRecord>, dir: Files)
    ensures SymbolsIn(schema, dir[SYMBOLS_TBL := SymbolsText(schema, symbols)]) == Some(symbols) <==>
      SymbolsFit(symbols)
  {
    hide TableAt, SymbolsText, SymbolFits;
    var text := SymbolsText(schema, symbols);
    if SymbolsFit(symbols) {
      SymbolsTableReads(schema, symbols);
    } else if SymbolsIn(schema, dir[SYMBOLS_TBL := text]) == Some(symbols) {
      SymbolParserWell();
      TableYields(SymbolAt, SymbolFits, SYMBOLS_MAGIC, schema, text, 0);
    }
  }

  lemma SymbolsPrefixRefused(schema: u32, symbols: seq<SymbolRecord>, dir: Files, k: nat)
    requires SymbolsFit(symbols) && k < |SymbolsText(schema, symbols)|
    ensures SymbolsIn(schema, dir[SYMBOLS_TBL := SymbolsText(schema, symbols)[..k]]).None?
  {
    hide TableAt, SymbolsText, Reads, Extends, Advances, SymbolAt, SymbolFits;
    SymbolsTableReads(schema, symbols);
    SymbolParserWell();
    TableExtends(SymbolAt, SYMBOLS_MAGIC, schema);
    TableAdvances(SymbolAt, SYMBOLS_MAGIC, schema);
    PrefixRefused(TableParser(SymbolAt, SYMBOLS_MAGIC, schema), SymbolsText(schema, symbols), symbols, k);
  }

  // ----- deps.tbl -----

  predicate DepsFit(deps: DependencyTable) {
    |deps.fileEdges| + |deps.symbolEdges| < TWO_32
  }

  lemma {:induction false} EdgesSplit(edges: seq<Edge>)
    ensures |FileEdgesOf(edges)| + |SymbolEdgesOf(edges)| == |edges|
    ensures (forall i :: 0 <= i < |edges| ==> edges[i].OfFiles?) ==>
      SymbolEdgesOf(edges) == [] && forall i :: 0 <= i < |edges| ==> FileEdgesOf(edges)[i] == edges[i].files
  {
    if edges != [] { EdgesSplit(edges[..|edges| - 1]); }
  }

  lemma NextEdge(edges: seq<Edge>, e: Edge)
    ensures FileEdgesOf(edges + [e]) == FileEdgesOf(edges) + if e.OfFiles? then [e.files] else []
    ensures SymbolEdgesOf(edges + [e]) == SymbolEdgesOf(edges) + if e.OfSymbols? then [e.symbols] else []
  {
    assert (edges + [e])[..|edges|] == edges;
  }

  lemma {:induction false} SymbolEdgesAfter(front: seq<Edge>, back: seq<Edge>, ys: seq<SymbolEdge>)
    requires |ys| == |back| && forall i :: 0 <= i < |back| ==> back[i] == OfSymbols(ys[i])
    ensures FileEdgesOf(front + back) == FileEdgesOf(front) && SymbolEdgesOf(front + back) == SymbolEdgesOf(front) + ys
  {
    hide FileEdgesOf, SymbolEdgesOf;
    if back == [] {
      assert front + back == front;
    } else {
      var n := |back| - 1;
      SymbolEdgesAfter(front, back[..n], ys[..n]);
      NextEdge(front + back[..n], back[n]);
      assert front + back == front + back[..n] + [back[n]] && ys == ys[..n] + [ys[n]];
    }
  }

  lemma EdgesBack(deps: DependencyTable)
    ensures DependencyTable(FileEdgesOf(EdgesOf(deps)), SymbolEdgesOf(EdgesOf(deps))) == deps
  {
    var front, back := EdgesParts(deps);
    hide FileEdgesOf, SymbolEdgesOf, EdgesOf;
    EdgesSplit(front);
    SymbolEdgesAfter(front, back, deps.symbolEdges);
    assert FileEdgesOf(front) == deps.fileEdges && SymbolEdgesOf(front) == [];
  }

  lemma EdgesParts(deps: DependencyTable) returns (front: seq<Edge>, back: seq<Edge>)
    ensures EdgesOf(deps) == front + back && |front| == |deps.fileEdges| && |back| == |deps.symbolEdges|
    ensures forall i :: 0 <= i < |front| ==> front[i] == OfFiles(deps.fileEdges[i])
    ensures forall i :: 0 <= i < |back| ==> back[i] == OfSymbols(deps.symbolEdges[i])
  {
    front := seq(|deps.fileEdges|, i requires 0 <= i < |deps.fileEdges| => OfFiles(deps.fileEdges[i]));
    back := seq(|deps.symbolEdges|, i requires 0 <= i < |deps.symbolEdges| => OfSymbols(deps.symbolEdges[i]));
  }

  lemma DepsTableReads(schema: u32, deps: DependencyTable)
    requires DepsFit(deps)
    ensures Reads(TableParser(EdgeAt, DEPS_MAGIC, schema), DepsText(schema, deps), EdgesOf(deps))
    ensures TableAt(EdgeAt, DEPS_MAGIC, schema, DepsText(schema, deps), 0) ==
      Some(Parsed(EdgesOf(deps), |DepsText(schema, deps)|))
  {
    hide EdgeAt, EncEdge, EncTable, Reads, TableAt;
    var edges := EdgesOf(deps);
    forall i | 0 <= i < |edges| ensures Reads(EdgeAt, EncEdge(edges[i]), edges[i]) {
      EdgeReads(edges[i]);
    }
    TableReads(EdgeAt, EncEdge, DEPS_MAGIC, schema, edges, edges);
    HoldsSelf(DepsText(schema, deps), []);
    ReadsAt(TableParser(EdgeAt, DEPS_MAGIC, schema), DepsText(schema, deps), edges, DepsText(schema, deps), 0);
  }

  /** Edges come back exactly when their number fits in 32 bits. */
  lemma DepsRoundTrip(schema: u32, deps: DependencyTable, dir: Files)
    ensures DepsIn(schema, dir[DEPS_TBL := DepsText(schema, deps)]) == Some(deps) <==> DepsFit(deps)
  {
    hide TableAt, DepsText, FileEdgesOf, SymbolEdgesOf, EdgesOf, EdgeAt;
    var text := DepsText(schema, deps);
    if DepsFit(deps) {
      DepsTableReads(schema, deps);
      EdgesBack(deps);
    } else if DepsIn(schema, dir[DEPS_TBL := text]) == Some(deps) {
      var any := (e: Edge) => true;
      TableYields(EdgeAt, any, DEPS_MAGIC, schema, text, 0);
      EdgesSplit(TableAt(EdgeAt, DEPS_MAGIC, schema, text, 0).value.value);
    }
  }

  lemma DepsPrefixRefused(schema: u32, deps: DependencyTable, dir: Files, k: nat)
    requires DepsFit(deps) && k < |DepsText(schema, deps)|
    ensures DepsIn(schema, dir[DEPS_TBL := DepsText(schema, deps)[..k]]).None?
  {
    hide TableAt, DepsText, Reads, Extends, Advances, EdgeAt, EdgesOf;
    DepsTableReads(schema, deps);
    EdgeParserWell();
    TableExtends(EdgeAt, DEPS_MAGIC, schema);
    TableAdvances(EdgeAt, DEPS_MAGIC, schema);
    PrefixRefused(TableParser(EdgeAt, DEPS_MAGIC, schema), DepsText(schema, deps), EdgesOf(deps), k);
  }
}
