/** The byte layout of the index files: at which offset of a record which number, text or digest stands. Numbers are
    described by their digits to the base 256, least significant first. */
module IndexLayouts {
  import opened Decimals
  import opened Bytes
  import opened BinaryTables
  import opened BinaryIndex
  import opened IndexFiles
  import ChangeLogs

  /** The value shifted right by `i` bytes. */
  ghost function Shifted(v: nat, i: nat): nat {
    if i == 0 then v else Shifted(v / 256, i - 1)
  }

  ghost predicate NumberAt(s: Text, pos: nat, width: nat, v: nat) {
    pos + width <= |s| && forall i :: 0 <= i < width ==> s[pos + i] == Shifted(v, i) % 256
  }

  /** These bytes from this offset on. */
  ghost predicate StandsAt(s: Text, pos: nat, t: Text) {
    pos + |t| <= |s| && forall i :: 0 <= i < |t| ==> s[pos + i] == t[i]
  }

  /** The length in four bytes, and the text. */
  ghost predicate TextAt(s: Text, pos: nat, t: Text) {
    NumberAt(s, pos, 4, |t| % 0x1_0000_0000) && StandsAt(s, pos + 4, t)
  }

  ghost function Size(ts: seq<Text>): nat {
    if ts == [] then 0 else 4 + |ts[0]| + Size(ts[1..])
  }

  /** Texts one after another. */
  ghost predicate TextsFrom(s: Text, pos: nat, ts: seq<Text>)
    decreases |ts|
  {
    ts == [] || (TextAt(s, pos, ts[0]) && TextsFrom(s, pos + 4 + |ts[0]|, ts[1..]))
  }

  /** Their number in four bytes, and the texts. */
  ghost predicate ListAt(s: Text, pos: nat, ts: seq<Text>) {
    NumberAt(s, pos, 4, |ts| % 0x1_0000_0000) && TextsFrom(s, pos + 4, ts)
  }

  // ----- numbers and texts -----

  lemma {:induction false} LittleDigits(v: nat, n: nat)
    ensures NumberAt(Little(v, n), 0, n, v)
  {
    if n > 0 {
      LittleDigits(v / 256, n - 1);
      forall i | 0 <= i < n ensures Little(v, n)[i] == Shifted(v, i) % 256 {
        if i > 0 { assert Little(v / 256, n - 1)[0 + (i - 1)] == Shifted(v / 256, i - 1) % 256; }
      }
    }
  }

  /** What stands in a part stands in the whole. */
  lemma NumberWithin(a: Text, t: Text, b: Text, width: nat, v: nat)
    requires NumberAt(t, 0, width, v)
    ensures NumberAt(a + t + b, |a|, width, v)
  {
    forall i | 0 <= i < width ensures (a + t + b)[|a| + i] == Shifted(v, i) % 256 {
      assert (a + t + b)[|a| + i] == t[0 + i];
    }
  }

  lemma Number32(a: Text, v: u32, b: Text)
    ensures |U32(v)| == 4 && NumberAt(a + U32(v) + b, |a|, 4, v)
  {
    LittleDigits(v, 4);
    NumberWithin(a, U32(v), b, 4, v);
  }

  lemma Number64(a: Text, v: u64, b: Text)
    ensures |U64(v)| == 8 && NumberAt(a + U64(v) + b, |a|, 8, v)
  {
    LittleDigits(v, 8);
    NumberWithin(a, U64(v), b, 8, v);
  }

  lemma Stands(a: Text, t: Text, b: Text)
    ensures StandsAt(a + t + b, |a|, t)
  {
  }

  lemma TextWithin(a: Text, t: Text, b: Text)
    ensures |Str(t)| == 4 + |t| && TextAt(a + Str(t) + b, |a|, t)
  {
    hide U32;
    var n := U32(Length(|t|));
    Number32(a, Length(|t|), t + b);
    Stands(a + n, t, b);
    assert a + n + (t + b) == a + Str(t) + b && a + n + t + b == a + Str(t) + b;
  }

  lemma {:induction false} TextsWithin(a: Text, ts: seq<Text>, b: Text)
    ensures |EncAll(Str, ts)| == Size(ts) && TextsFrom(a + EncAll(Str, ts) + b, |a|, ts)
    decreases |ts|
  {
    hide Str, TextAt;
    if ts != [] {
      AllFromFront(ts);
      var first, rest := Str(ts[0]), EncAll(Str, ts[1..]);
      TextWithin(a, ts[0], rest + b);
      TextsWithin(a + first, ts[1..], b);
      assert a + first + (rest + b) == a + EncAll(Str, ts) + b && a + first + rest + b == a + EncAll(Str, ts) + b;
    }
  }

  lemma {:induction false} AllFromFront(ts: seq<Text>)
    requires ts != []
    ensures EncAll(Str, ts) == Str(ts[0]) + EncAll(Str, ts[1..])
    decreases |ts|
  {
    hide Str;
    var n := |ts| - 1;
    if n > 0 {
      AllFromFront(ts[..n]);
      assert ts[..n][1..] == ts[1..][..n - 1] && ts[1..][n - 1] == ts[n];
    }
  }

  lemma ListWithin(a: Text, ts: seq<Text>, b: Text)
    ensures |Strs(ts)| == 4 + Size(ts) && ListAt(a + Strs(ts) + b, |a|, ts)
  {
    hide U32, EncAll;
    var n, all := U32(Length(|ts|)), EncAll(Str, ts);
    Number32(a, Length(|ts|), all + b);
    TextsWithin(a + n, ts, b);
    assert a + n + (all + b) == a + Strs(ts) + b && a + n + all + b == a + Strs(ts) + b;
  }

  // ----- records -----

  /** Id, path, digest, language, and up to schema version 1 the time. */
  lemma FileLayout(schema: u32, f: FileRecord)
    ensures var s, n := EncFile(schema, f), |f.path|;
      && NumberAt(s, 0, 4, f.fileId) && TextAt(s, 4, f.path) && StandsAt(s, 8 + n, f.hash)
      && |s| == 41 + n + (if schema <= 1 then 8 else 0) && s[40 + n] == f.language
      && (schema <= 1 ==> NumberAt(s, 41 + n, 8, f.lastModified))
  {
    hide U32, U64, Str, TextAt, NumberAt, StandsAt;
    var time := if schema <= 1 then U64(f.lastModified) else [];
    var id, path, s := U32(f.fileId), Str(f.path), EncFile(schema, f);
    Number32([], f.fileId, path + f.hash + [f.language] + time);
    TextWithin(id, f.path, f.hash + [f.language] + time);
    Stands(id + path, f.hash, [f.language] + time);
    Number64(id + path + f.hash + [f.language], f.lastModified, []);
    assert s == [] + id + (path + f.hash + [f.language] + time) == id + path + (f.hash + [f.language] + time)
      == id + path + f.hash + ([f.language] + time);
    assert schema <= 1 ==> s == id + path + f.hash + [f.language] + U64(f.lastModified) + [];
  }

  lemma StampLayout(x: Stamp)
    ensures |EncStamp(x)| == 12 && NumberAt(EncStamp(x), 0, 4, x.fileId) && NumberAt(EncStamp(x), 4, 8, x.lastModified)
  {
    hide U32, U64, NumberAt;
    Number32([], x.fileId, U64(x.lastModified));
    Number64(U32(x.fileId), x.lastModified, []);
    assert EncStamp(x) == [] + U32(x.fileId) + U64(x.lastModified) == U32(x.fileId) + U64(x.lastModified) + [];
  }

  lemma HeadLayout(h: SymbolHead)
    ensures var s, n := EncHead(h), |h.name|;
      && |s| == 22 + n && NumberAt(s, 0, 8, h.symbolId) && NumberAt(s, 8, 4, h.fileId) && TextAt(s, 12, h.name)
      && s[16 + n] == h.symbolType && s[17 + n] == h.visibility && NumberAt(s, 18 + n, 4, h.lineNumber)
  {
    hide U32, U64, Str, TextAt, NumberAt;
    var id, file, name, line := U64(h.symbolId), U32(h.fileId), Str(h.name), U32(h.lineNumber);
    var kinds, s := [h.symbolType] + [h.visibility], EncHead(h);
    Number64([], h.symbolId, file + name + kinds + line);
    Number32(id, h.fileId, name + kinds + line);
    TextWithin(id + file, h.name, kinds + line);
    Number32(id + file + name + kinds, h.lineNumber, []);
    assert s == [] + id + (file + name + kinds + line) == id + file + (name + kinds + line)
      == id + file + name + (kinds + line) == id + file + name + kinds + line + [];
  }

  lemma TailLayout(t: SymbolTail)
    ensures var s, n := EncTail(t), |t.signature|;
      var c, b := Size(t.calls), Size(t.bases);
      && |s| == 16 + n + c + b + Size(t.typeRefs) && TextAt(s, 0, t.signature) && ListAt(s, 4 + n, t.calls)
      && ListAt(s, 8 + n + c, t.bases) && ListAt(s, 12 + n + c + b, t.typeRefs)
  {
    hide Str, Strs, TextAt, ListAt, Size;
    var a, b, c, d, s := Str(t.signature), Strs(t.calls), Strs(t.bases), Strs(t.typeRefs), EncTail(t);
    TextWithin([], t.signature, b + c + d);
    ListWithin(a, t.calls, c + d);
    ListWithin(a + b, t.bases, d);
    ListWithin(a + b + c, t.typeRefs, []);
    assert s == [] + a + (b + c + d) == a + b + (c + d) == a + b + c + d == a + b + c + d + [];
  }

  /** Symbol id, file id, name, type, visibility and line; then signature, calls, bases and type references. */
  lemma SymbolLayout(r: SymbolRecord)
    ensures var s, n := EncSymbol(r), |r.name|;
      && |s| >= 22 + n && NumberAt(s[..22 + n], 0, 8, r.symbolId) && NumberAt(s[..22 + n], 8, 4, r.fileId)
      && TextAt(s[..22 + n], 12, r.name) && s[16 + n] == r.symbolType && s[17 + n] == r.visibility
      && NumberAt(s[..22 + n], 18 + n, 4, r.lineNumber)
    ensures var s, n := EncSymbol(r)[22 + |r.name|..], |r.signature|;
      var c, b := Size(r.calls), Size(r.bases);
      && |s| == 16 + n + c + b + Size(r.typeRefs) && TextAt(s, 0, r.signature) && ListAt(s, 4 + n, r.calls)
      && ListAt(s, 8 + n + c, r.bases) && ListAt(s, 12 + n + c + b, r.typeRefs)
  {
    HeadLayout(HeadOf(r));
    TailLayout(TailOf(r));
    hide EncHead, EncTail, TextAt, ListAt, Size, NumberAt;
    var h, t := EncHead(HeadOf(r)), EncTail(TailOf(r));
    assert EncSymbol(r)[..22 + |r.name|] == h && EncSymbol(r)[22 + |r.name|..] == t;
  }

  /** One byte for the kind, 1 between files and 2 between symbols, and both ends in eight bytes each. */
  lemma EdgeLayout(e: Edge)
    ensures var s := EncEdge(e);
      && |s| == 17 && s[0] == (if e.OfFiles? then 1 else 2)
      && NumberAt(s, 1, 8, if e.OfFiles? then e.files.fromFileId else e.symbols.fromSymbolId)
      && NumberAt(s, 9, 8, if e.OfFiles? then e.files.toFileId else e.symbols.toSymbolId)
  {
    hide U64, NumberAt;
    var kind: byte := if e.OfFiles? then 1 else 2;
    var from: u64 := if e.OfFiles? then e.files.fromFileId else e.symbols.fromSymbolId;
    var to: u64 := if e.OfFiles? then e.files.toFileId else e.symbols.toSymbolId;
    Number64([kind], from, U64(to));
    Number64([kind] + U64(from), to, []);
    assert EncEdge(e) == [kind] + U64(from) + U64(to) == [kind] + U64(from) + U64(to) + [];
  }

  lemma ChangeLayout(x: ChangeLogs.ChangeRecord)
    ensures var s := ChangeLogs.EncChange(x);
      && |s| == 13 && NumberAt(s, 0, 4, x.fileId) && s[4] == x.changeType && NumberAt(s, 5, 8, x.timestamp)
  {
    hide U32, U64, NumberAt;
    var id, time := U32(x.fileId), U64(x.timestamp);
    Number32([], x.fileId, [x.changeType] + time);
    Number64(id + [x.changeType], x.timestamp, []);
    assert ChangeLogs.EncChange(x) == [] + id + ([x.changeType] + time) == id + [x.changeType] + time + [];
  }

  /** Twelve bytes of numbers, one flag, three bytes kept free, and five digests. */
  lemma CoreLayout(c: CoreIndex)
    ensures var s := EncCore(c);
      && |s| == 176 && NumberAt(s, 0, 4, c.magic) && NumberAt(s, 4, 4, c.indexVersion)
      && NumberAt(s, 8, 4, c.schemaVersion) && s[12] == c.runtimeActive && s[13..16] == c.reserved
      && s[16..48] == c.filesTblHash && s[48..80] == c.symbolsTblHash && s[80..112] == c.depsTblHash
      && s[112..144] == c.projectRootHash && s[144..176] == c.indexHash
  {
    hide U32, NumberAt;
    var a, b, d, s := U32(c.magic), U32(c.indexVersion), U32(c.schemaVersion), EncCore(c);
    var rest := [c.runtimeActive] + c.reserved + c.filesTblHash + c.symbolsTblHash + c.depsTblHash + c.projectRootHash
      + c.indexHash;
    Number32([], c.magic, b + d + rest);
    Number32(a, c.indexVersion, d + rest);
    Number32(a + b, c.schemaVersion, rest);
    assert s == [] + a + (b + d + rest) == a + b + (d + rest) == a + b + d + rest;
  }

  // ----- tables -----

  /** Magic, schema version and number of records, and the first record behind them. */
  lemma TableLayout<T>(enc: T -> Text, magic: u32, schema: u32, xs: seq<T>)
    ensures var s := EncTable(enc, magic, schema, xs);
      && |s| >= 12 && NumberAt(s, 0, 4, magic) && NumberAt(s, 4, 4, schema)
      && NumberAt(s, 8, 4, |xs| % 0x1_0000_0000) && s[12..] == EncAll(enc, xs)
  {
    hide U32, NumberAt, EncAll;
    var a, b, c, all, s := U32(magic), U32(schema), U32(Length(|xs|)), EncAll(enc, xs),
      EncTable(enc, magic, schema, xs);
    Number32([], magic, b + c + all);
    Number32(a, schema, c + all);
    Number32(a + b, Length(|xs|), all);
    assert s == [] + a + (b + c + all) == a + b + (c + all) == a + b + c + all;
  }

  /** The tables begin with the letters ILES, SYMB and DEPS. */
  lemma TablesBegin(schema: u32, files: seq<FileRecord>, symbols: seq<SymbolRecord>, deps: DependencyTable)
    ensures |FilesText(schema, files)| >= 12 && FilesText(schema, files)[..4] == [0x49, 0x4C, 0x45, 0x53]
    ensures |SymbolsText(schema, symbols)| >= 12 && SymbolsText(schema, symbols)[..4] == [0x53, 0x59, 0x4D, 0x42]
    ensures |DepsText(schema, deps)| >= 12 && DepsText(schema, deps)[..4] == [0x44, 0x45, 0x50, 0x53]
  {
    hide EncTable, EncAll, EncSymbol, EncEdge, EdgesOf;
    TableLayout(FileEncoder(schema), FILES_MAGIC, schema, files);
    TableLayout(EncSymbol, SYMBOLS_MAGIC, schema, symbols);
    TableLayout(EncEdge, DEPS_MAGIC, schema, EdgesOf(deps));
    FirstBytes(FilesText(schema, files), FILES_MAGIC);
    FirstBytes(SymbolsText(schema, symbols), SYMBOLS_MAGIC);
    FirstBytes(DepsText(schema, deps), DEPS_MAGIC);
  }

  lemma FirstBytes(s: Text, magic: u32)
    requires NumberAt(s, 0, 4, magic)
    ensures s[..4] == [magic % 256, magic / 256 % 256, magic / 256 / 256 % 256, magic / 256 / 256 / 256 % 256]
  {
    var a, b, c := magic / 256, magic / 256 / 256, magic / 256 / 256 / 256;
    assert Shifted(magic, 1) == Shifted(a, 0);
    assert Shifted(magic, 2) == Shifted(a, 1) == Shifted(b, 0);
    assert Shifted(magic, 3) == Shifted(a, 2) == Shifted(b, 1) == Shifted(c, 0);
    DigitAt(s, 0, 4, magic, 0);
    DigitAt(s, 0, 4, magic, 1);
    DigitAt(s, 0, 4, magic, 2);
    DigitAt(s, 0, 4, magic, 3);
  }

  lemma DigitAt(s: Text, pos: nat, width: nat, v: nat, i: nat)
    requires NumberAt(s, pos, width, v) && i < width
    ensures pos + i < |s| && s[pos + i] == Shifted(v, i) % 256
  {
  }
}
