/** `ultra::ai::SymbolTable`: the order of symbols, their ids, and building the symbols of one file. An id packs the id
    of the file and a local index counted from one, so both can be read back from it. */
module SymbolTables {
  import opened Orders
  import opened Decimals
  import opened Symbols

  const LOCAL_LIMIT: nat := 0xF_FFFF
  const TWO_20: nat := 0x10_0000
  const TWO_32: nat := 0x1_0000_0000

  datatype ExtractedSymbol = ExtractedSymbol(
    name: string, signature: string, symbolType: SymbolType, visibility: Visibility, lineNumber: nat,
    calls: seq<string>, bases: seq<string>, typeRefs: seq<string>)

  /** File, line, name, signature, type, visibility: compared one after the other. */
  predicate SymbolLess(a: SymbolRecord, b: SymbolRecord) {
    if a.fileId != b.fileId then a.fileId < b.fileId
    else if a.lineNumber != b.lineNumber then a.lineNumber < b.lineNumber
    else if a.name != b.name then Lt(a.name, b.name)
    else if a.signature != b.signature then Lt(a.signature, b.signature)
    else if a.symbolType != b.symbolType then a.symbolType.Code() < b.symbolType.Code()
    else a.visibility.Code() < b.visibility.Code()
  }

  lemma SymbolLessComparator()
    ensures Comparator(SymbolLess)
  {
    LtComparator();
  }

  // ----- symbol ids -----

  /** The file id shifted left by twenty bits, or-ed with the local index. */
  function ComposeSymbolId(fileId: nat, local: nat): nat {
    fileId * TWO_20 + local
  }

  function ExtractFileId(symbolId: nat): nat {
    symbolId / TWO_20 % TWO_32
  }

  function ExtractLocalIndex(symbolId: nat): nat {
    symbolId % TWO_20
  }

  /** Both parts can be read back, and so different parts give different ids; no id is zero. */
  lemma SymbolIdRoundTrip(fileId: nat, local: nat)
    requires fileId < TWO_32 && 1 <= local <= LOCAL_LIMIT
    ensures ExtractFileId(ComposeSymbolId(fileId, local)) == fileId
    ensures ExtractLocalIndex(ComposeSymbolId(fileId, local)) == local
    ensures 0 < ComposeSymbolId(fileId, local) < 0x10_0000_0000_0000
  {
  }

  // ----- building -----

  function Draft(fileId: nat, x: ExtractedSymbol): SymbolRecord {
    SymbolRecord(0, fileId, x.name, x.signature, x.symbolType, x.visibility, x.lineNumber, x.calls, x.bases, x.typeRefs)
  }

  function Drafts(fileId: nat, extracted: seq<ExtractedSymbol>): (r: seq<SymbolRecord>)
    ensures |r| == |extracted| && forall i :: 0 <= i < |r| ==> r[i] == Draft(fileId, extracted[i])
  {
    seq(|extracted|, i requires 0 <= i < |extracted| => Draft(fileId, extracted[i]))
  }

  function Numbered(fileId: nat, s: seq<SymbolRecord>): (r: seq<SymbolRecord>)
    ensures |r| == |s| && forall i :: 0 <= i < |r| ==> r[i] == s[i].(symbolId := ComposeSymbolId(fileId, i + 1))
  {
    seq(|s|, i requires 0 <= i < |s| => s[i].(symbolId := ComposeSymbolId(fileId, i + 1)))
  }

  /** The extracted symbols, sorted and numbered from one in that order. */
  ghost predicate Built(fileId: nat, extracted: seq<ExtractedSymbol>, symbols: seq<SymbolRecord>) {
    exists sorted :: SortedBy(SymbolLess, sorted) && multiset(sorted) == multiset(Drafts(fileId, extracted))
      && symbols == Numbered(fileId, sorted)
  }

  /** Fails exactly when there are more symbols than local indices. */
  method BuildFromExtracted(fileId: nat, extracted: seq<ExtractedSymbol>) returns (symbols: Option<seq<SymbolRecord>>)
    ensures symbols.Some? <==> |extracted| <= LOCAL_LIMIT
    ensures symbols.Some? ==> Built(fileId, extracted, symbols.value)
  {
    var drafts: seq<SymbolRecord> := [];
    var i := 0;
    while i < |extracted|
      invariant 0 <= i <= |extracted| && drafts == Drafts(fileId, extracted)[..i]
    {
      drafts := drafts + [Draft(fileId, extracted[i])];
      i := i + 1;
    }
    assert drafts == Drafts(fileId, extracted);
    SymbolLessComparator();
    hide SymbolLess;
    var sorted := Sort(drafts, SymbolLess);
    MultisetElems(sorted, drafts);
    var out := sorted;
    i := 0;
    while i < |sorted|
      invariant 0 <= i <= |sorted| == |out| && i <= LOCAL_LIMIT
      invariant forall j :: 0 <= j < i ==> out[j] == sorted[j].(symbolId := ComposeSymbolId(fileId, j + 1))
      invariant forall j :: i <= j < |sorted| ==> out[j] == sorted[j]
    {
      if i + 1 > LOCAL_LIMIT {
        return None;
      }
      out := out[i := out[i].(symbolId := ComposeSymbolId(fileId, i + 1))];
      i := i + 1;
    }
    assert out == Numbered(fileId, sorted);
    return Some(out);
  }

  /** The symbols of a file belong to it, have ids that decode to it, all different and none zero, and are sorted. */
  lemma BuiltSound(fileId: nat, extracted: seq<ExtractedSymbol>, symbols: seq<SymbolRecord>)
    requires fileId < TWO_32 && |extracted| <= LOCAL_LIMIT && Built(fileId, extracted, symbols)
    ensures |symbols| == |extracted| && SortedBy(SymbolLess, symbols)
    ensures forall i :: 0 <= i < |symbols| ==>
      symbols[i].fileId == fileId && symbols[i].symbolId == ComposeSymbolId(fileId, i + 1)
    ensures forall i :: 0 <= i < |symbols| ==> ExtractFileId(symbols[i].symbolId) == fileId && symbols[i].symbolId > 0
  {
    hide SymbolLess, ComposeSymbolId, ExtractFileId;
    var sorted :| SortedBy(SymbolLess, sorted) && multiset(sorted) == multiset(Drafts(fileId, extracted))
      && symbols == Numbered(fileId, sorted);
    MultisetElems(sorted, Drafts(fileId, extracted));
    forall i | 0 <= i < |symbols|
      ensures symbols[i].fileId == fileId && ExtractFileId(symbols[i].symbolId) == fileId && symbols[i].symbolId > 0 {
      InBag(sorted, Drafts(fileId, extracted), i);
      SymbolIdRoundTrip(fileId, i + 1);
    }
    forall i, j | 0 <= i < j < |symbols| ensures !SymbolLess(symbols[j], symbols[i]) {
      IdsDoNotCount(sorted[j], sorted[i], symbols[j].symbolId, symbols[i].symbolId);
    }
  }

  lemma InBag<T>(s: seq<T>, t: seq<T>, i: nat)
    requires multiset(s) == multiset(t) && i < |s|
    ensures s[i] in t
  {
    assert s[i] in multiset(s);
    assert s[i] in multiset(t);
  }

  lemma IdsDoNotCount(a: SymbolRecord, b: SymbolRecord, x: nat, y: nat)
    ensures SymbolLess(a.(symbolId := x), b.(symbolId := y)) == SymbolLess(a, b)
  {
  }

  // ----- what was extracted is what is stored -----

  /** What a stored symbol says of the code it was extracted from. */
  ghost function ReadBack(s: SymbolRecord): ExtractedSymbol {
    ExtractedSymbol(s.name, s.signature, s.symbolType, s.visibility, s.lineNumber, s.calls, s.bases, s.typeRefs)
  }

  /** Reading back the symbols of a file gives what was extracted from it, no more and no less. */
  lemma BuiltReadsBack(fileId: nat, extracted: seq<ExtractedSymbol>, symbols: seq<SymbolRecord>)
    requires Built(fileId, extracted, symbols)
    ensures multiset(Mapped(ReadBack, symbols)) == multiset(extracted)
  {
    hide SortedBy;
    var sorted :| SortedBy(SymbolLess, sorted) && multiset(sorted) == multiset(Drafts(fileId, extracted))
      && symbols == Numbered(fileId, sorted);
    MappedBag(ReadBack, sorted, Drafts(fileId, extracted));
    assert Mapped(ReadBack, symbols) == Mapped(ReadBack, sorted);
    assert Mapped(ReadBack, Drafts(fileId, extracted)) == extracted;
  }

  /** In the order of lines, names, signatures, types and visibilities, and numbered from one behind the file's id. */
  lemma BuiltInOrder(fileId: nat, extracted: seq<ExtractedSymbol>, symbols: seq<SymbolRecord>)
    requires Built(fileId, extracted, symbols)
    ensures forall i :: 0 <= i < |symbols| ==>
      symbols[i].fileId == fileId && symbols[i].symbolId == 1048576 * fileId + i + 1
    ensures forall i, j :: 0 <= i < j < |symbols| ==> NotBefore(symbols[i], symbols[j])
  {
    var sorted :| SortedBy(SymbolLess, sorted) && multiset(sorted) == multiset(Drafts(fileId, extracted))
      && symbols == Numbered(fileId, sorted);
    hide SymbolLess, Draft;
    forall i | 0 <= i < |symbols| ensures symbols[i].fileId == fileId {
      InBag(sorted, Drafts(fileId, extracted), i);
      DraftOfFile(fileId, extracted);
    }
    forall i, j | 0 <= i < j < |symbols| ensures NotBefore(symbols[i], symbols[j]) {
      IdsDoNotCount(sorted[j], sorted[i], symbols[j].symbolId, symbols[i].symbolId);
      OrderIs(symbols[i], symbols[j]);
    }
  }

  lemma DraftOfFile(fileId: nat, extracted: seq<ExtractedSymbol>)
    ensures forall s :: s in Drafts(fileId, extracted) ==> s.fileId == fileId
  {
  }

  ghost predicate SameText(a: SymbolRecord, b: SymbolRecord) {
    a.lineNumber == b.lineNumber && a.name == b.name && a.signature == b.signature
  }

  /** Of two symbols of one file the second does not belong before the first. */
  ghost predicate NotBefore(a: SymbolRecord, b: SymbolRecord) {
    && a.lineNumber <= b.lineNumber
    && (a.lineNumber == b.lineNumber ==> !Lt(b.name, a.name))
    && (a.lineNumber == b.lineNumber && a.name == b.name ==> !Lt(b.signature, a.signature))
    && (SameText(a, b) ==> a.symbolType.Code() <= b.symbolType.Code())
    && (SameText(a, b) && a.symbolType == b.symbolType ==> a.visibility.Code() <= b.visibility.Code())
  }

  /** Sorted symbols are grouped by file, and ordered so within each file. */
  lemma OrderIs(a: SymbolRecord, b: SymbolRecord)
    requires !SymbolLess(b, a)
    ensures a.fileId <= b.fileId && (a.fileId == b.fileId ==> NotBefore(a, b))
  {
    if Lt(b.name, a.name) { LtAsymmetric(b.name, a.name); }
    if Lt(b.signature, a.signature) { LtAsymmetric(b.signature, a.signature); }
  }
}
