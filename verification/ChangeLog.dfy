/** `ultra::ai::ChangeTracker`: an append-only log of fixed-size records, read until the next id is incomplete. */
module ChangeLogs {
  import opened Decimals
  import opened Bytes
  import opened BinaryTables
  import opened BinaryIndex
  import opened IndexStore

  datatype ChangeRecord = ChangeRecord(fileId: u32, changeType: byte, timestamp: u64)

  const RECORD_SIZE: nat := 13

  function EncChange(x: ChangeRecord): Text {
    U32(x.fileId) + [x.changeType] + U64(x.timestamp)
  }

  function ChangeAt(s: Text, pos: nat): Option<Parsed<ChangeRecord>> {
    var fileId := U32At(s, pos);
    if fileId.None? then None
    else
      var changeType := U8At(s, fileId.value.next);
      if changeType.None? then None
      else
        var timestamp := U64At(s, changeType.value.next);
        if timestamp.None? then None
        else Some(Parsed(ChangeRecord(fileId.value.value, changeType.value.value, timestamp.value.value),
          timestamp.value.next))
  }

  function LogText(records: seq<ChangeRecord>): Text {
    EncAll(EncChange, records)
  }

  /** All records of a log file; a missing file is an empty log. */
  function RecordsIn(log: Option<Text>): Option<seq<ChangeRecord>> {
    if log.None? then Some([]) else LogAt(ChangeAt, log.value, 0)
  }

  lemma ChangesFixed()
    ensures Fixed(ChangeAt, EncChange, RECORD_SIZE)
  {
    hide Little, LittleValue;
    forall x: ChangeRecord ensures |EncChange(x)| == RECORD_SIZE && Reads(ChangeAt, EncChange(x), x) {
      forall s: Text, pos: nat | Holds(s, pos, EncChange(x))
        ensures ChangeAt(s, pos) == Some(Parsed(x, pos + RECORD_SIZE)) {
        ChangeReadsAt(x, s, pos);
      }
    }
  }

  lemma ChangeReadsAt(x: ChangeRecord, s: Text, pos: nat)
    requires Holds(s, pos, EncChange(x))
    ensures ChangeAt(s, pos) == Some(Parsed(x, pos + RECORD_SIZE))
  {
    hide U32At, U64At, U8At, Reads, Holds, Little, LittleValue;
    HoldsSplit(s, pos, U32(x.fileId) + [x.changeType], U64(x.timestamp));
    HoldsSplit(s, pos, U32(x.fileId), [x.changeType]);
    U32Reads(x.fileId);
    U64Reads(x.timestamp);
    ReadsAt(U32At, U32(x.fileId), x.fileId, s, pos);
    ByteReads(x.changeType, s, pos + 4);
    ReadsAt(U64At, U64(x.timestamp), x.timestamp, s, pos + 5);
  }

  /** A log cut anywhere: it reads as the whole records before the cut, or fails; it fails exactly when four or more
      bytes of a record are left. */
  lemma LogCut(records: seq<ChangeRecord>, k: nat)
    requires k <= RECORD_SIZE * |records|
    ensures |LogText(records)| == RECORD_SIZE * |records|
    ensures RecordsIn(Some(LogText(records)[..k])) == if k % RECORD_SIZE < 4 then Some(records[..k / RECORD_SIZE])
      else None
  {
    hide Fixed, EncAll, LogAt, ChangeAt, EncChange;
    ChangesFixed();
    FixedLength(ChangeAt, EncChange, RECORD_SIZE, records);
    var q, r := k / RECORD_SIZE, k % RECORD_SIZE;
    assert RECORD_SIZE * q + r == k;
    LogPrefix(ChangeAt, EncChange, RECORD_SIZE, records, q, r, LogText(records)[..k], 0);
  }

  lemma {:induction false} EncJoin<T>(enc: T -> Text, a: seq<T>, b: seq<T>)
    ensures EncAll(enc, a + b) == EncAll(enc, a) + EncAll(enc, b)
  {
    hide EncAll;
    if b == [] {
      EncNone(enc, b);
      assert a + b == a && b[..0] == b;
      assert EncAll(enc, a) + [] == EncAll(enc, a);
    } else {
      var n := |b| - 1;
      EncJoin(enc, a, b[..n]);
      EncNext(enc, b, n);
      EncNext(enc, a + b, |a| + n);
      assert b[..n + 1] == b && (a + b)[..|a| + n + 1] == a + b && (a + b)[..|a| + n] == a + b[..n];
    }
  }

  /** Appending twice reads as both lists of records, one after the other. */
  lemma AppendedRoundTrip(prior: seq<ChangeRecord>, more: seq<ChangeRecord>)
    ensures RecordsIn(Some(LogText(prior) + LogText(more))) == Some(prior + more)
  {
    hide EncAll, LogAt;
    EncJoin(EncChange, prior, more);
    var n := |prior + more|;
    assert RECORD_SIZE * n % RECORD_SIZE == 0 && RECORD_SIZE * n / RECORD_SIZE == n;
    assert (prior + more)[..n] == prior + more;
    LogCut(prior + more, RECORD_SIZE * |prior + more|);
    assert LogText(prior + more)[..|LogText(prior + more)|] == LogText(prior + more);
  }

  // ----- appending after a torn write -----

  /** Any bytes read as records: fewer than four bytes too many pass unnoticed, more are an error. */
  lemma {:induction false} AnyBytesRead(s: Text, pos: nat)
    requires pos <= |s|
    ensures LogAt(ChangeAt, s, pos).Some? <==> (|s| - pos) % RECORD_SIZE < 4
    ensures LogAt(ChangeAt, s, pos).Some? ==> |LogAt(ChangeAt, s, pos).value| == (|s| - pos) / RECORD_SIZE
    decreases |s| - pos
  {
    hide LittleValue;
    if pos + RECORD_SIZE <= |s| {
      AnyBytesRead(s, pos + RECORD_SIZE);
      assert (|s| - pos) % RECORD_SIZE == (|s| - (pos + RECORD_SIZE)) % RECORD_SIZE;
    }
  }

  /** Whole records are read off the front, whatever follows. */
  lemma {:induction false} LogAfter(xs: seq<ChangeRecord>, s: Text, pos: nat)
    requires Holds(s, pos, LogText(xs))
    ensures LogAt(ChangeAt, s, pos) == After(xs, LogAt(ChangeAt, s, pos + RECORD_SIZE * |xs|))
  {
    hide Holds, EncAll, ChangeAt, EncChange;
    if xs == [] {
      var rest := LogAt(ChangeAt, s, pos);
      if rest.Some? { assert [] + rest.value == rest.value; }
    } else {
      EncFront(EncChange, xs);
      HoldsSplit(s, pos, EncChange(xs[0]), LogText(xs[1..]));
      ChangesFixed();
      FixedAt(ChangeAt, EncChange, RECORD_SIZE, xs[0], s, pos);
      HoldsFits(s, pos, EncChange(xs[0]));
      LogAfter(xs[1..], s, pos + RECORD_SIZE);
      var rest := LogAt(ChangeAt, s, pos + RECORD_SIZE * |xs|);
      if rest.Some? { assert [xs[0]] + (xs[1..] + rest.value) == xs + rest.value; }
    }
  }

  lemma HoldsFits(s: Text, pos: nat, t: Text)
    requires Holds(s, pos, t)
    ensures pos + |t| <= |s|
  {
  }

  /** The log after a write that stopped at byte `k` and a later append. */
  function TornLog(prior: seq<ChangeRecord>, k: nat, more: seq<ChangeRecord>): (t: Text)
    requires k <= |LogText(prior)|
  {
    LogText(prior)[..k] + LogText(more)
  }

  lemma LogWhole(prior: seq<ChangeRecord>, q: nat)
    requires q <= |prior|
    ensures |LogText(prior)| == RECORD_SIZE * |prior| && LogText(prior)[..RECORD_SIZE * q] == LogText(prior[..q])
  {
    hide EncAll, EncChange, LogAt, ChangeAt, Fixed;
    ChangesFixed();
    FixedLength(ChangeAt, EncChange, RECORD_SIZE, prior);
    FixedLength(ChangeAt, EncChange, RECORD_SIZE, prior[..q]);
    EncJoin(EncChange, prior[..q], prior[q..]);
    assert prior[..q] + prior[q..] == prior;
  }

  lemma TornParts(prior: seq<ChangeRecord>, k: nat, more: seq<ChangeRecord>)
    requires k <= RECORD_SIZE * |prior|
    ensures |LogText(prior)| == RECORD_SIZE * |prior|
    ensures var q, r := k / RECORD_SIZE, k % RECORD_SIZE;
      && |TornLog(prior, k, more)| == RECORD_SIZE * (q + |more|) + r
      && Holds(TornLog(prior, k, more), 0, LogText(prior[..q]))
  {
    hide EncAll, EncChange, LogAt, ChangeAt, Fixed;
    ChangesFixed();
    var q := k / RECORD_SIZE;
    FixedLength(ChangeAt, EncChange, RECORD_SIZE, more);
    LogWhole(prior, q);
    assert TornLog(prior, k, more)[..RECORD_SIZE * q] == LogText(prior[..q]);
  }

  /** What comes back after a write that stopped at byte `k` of a log and a later append: everything when whole records
      were left; nothing, for good, when four or more bytes of a record were left; and otherwise as many records as were
      written whole, of which only those before the cut are sure to be the ones written. */
  lemma TornLogOutcome(prior: seq<ChangeRecord>, k: nat, more: seq<ChangeRecord>)
    requires k <= RECORD_SIZE * |prior|
    ensures |LogText(prior)| == RECORD_SIZE * |prior|
    ensures var q, r, read := k / RECORD_SIZE, k % RECORD_SIZE, RecordsIn(Some(TornLog(prior, k, more)));
      && (r == 0 ==> read == Some(prior[..q] + more))
      && (read.None? <==> r >= 4)
      && (read.Some? ==> |read.value| == q + |more| && read.value[..q] == prior[..q])
  {
    hide EncAll, EncChange, LogAt, ChangeAt, Holds;
    TornParts(prior, k, more);
    var q, r, s := k / RECORD_SIZE, k % RECORD_SIZE, TornLog(prior, k, more);
    AnyBytesRead(s, 0);
    LogAfter(prior[..q], s, 0);
    assert (RECORD_SIZE * (q + |more|) + r) % RECORD_SIZE == r
      && (RECORD_SIZE * (q + |more|) + r) / RECORD_SIZE == q + |more|;
    if r == 0 {
      LogWhole(prior, q);
      AppendedRoundTrip(prior[..q], more);
    }
  }

  /** Appending after a torn write loses nothing exactly when the write stopped between two records. */
  lemma AppendSafeIff(prior: seq<ChangeRecord>, k: nat)
    requires k <= RECORD_SIZE * |prior|
    ensures |LogText(prior)| == RECORD_SIZE * |prior|
    ensures (forall more :: RecordsIn(Some(TornLog(prior, k, more))) == Some(prior[..k / RECORD_SIZE] + more)) <==>
      k % RECORD_SIZE == 0
  {
    hide EncAll, EncChange, LogAt, ChangeAt, RecordsIn;
    TornParts(prior, k, []);
    if k % RECORD_SIZE == 0 {
      forall more ensures RecordsIn(Some(TornLog(prior, k, more))) == Some(prior[..k / RECORD_SIZE] + more) {
        TornLogOutcome(prior, k, more);
      }
    } else {
      var more := LostRecord(prior, k);
    }
  }

  /** A record whose id starts with another byte than the torn one does not come back. */
  lemma LostRecord(prior: seq<ChangeRecord>, k: nat) returns (more: seq<ChangeRecord>)
    requires k <= RECORD_SIZE * |prior| && k % RECORD_SIZE != 0
    ensures k <= |LogText(prior)|
    ensures RecordsIn(Some(TornLog(prior, k, more))) != Some(prior[..k / RECORD_SIZE] + more)
  {
    hide EncAll, EncChange, LogAt, ChangeAt, Holds;
    var q, r := k / RECORD_SIZE, k % RECORD_SIZE;
    TornParts(prior, k, []);
    var torn := LogText(prior)[RECORD_SIZE * q];
    var x := ChangeRecord(if torn == 0 then 1 else 0, 0, 0);
    more := [x];
    TornLogOutcome(prior, k, more);
    TornParts(prior, k, more);
    var s := TornLog(prior, k, more);
    var read := RecordsIn(Some(s));
    if read.Some? {
      LogAfter(prior[..q], s, 0);
      assert s[RECORD_SIZE * q] == torn;
      FirstId(s, RECORD_SIZE * q);
      var rest := LogAt(ChangeAt, s, RECORD_SIZE * q);
      assert read.value[q] == rest.value[0];
      assert (prior[..q] + more)[q] == x;
    }
  }

  /** A concrete torn write: one byte of a record is left, nothing is noticed, and the next record comes
      back as another. */
  lemma TornLogMisreads()
    ensures var a, b := ChangeRecord(7, 1, 0), ChangeRecord(9, 2, 5);
      && RecordsIn(Some(LogText([a])[..1])) == Some([])
      && RecordsIn(Some(LogText([a])[..1] + LogText([b]))).Some?
      && |RecordsIn(Some(LogText([a])[..1] + LogText([b]))).value| == 1
      && RecordsIn(Some(LogText([a])[..1] + LogText([b]))).value[0] != b
  {
    var a, b := ChangeRecord(7, 1, 0), ChangeRecord(9, 2, 5);
    LogCut([a], 1);
    LogCut([b], RECORD_SIZE);
    TornLogOutcome([a], 1, [b]);
    var s := LogText([a])[..1] + LogText([b]);
    hide LogAt;
    assert s[0] == 7 by { FirstByte(a); }
    FirstId(s, 0);
  }

  lemma FirstByte(a: ChangeRecord)
    requires a.fileId == 7
    ensures |LogText([a])| == RECORD_SIZE && LogText([a])[0] == 7
  {
    U32Bytes(7);
    hide Little, LittleValue;
    hide EncAll;
    EncNone(EncChange, [a]);
    EncNext(EncChange, [a], 0);
    assert [a][..1] == [a] && [] + EncChange(a) == EncChange(a);
  }

  lemma LowByte(t: Text)
    requires t != []
    ensures LittleValue(t) % 256 == t[0]
  {
  }

  /** The first record starts with the low byte of its id. */
  lemma FirstId(s: Text, pos: nat)
    requires |s| >= pos + 4
    ensures forall r: seq<ChangeRecord> :: LogAt(ChangeAt, s, pos) == Some(r) ==> r != [] && r[0].fileId % 256 == s[pos]
  {
    LowByte(s[pos..pos + 4]);
    hide U64At, U8At, LittleValue;
  }

  /** `changes.log`; nothing when it does not exist. */
  class ChangeLog {
    var text: Option<Text>

    constructor ()
      ensures text == None
    {
      text := None;
    }

    /** A failed write may leave any part of the new records behind. */
    method Append(records: seq<ChangeRecord>) returns (ok: bool)
      modifies this
      ensures records == [] ==> ok && text == old(text)
      ensures var before := if old(text).Some? then old(text).value else [];
        && (ok && records != [] ==> text == Some(before + LogText(records)))
        && (!ok ==>
          text == old(text) || exists k: nat :: k <= |LogText(records)| && text == Some(before + LogText(records)[..k]))
    {
      hide EncChange, EncAll;
      if records == [] {
        return true;
      }
      var canOpen: bool, written: bool := *, *;
      if !canOpen {
        return false;
      }
      var output := new OutputStream();
      EncNone(EncChange, records);
      var i := 0;
      while i < |records|
        invariant 0 <= i <= |records| && fresh(output) && text == old(text)
        invariant output.bytes == EncAll(EncChange, records[..i])
      {
        EncNext(EncChange, records, i);
        PutChange(output, records[i]);
        i := i + 1;
      }
      assert records[..i] == records;
      var before := if text.Some? then text.value else [];
      if !written {
        var kept: nat := *;
        if 0 <= kept <= |output.bytes| {
          text := Some(before + output.bytes[..kept]);
          assert kept <= |LogText(records)| && text == Some(before + LogText(records)[..kept]);
        }
        return false;
      }
      text := Some(before + output.bytes);
      return true;
    }

    method ReadAll() returns (r: Option<seq<ChangeRecord>>)
      ensures r == RecordsIn(text)
    {
      hide LogAt, U32At, U64At, U8At;
      if text.None? {
        return Some([]);
      }
      var s := text.value;
      var input := new InputStream(s);
      var records: seq<ChangeRecord> := [];
      LogStarts(ChangeAt, s);
      while true
        invariant fresh(input) && text == Some(s)
        invariant LogAt(ChangeAt, s, 0) == After(records, LogAt(ChangeAt, s, input.position))
        decreases |s| - input.position
      {
        NumberSizes(s);
        ByteSizes(s);
        WideSizes(s);
        LogNext(ChangeAt, s, records, input.position);
        var fileId := input.GetUint32();
        if fileId.None? {
          break;
        }
        var changeType := input.GetUint8();
        if changeType.None? {
          return None;
        }
        var timestamp := input.GetUint64();
        if timestamp.None? {
          return None;
        }
        records := records + [ChangeRecord(fileId.value, changeType.value, timestamp.value)];
      }
      return Some(records);
    }
  }

  lemma ByteSizes(s: Text)
    ensures forall pos: nat {:trigger U8At(s, pos)} :: U8At(s, pos).Some? ==> U8At(s, pos).value.next == pos + 1
  {
  }

  method PutChange(output: OutputStream, record: ChangeRecord)
    modifies output
    ensures output.bytes == old(output.bytes) + EncChange(record)
  {
    hide U32, U64;
    output.PutUint32(record.fileId);
    output.PutUint8(record.changeType);
    output.PutUint64(record.timestamp);
  }
}
