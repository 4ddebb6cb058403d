/** `ultra::ai::Sha256Accumulator` and the one-shot helpers: a 64-byte buffer fed in arbitrary pieces. The state always
    is the hash of the whole blocks fed in so far and the buffer holds the bytes behind them, so that finishing needs to
    pad one or two blocks only. */
module Sha256Streaming {
  import opened Sha256Spec

  // ----- the word functions as the source writes them -----

  function Rotr(value: Word, bits: Word): Word
    requires 0 < bits < 32
  {
    (value >> bits) | (value << (32 - bits))
  }

  lemma RotrIsRotation(x: Word)
    ensures Rotr(x, 2) == x.RotateRight(2) && Rotr(x, 13) == x.RotateRight(13) && Rotr(x, 22) == x.RotateRight(22)
    ensures Rotr(x, 6) == x.RotateRight(6) && Rotr(x, 11) == x.RotateRight(11) && Rotr(x, 25) == x.RotateRight(25)
    ensures Rotr(x, 7) == x.RotateRight(7) && Rotr(x, 18) == x.RotateRight(18)
    ensures Rotr(x, 17) == x.RotateRight(17) && Rotr(x, 19) == x.RotateRight(19)
  {
  }

  function SourceBigSigma0(x: Word): Word {
    Xor(Rotr(x, 2), Rotr(x, 13), Rotr(x, 22))
  }

  function SourceBigSigma1(x: Word): Word {
    Xor(Rotr(x, 6), Rotr(x, 11), Rotr(x, 25))
  }

  function SourceSmallSigma0(x: Word): Word {
    Xor(Rotr(x, 7), Rotr(x, 18), x >> 3)
  }

  function SourceSmallSigma1(x: Word): Word {
    Xor(Rotr(x, 17), Rotr(x, 19), x >> 10)
  }

  lemma SigmasAgree(x: Word)
    ensures SourceBigSigma0(x) == BigSigma0(x) && SourceBigSigma1(x) == BigSigma1(x)
    ensures SourceSmallSigma0(x) == SmallSigma0(x) && SourceSmallSigma1(x) == SmallSigma1(x)
  {
    hide Rotr, Xor;
    RotrIsRotation(x);
  }

  /** `value >> (8 * count)` on an unsigned integer. */
  function ShiftRightBytes(value: nat, count: nat): nat {
    if count == 0 then value else ShiftRightBytes(value / 256, count - 1)
  }

  lemma {:induction false} BigEndianDigit(value: nat, digits: nat, i: nat)
    requires i < digits
    ensures BigEndian(value, digits)[digits - 1 - i] == (ShiftRightBytes(value, i) % 256) as Byte
  {
    if i > 0 {
      BigEndianDigit(value / 256, digits - 1, i - 1);
    }
  }

  // ----- what the fields stand for -----

  function HashOf(s: seq<Word>): HashValue
    requires |s| == 8
  {
    HashValue(s[0], s[1], s[2], s[3], s[4], s[5], s[6], s[7])
  }

  /** The length field: the bit count modulo 2^64. */
  function LengthField(size: nat): nat {
    (8 * size) % TWO_64
  }

  ghost function Finished(message: seq<Byte>): HashValue {
    HashBlocks(InitialHash(), Pad(message, LengthField(|message|)))
  }

  lemma FinishedIsSha256(message: seq<Byte>)
    requires 8 * |message| < TWO_64
    ensures DigestBytes(Finished(message)) == Sha256(message)
  {
    hide HashBlocks, InitialHash, Pad, DigestBytes;
  }

  /** Everything but the last `kept` bytes has been compressed; those sit in the buffer. */
  ghost predicate Absorbed(message: seq<Byte>, v: HashValue, buffer: seq<Byte>, kept: nat) {
    && kept <= |message| && kept <= |buffer| && (|message| - kept) % 64 == 0
    && buffer[..kept] == message[|message| - kept..]
    && v == HashBlocks(InitialHash(), message[..|message| - kept])
  }

  lemma AbsorbBytes(message: seq<Byte>, v: HashValue, before: seq<Byte>, after: seq<Byte>, kept: nat, piece: seq<Byte>)
    requires Absorbed(message, v, before, kept)
    requires kept + |piece| <= |after| && after[..kept] == before[..kept] && after[kept..kept + |piece|] == piece
    ensures Absorbed(message + piece, v, after, kept + |piece|)
  {
    hide HashBlocks, InitialHash;
    var longer, k := message + piece, kept + |piece|;
    assert longer[|longer| - k..] == message[|message| - kept..] + piece;
    assert after[..k] == after[..kept] + after[kept..k];
    assert longer[..|longer| - k] == message[..|message| - kept];
  }

  lemma AbsorbBlock(message: seq<Byte>, v: HashValue, buffer: seq<Byte>)
    requires Absorbed(message, v, buffer, 64) && |buffer| == 64
    ensures Absorbed(message, Compress(v, buffer), buffer, 0)
  {
    hide HashBlocks, Compress, InitialHash;
    var done := message[..|message| - 64];
    HashBlocksAppend(InitialHash(), done, buffer);
    assert buffer[..64] == buffer;
    assert done + buffer == message;
    assert message[..|message|] == message;
  }

  /** What is left to do: fill `tail` with zeros up to the length field and compress. */
  ghost predicate OneBlockLeft(message: seq<Byte>, v: HashValue, tail: seq<Byte>) {
    |tail| <= 56 && Compress(v, tail + Zeros(56 - |tail|) + BigEndian(LengthField(|message|), 8)) == Finished(message)
  }

  /** With at most 55 bytes kept the padding fits into the current block. */
  lemma PadOneBlock(message: seq<Byte>, v: HashValue, buffer: seq<Byte>, kept: nat)
    requires kept < 56 && Absorbed(message, v, buffer, kept)
    ensures OneBlockLeft(message, v, buffer[..kept] + [0x80])
  {
    hide HashBlocks, Compress, InitialHash, BigEndian, LengthField, Zeros, PaddingZeros;
    var done := message[..|message| - kept];
    var block := buffer[..kept] + [0x80] + Zeros(55 - kept) + BigEndian(LengthField(|message|), 8);
    HashBlocksAppend(InitialHash(), done, block);
    KeptIsRemainder(|message|, kept);
    assert message == done + buffer[..kept];
    assert done + block == Pad(message, LengthField(|message|));
  }

  /** With more kept it spills into a second block. */
  lemma PadTwoBlocks(message: seq<Byte>, v: HashValue, buffer: seq<Byte>, kept: nat, first: seq<Byte>)
    requires 56 <= kept < 64 && Absorbed(message, v, buffer, kept)
    requires first == buffer[..kept] + [0x80] + Zeros(63 - kept)
    ensures |first| == 64 && OneBlockLeft(message, Compress(v, first), [])
  {
    hide HashBlocks, Compress, InitialHash, BigEndian, LengthField, PaddingZeros;
    var done := message[..|message| - kept];
    var second := [] + Zeros(56) + BigEndian(LengthField(|message|), 8);
    HashBlocksAppend(InitialHash(), done, first);
    HashBlocksAppend(InitialHash(), done + first, second);
    KeptIsRemainder(|message|, kept);
    assert message == done + buffer[..kept];
    assert Zeros(63 - kept) + Zeros(56) == Zeros(119 - kept);
    assert done + first + second == Pad(message, LengthField(|message|));
  }

  lemma LastBlock(message: seq<Byte>, v: HashValue, tail: seq<Byte>)
    requires OneBlockLeft(message, v, tail)
    ensures |tail| <= 56
      && Compress(v, tail + Zeros(56 - |tail|) + BigEndian(LengthField(|message|), 8)) == Finished(message)
  {
  }

  lemma KeptIsRemainder(size: nat, kept: nat)
    requires kept < 64 && kept <= size && (size - kept) % 64 == 0
    ensures size % 64 == kept
    ensures PaddingZeros(size) == if kept < 56 then 55 - kept else 119 - kept
  {
  }

  lemma LengthFieldAdds(size: nat, more: nat)
    ensures (LengthField(size) + 8 * more) % TWO_64 == LengthField(size + more)
  {
    var q := (8 * size) / TWO_64;
    assert 8 * size == q * TWO_64 + LengthField(size);
    assert 8 * (size + more) == q * TWO_64 + (LengthField(size) + 8 * more);
    ModuloShift(q, LengthField(size) + 8 * more);
  }

  lemma ModuloShift(q: nat, x: nat)
    ensures (q * TWO_64 + x) % TWO_64 == x % TWO_64
  {
  }

  /** A binary input file: the buffers its reads fill until the stream ends, and whether the stream ended bad. */
  datatype FileRead = OpenFailed | Opened(chunks: seq<seq<Byte>>, bad: bool)

  function Flatten(pieces: seq<seq<Byte>>): seq<Byte> {
    if pieces == [] then [] else Flatten(pieces[..|pieces| - 1]) + pieces[|pieces| - 1]
  }

  lemma FlattenNone(pieces: seq<seq<Byte>>)
    ensures Flatten(pieces[..0]) == []
  {
  }

  lemma FlattenNext(pieces: seq<seq<Byte>>, i: nat)
    requires i < |pieces|
    ensures Flatten(pieces[..i + 1]) == Flatten(pieces[..i]) + pieces[i]
  {
    assert pieces[..i + 1][..i] == pieces[..i];
  }

  lemma {:induction false} FlattenFront(pieces: seq<seq<Byte>>, k: nat)
    requires k <= |pieces|
    ensures Flatten(pieces[..k]) != [] ==> Flatten(pieces) != []
    decreases |pieces|
  {
    if k < |pieces| {
      FlattenFront(pieces[..|pieces| - 1], k);
      assert pieces[..|pieces| - 1][..k] == pieces[..k];
    } else {
      assert pieces[..k] == pieces;
    }
  }

  /** A file was fed, could not be opened or read, or met a finalized accumulator, which throws on the first bytes. */
  datatype Feeding = Fed | Unreadable | Refused

  function FeedingOf(file: FileRead, finalized: bool): Feeding {
    if file.OpenFailed? then Unreadable
    else if finalized && Flatten(file.chunks) != [] then Refused
    else if file.bad then Unreadable else Fed
  }

  lemma FeedingCases(file: FileRead, finalized: bool)
    ensures file.OpenFailed? ==> FeedingOf(file, finalized) == Unreadable
    ensures file.Opened? && finalized && Flatten(file.chunks) != [] ==> FeedingOf(file, finalized) == Refused
    ensures file.Opened? && (finalized ==> Flatten(file.chunks) == []) ==>
      FeedingOf(file, finalized) == if file.bad then Unreadable else Fed
  {
  }

  class Sha256Accumulator {
    const state: array<Word>
    const buffer: array<Byte>
    var bitLength: nat
    var bufferLength: nat
    var finalized: bool
    /** All the bytes fed so far. */
    ghost var message: seq<Byte>

    ghost predicate Valid()
      reads this, state, buffer
    {
      && state.Length == 8 && buffer.Length == 64 && bufferLength < 64
      && (!finalized ==>
        bitLength == LengthField(|message|) && Absorbed(message, HashOf(state[..]), buffer[..], bufferLength))
      && (finalized ==> HashOf(state[..]) == Finished(message))
    }

    constructor ()
      ensures Valid() && !finalized && message == [] && fresh(state) && fresh(buffer)
    {
      state, buffer := new Word[8], new Byte[64](_ => 0);
      bitLength, bufferLength, finalized, message := 0, 0, false, [];
      new;
      var v := InitialHash();
      state[0], state[1], state[2], state[3] := v.a, v.b, v.c, v.d;
      state[4], state[5], state[6], state[7] := v.e, v.f, v.g, v.h;
      assert HashOf(state[..]) == InitialHash();
    }

    /** False stands for the exception thrown on a finalized accumulator. */
    method Update(data: seq<Byte>) returns (ok: bool)
      requires Valid()
      modifies this, state, buffer
      ensures Valid() && ok == !old(finalized) && finalized == old(finalized)
      ensures message == if ok then old(message) + data else old(message)
    {
      hide LengthField, Absorbed, HashOf, Finished;
      if finalized {
        return false;
      }
      bitLength := (bitLength + |data| * 8) % TWO_64;
      LengthFieldAdds(|message|, |data|);
      ghost var total := message + data;
      var offset := 0;
      assert message == old(message) + data[..0];
      while offset < |data|
        invariant offset <= |data| && state.Length == 8 && buffer.Length == 64 && bufferLength < 64
        invariant bitLength == LengthField(|total|) && !finalized
        invariant message == old(message) + data[..offset]
        invariant Absorbed(message, HashOf(state[..]), buffer[..], bufferLength)
      {
        var toCopy := if |data| - offset < 64 - bufferLength then |data| - offset else 64 - bufferLength;
        CopyPiece(data[offset..offset + toCopy]);
        assert data[..offset + toCopy] == data[..offset] + data[offset..offset + toCopy];
        offset := offset + toCopy;
      }
      assert data[..offset] == data;
      return true;
    }

    /** One turn of the update loop. */
    method CopyPiece(piece: seq<Byte>)
      requires state.Length == 8 && buffer.Length == 64 && 0 < |piece| && bufferLength + |piece| <= 64
      requires Absorbed(message, HashOf(state[..]), buffer[..], bufferLength)
      modifies state, buffer, `bufferLength, `message
      ensures message == old(message) + piece && bufferLength < 64
      ensures Absorbed(message, HashOf(state[..]), buffer[..], bufferLength)
    {
      hide Absorbed, HashBlocks, Compress;
      ghost var before := buffer[..];
      CopyInto(piece);
      AbsorbBytes(message, HashOf(state[..]), before, buffer[..], bufferLength, piece);
      message := message + piece;
      bufferLength := bufferLength + |piece|;
      if bufferLength == 64 {
        AbsorbBlock(message, HashOf(state[..]), buffer[..]);
        TransformBlock();
        bufferLength := 0;
      }
    }

    /** Feeds a file as its successive reads deliver it. */
    method UpdateFromFile(file: FileRead) returns (result: Feeding)
      requires Valid()
      modifies this, state, buffer
      ensures Valid() && finalized == old(finalized)
      ensures result == FeedingOf(file, finalized)
      ensures message == old(message) + if file.Opened? && !finalized then Flatten(file.chunks) else []
    {
      hide *;
      FeedingCases(file, finalized);
      if file.OpenFailed? {
        return Unreadable;
      }
      var i := 0;
      FlattenNone(file.chunks);
      while i < |file.chunks|
        invariant 0 <= i <= |file.chunks| && Valid() && finalized == old(finalized)
        invariant finalized ==> Flatten(file.chunks[..i]) == []
        invariant message == old(message) + Flatten(file.chunks[..i])
      {
        FlattenNext(file.chunks, i);
        FlattenFront(file.chunks, i + 1);
        if file.chunks[i] != [] {
          var fed := Update(file.chunks[i]);
          if !fed {
            return Refused;
          }
        }
        i := i + 1;
      }
      assert file.chunks[..i] == file.chunks;
      return if file.bad then Unreadable else Fed;
    }

    method CopyInto(piece: seq<Byte>)
      requires buffer.Length == 64 && bufferLength + |piece| <= 64
      modifies buffer
      ensures buffer[..bufferLength] == old(buffer[..bufferLength])
      ensures buffer[bufferLength..bufferLength + |piece|] == piece
    {
      forall i | 0 <= i < |piece| {
        buffer[bufferLength + i] := piece[i];
      }
    }

    /** Pads, compresses the last one or two blocks, and returns the digest; later calls return it again. */
    method Finalize() returns (digest: seq<Byte>)
      requires Valid()
      modifies this, state, buffer
      ensures Valid() && finalized && message == old(message)
      ensures digest == DigestBytes(Finished(message))
      ensures 8 * |message| < TWO_64 ==> digest == Sha256(message)
      ensures old(finalized) ==> state[..] == old(state[..])
    {
      if !finalized {
        Close();
      }
      digest := Digest();
      if 8 * |message| < TWO_64 {
        FinishedIsSha256(message);
      }
    }

    method Close()
      requires Valid() && !finalized
      modifies this, state, buffer
      ensures Valid() && finalized && message == old(message)
    {
      hide OneBlockLeft, Absorbed, Finished, Compress, LengthField, BigEndian;
      AppendOneBit();
      ghost var tail := buffer[..bufferLength];
      FillZeros(56);
      StoreLength();
      ghost var block := tail + Zeros(56 - |tail|) + BigEndian(bitLength, 8);
      assert buffer[..] == block by { assert buffer[..] == buffer[..56] + buffer[56..]; }
      LastBlock(message, HashOf(state[..]), tail);
      TransformBlock();
      finalized := true;
    }

    /** The 0x80 byte, and the first of two blocks when the length field no longer fits behind it. */
    method AppendOneBit()
      requires Valid() && !finalized
      modifies state, buffer, `bufferLength
      ensures bufferLength <= 56 && OneBlockLeft(message, HashOf(state[..]), buffer[..bufferLength])
    {
      hide OneBlockLeft, HashBlocks, Compress, Finished;
      ghost var start, kept, v := buffer[..], bufferLength, HashOf(state[..]);
      buffer[bufferLength] := 0x80;
      bufferLength := bufferLength + 1;
      assert buffer[..bufferLength] == start[..kept] + [0x80];
      if bufferLength > 56 {
        FillZeros(64);
        assert buffer[..] == start[..kept] + [0x80] + Zeros(63 - kept) by { assert buffer[..] == buffer[..64]; }
        PadTwoBlocks(message, v, start, kept, buffer[..]);
        TransformBlock();
        bufferLength := 0;
        assert buffer[..0] == [];
      } else {
        PadOneBlock(message, v, start, kept);
      }
    }

    method FillZeros(limit: nat)
      requires buffer.Length == 64 && bufferLength <= limit <= 64
      modifies buffer, `bufferLength
      ensures bufferLength == limit
      ensures buffer[..limit] == old(buffer[..bufferLength]) + Zeros(limit - old(bufferLength))
    {
      ghost var start := bufferLength;
      while bufferLength < limit
        invariant start <= bufferLength <= limit
        invariant buffer[..bufferLength] == old(buffer[..bufferLength]) + Zeros(bufferLength - start)
      {
        buffer[bufferLength] := 0;
        bufferLength := bufferLength + 1;
      }
    }

    method StoreLength()
      requires buffer.Length == 64
      modifies buffer
      ensures buffer[..56] == old(buffer[..56]) && buffer[56..] == BigEndian(bitLength, 8)
    {
      var i := 8;
      while i > 0
        invariant 0 <= i <= 8
        invariant forall k :: 0 <= k < 56 ==> buffer[k] == old(buffer[k])
        invariant forall j :: 0 <= j < 8 - i ==> buffer[56 + j] == BigEndian(bitLength, 8)[j]
      {
        i := i - 1;
        BigEndianDigit(bitLength, 8, i);
        buffer[63 - i] := (ShiftRightBytes(bitLength, i) % 256) as Byte;
      }
    }

    method Digest() returns (digest: seq<Byte>)
      requires state.Length == 8
      ensures digest == DigestBytes(HashOf(state[..]))
    {
      hide Byte0, Byte1, Byte2, Byte3;
      digest := [];
      var i := 0;
      while i < 8
        invariant 0 <= i <= 8
        invariant digest == WordsBytes(state[..i])
      {
        assert state[..i + 1] == state[..i] + [state[i]];
        digest := digest + [Byte0(state[i]), Byte1(state[i]), Byte2(state[i]), Byte3(state[i])];
        i := i + 1;
      }
      var v := HashOf(state[..]);
      assert state[..8] == [v.a, v.b, v.c, v.d, v.e, v.f, v.g, v.h];
    }

    /** Compresses the buffer into the state. */
    method TransformBlock()
      requires state.Length == 8 && buffer.Length == 64
      modifies state
      ensures HashOf(state[..]) == Compress(old(HashOf(state[..])), buffer[..])
    {
      hide Rounds, Sum2;
      var words := ScheduleWords(buffer[..]);
      var v := RunRounds(HashOf(state[..]), words[..], buffer[..]);
      state[0], state[1] := Sum2(state[0], v.a), Sum2(state[1], v.b);
      state[2], state[3] := Sum2(state[2], v.c), Sum2(state[3], v.d);
      state[4], state[5] := Sum2(state[4], v.e), Sum2(state[5], v.f);
      state[6], state[7] := Sum2(state[6], v.g), Sum2(state[7], v.h);
    }

    static method RunRounds(start: HashValue, words: seq<Word>, ghost block: seq<Byte>) returns (v: HashValue)
      requires |block| == 64 && |words| == 64
      requires forall t :: 0 <= t < 64 ==> words[t] == Schedule(block, t)
      ensures v == Rounds(start, block, 64)
    {
      hide Schedule, RoundConstant, Sum2, Sum5, Ch, Maj, BigSigma0, BigSigma1, SourceBigSigma0, SourceBigSigma1;
      var a, b, c, d := start.a, start.b, start.c, start.d;
      var e, f, g, h := start.e, start.f, start.g, start.h;
      var i := 0;
      while i < 64
        invariant 0 <= i <= 64
        invariant HashValue(a, b, c, d, e, f, g, h) == Rounds(start, block, i)
      {
        SigmasAgree(a);
        SigmasAgree(e);
        var temp1 := Sum5(h, SourceBigSigma1(e), Ch(e, f, g), RoundConstant(i), words[i]);
        var temp2 := Sum2(SourceBigSigma0(a), Maj(a, b, c));
        h, g, f := g, f, e;
        e := Sum2(d, temp1);
        d, c, b := c, b, a;
        a := Sum2(temp1, temp2);
        i := i + 1;
      }
      v := HashValue(a, b, c, d, e, f, g, h);
    }

    static method ScheduleWords(block: seq<Byte>) returns (words: array<Word>)
      requires |block| == 64
      ensures words.Length == 64 && fresh(words)
      ensures forall t :: 0 <= t < 64 ==> words[t] == Schedule(block, t)
    {
      hide WordOf, Sum4, SmallSigma0, SmallSigma1, SourceSmallSigma0, SourceSmallSigma1;
      words := new Word[64](_ => 0);
      for i := 0 to 16
        invariant forall t :: 0 <= t < i ==> words[t] == Schedule(block, t)
      {
        var base := 4 * i;
        words[i] := WordOf(block[base], block[base + 1], block[base + 2], block[base + 3]);
      }
      for i := 16 to 64
        invariant forall t :: 0 <= t < i ==> words[t] == Schedule(block, t)
      {
        SigmasAgree(words[i - 2]);
        SigmasAgree(words[i - 15]);
        words[i] := Sum4(SourceSmallSigma1(words[i - 2]), words[i - 7], SourceSmallSigma0(words[i - 15]),
          words[i - 16]);
      }
    }
  }

  // ----- one-shot use -----

  method Sha256OfBytes(data: seq<Byte>) returns (digest: seq<Byte>)
    ensures digest == DigestBytes(Finished(data))
    ensures 8 * |data| < TWO_64 ==> digest == Sha256(data)
  {
    hide Sha256, Finished, Absorbed;
    var accumulator := new Sha256Accumulator();
    var _ := accumulator.Update(data);
    assert accumulator.message == data;
    digest := accumulator.Finalize();
  }

  method Sha256OfFile(file: FileRead) returns (ok: bool, digest: seq<Byte>)
    ensures ok <==> file.Opened? && !file.bad
    ensures ok && 8 * |Flatten(file.chunks)| < TWO_64 ==> digest == Sha256(Flatten(file.chunks))
  {
    hide Sha256, Finished, Absorbed;
    digest := [];
    var accumulator := new Sha256Accumulator();
    var result := accumulator.UpdateFromFile(file);
    ok := result == Fed;
    if ok {
      assert accumulator.message == Flatten(file.chunks);
      digest := accumulator.Finalize();
    }
  }
}
