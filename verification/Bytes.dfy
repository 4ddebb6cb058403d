/** Byte strings, little-endian integers, and parsers as functions from a position to a value and the next position.
    Three properties of parsers carry all results on the index format: they read back what was written, read the same
    from longer input, and never move backwards. */
module Bytes {
  import opened Decimals

  type byte = x: int | 0 <= x < 256
  type u32 = x: int | 0 <= x < TWO_32
  type u64 = x: int | 0 <= x < TWO_64

  const TWO_32: nat := 0x1_0000_0000

  type Text = seq<byte>

  datatype Parsed<T> = Parsed(value: T, next: nat)

  type Parser<!T> = (Text, nat) -> Option<Parsed<T>>

  // ----- writing -----

  /** The `n` low bytes, least significant first. */
  function Little(v: nat, n: nat): (r: Text)
    ensures |r| == n
  {
    if n == 0 then [] else [v % 256] + Little(v / 256, n - 1)
  }

  function U32(v: u32): Text {
    Little(v, 4)
  }

  function U64(v: u64): Text {
    Little(v, 8)
  }

  /** `static_cast<std::uint32_t>(size)`. */
  function Length(n: nat): u32 {
    n % TWO_32
  }

  function Str(t: Text): Text {
    U32(Length(|t|)) + t
  }

  function EncAll<T>(enc: T -> Text, xs: seq<T>): Text {
    if xs == [] then [] else EncAll(enc, xs[..|xs| - 1]) + enc(xs[|xs| - 1])
  }

  function Strs(ts: seq<Text>): Text {
    U32(Length(|ts|)) + EncAll(Str, ts)
  }

  // ----- reading -----

  function U8At(s: Text, pos: nat): Option<Parsed<byte>> {
    if pos + 1 <= |s| then Some(Parsed(s[pos], pos + 1)) else None
  }

  function Power256(n: nat): nat {
    if n == 0 then 1 else 256 * Power256(n - 1)
  }

  function LittleValue(t: Text): (v: nat)
    ensures v < Power256(|t|)
  {
    if t == [] then 0 else t[0] + 256 * LittleValue(t[1..])
  }

  function LittleAt(s: Text, pos: nat, n: nat): (r: Option<Parsed<nat>>)
    ensures r.Some? ==> r.value.value < Power256(n)
  {
    if pos + n <= |s| then Some(Parsed(LittleValue(s[pos..pos + n]), pos + n)) else None
  }

  function U32At(s: Text, pos: nat): Option<Parsed<u32>> {
    assert Power256(4) == TWO_32;
    var v := LittleAt(s, pos, 4);
    if v.None? then None else Some(Parsed(v.value.value, v.value.next))
  }

  function U64At(s: Text, pos: nat): Option<Parsed<u64>> {
    assert Power256(8) == TWO_64;
    var v := LittleAt(s, pos, 8);
    if v.None? then None else Some(Parsed(v.value.value, v.value.next))
  }

  function BytesAt(s: Text, pos: nat, n: nat): Option<Parsed<Text>> {
    if pos + n <= |s| then Some(Parsed(s[pos..pos + n], pos + n)) else None
  }

  function StrAt(s: Text, pos: nat): Option<Parsed<Text>> {
    var n := U32At(s, pos);
    if n.None? then None else BytesAt(s, n.value.next, n.value.value)
  }

  /** `n` values, one after another. */
  function AllAt<T>(p: Parser<T>, n: nat, s: Text, pos: nat): (r: Option<Parsed<seq<T>>>)
    ensures r.Some? ==> |r.value.value| == n
  {
    if n == 0 then Some(Parsed([], pos))
    else
      var front := AllAt(p, n - 1, s, pos);
      if front.None? then None
      else
        var last := p(s, front.value.next);
        if last.None? then None else Some(Parsed(front.value.value + [last.value.value], last.value.next))
  }

  function StrsAt(s: Text, pos: nat): Option<Parsed<seq<Text>>> {
    var n := U32At(s, pos);
    if n.None? then None else AllAt(StrAt, n.value.value, s, n.value.next)
  }

  // ----- what reading and writing have to do with each other -----

  /** These bytes stand at this position. */
  ghost predicate Holds(s: Text, pos: nat, t: Text) {
    pos + |t| <= |s| && s[pos..pos + |t|] == t
  }

  lemma HoldsSplit(s: Text, pos: nat, a: Text, b: Text)
    ensures Holds(s, pos, a + b) <==> Holds(s, pos, a) && Holds(s, pos + |a|, b)
  {
    if Holds(s, pos, a + b) {
      assert a == (a + b)[..|a|] && b == (a + b)[|a|..];
      assert s[pos..pos + |a|] == s[pos..pos + |a + b|][..|a|];
      assert s[pos + |a|..pos + |a| + |b|] == s[pos..pos + |a + b|][|a|..];
    }
    if Holds(s, pos, a) && Holds(s, pos + |a|, b) {
      assert s[pos..pos + |a + b|] == s[pos..pos + |a|] + s[pos + |a|..pos + |a| + |b|];
    }
  }

  lemma HoldsSelf(t: Text, rest: Text)
    ensures Holds(t + rest, 0, t) && Holds(t, 0, t)
  {
  }

  /** Where the value was written, it is read back, with the position after it. */
  ghost predicate Reads<T(!new)>(p: Parser<T>, t: Text, x: T) {
    forall s: Text, pos: nat :: Holds(s, pos, t) ==> p(s, pos) == Some(Parsed(x, pos + |t|))
  }

  /** What can be read can be read from any longer text, with the same result. */
  ghost predicate Extends<T(!new)>(p: Parser<T>) {
    forall s: Text, more: Text, pos: nat :: p(s, pos).Some? ==> p(s + more, pos) == p(s, pos)
  }

  lemma ExtendsAt<T(!new)>(p: Parser<T>, s: Text, more: Text, pos: nat)
    requires Extends(p)
    ensures p(s, pos).Some? ==> p(s + more, pos) == p(s, pos)
  {
  }

  /** So nothing that is read back in full can be read from a strict prefix. */
  lemma PrefixRefused<T(!new)>(p: Parser<T>, t: Text, x: T, k: nat)
    requires Reads(p, t, x) && Extends(p) && Advances(p) && k < |t|
    ensures p(t[..k], 0).None?
  {
    AdvancesAt(p, t[..k], 0);
    assert t[..k] + t[k..] == t;
    ExtendsAt(p, t[..k], t[k..], 0);
    ReadsAt(p, t, x, t, 0);
  }

  lemma ReadsAt<T(!new)>(p: Parser<T>, t: Text, x: T, s: Text, pos: nat)
    requires Reads(p, t, x) && Holds(s, pos, t)
    ensures p(s, pos) == Some(Parsed(x, pos + |t|))
  {
  }

  lemma {:induction false} LittleReads(v: nat, n: nat)
    requires v < Power256(n)
    ensures LittleValue(Little(v, n)) == v
  {
    if n > 0 {
      assert Little(v, n)[1..] == Little(v / 256, n - 1);
      LittleReads(v / 256, n - 1);
    }
  }

  lemma Powers()
    ensures Power256(4) == TWO_32 && Power256(8) == TWO_64
  {
  }

  lemma U32Reads(v: u32)
    ensures Reads(U32At, U32(v), v)
  {
    hide Little, LittleValue, Power256;
    Powers();
    LittleReads(v, 4);
  }

  lemma U64Reads(v: u64)
    ensures Reads(U64At, U64(v), v)
  {
    hide Little, LittleValue, Power256;
    Powers();
    LittleReads(v, 8);
  }

  /** A list of values, each read back as its view. */
  lemma {:induction false} AllReads<A, T(!new)>(p: Parser<T>, enc: A -> Text, xs: seq<A>, ys: seq<T>, s: Text, pos: nat)
    requires |ys| == |xs| && forall i :: 0 <= i < |xs| ==> Reads(p, enc(xs[i]), ys[i])
    requires Holds(s, pos, EncAll(enc, xs))
    ensures AllAt(p, |xs|, s, pos) == Some(Parsed(ys, pos + |EncAll(enc, xs)|))
  {
    hide Holds, Reads;
    if xs != [] {
      var n := |xs| - 1;
      HoldsSplit(s, pos, EncAll(enc, xs[..n]), enc(xs[n]));
      AllReads(p, enc, xs[..n], ys[..n], s, pos);
      ReadsAt(p, enc(xs[n]), ys[n], s, pos + |EncAll(enc, xs[..n])|);
      assert ys == ys[..n] + [ys[n]];
    }
  }

  lemma StrReads(t: Text)
    requires |t| < TWO_32
    ensures Reads(StrAt, Str(t), t)
  {
    forall s: Text, pos: nat | Holds(s, pos, Str(t)) ensures StrAt(s, pos) == Some(Parsed(t, pos + |Str(t)|)) {
      hide U32At, U32, Reads, Little, LittleValue, Holds;
      U32Reads(Length(|t|));
      HoldsSplit(s, pos, U32(Length(|t|)), t);
      ReadsAt(U32At, U32(Length(|t|)), Length(|t|), s, pos);
    }
  }

  predicate StrsFit(ts: seq<Text>) {
    |ts| < TWO_32 && forall t :: t in ts ==> |t| < TWO_32
  }

  lemma StrsRead(ts: seq<Text>)
    requires StrsFit(ts)
    ensures Reads(StrsAt, Strs(ts), ts)
  {
    hide *;
    forall s: Text, pos: nat | Holds(s, pos, Strs(ts)) ensures StrsAt(s, pos) == Some(Parsed(ts, pos + |Strs(ts)|)) {
      StrsReadAt(ts, s, pos);
    }
    ReadsAll(StrsAt, Strs(ts), ts);
  }

  lemma ReadsAll<T(!new)>(p: Parser<T>, t: Text, x: T)
    requires forall s: Text, pos: nat :: Holds(s, pos, t) ==> p(s, pos) == Some(Parsed(x, pos + |t|))
    ensures Reads(p, t, x)
  {
  }

  lemma StrsReadAt(ts: seq<Text>, s: Text, pos: nat)
    requires StrsFit(ts) && Holds(s, pos, Strs(ts))
    ensures StrsAt(s, pos) == Some(Parsed(ts, pos + |Strs(ts)|))
  {
    hide U32At, U32, Reads, Holds, Str, StrAt, EncAll, AllAt;
    U32Reads(Length(|ts|));
    HoldsSplit(s, pos, U32(Length(|ts|)), EncAll(Str, ts));
    ReadsAt(U32At, U32(Length(|ts|)), Length(|ts|), s, pos);
    forall i | 0 <= i < |ts| ensures Reads(StrAt, Str(ts[i]), ts[i]) { StrReads(ts[i]); }
    AllReads(StrAt, Str, ts, ts, s, pos + |U32(Length(|ts|))|);
  }

  // ----- reading from a longer text -----

  lemma LittleExtends(s: Text, more: Text, pos: nat, n: nat)
    ensures LittleAt(s, pos, n).Some? ==> LittleAt(s + more, pos, n) == LittleAt(s, pos, n)
  {
    hide LittleValue;
    if pos + n <= |s| {
      assert (s + more)[pos..pos + n] == s[pos..pos + n];
    }
  }

  lemma NumbersExtend()
    ensures Extends(U8At) && Extends(U32At) && Extends(U64At)
  {
    hide LittleAt;
    forall s: Text, more: Text, pos: nat | U32At(s, pos).Some? ensures U32At(s + more, pos) == U32At(s, pos) {
      LittleExtends(s, more, pos, 4);
    }
    forall s: Text, more: Text, pos: nat | U64At(s, pos).Some? ensures U64At(s + more, pos) == U64At(s, pos) {
      LittleExtends(s, more, pos, 8);
    }
  }

  lemma BytesExtend(s: Text, more: Text, pos: nat, n: nat)
    requires BytesAt(s, pos, n).Some?
    ensures BytesAt(s + more, pos, n) == BytesAt(s, pos, n)
  {
    assert (s + more)[pos..pos + n] == s[pos..pos + n];
  }

  lemma StrExtends()
    ensures Extends(StrAt)
  {
    forall s: Text, more: Text, pos: nat | StrAt(s, pos).Some? ensures StrAt(s + more, pos) == StrAt(s, pos) {
      NumbersExtend();
      var n := U32At(s, pos).value;
      assert U32At(s + more, pos) == U32At(s, pos);
      BytesExtend(s, more, n.next, n.value);
    }
  }

  lemma {:induction false} AllExtend<T(!new)>(p: Parser<T>, n: nat, s: Text, more: Text, pos: nat)
    requires Extends(p) && AllAt(p, n, s, pos).Some?
    ensures AllAt(p, n, s + more, pos) == AllAt(p, n, s, pos)
  {
    if n > 0 {
      AllExtend(p, n - 1, s, more, pos);
      var front := AllAt(p, n - 1, s, pos).value;
      assert p(s + more, front.next) == p(s, front.next);
    }
  }

  lemma StrsExtend()
    ensures Extends(StrsAt)
  {
    forall s: Text, more: Text, pos: nat | StrsAt(s, pos).Some? ensures StrsAt(s + more, pos) == StrsAt(s, pos) {
      NumbersExtend();
      StrExtends();
      var n := U32At(s, pos).value;
      assert U32At(s + more, pos) == U32At(s, pos);
      AllExtend(StrAt, n.value, s, more, n.next);
    }
  }

  // ----- what a parser returns -----

  /** Parsers move forward, and not past the end. */
  ghost predicate Advances<T(!new)>(p: Parser<T>) {
    forall s: Text, pos: nat :: p(s, pos).Some? && pos <= |s| ==> pos <= p(s, pos).value.next <= |s|
  }

  lemma AdvancesAt<T(!new)>(p: Parser<T>, s: Text, pos: nat)
    requires Advances(p) && pos <= |s|
    ensures p(s, pos).Some? ==> pos <= p(s, pos).value.next <= |s|
  {
  }

  lemma {:induction false} AllAdvance<T(!new)>(p: Parser<T>, n: nat, s: Text, pos: nat)
    requires Advances(p) && pos <= |s| && AllAt(p, n, s, pos).Some?
    ensures pos <= AllAt(p, n, s, pos).value.next <= |s|
  {
    if n > 0 {
      AllAdvance(p, n - 1, s, pos);
      var front := AllAt(p, n - 1, s, pos).value;
      assert p(s, front.next).Some?;
    }
  }

  lemma StrsAdvance()
    ensures Advances(StrAt) && Advances(StrsAt)
  {
    forall s: Text, pos: nat | StrsAt(s, pos).Some? && pos <= |s| ensures pos <= StrsAt(s, pos).value.next <= |s| {
      var n := U32At(s, pos).value;
      AllAdvance(StrAt, n.value, s, n.next);
    }
  }

  ghost predicate Yields<T(!new)>(p: Parser<T>, good: T -> bool) {
    forall s: Text, pos: nat :: p(s, pos).Some? ==> good(p(s, pos).value.value)
  }

  lemma {:induction false} AllYield<T(!new)>(p: Parser<T>, good: T -> bool, n: nat, s: Text, pos: nat)
    requires Yields(p, good) && AllAt(p, n, s, pos).Some?
    ensures forall x :: x in AllAt(p, n, s, pos).value.value ==> good(x)
  {
    if n > 0 {
      AllYield(p, good, n - 1, s, pos);
      var front := AllAt(p, n - 1, s, pos).value;
      assert good(p(s, front.next).value.value);
    }
  }

  predicate StrFits(t: Text) {
    |t| < TWO_32
  }

  /** Whatever is read has lengths below 2^32. */
  lemma StrsYield()
    ensures Yields(StrAt, StrFits) && Yields(StrsAt, StrsFit)
  {
    forall s: Text, pos: nat | StrsAt(s, pos).Some? ensures StrsFit(StrsAt(s, pos).value.value) {
      var n := U32At(s, pos).value;
      AllYield(StrAt, StrFits, n.value, s, n.next);
    }
  }

  /** Once one value cannot be read, the list cannot. */
  lemma {:induction false} AllFails<T>(p: Parser<T>, i: nat, n: nat, s: Text, pos: nat)
    requires i <= n && AllAt(p, i, s, pos).None?
    ensures AllAt(p, n, s, pos).None?
  {
    if i < n { AllFails(p, i, n - 1, s, pos); }
  }

  lemma AllNext<T>(p: Parser<T>, i: nat, s: Text, pos: nat)
    requires AllAt(p, i, s, pos).Some?
    ensures var front := AllAt(p, i, s, pos).value;
      AllAt(p, i + 1, s, pos) ==
        var last := p(s, front.next);
        if last.None? then None else Some(Parsed(front.value + [last.value.value], last.value.next))
  {
  }

  // ----- streams -----

  /** `std::ofstream`. */
  class OutputStream {
    var bytes: Text

    constructor ()
      ensures bytes == []
    {
      bytes := [];
    }

    method PutUint8(v: byte)
      modifies this
      ensures bytes == old(bytes) + [v]
    {
      bytes := bytes + [v];
    }

    method PutUint32(v: u32)
      modifies this
      ensures bytes == old(bytes) + U32(v)
    {
      PutUint8(v % 256);
      PutUint8(v / 256 % 256);
      PutUint8(v / 256 / 256 % 256);
      PutUint8(v / 256 / 256 / 256 % 256);
      U32Bytes(v);
    }

    method PutUint64(v: u64)
      modifies this
      ensures bytes == old(bytes) + U64(v)
    {
      var rest: nat, i := v, 0;
      while i < 8
        invariant 0 <= i <= 8
        invariant bytes + Little(rest, 8 - i) == old(bytes) + U64(v)
      {
        LittleStep(rest, 8 - i);
        hide Little, U64;
        PutUint8(rest % 256);
        rest := rest / 256;
        i := i + 1;
      }
    }

    method PutBytes(t: Text)
      modifies this
      ensures bytes == old(bytes) + t
    {
      bytes := bytes + t;
    }

    method PutString(t: Text)
      modifies this
      ensures bytes == old(bytes) + Str(t)
    {
      PutUint32(Length(|t|));
      PutBytes(t);
    }

    method PutStrings(ts: seq<Text>)
      modifies this
      ensures bytes == old(bytes) + Strs(ts)
    {
      hide Str, U32, EncAll;
      PutUint32(Length(|ts|));
      ghost var start := bytes;
      EncNone(Str, ts);
      var i := 0;
      while i < |ts|
        invariant 0 <= i <= |ts| && bytes == start + EncAll(Str, ts[..i])
      {
        EncNext(Str, ts, i);
        PutString(ts[i]);
        i := i + 1;
      }
      assert ts[..i] == ts;
    }
  }

  lemma EncNone<T>(enc: T -> Text, xs: seq<T>)
    ensures EncAll(enc, xs[..0]) == []
  {
  }

  lemma EncNext<T>(enc: T -> Text, xs: seq<T>, i: nat)
    requires i < |xs|
    ensures EncAll(enc, xs[..i + 1]) == EncAll(enc, xs[..i]) + enc(xs[i])
  {
    assert xs[..i + 1][..i] == xs[..i];
  }

  lemma LittleStep(v: nat, n: nat)
    requires n > 0
    ensures Little(v, n) == [v % 256] + Little(v / 256, n - 1)
  {
  }

  lemma U32Bytes(v: u32)
    ensures U32(v) == [v % 256, v / 256 % 256, v / 256 / 256 % 256, v / 256 / 256 / 256 % 256]
  {
    assert Little(v / 256 / 256 / 256, 1) == [v / 256 / 256 / 256 % 256];
    assert Little(v / 256 / 256, 2) == [v / 256 / 256 % 256] + Little(v / 256 / 256 / 256, 1);
    assert Little(v / 256, 3) == [v / 256 % 256] + Little(v / 256 / 256, 2);
    assert Little(v, 4) == [v % 256] + Little(v / 256, 3);
  }

  lemma {:induction false} LittleSnoc(t: Text, b: byte)
    ensures LittleValue(t + [b]) == LittleValue(t) + Power256(|t|) * b
  {
    if t == [] {
      assert [] + [b] == [b];
    } else {
      assert (t + [b])[1..] == t[1..] + [b];
      LittleSnoc(t[1..], b);
      assert 256 * (Power256(|t| - 1) * b) == Power256(|t|) * b;
    }
  }

  /** `std::ifstream`: a failed read leaves the position anywhere. */
  class InputStream {
    const bytes: Text
    var position: nat

    constructor (bytes: Text)
      ensures this.bytes == bytes && position == 0
    {
      this.bytes, position := bytes, 0;
    }

    method GetUint8() returns (r: Option<byte>)
      modifies this
      ensures r.Some? == U8At(bytes, old(position)).Some?
      ensures r.Some? ==> U8At(bytes, old(position)) == Some(Parsed(r.value, position))
    {
      if position >= |bytes| {
        return None;
      }
      position := position + 1;
      return Some(bytes[position - 1]);
    }

    /** Reads `n` bytes and adds them up, each shifted to its place. */
    method GetLittle(n: nat) returns (r: Option<nat>)
      modifies this
      ensures r.Some? == LittleAt(bytes, old(position), n).Some?
      ensures r.Some? ==> LittleAt(bytes, old(position), n) == Some(Parsed(r.value, position))
    {
      if position + n > |bytes| {
        position := *;
        return None;
      }
      var value: nat, shift: nat, i := 0, 1, 0;
      var start := position;
      while i < n
        invariant 0 <= i <= n && shift == Power256(i)
        invariant value == LittleValue(bytes[start..start + i])
      {
        assert bytes[start..start + i + 1] == bytes[start..start + i] + [bytes[start + i]];
        LittleSnoc(bytes[start..start + i], bytes[start + i]);
        value := value + shift * bytes[start + i];
        shift := 256 * shift;
        i := i + 1;
      }
      position := start + n;
      return Some(value);
    }

    method GetUint32() returns (r: Option<u32>)
      modifies this
      ensures r.Some? == U32At(bytes, old(position)).Some?
      ensures r.Some? ==> U32At(bytes, old(position)) == Some(Parsed(r.value, position))
    {
      assert Power256(4) == TWO_32;
      r := GetLittle(4);
    }

    method GetUint64() returns (r: Option<u64>)
      modifies this
      ensures r.Some? == U64At(bytes, old(position)).Some?
      ensures r.Some? ==> U64At(bytes, old(position)) == Some(Parsed(r.value, position))
    {
      assert Power256(8) == TWO_64;
      r := GetLittle(8);
    }

    method GetBytes(n: nat) returns (r: Option<Text>)
      modifies this
      ensures r.Some? == BytesAt(bytes, old(position), n).Some?
      ensures r.Some? ==> BytesAt(bytes, old(position), n) == Some(Parsed(r.value, position))
    {
      if position + n > |bytes| {
        position := *;
        return None;
      }
      position := position + n;
      return Some(bytes[position - n..position]);
    }

    method GetString() returns (r: Option<Text>)
      modifies this
      ensures r.Some? == StrAt(bytes, old(position)).Some?
      ensures r.Some? ==> StrAt(bytes, old(position)) == Some(Parsed(r.value, position))
    {
      var n := GetUint32();
      if n.None? {
        return None;
      }
      r := GetBytes(n.value);
    }

    method GetStrings() returns (r: Option<seq<Text>>)
      modifies this
      ensures r.Some? == StrsAt(bytes, old(position)).Some?
      ensures r.Some? ==> StrsAt(bytes, old(position)) == Some(Parsed(r.value, position))
    {
      var count := GetUint32();
      if count.None? {
        return None;
      }
      ghost var start := position;
      var values: seq<Text> := [];
      var i := 0;
      while i < count.value
        invariant 0 <= i <= count.value
        invariant AllAt(StrAt, i, bytes, start) == Some(Parsed(values, position))
      {
        AllNext(StrAt, i, bytes, start);
        var value := GetString();
        if value.None? {
          AllFails(StrAt, i + 1, count.value, bytes, start);
          return None;
        }
        values := values + [value.value];
        i := i + 1;
      }
      return Some(values);
    }
  }
}
