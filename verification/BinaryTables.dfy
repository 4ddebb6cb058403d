/** The index tables: a header of magic, schema version and record count, then the records. A parser of one record that
    reads back what an encoder writes gives one for whole tables, and one for lists that end where the file ends. */
module BinaryTables {
  import opened Decimals
  import opened Bytes

  /** The header, and as many records as it says. */
  function TableAt<T>(p: Parser<T>, magic: u32, schema: u32, s: Text, pos: nat): Option<Parsed<seq<T>>> {
    var m := U32At(s, pos);
    var v := U32At(s, pos + 4);
    var n := U32At(s, pos + 8);
    if m.None? || v.None? || n.None? then None
    else if m.value.value != magic || v.value.value != schema then None
    else AllAt(p, n.value.value, s, pos + 12)
  }

  function TableParser<T>(p: Parser<T>, magic: u32, schema: u32): Parser<seq<T>> {
    (s: Text, pos: nat) => TableAt(p, magic, schema, s, pos)
  }

  function Header(magic: u32, schema: u32, n: nat): (r: Text)
    ensures |r| == 12
  {
    U32(magic) + U32(schema) + U32(Length(n))
  }

  function EncTable<T>(enc: T -> Text, magic: u32, schema: u32, xs: seq<T>): Text {
    Header(magic, schema, |xs|) + EncAll(enc, xs)
  }

  lemma HeaderReads(s: Text, pos: nat, magic: u32, schema: u32, n: nat)
    requires Holds(s, pos, Header(magic, schema, n))
    ensures U32At(s, pos) == Some(Parsed(magic, pos + 4)) && U32At(s, pos + 4) == Some(Parsed(schema, pos + 8))
    ensures U32At(s, pos + 8) == Some(Parsed(Length(n), pos + 12))
  {
    hide U32At, Little, LittleValue, Holds, Reads;
    U32Reads(magic);
    U32Reads(schema);
    U32Reads(Length(n));
    HoldsSplit(s, pos, U32(magic) + U32(schema), U32(Length(n)));
    HoldsSplit(s, pos, U32(magic), U32(schema));
    ReadsAt(U32At, U32(magic), magic, s, pos);
    ReadsAt(U32At, U32(schema), schema, s, pos + 4);
    ReadsAt(U32At, U32(Length(n)), Length(n), s, pos + 8);
  }

  /** A table whose records are read back is read back. */
  lemma TableReads<A, T(!new)>(p: Parser<T>, enc: A -> Text, magic: u32, schema: u32, xs: seq<A>, ys: seq<T>)
    requires |xs| == |ys| < TWO_32 && forall i :: 0 <= i < |xs| ==> Reads(p, enc(xs[i]), ys[i])
    ensures Reads(TableParser(p, magic, schema), EncTable(enc, magic, schema, xs), ys)
  {
    hide Header, EncAll, AllAt, Holds, U32At;
    var t := EncTable(enc, magic, schema, xs);
    forall s: Text, pos: nat | Holds(s, pos, t)
      ensures TableParser(p, magic, schema)(s, pos) == Some(Parsed(ys, pos + |t|)) {
      HoldsSplit(s, pos, Header(magic, schema, |xs|), EncAll(enc, xs));
      HeaderReads(s, pos, magic, schema, |xs|);
      AllReads(p, enc, xs, ys, s, pos + 12);
    }
  }

  lemma TableExtends<T(!new)>(p: Parser<T>, magic: u32, schema: u32)
    requires Extends(p)
    ensures Extends(TableParser(p, magic, schema))
  {
    hide AllAt, U32At;
    NumbersExtend();
    forall s: Text, more: Text, pos: nat | TableParser(p, magic, schema)(s, pos).Some?
      ensures TableParser(p, magic, schema)(s + more, pos) == TableParser(p, magic, schema)(s, pos)
    {
      ExtendsAt(U32At, s, more, pos);
      ExtendsAt(U32At, s, more, pos + 4);
      ExtendsAt(U32At, s, more, pos + 8);
      AllExtend(p, U32At(s, pos + 8).value.value, s, more, pos + 12);
    }
  }

  lemma TableAdvances<T(!new)>(p: Parser<T>, magic: u32, schema: u32)
    requires Advances(p)
    ensures Advances(TableParser(p, magic, schema))
  {
    hide AllAt;
    forall s: Text, pos: nat | TableParser(p, magic, schema)(s, pos).Some? && pos <= |s|
      ensures pos <= TableParser(p, magic, schema)(s, pos).value.next <= |s|
    {
      AllAdvance(p, U32At(s, pos + 8).value.value, s, pos + 12);
    }
  }

  /** Whatever is read has fewer than 2^32 records, each of the kind its parser yields. */
  lemma TableYields<T(!new)>(p: Parser<T>, good: T -> bool, magic: u32, schema: u32, s: Text, pos: nat)
    requires Yields(p, good)
    ensures var r := TableAt(p, magic, schema, s, pos);
      r.Some? ==> |r.value.value| < TWO_32 && forall x :: x in r.value.value ==> good(x)
  {
    hide AllAt, Yields;
    if TableAt(p, magic, schema, s, pos).Some? {
      AllYield(p, good, U32At(s, pos + 8).value.value, s, pos + 12);
    }
  }

  /** A table of another kind or schema version is refused. */
  lemma ForeignTable<A, T>(p: Parser<T>, enc: A -> Text, magic: u32, schema: u32, xs: seq<A>, magic': u32, schema': u32)
    requires magic' != magic || schema' != schema
    ensures TableAt(p, magic', schema', EncTable(enc, magic, schema, xs), 0).None?
  {
    hide Header, U32At;
    HoldsSelf(Header(magic, schema, |xs|), EncAll(enc, xs));
    HeaderReads(EncTable(enc, magic, schema, xs), 0, magic, schema, |xs|);
  }

  // ----- logs without a count: records until the next id cannot be read in full -----

  function LogAt<T>(p: Parser<T>, s: Text, pos: nat): Option<seq<T>>
    decreases |s| - pos
  {
    if pos + 4 > |s| then Some([])
    else
      var x := p(s, pos);
      if x.None? || x.value.next <= pos then None
      else
        var rest := LogAt(p, s, x.value.next);
        if rest.None? then None else Some([x.value.value] + rest.value)
  }

  function After<T>(front: seq<T>, rest: Option<seq<T>>): Option<seq<T>> {
    if rest.None? then None else Some(front + rest.value)
  }

  lemma LogStarts<T>(p: Parser<T>, s: Text)
    ensures LogAt(p, s, 0) == After([], LogAt(p, s, 0))
  {
    hide LogAt;
    if LogAt(p, s, 0).Some? {
      assert [] + LogAt(p, s, 0).value == LogAt(p, s, 0).value;
    }
  }

  /** One more record read, or the end, or a failure. */
  lemma LogNext<T>(p: Parser<T>, s: Text, front: seq<T>, pos: nat)
    ensures pos + 4 > |s| ==> After(front, LogAt(p, s, pos)) == Some(front)
    ensures pos + 4 <= |s| && p(s, pos).None? ==> After(front, LogAt(p, s, pos)) == None
    ensures pos + 4 <= |s| && p(s, pos).Some? && p(s, pos).value.next > pos ==>
      After(front, LogAt(p, s, pos)) == After(front + [p(s, pos).value.value], LogAt(p, s, p(s, pos).value.next))
  {
    assert front + [] == front;
    if pos + 4 <= |s| && p(s, pos).Some? && p(s, pos).value.next > pos {
      var rest := LogAt(p, s, p(s, pos).value.next);
      if rest.Some? {
        assert front + ([p(s, pos).value.value] + rest.value) == front + [p(s, pos).value.value] + rest.value;
      }
    }
  }

  /** Records of a fixed width. */
  ghost predicate Fixed<T(!new)>(p: Parser<T>, enc: T -> Text, width: nat) {
    && width > 4
    && (forall x :: |enc(x)| == width && Reads(p, enc(x), x))
    && (forall s: Text, pos: nat :: pos + width > |s| ==> p(s, pos).None?)
  }

  lemma FixedAt<T(!new)>(p: Parser<T>, enc: T -> Text, width: nat, x: T, s: Text, pos: nat)
    requires Fixed(p, enc, width)
    ensures width > 4 && |enc(x)| == width
    ensures Holds(s, pos, enc(x)) ==> p(s, pos) == Some(Parsed(x, pos + width))
    ensures pos + width > |s| ==> p(s, pos).None?
  {
    assert Reads(p, enc(x), x);
  }

  lemma {:induction false} FixedLength<T(!new)>(p: Parser<T>, enc: T -> Text, width: nat, xs: seq<T>)
    requires Fixed(p, enc, width)
    ensures |EncAll(enc, xs)| == width * |xs|
  {
    if xs != [] { FixedLength(p, enc, width, xs[..|xs| - 1]); }
  }

  lemma {:induction false} EncFront<T>(enc: T -> Text, xs: seq<T>)
    requires xs != []
    ensures EncAll(enc, xs) == enc(xs[0]) + EncAll(enc, xs[1..])
  {
    hide EncAll;
    var n := |xs| - 1;
    EncNone(enc, xs);
    EncNone(enc, xs[1..]);
    EncNext(enc, xs, n);
    assert xs[..n + 1] == xs;
    if n == 0 {
      assert xs[1..][..0] == xs[1..];
      assert [] + enc(xs[0]) == enc(xs[0]) + [];
    } else {
      EncFront(enc, xs[..n]);
      EncNext(enc, xs[1..], n - 1);
      assert xs[..n][1..] == xs[1..][..n - 1] && xs[1..][..n] == xs[1..] && xs[1..][n - 1] == xs[n];
    }
  }

  /** Reading a log cut after `q` whole records and `r` more bytes: up to three stray bytes pass unnoticed, more are an
      error, and the whole records before the cut are read. */
  lemma {:induction false} LogPrefix<T(!new)>(p: Parser<T>, enc: T -> Text, width: nat, xs: seq<T>, q: nat, r: nat,
                                              s: Text, pos: nat)
    requires Fixed(p, enc, width) && q <= |xs| && r < width && (q == |xs| ==> r == 0)
    requires |s| == pos + width * q + r <= pos + |EncAll(enc, xs)| && Holds(s, pos, EncAll(enc, xs)[..width * q + r])
    ensures LogAt(p, s, pos) == if r < 4 then Some(xs[..q]) else None
    decreases |xs|
  {
    hide Fixed, Holds, EncAll;
    FixedLength(p, enc, width, xs);
    if xs != [] {
      var x, rest := xs[0], EncAll(enc, xs[1..]);
      EncFront(enc, xs);
      FixedAt(p, enc, width, x, s, pos);
      if q > 0 {
        var k := width * (q - 1) + r;
        assert width * q + r == width + k;
        FixedLength(p, enc, width, xs[1..]);
        assert EncAll(enc, xs)[..width * q + r] == enc(x) + rest[..k];
        HoldsSplit(s, pos, enc(x), rest[..k]);
        LogPrefix(p, enc, width, xs[1..], q - 1, r, s, pos + width);
        assert xs[..q] == [x] + xs[1..][..q - 1];
      }
    }
  }
}
