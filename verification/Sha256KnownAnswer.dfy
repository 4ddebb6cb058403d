/** The standard's own example: the digest of the three bytes "abc", computed stage by stage from the definitions. The
    message schedule, the round function, the constants, the padding and the order of the digest's bytes all enter it,
    so that none of them can differ from the standard unnoticed. */
module Sha256KnownAnswer {
  import opened Sha256Spec

  // ----- eight words at a time -----

  datatype Eight = Eight(w0: Word, w1: Word, w2: Word, w3: Word, w4: Word, w5: Word, w6: Word, w7: Word) {
    ghost function List(): (r: seq<Word>)
      ensures |r| == 8 && r[0] == w0 && r[1] == w1 && r[2] == w2 && r[3] == w3
      ensures r[4] == w4 && r[5] == w5 && r[6] == w6 && r[7] == w7
    {
      [w0, w1, w2, w3, w4, w5, w6, w7]
    }
  }

  ghost function Words(block: seq<Byte>, t: nat): Eight
    requires |block| == 64 && t <= 56
  {
    Eight(Schedule(block, t), Schedule(block, t + 1), Schedule(block, t + 2), Schedule(block, t + 3),
          Schedule(block, t + 4), Schedule(block, t + 5), Schedule(block, t + 6), Schedule(block, t + 7))
  }

  ghost function Constants(t: nat): Eight
    requires t <= 56
  {
    Eight(RoundConstant(t), RoundConstant(t + 1), RoundConstant(t + 2), RoundConstant(t + 3),
          RoundConstant(t + 4), RoundConstant(t + 5), RoundConstant(t + 6), RoundConstant(t + 7))
  }

  ghost function NextWord(w2: Word, w7: Word, w15: Word, w16: Word): Word {
    Sum4(SmallSigma1(w2), w7, SmallSigma0(w15), w16)
  }

  /** The eight schedule words behind sixteen. */
  ghost function NextWords(u: Eight, v: Eight): Eight {
    var n0 := NextWord(v.w6, v.w1, u.w1, u.w0);
    var n1 := NextWord(v.w7, v.w2, u.w2, u.w1);
    var n2 := NextWord(n0, v.w3, u.w3, u.w2);
    var n3 := NextWord(n1, v.w4, u.w4, u.w3);
    var n4 := NextWord(n2, v.w5, u.w5, u.w4);
    var n5 := NextWord(n3, v.w6, u.w6, u.w5);
    var n6 := NextWord(n4, v.w7, u.w7, u.w6);
    Eight(n0, n1, n2, n3, n4, n5, n6, NextWord(n5, n0, v.w0, u.w7))
  }

  ghost function Run(v: HashValue, ks: seq<Word>, ws: seq<Word>): HashValue
    requires |ks| == |ws|
    decreases |ks|
  {
    if ks == [] then v else Run(Round(v, ks[0], ws[0]), ks[1..], ws[1..])
  }

  lemma ScheduleNext(block: seq<Byte>, t: nat)
    requires |block| == 64 && 16 <= t < 64
    ensures Schedule(block, t) == NextWord(Schedule(block, t - 2), Schedule(block, t - 7), Schedule(block, t - 15),
      Schedule(block, t - 16))
  {
    hide Sum4, SmallSigma0, SmallSigma1;
  }

  lemma WordsNext(block: seq<Byte>, t: nat)
    requires |block| == 64 && t <= 40
    ensures Words(block, t + 16) == NextWords(Words(block, t), Words(block, t + 8))
  {
    hide Schedule, NextWord;
    ScheduleNext(block, t + 16); ScheduleNext(block, t + 17); ScheduleNext(block, t + 18); ScheduleNext(block, t + 19);
    ScheduleNext(block, t + 20); ScheduleNext(block, t + 21); ScheduleNext(block, t + 22); ScheduleNext(block, t + 23);
  }

  lemma RoundsNext(v: HashValue, block: seq<Byte>, t: nat)
    requires |block| == 64 && t < 64
    ensures Rounds(v, block, t + 1) == Round(Rounds(v, block, t), RoundConstant(t), Schedule(block, t))
  {
    hide Schedule, Round, RoundConstant;
  }

  lemma {:induction false} RoundsRun(v: HashValue, block: seq<Byte>, t: nat, ks: seq<Word>, ws: seq<Word>)
    requires |block| == 64 && t + |ks| <= 64 && |ks| == |ws|
    requires forall i :: 0 <= i < |ks| ==> ks[i] == RoundConstant(t + i) && ws[i] == Schedule(block, t + i)
    ensures Rounds(v, block, t + |ks|) == Run(Rounds(v, block, t), ks, ws)
    decreases |ks|
  {
    hide Rounds, Schedule, Round, RoundConstant;
    if ks != [] {
      RoundsNext(v, block, t);
      assert ks[0] == RoundConstant(t + 0) && ws[0] == Schedule(block, t + 0);
      forall i | 0 <= i < |ks| - 1
        ensures ks[1..][i] == RoundConstant(t + 1 + i) && ws[1..][i] == Schedule(block, t + 1 + i) {
        assert ks[i + 1] == RoundConstant(t + (i + 1)) && ws[i + 1] == Schedule(block, t + (i + 1));
      }
      RoundsRun(v, block, t + 1, ks[1..], ws[1..]);
    }
  }

  lemma EightRounds(v: HashValue, block: seq<Byte>, t: nat)
    requires |block| == 64 && t <= 56
    ensures Rounds(v, block, t + 8) == Run(Rounds(v, block, t), Constants(t).List(), Words(block, t).List())
  {
    hide *;
    forall i | 0 <= i < 8
      ensures Constants(t).List()[i] == RoundConstant(t + i) && Words(block, t).List()[i] == Schedule(block, t + i) {
      ListedAt(block, t, i);
    }
    RoundsRun(v, block, t, Constants(t).List(), Words(block, t).List());
  }

  lemma ListedAt(block: seq<Byte>, t: nat, i: nat)
    requires |block| == 64 && t <= 56 && i < 8
    ensures Constants(t).List()[i] == RoundConstant(t + i) && Words(block, t).List()[i] == Schedule(block, t + i)
  {
    hide Schedule, RoundConstant, Eight.List;
  }

  // ----- the constants as words -----

  lemma ConstantIs(t: nat, k: Word)
    requires t < 64 && |CUBE_ROOTS| == 64 && CUBE_ROOTS[t].fraction == k as nat
    ensures RoundConstant(t) == k
  {
    FractionAsWord(t);
    AsWord(CUBE_ROOTS[t].fraction, k);
  }

  lemma FractionAsWord(t: nat)
    requires t < 64
    ensures |CUBE_ROOTS| == 64 && CUBE_ROOTS[t].fraction < 0x1_0000_0000
    ensures RoundConstant(t) == CUBE_ROOTS[t].fraction as Word
  {
    hide AllCubeRoots, Root.IsCubeRoot;
    CubeRootsCorrect();
  }

  lemma AsWord(n: nat, k: Word)
    requires n == k as nat
    ensures n < 0x1_0000_0000 && n as Word == k
  {
  }

  ghost predicate Fractions(roots: seq<Root>, k: Eight) {
    && |roots| == 8 && roots[0].fraction == k.w0 as nat && roots[1].fraction == k.w1 as nat
    && roots[2].fraction == k.w2 as nat && roots[3].fraction == k.w3 as nat && roots[4].fraction == k.w4 as nat
    && roots[5].fraction == k.w5 as nat && roots[6].fraction == k.w6 as nat && roots[7].fraction == k.w7 as nat
  }

  lemma ConstantsAre(t: nat, k: Eight)
    requires t <= 56 && |CUBE_ROOTS| == 64 && Fractions(CUBE_ROOTS[t..t + 8], k)
    ensures Constants(t) == k
  {
    hide RoundConstant;
    ConstantIs(t, k.w0); ConstantIs(t + 1, k.w1); ConstantIs(t + 2, k.w2); ConstantIs(t + 3, k.w3);
    ConstantIs(t + 4, k.w4); ConstantIs(t + 5, k.w5); ConstantIs(t + 6, k.w6); ConstantIs(t + 7, k.w7);
  }

  const K0 := Eight(0x428a2f98, 0x71374491, 0xb5c0fbcf, 0xe9b5dba5,
                    0x3956c25b, 0x59f111f1, 0x923f82a4, 0xab1c5ed5)

  const K1 := Eight(0xd807aa98, 0x12835b01, 0x243185be, 0x550c7dc3,
                    0x72be5d74, 0x80deb1fe, 0x9bdc06a7, 0xc19bf174)

  const K2 := Eight(0xe49b69c1, 0xefbe4786, 0x0fc19dc6, 0x240ca1cc,
                    0x2de92c6f, 0x4a7484aa, 0x5cb0a9dc, 0x76f988da)

  const K3 := Eight(0x983e5152, 0xa831c66d, 0xb00327c8, 0xbf597fc7,
                    0xc6e00bf3, 0xd5a79147, 0x06ca6351, 0x14292967)

  const K4 := Eight(0x27b70a85, 0x2e1b2138, 0x4d2c6dfc, 0x53380d13,
                    0x650a7354, 0x766a0abb, 0x81c2c92e, 0x92722c85)

  const K5 := Eight(0xa2bfe8a1, 0xa81a664b, 0xc24b8b70, 0xc76c51a3,
                    0xd192e819, 0xd6990624, 0xf40e3585, 0x106aa070)

  const K6 := Eight(0x19a4c116, 0x1e376c08, 0x2748774c, 0x34b0bcb5,
                    0x391c0cb3, 0x4ed8aa4a, 0x5b9cca4f, 0x682e6ff3)

  const K7 := Eight(0x748f82ee, 0x78a5636f, 0x84c87814, 0x8cc70208,
                    0x90befffa, 0xa4506ceb, 0xbef9a3f7, 0xc67178f2)

  lemma ListedConstants()
    ensures Fractions(CUBE_ROOTS_0, K0)
      && Fractions(CUBE_ROOTS_1, K1)
      && Fractions(CUBE_ROOTS_2, K2)
      && Fractions(CUBE_ROOTS_3, K3)
      && Fractions(CUBE_ROOTS_4, K4)
      && Fractions(CUBE_ROOTS_5, K5)
      && Fractions(CUBE_ROOTS_6, K6)
      && Fractions(CUBE_ROOTS_7, K7)
  {
  }

  lemma Rows()
    ensures |CUBE_ROOTS| == 64
    ensures CUBE_ROOTS[0..8] == CUBE_ROOTS_0 && CUBE_ROOTS[8..16] == CUBE_ROOTS_1
    ensures CUBE_ROOTS[16..24] == CUBE_ROOTS_2 && CUBE_ROOTS[24..32] == CUBE_ROOTS_3
    ensures CUBE_ROOTS[32..40] == CUBE_ROOTS_4 && CUBE_ROOTS[40..48] == CUBE_ROOTS_5
    ensures CUBE_ROOTS[48..56] == CUBE_ROOTS_6 && CUBE_ROOTS[56..64] == CUBE_ROOTS_7
  {
    hide AllCubeRoots, Root.IsCubeRoot;
    CubeRootsCorrect();
    RootsJoined(CUBE_ROOTS_0, CUBE_ROOTS_1, CUBE_ROOTS_2, CUBE_ROOTS_3, CUBE_ROOTS_4, CUBE_ROOTS_5, CUBE_ROOTS_6,
      CUBE_ROOTS_7);
  }

  lemma RootsJoined(a: seq<Root>, b: seq<Root>, c: seq<Root>, d: seq<Root>,
                    e: seq<Root>, f: seq<Root>, g: seq<Root>, h: seq<Root>)
    requires |a| == |b| == |c| == |d| == |e| == |f| == |g| == |h| == 8
    ensures var all := a + b + c + d + e + f + g + h;
      && all[0..8] == a && all[8..16] == b && all[16..24] == c && all[24..32] == d
      && all[32..40] == e && all[40..48] == f && all[48..56] == g && all[56..64] == h
  {
  }

  // ----- the message schedule of "abc" -----

  const ABC: seq<Byte> := [0x61, 0x62, 0x63]

  const DIGEST := HashValue(0xba7816bf, 0x8f01cfea, 0x414140de, 0x5dae2223,
                            0xb00361a3, 0x96177a9c, 0xb410ff61, 0xf20015ad)

  const W0 := Eight(0x61626380, 0x00000000, 0x00000000, 0x00000000,
                    0x00000000, 0x00000000, 0x00000000, 0x00000000)

  const W1 := Eight(0x00000000, 0x00000000, 0x00000000, 0x00000000,
                    0x00000000, 0x00000000, 0x00000000, 0x00000018)

  const W2 := Eight(0x61626380, 0x000f0000, 0x7da86405, 0x600003c6,
                    0x3e9d7b78, 0x0183fc00, 0x12dcbfdb, 0xe2e2c38e)

  const W3 := Eight(0xc8215c1a, 0xb73679a2, 0xe5bc3909, 0x32663c5b,
                    0x9d209d67, 0xec8726cb, 0x702138a4, 0xd3b7973b)

  const W4 := Eight(0x93f5997f, 0x3b68ba73, 0xaff4ffc1, 0xf10a5c62,
                    0x0a8b3996, 0x72af830a, 0x9409e33e, 0x24641522)

  const W5 := Eight(0x9f47bf94, 0xf0a64f5a, 0x3e246a79, 0x27333ba3,
                    0x0c4763f2, 0x840abf27, 0x7a290d5d, 0x065c43da)

  const W6 := Eight(0xfb3e89cb, 0xcc7617db, 0xb9e66c34, 0xa9993667,
                    0x84badedd, 0xc21462bc, 0x1487472c, 0xb20f7a99)

  const W7 := Eight(0xef57b9cd, 0xebe6b238, 0x9fe3095e, 0x78bc8d4b,
                    0xa43fcf15, 0x668b2ff8, 0xeeaba2cc, 0x12b1edeb)

  lemma Words2() ensures NextWords(W0, W1) == W2 {}

  lemma Words3() ensures NextWords(W1, W2) == W3 {}

  lemma Words4() ensures NextWords(W2, W3) == W4 {}

  lemma Words5() ensures NextWords(W3, W4) == W5 {}

  lemma Words6() ensures NextWords(W4, W5) == W6 {}

  lemma Words7() ensures NextWords(W5, W6) == W7 {}

  // ----- the working variables after every eight rounds -----

  const V0 := HashValue(0x6a09e667, 0xbb67ae85, 0x3c6ef372, 0xa54ff53a,
                        0x510e527f, 0x9b05688c, 0x1f83d9ab, 0x5be0cd19)

  const V1 := HashValue(0x85a07b5f, 0xe5030380, 0x2b4209f5, 0x04409a6a,
                        0x0c657a79, 0x9b27a401, 0x714260ad, 0x43ada245)

  const V2 := HashValue(0xb0fa238e, 0xc0645fde, 0xd932eb16, 0x87912990,
                        0x07590dcd, 0x0b92f20c, 0x745a48de, 0x1e578218)

  const V3 := HashValue(0xc5d53d8d, 0xa7a3623f, 0xc2606d6d, 0x9dc68b63,
                        0xaa47c347, 0x49f5114a, 0xe1257970, 0x8ada8930)

  const V4 := HashValue(0x73b33bf5, 0xea992a22, 0xa0060b30, 0x363482c9,
                        0xba591112, 0x0109ab3a, 0xade79437, 0x6112a3b7)

  const V5 := HashValue(0x79ea687a, 0x6dc57a8a, 0x34df1604, 0x41a65cb1,
                        0x1efbc0a0, 0xf0781bc8, 0xa507a53d, 0x0772a26b)

  const V6 := HashValue(0x4172328d, 0xa14c14b0, 0x72ab4b91, 0x26628815,
                        0xfecf0bc6, 0xd57b94a9, 0xb7755da1, 0xa80f11f0)

  const V7 := HashValue(0x38cc9913, 0x3ec45cdb, 0xf5702fdb, 0x101fd28f,
                        0x54cb266b, 0xe50e1b4f, 0x9f4787c3, 0x529e7d00)

  const V8 := HashValue(0x506e3058, 0xd39a2165, 0x04d24d6c, 0xb85e2ce9,
                        0x5ef50f24, 0xfb121210, 0x948d25b6, 0x961f4894)

  lemma Rounds0() ensures Run(V0, K0.List(), W0.List()) == V1 {}

  lemma Rounds1() ensures Run(V1, K1.List(), W1.List()) == V2 {}

  lemma Rounds2() ensures Run(V2, K2.List(), W2.List()) == V3 {}

  lemma Rounds3() ensures Run(V3, K3.List(), W3.List()) == V4 {}

  lemma Rounds4() ensures Run(V4, K4.List(), W4.List()) == V5 {}

  lemma Rounds5() ensures Run(V5, K5.List(), W5.List()) == V6 {}

  lemma Rounds6() ensures Run(V6, K6.List(), W6.List()) == V7 {}

  lemma Rounds7() ensures Run(V7, K7.List(), W7.List()) == V8 {}

  // ----- padding, schedule, rounds and digest put together -----

  lemma AbcPadded()
    ensures Pad(ABC, 24) == ABC + [0x80] + Zeros(52) + [0, 0, 0, 0, 0, 0, 0, 24]
  {
    assert PaddingZeros(3) == 52;
    LengthBytes();
  }

  lemma LengthBytes()
    ensures BigEndian(24, 8) == [0, 0, 0, 0, 0, 0, 0, 24]
  {
    assert BigEndian(0, 4) == [0, 0, 0, 0];
    assert BigEndian(0, 7) == [0, 0, 0, 0, 0, 0, 0];
  }

  lemma FirstWords(block: seq<Byte>)
    requires |block| == 64 && block[0] == 0x61 && block[1] == 0x62 && block[2] == 0x63 && block[3] == 0x80
    requires block[63] == 24 && forall i :: 4 <= i < 63 ==> block[i] == 0
    ensures Words(block, 0) == W0 && Words(block, 8) == W1
  {
  }

  lemma AbcSchedule(block: seq<Byte>)
    requires |block| == 64 && Words(block, 0) == W0 && Words(block, 8) == W1
    ensures Words(block, 16) == W2 && Words(block, 24) == W3 && Words(block, 32) == W4
      && Words(block, 40) == W5 && Words(block, 48) == W6 && Words(block, 56) == W7
  {
    hide *;
    WordsNext(block, 0); Words2();
    WordsNext(block, 8); Words3();
    WordsNext(block, 16); Words4();
    WordsNext(block, 24); Words5();
    WordsNext(block, 32); Words6();
    WordsNext(block, 40); Words7();
  }

  lemma RoundsStage(block: seq<Byte>, t: nat, v: HashValue, k: Eight, w: Eight, next: HashValue)
    requires |block| == 64 && t <= 56 && |CUBE_ROOTS| == 64
    requires Rounds(V0, block, t) == v && Words(block, t) == w && Run(v, k.List(), w.List()) == next
    requires Fractions(CUBE_ROOTS[t..t + 8], k)
    ensures Rounds(V0, block, t + 8) == next
  {
    hide *;
    ConstantsAre(t, k);
    EightRounds(V0, block, t);
  }

  lemma AbcRows()
    ensures |CUBE_ROOTS| == 64
    ensures Fractions(CUBE_ROOTS[0..8], K0) && Fractions(CUBE_ROOTS[8..16], K1)
      && Fractions(CUBE_ROOTS[16..24], K2) && Fractions(CUBE_ROOTS[24..32], K3)
      && Fractions(CUBE_ROOTS[32..40], K4) && Fractions(CUBE_ROOTS[40..48], K5)
      && Fractions(CUBE_ROOTS[48..56], K6) && Fractions(CUBE_ROOTS[56..64], K7)
  {
    hide *;
    Rows();
    ListedConstants();
  }

  lemma NoRounds(v: HashValue, block: seq<Byte>)
    requires |block| == 64
    ensures Rounds(v, block, 0) == v
  {
  }

  lemma AbcRounds(block: seq<Byte>)
    requires |block| == 64 && Words(block, 0) == W0 && Words(block, 8) == W1
    ensures Rounds(V0, block, 64) == V8
  {
    hide *;
    AbcRows();
    AbcSchedule(block);
    NoRounds(V0, block);
    Rounds0(); RoundsStage(block, 0, V0, K0, W0, V1);
    Rounds1(); RoundsStage(block, 8, V1, K1, W1, V2);
    Rounds2(); RoundsStage(block, 16, V2, K2, W2, V3);
    Rounds3(); RoundsStage(block, 24, V3, K3, W3, V4);
    Rounds4(); RoundsStage(block, 32, V4, K4, W4, V5);
    Rounds5(); RoundsStage(block, 40, V5, K5, W5, V6);
    Rounds6(); RoundsStage(block, 48, V6, K6, W6, V7);
    Rounds7(); RoundsStage(block, 56, V7, K7, W7, V8);
  }

  /** Bytes 4 i to 4 i + 3 are those of word i. */
  lemma {:induction false} WordBytesAt(words: seq<Word>, i: nat)
    requires i < |words|
    ensures WordsBytes(words)[4 * i..4 * i + 4] == WordBytes(words[i])
    decreases |words|
  {
    var n := |words| - 1;
    var front := WordsBytes(words[..n]);
    assert WordsBytes(words) == front + WordBytes(words[n]);
    if i < n {
      WordBytesAt(words[..n], i);
      assert WordsBytes(words)[4 * i..4 * i + 4] == front[4 * i..4 * i + 4];
    }
  }

  lemma DigestIs(v: HashValue)
    ensures var r := DigestBytes(v);
      && r[0..4] == WordBytes(v.a) && r[4..8] == WordBytes(v.b) && r[8..12] == WordBytes(v.c)
      && r[12..16] == WordBytes(v.d) && r[16..20] == WordBytes(v.e) && r[20..24] == WordBytes(v.f)
      && r[24..28] == WordBytes(v.g) && r[28..32] == WordBytes(v.h)
  {
    hide WordBytes, WordsBytes;
    var words := [v.a, v.b, v.c, v.d, v.e, v.f, v.g, v.h];
    WordBytesAt(words, 0); WordBytesAt(words, 1); WordBytesAt(words, 2); WordBytesAt(words, 3);
    WordBytesAt(words, 4); WordBytesAt(words, 5); WordBytesAt(words, 6); WordBytesAt(words, 7);
  }

  lemma Sum()
    ensures Plus(V0, V8) == DIGEST
  {
  }

  lemma DigestOctets()
    ensures WordBytes(DIGEST.a) == [0xba, 0x78, 0x16, 0xbf] && WordBytes(DIGEST.b) == [0x8f, 0x01, 0xcf, 0xea]
    ensures WordBytes(DIGEST.c) == [0x41, 0x41, 0x40, 0xde] && WordBytes(DIGEST.d) == [0x5d, 0xae, 0x22, 0x23]
    ensures WordBytes(DIGEST.e) == [0xb0, 0x03, 0x61, 0xa3] && WordBytes(DIGEST.f) == [0x96, 0x17, 0x7a, 0x9c]
    ensures WordBytes(DIGEST.g) == [0xb4, 0x10, 0xff, 0x61] && WordBytes(DIGEST.h) == [0xf2, 0x00, 0x15, 0xad]
  {
  }

  lemma OneBlock(v: HashValue, block: seq<Byte>)
    requires |block| == 64
    ensures HashBlocks(v, block) == Plus(v, Rounds(v, block, 64))
  {
    hide Rounds;
    assert HashBlocks(v, []) == v;
    HashBlocksAppend(v, [], block);
    assert [] + block == block;
  }

  lemma AbcBlock()
    ensures var block := Pad(ABC, 24); |block| == 64 && Words(block, 0) == W0 && Words(block, 8) == W1
  {
    AbcPadded();
    hide Pad, Words;
    var block := Pad(ABC, 24);
    FirstWords(block);
  }

  lemma AbcHash()
    requires |Pad(ABC, 24)| == 64 && Words(Pad(ABC, 24), 0) == W0 && Words(Pad(ABC, 24), 8) == W1
    ensures Sha256(ABC) == DigestBytes(DIGEST)
  {
    hide Pad, Words, Plus, Rounds, HashBlocks, DigestBytes;
    AbcRounds(Pad(ABC, 24));
    OneBlock(V0, Pad(ABC, 24));
    Sum();
  }

  /** The example of FIPS 180-2, appendix B.1. */
  lemma AbcDigest()
    ensures Sha256(ABC) == [
      0xba, 0x78, 0x16, 0xbf, 0x8f, 0x01, 0xcf, 0xea,
      0x41, 0x41, 0x40, 0xde, 0x5d, 0xae, 0x22, 0x23,
      0xb0, 0x03, 0x61, 0xa3, 0x96, 0x17, 0x7a, 0x9c,
      0xb4, 0x10, 0xff, 0x61, 0xf2, 0x00, 0x15, 0xad]
  {
    hide *;
    AbcBlock();
    AbcHash();
    DigestIs(DIGEST);
    DigestOctets();
  }
}
