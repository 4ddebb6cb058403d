/** SHA-256 as FIPS 180-4 defines it: padding (section 5.1.1), the message schedule and the compression of one block
    (section 6.2.2), and the constants (sections 4.2.2 and 5.3.3). The constants are listed with the primes they come
    from and proved to be the leading fraction bits of their roots. */
module Sha256Spec {
  type Byte = bv8
  type Word = bv32

  const TWO_64: nat := 0x1_0000_0000_0000_0000

  // ----- constants -----

  /** A root of a number: integer part and the first 32 bits of the fractional part. */
  datatype Root = Root(base: nat, whole: nat, fraction: nat) {
    function Scaled(): nat {
      whole * 0x1_0000_0000 + fraction
    }

    /** whole + fraction/2^32 is the cube root of the base rounded down to 32 fractional bits. */
    predicate IsCubeRoot() {
      var r := Scaled();
      r * r * r <= base * 0x1_0000_0000_0000_0000_0000_0000 < (r + 1) * (r + 1) * (r + 1)
    }

    predicate IsSquareRoot() {
      var r := Scaled();
      r * r <= base * 0x1_0000_0000_0000_0000 < (r + 1) * (r + 1)
    }
  }

  const CUBE_ROOTS_0: seq<Root> := [
    Root(2, 1, 0x428a2f98), Root(3, 1, 0x71374491), Root(5, 1, 0xb5c0fbcf), Root(7, 1, 0xe9b5dba5),
    Root(11, 2, 0x3956c25b), Root(13, 2, 0x59f111f1), Root(17, 2, 0x923f82a4), Root(19, 2, 0xab1c5ed5)]

  const CUBE_ROOTS_1: seq<Root> := [
    Root(23, 2, 0xd807aa98), Root(29, 3, 0x12835b01), Root(31, 3, 0x243185be), Root(37, 3, 0x550c7dc3),
    Root(41, 3, 0x72be5d74), Root(43, 3, 0x80deb1fe), Root(47, 3, 0x9bdc06a7), Root(53, 3, 0xc19bf174)]

  const CUBE_ROOTS_2: seq<Root> := [
    Root(59, 3, 0xe49b69c1), Root(61, 3, 0xefbe4786), Root(67, 4, 0x0fc19dc6), Root(71, 4, 0x240ca1cc),
    Root(73, 4, 0x2de92c6f), Root(79, 4, 0x4a7484aa), Root(83, 4, 0x5cb0a9dc), Root(89, 4, 0x76f988da)]

  const CUBE_ROOTS_3: seq<Root> := [
    Root(97, 4, 0x983e5152), Root(101, 4, 0xa831c66d), Root(103, 4, 0xb00327c8), Root(107, 4, 0xbf597fc7),
    Root(109, 4, 0xc6e00bf3), Root(113, 4, 0xd5a79147), Root(127, 5, 0x06ca6351), Root(131, 5, 0x14292967)]

  const CUBE_ROOTS_4: seq<Root> := [
    Root(137, 5, 0x27b70a85), Root(139, 5, 0x2e1b2138), Root(149, 5, 0x4d2c6dfc), Root(151, 5, 0x53380d13),
    Root(157, 5, 0x650a7354), Root(163, 5, 0x766a0abb), Root(167, 5, 0x81c2c92e), Root(173, 5, 0x92722c85)]

  const CUBE_ROOTS_5: seq<Root> := [
    Root(179, 5, 0xa2bfe8a1), Root(181, 5, 0xa81a664b), Root(191, 5, 0xc24b8b70), Root(193, 5, 0xc76c51a3),
    Root(197, 5, 0xd192e819), Root(199, 5, 0xd6990624), Root(211, 5, 0xf40e3585), Root(223, 6, 0x106aa070)]

  const CUBE_ROOTS_6: seq<Root> := [
    Root(227, 6, 0x19a4c116), Root(229, 6, 0x1e376c08), Root(233, 6, 0x2748774c), Root(239, 6, 0x34b0bcb5),
    Root(241, 6, 0x391c0cb3), Root(251, 6, 0x4ed8aa4a), Root(257, 6, 0x5b9cca4f), Root(263, 6, 0x682e6ff3)]

  const CUBE_ROOTS_7: seq<Root> := [
    Root(269, 6, 0x748f82ee), Root(271, 6, 0x78a5636f), Root(277, 6, 0x84c87814), Root(281, 6, 0x8cc70208),
    Root(283, 6, 0x90befffa), Root(293, 6, 0xa4506ceb), Root(307, 6, 0xbef9a3f7), Root(311, 6, 0xc67178f2)]

  const CUBE_ROOTS: seq<Root> := CUBE_ROOTS_0 + CUBE_ROOTS_1 + CUBE_ROOTS_2 + CUBE_ROOTS_3
                               + CUBE_ROOTS_4 + CUBE_ROOTS_5 + CUBE_ROOTS_6 + CUBE_ROOTS_7

  const SQUARE_ROOTS: seq<Root> := [
    Root(2, 1, 0x6a09e667), Root(3, 1, 0xbb67ae85), Root(5, 2, 0x3c6ef372), Root(7, 2, 0xa54ff53a),
    Root(11, 3, 0x510e527f), Root(13, 3, 0x9b05688c), Root(17, 4, 0x1f83d9ab), Root(19, 4, 0x5be0cd19)]

  predicate AllCubeRoots(roots: seq<Root>) {
    roots == [] || (roots[0].IsCubeRoot() && roots[0].fraction < 0x1_0000_0000 && AllCubeRoots(roots[1..]))
  }

  predicate AllSquareRoots(roots: seq<Root>) {
    roots == [] || (roots[0].IsSquareRoot() && roots[0].fraction < 0x1_0000_0000 && AllSquareRoots(roots[1..]))
  }

  lemma {:induction false} AllCubeRootsAt(roots: seq<Root>, t: nat)
    requires AllCubeRoots(roots) && t < |roots|
    ensures roots[t].IsCubeRoot() && roots[t].fraction < 0x1_0000_0000
  {
    if t > 0 { AllCubeRootsAt(roots[1..], t - 1); }
  }

  lemma {:induction false} AllSquareRootsAt(roots: seq<Root>, t: nat)
    requires AllSquareRoots(roots) && t < |roots|
    ensures roots[t].IsSquareRoot() && roots[t].fraction < 0x1_0000_0000
  {
    if t > 0 { AllSquareRootsAt(roots[1..], t - 1); }
  }

  lemma {:induction false} AllCubeRootsJoin(a: seq<Root>, b: seq<Root>)
    requires AllCubeRoots(a) && AllCubeRoots(b)
    ensures AllCubeRoots(a + b)
  {
    if a == [] {
      assert a + b == b;
    } else {
      AllCubeRootsJoin(a[1..], b);
      assert (a + b)[1..] == a[1..] + b;
    }
  }

  lemma CubeRoots0() ensures AllCubeRoots(CUBE_ROOTS_0) && |CUBE_ROOTS_0| == 8 {}

  lemma CubeRoots1() ensures AllCubeRoots(CUBE_ROOTS_1) && |CUBE_ROOTS_1| == 8 {}

  lemma CubeRoots2() ensures AllCubeRoots(CUBE_ROOTS_2) && |CUBE_ROOTS_2| == 8 {}

  lemma CubeRoots3() ensures AllCubeRoots(CUBE_ROOTS_3) && |CUBE_ROOTS_3| == 8 {}

  lemma CubeRoots4() ensures AllCubeRoots(CUBE_ROOTS_4) && |CUBE_ROOTS_4| == 8 {}

  lemma CubeRoots5() ensures AllCubeRoots(CUBE_ROOTS_5) && |CUBE_ROOTS_5| == 8 {}

  lemma CubeRoots6() ensures AllCubeRoots(CUBE_ROOTS_6) && |CUBE_ROOTS_6| == 8 {}

  lemma CubeRoots7() ensures AllCubeRoots(CUBE_ROOTS_7) && |CUBE_ROOTS_7| == 8 {}

  /** Section 4.2.2: the round constants are the leading fraction bits of cube roots of primes. */
  lemma CubeRootsCorrect()
    ensures |CUBE_ROOTS| == 64
    ensures forall t :: 0 <= t < 64 ==> CUBE_ROOTS[t].IsCubeRoot() && CUBE_ROOTS[t].fraction < 0x1_0000_0000
  {
    CubeRoots0(); CubeRoots1(); CubeRoots2(); CubeRoots3(); CubeRoots4(); CubeRoots5(); CubeRoots6(); CubeRoots7();
    CubeRootsJoined(CUBE_ROOTS_0, CUBE_ROOTS_1, CUBE_ROOTS_2, CUBE_ROOTS_3, CUBE_ROOTS_4, CUBE_ROOTS_5, CUBE_ROOTS_6,
      CUBE_ROOTS_7);
  }

  lemma CubeRootsJoined(a: seq<Root>, b: seq<Root>, c: seq<Root>, d: seq<Root>,
                        e: seq<Root>, f: seq<Root>, g: seq<Root>, h: seq<Root>)
    requires AllCubeRoots(a) && AllCubeRoots(b) && AllCubeRoots(c) && AllCubeRoots(d)
    requires AllCubeRoots(e) && AllCubeRoots(f) && AllCubeRoots(g) && AllCubeRoots(h)
    ensures var all := a + b + c + d + e + f + g + h;
      forall t :: 0 <= t < |all| ==> all[t].IsCubeRoot() && all[t].fraction < 0x1_0000_0000
  {
    hide AllCubeRoots, Root.IsCubeRoot;
    AllCubeRootsJoin(a, b);
    AllCubeRootsJoin(a + b, c);
    AllCubeRootsJoin(a + b + c, d);
    AllCubeRootsJoin(a + b + c + d, e);
    AllCubeRootsJoin(a + b + c + d + e, f);
    AllCubeRootsJoin(a + b + c + d + e + f, g);
    AllCubeRootsJoin(a + b + c + d + e + f + g, h);
    var all := a + b + c + d + e + f + g + h;
    forall t | 0 <= t < |all| ensures all[t].IsCubeRoot() && all[t].fraction < 0x1_0000_0000 {
      AllCubeRootsAt(all, t);
    }
  }

  /** Section 5.3.3: the initial hash value holds the leading fraction bits of square roots of primes. */
  lemma SquareRootsCorrect()
    ensures |SQUARE_ROOTS| == 8
    ensures forall t :: 0 <= t < 8 ==> SQUARE_ROOTS[t].IsSquareRoot() && SQUARE_ROOTS[t].fraction < 0x1_0000_0000
  {
    assert AllSquareRoots(SQUARE_ROOTS);
    SquareRootsAt(SQUARE_ROOTS);
  }

  lemma SquareRootsAt(roots: seq<Root>)
    requires AllSquareRoots(roots)
    ensures forall t :: 0 <= t < |roots| ==> roots[t].IsSquareRoot() && roots[t].fraction < 0x1_0000_0000
  {
    hide AllSquareRoots, Root.IsSquareRoot;
    forall t | 0 <= t < |roots| ensures roots[t].IsSquareRoot() && roots[t].fraction < 0x1_0000_0000 {
      AllSquareRootsAt(roots, t);
    }
  }

  // ----- words and bytes (section 3.1) -----

  function WordOf(b0: Byte, b1: Byte, b2: Byte, b3: Byte): Word {
    ((b0 as Word) << 24) | ((b1 as Word) << 16) | ((b2 as Word) << 8) | (b3 as Word)
  }

  function Byte0(w: Word): Byte { ((w >> 24) & 0xFF) as Byte }

  function Byte1(w: Word): Byte { ((w >> 16) & 0xFF) as Byte }

  function Byte2(w: Word): Byte { ((w >> 8) & 0xFF) as Byte }

  function Byte3(w: Word): Byte { (w & 0xFF) as Byte }

  function WordBytes(w: Word): (r: seq<Byte>)
    ensures |r| == 4 && WordOf(r[0], r[1], r[2], r[3]) == w
  {
    [Byte0(w), Byte1(w), Byte2(w), Byte3(w)]
  }

  // ----- functions on words (section 4.1.2) -----

  function Xor(x: Word, y: Word, z: Word): Word {
    x ^ y ^ z
  }

  /** Addition modulo 2^32, as the source and the standard write it, of two, four and five words. */
  function Sum2(x: Word, y: Word): Word { x + y }

  function Sum4(x: Word, y: Word, z: Word, u: Word): Word { x + y + z + u }

  function Sum5(x: Word, y: Word, z: Word, u: Word, v: Word): Word { x + y + z + u + v }

  function Ch(x: Word, y: Word, z: Word): Word {
    (x & y) ^ (!x & z)
  }

  function Maj(x: Word, y: Word, z: Word): Word {
    Xor(x & y, x & z, y & z)
  }

  /** `x` chooses: where its bits are 1 the result has the bits of `y`, elsewhere those of `z`. */
  lemma ChChooses(x: Word, y: Word, z: Word)
    ensures Ch(x, y, z) & x == y & x && Ch(x, y, z) & !x == z & !x
  {
  }

  /** Wherever two of the three words have the same bit, the result has it too. */
  lemma MajAgrees(x: Word, y: Word, z: Word)
    ensures var m := Maj(x, y, z);
      && m & !(x ^ y) == x & !(x ^ y) && m & !(x ^ z) == x & !(x ^ z) && m & !(y ^ z) == y & !(y ^ z)
  {
    hide Maj;
    MajFirstTwo(x, y, z);
    MajRotates(x, y, z);
    MajFirstTwo(z, x, y);
    MajFirstTwo(y, z, x);
  }

  lemma MajFirstTwo(x: Word, y: Word, z: Word)
    ensures Maj(x, y, z) & !(x ^ y) == x & !(x ^ y)
  {
  }

  lemma MajRotates(x: Word, y: Word, z: Word)
    ensures Maj(x, y, z) == Maj(y, z, x) && Maj(x, y, z) == Maj(z, x, y)
  {
  }

  function BigSigma0(x: Word): Word {
    Xor(x.RotateRight(2), x.RotateRight(13), x.RotateRight(22))
  }

  function BigSigma1(x: Word): Word {
    Xor(x.RotateRight(6), x.RotateRight(11), x.RotateRight(25))
  }

  function SmallSigma0(x: Word): Word {
    Xor(x.RotateRight(7), x.RotateRight(18), x >> 3)
  }

  function SmallSigma1(x: Word): Word {
    Xor(x.RotateRight(17), x.RotateRight(19), x >> 10)
  }

  // ----- the bases of the roots are the first primes -----

  function Times(a: nat, b: nat): nat {
    a * b
  }

  ghost predicate IsPrime(n: nat) {
    n >= 2 && forall a, b :: 2 <= a && 2 <= b ==> Times(a, b) != n
  }

  /** Below 18 * 18 every composite number has one of these factors. */
  predicate SmallFactor(n: nat) {
    || (n > 2 && n % 2 == 0) || (n > 3 && n % 3 == 0) || (n > 5 && n % 5 == 0) || (n > 7 && n % 7 == 0)
    || (n > 11 && n % 11 == 0) || (n > 13 && n % 13 == 0) || (n > 17 && n % 17 == 0)
  }

  lemma MultiplesOf2(m: nat)
    requires m > 1
    ensures SmallFactor(2 * m)
  {
    assert (2 * m) % 2 == 0;
  }

  lemma MultiplesOf3(m: nat)
    requires m > 1
    ensures SmallFactor(3 * m)
  {
    assert (3 * m) % 3 == 0;
  }

  lemma MultiplesOf5(m: nat)
    requires m > 1
    ensures SmallFactor(5 * m)
  {
    assert (5 * m) % 5 == 0;
  }

  lemma MultiplesOf7(m: nat)
    requires m > 1
    ensures SmallFactor(7 * m)
  {
    assert (7 * m) % 7 == 0;
  }

  lemma MultiplesOf11(m: nat)
    requires m > 1
    ensures SmallFactor(11 * m)
  {
    assert (11 * m) % 11 == 0;
  }

  lemma MultiplesOf13(m: nat)
    requires m > 1
    ensures SmallFactor(13 * m)
  {
    assert (13 * m) % 13 == 0;
  }

  lemma MultiplesOf17(m: nat)
    requires m > 1
    ensures SmallFactor(17 * m)
  {
    assert (17 * m) % 17 == 0;
  }

  lemma Halved(c: nat, b: nat)
    requires c > 0 && b > 1
    ensures 2 * (c * b) == (2 * c) * b && c * b > 1
  {
  }

  lemma FactorBelow18(a: nat, b: nat)
    requires 2 <= a < 18 && 2 <= b
    ensures SmallFactor(Times(a, b))
  {
    hide SmallFactor;
    if a % 2 == 0 {
      Halved(a / 2, b);
      MultiplesOf2(a / 2 * b);
    } else if a % 3 == 0 {
      MultiplesOf3(a / 3 * b);
    } else if a == 5 {
      MultiplesOf5(b);
    } else if a == 7 {
      MultiplesOf7(b);
    } else if a == 11 {
      MultiplesOf11(b);
    } else if a == 13 {
      MultiplesOf13(b);
    } else {
      MultiplesOf17(b);
    }
  }

  lemma LargeFactors(a: nat, b: nat)
    requires a >= 18 && b >= 18
    ensures a * b >= 324
  {
  }

  lemma PrimeIff(n: nat)
    requires 2 <= n < 324
    ensures IsPrime(n) <==> !SmallFactor(n)
  {
    forall a: nat, b: nat | 2 <= a && 2 <= b && Times(a, b) == n ensures SmallFactor(n) {
      if a < 18 { FactorBelow18(a, b); } else if b < 18 { FactorBelow18(b, a); } else { LargeFactors(a, b); }
    }
    if SmallFactor(n) {
      assert Times(2, n / 2) == n || Times(3, n / 3) == n || Times(5, n / 5) == n || Times(7, n / 7) == n
        || Times(11, n / 11) == n || Times(13, n / 13) == n || Times(17, n / 17) == n;
    }
  }

  /** All numbers from `lo` up to, not including, `hi` have small factors. */
  predicate Composites(lo: nat, hi: nat)
    decreases hi - lo
  {
    lo >= hi || (SmallFactor(lo) && (lo + 1 >= hi || (SmallFactor(lo + 1) && Composites(lo + 2, hi))))
  }

  lemma {:induction false} CompositesAt(lo: nat, hi: nat, n: nat)
    requires Composites(lo, hi) && lo <= n < hi
    ensures SmallFactor(n)
    decreases hi - lo
  {
    if n > lo + 1 { CompositesAt(lo + 2, hi, n); }
  }

  /** Primes without a prime between neighbours. */
  predicate InRow(roots: seq<Root>) {
    roots == [] || (!SmallFactor(roots[0].base) && (|roots| == 1 || (Follows(roots[0], roots[1]) && InRow(roots[1..]))))
  }

  predicate Follows(x: Root, y: Root) {
    2 <= x.base < y.base && Composites(x.base + 1, y.base)
  }

  lemma {:induction false} InRowJoin(a: seq<Root>, b: seq<Root>)
    requires InRow(a) && InRow(b) && a != [] && b != [] && Follows(a[|a| - 1], b[0])
    ensures InRow(a + b)
  {
    hide SmallFactor, Follows;
    if |a| == 1 {
      assert (a + b)[1..] == b;
    } else {
      InRowJoin(a[1..], b);
      assert (a + b)[1..] == a[1..] + b;
    }
  }

  /** The bases are ascending, and are all the numbers without small factors up to the last one. */
  lemma {:induction false} InRowAt(roots: seq<Root>)
    requires InRow(roots) && roots != [] && 2 <= roots[0].base
    ensures forall t :: 0 < t < |roots| ==> roots[t - 1].base < roots[t].base
    ensures forall t :: 0 <= t < |roots| ==> roots[0].base <= roots[t].base
    ensures forall n :: roots[0].base <= n <= roots[|roots| - 1].base ==>
      (!SmallFactor(n) <==> exists t :: 0 <= t < |roots| && roots[t].base == n)
  {
    hide SmallFactor, Composites;
    if |roots| > 1 {
      var rest := roots[1..];
      InRowAt(rest);
      forall n | roots[0].base <= n <= roots[|roots| - 1].base
        ensures !SmallFactor(n) <==> exists t :: 0 <= t < |roots| && roots[t].base == n {
        if roots[0].base < n < roots[1].base {
          CompositesAt(roots[0].base + 1, roots[1].base, n);
        } else if n > roots[0].base {
          if t :| 0 <= t < |rest| && rest[t].base == n { assert roots[t + 1].base == n; }
          if t :| 0 <= t < |roots| && roots[t].base == n { assert rest[t - 1].base == n; }
        }
      }
    }
  }

  lemma CubeBases0() ensures InRow(CUBE_ROOTS_0) {}

  lemma CubeBases1()
    ensures InRow(CUBE_ROOTS_1)
  {
    assert Composites(24, 29) && Composites(30, 31) && Composites(32, 37) && Composites(38, 41) && Composites(42, 43)
      && Composites(44, 47) && Composites(48, 53);
  }

  lemma CubeBases2()
    ensures InRow(CUBE_ROOTS_2)
  {
    assert Composites(60, 61) && Composites(62, 67) && Composites(68, 71) && Composites(72, 73) && Composites(74, 79)
      && Composites(80, 83) && Composites(84, 89);
  }

  lemma CubeBases3()
    ensures InRow(CUBE_ROOTS_3)
  {
    assert Composites(98, 101) && Composites(102, 103) && Composites(104, 107) && Composites(108, 109)
      && Composites(110, 113) && Composites(114, 127) && Composites(128, 131);
  }

  lemma CubeBases4()
    ensures InRow(CUBE_ROOTS_4)
  {
    assert Composites(138, 139) && Composites(140, 149) && Composites(150, 151) && Composites(152, 157)
      && Composites(158, 163) && Composites(164, 167) && Composites(168, 173);
  }

  lemma Gaps5a() ensures Composites(180, 181) && Composites(182, 191) && Composites(192, 193) && Composites(194, 197) {}

  lemma Gaps5b() ensures Composites(198, 199) && Composites(200, 211) && Composites(212, 223) {}

  lemma CubeBases5()
    ensures InRow(CUBE_ROOTS_5)
  {
    Gaps5a(); Gaps5b();
  }

  lemma CubeBases6()
    ensures InRow(CUBE_ROOTS_6)
  {
    assert Composites(228, 229) && Composites(230, 233) && Composites(234, 239) && Composites(240, 241)
      && Composites(242, 251) && Composites(252, 257) && Composites(258, 263);
  }

  lemma Gaps7a() ensures Composites(270, 271) && Composites(272, 277) && Composites(278, 281) && Composites(282, 283) {}

  lemma Gaps7b() ensures Composites(284, 293) && Composites(294, 307) && Composites(308, 311) {}

  lemma CubeBases7()
    ensures InRow(CUBE_ROOTS_7)
  {
    Gaps7a(); Gaps7b();
  }

  lemma FirstChunksFollow()
    ensures Follows(CUBE_ROOTS_0[7], CUBE_ROOTS_1[0]) && Follows(CUBE_ROOTS_1[7], CUBE_ROOTS_2[0])
    ensures Follows(CUBE_ROOTS_2[7], CUBE_ROOTS_3[0]) && Follows(CUBE_ROOTS_3[7], CUBE_ROOTS_4[0])
  {
  }

  lemma LastChunksFollow()
    ensures Follows(CUBE_ROOTS_4[7], CUBE_ROOTS_5[0]) && Follows(CUBE_ROOTS_5[7], CUBE_ROOTS_6[0])
    ensures Follows(CUBE_ROOTS_6[7], CUBE_ROOTS_7[0])
  {
  }

  lemma {:induction false} RowJoined(a: seq<Root>, b: seq<Root>, c: seq<Root>, d: seq<Root>, e: seq<Root>, f: seq<Root>,
                                     g: seq<Root>, h: seq<Root>)
    requires |a| == 8 && |b| == 8 && |c| == 8 && |d| == 8 && |e| == 8 && |f| == 8 && |g| == 8 && |h| == 8
    requires InRow(a) && InRow(b) && InRow(c) && InRow(d) && InRow(e) && InRow(f) && InRow(g) && InRow(h)
    requires Follows(a[7], b[0]) && Follows(b[7], c[0]) && Follows(c[7], d[0]) && Follows(d[7], e[0])
    requires Follows(e[7], f[0]) && Follows(f[7], g[0]) && Follows(g[7], h[0])
    ensures var all := a + b + c + d + e + f + g + h; InRow(all)
  {
    hide InRow, Follows;
    InRowJoin(a, b);
    InRowJoin(a + b, c);
    InRowJoin(a + b + c, d);
    InRowJoin(a + b + c + d, e);
    InRowJoin(a + b + c + d + e, f);
    InRowJoin(a + b + c + d + e + f, g);
    InRowJoin(a + b + c + d + e + f + g, h);
  }

  /** The bases of the 64 cube roots are exactly the primes up to 311, in ascending order, so the first 64 primes. */
  lemma CubeBasesArePrimes()
    ensures |CUBE_ROOTS| == 64 && CUBE_ROOTS[0].base == 2 && CUBE_ROOTS[63].base == 311
    ensures forall t :: 0 < t < 64 ==> CUBE_ROOTS[t - 1].base < CUBE_ROOTS[t].base
    ensures forall n :: 0 <= n <= 311 ==> (IsPrime(n) <==> exists t :: 0 <= t < 64 && CUBE_ROOTS[t].base == n)
  {
    hide InRow, Follows;
    CubeBases0(); CubeBases1(); CubeBases2(); CubeBases3(); CubeBases4(); CubeBases5(); CubeBases6(); CubeBases7();
    FirstChunksFollow();
    LastChunksFollow();
    RowJoined(CUBE_ROOTS_0, CUBE_ROOTS_1, CUBE_ROOTS_2, CUBE_ROOTS_3, CUBE_ROOTS_4, CUBE_ROOTS_5, CUBE_ROOTS_6,
      CUBE_ROOTS_7);
    RowIsPrimes(CUBE_ROOTS);
  }

  lemma RowIsPrimes(roots: seq<Root>)
    requires InRow(roots) && |roots| > 0 && roots[0].base == 2 && roots[|roots| - 1].base < 324
    ensures forall t :: 0 < t < |roots| ==> roots[t - 1].base < roots[t].base
    ensures forall n :: 0 <= n <= roots[|roots| - 1].base ==>
      (IsPrime(n) <==> exists t :: 0 <= t < |roots| && roots[t].base == n)
  {
    hide InRow, SmallFactor, IsPrime;
    InRowAt(roots);
    forall n | 0 <= n <= roots[|roots| - 1].base
      ensures IsPrime(n) <==> exists t :: 0 <= t < |roots| && roots[t].base == n {
      if n >= 2 { PrimeIff(n); } else { NotPrime(n); }
    }
  }

  lemma NotPrime(n: nat)
    requires n < 2
    ensures !IsPrime(n)
  {
  }

  lemma SquareBases()
    ensures InRow(SQUARE_ROOTS) && |SQUARE_ROOTS| == 8 && SQUARE_ROOTS[0].base == 2 && SQUARE_ROOTS[7].base == 19
  {
    assert Composites(4, 5) && Composites(6, 7) && Composites(8, 11) && Composites(12, 13) && Composites(14, 17)
      && Composites(18, 19);
  }

  /** The bases of the 8 square roots are exactly the primes up to 19. */
  lemma SquareBasesArePrimes()
    ensures |SQUARE_ROOTS| == 8 && SQUARE_ROOTS[7].base == 19
    ensures forall t :: 0 < t < 8 ==> SQUARE_ROOTS[t - 1].base < SQUARE_ROOTS[t].base
    ensures forall n :: 0 <= n <= 19 ==> (IsPrime(n) <==> exists t :: 0 <= t < 8 && SQUARE_ROOTS[t].base == n)
  {
    hide InRow;
    SquareBases();
    RowIsPrimes(SQUARE_ROOTS);
  }

  // ----- compression of one block (section 6.2.2) -----

  datatype HashValue = HashValue(a: Word, b: Word, c: Word, d: Word, e: Word, f: Word, g: Word, h: Word)

  function RoundConstant(t: nat): Word
    requires t < 64
  {
    CubeRootsCorrect();
    CUBE_ROOTS[t].fraction as Word
  }

  function InitialHash(): HashValue {
    HashValue(0x6a09e667, 0xbb67ae85, 0x3c6ef372, 0xa54ff53a,
              0x510e527f, 0x9b05688c, 0x1f83d9ab, 0x5be0cd19)
  }

  /** The initial state holds the leading fraction bits of the square roots of the first 8 primes, in order. */
  lemma InitialHashIsSquareRoots()
    ensures |SQUARE_ROOTS| == 8
    ensures var v, r := InitialHash(), SQUARE_ROOTS;
      && v.a as nat == r[0].fraction && v.b as nat == r[1].fraction && v.c as nat == r[2].fraction
      && v.d as nat == r[3].fraction
      && v.e as nat == r[4].fraction && v.f as nat == r[5].fraction && v.g as nat == r[6].fraction
      && v.h as nat == r[7].fraction
    ensures forall t :: 0 <= t < 8 ==> SQUARE_ROOTS[t].IsSquareRoot() && IsPrime(SQUARE_ROOTS[t].base)
    ensures forall n :: 0 <= n <= SQUARE_ROOTS[7].base && IsPrime(n) ==>
      exists t :: 0 <= t < 8 && SQUARE_ROOTS[t].base == n
    ensures forall t :: 0 < t < 8 ==> SQUARE_ROOTS[t - 1].base < SQUARE_ROOTS[t].base
  {
    InitialWords();
    hide *;
    SquareRootsCorrect();
    SquareBasesArePrimes();
    SquareBasesBelow20();
    forall t | 0 <= t < 8 ensures IsPrime(SQUARE_ROOTS[t].base) {
      assert 0 <= SQUARE_ROOTS[t].base <= 19;
    }
  }

  lemma SquareBasesBelow20()
    ensures |SQUARE_ROOTS| == 8 && forall t :: 0 <= t < 8 ==> SQUARE_ROOTS[t].base <= 19
  {
  }

  lemma InitialWords()
    ensures |SQUARE_ROOTS| == 8
    ensures var v, r := InitialHash(), SQUARE_ROOTS;
      && v.a as nat == r[0].fraction && v.b as nat == r[1].fraction && v.c as nat == r[2].fraction
      && v.d as nat == r[3].fraction
      && v.e as nat == r[4].fraction && v.f as nat == r[5].fraction && v.g as nat == r[6].fraction
      && v.h as nat == r[7].fraction
  {
  }

  /** Word `t` of the message schedule. */
  ghost function Schedule(block: seq<Byte>, t: nat): Word
    requires |block| == 64 && t < 64
  {
    if t < 16 then
      WordOf(block[4 * t], block[4 * t + 1], block[4 * t + 2], block[4 * t + 3])
    else
      Sum4(SmallSigma1(Schedule(block, t - 2)), Schedule(block, t - 7), SmallSigma0(Schedule(block, t - 15)),
        Schedule(block, t - 16))
  }

  function Round(v: HashValue, k: Word, w: Word): HashValue {
    var t1 := Sum5(v.h, BigSigma1(v.e), Ch(v.e, v.f, v.g), k, w);
    var t2 := Sum2(BigSigma0(v.a), Maj(v.a, v.b, v.c));
    HashValue(Sum2(t1, t2), v.a, v.b, v.c, Sum2(v.d, t1), v.e, v.f, v.g)
  }

  ghost function Rounds(v: HashValue, block: seq<Byte>, t: nat): HashValue
    requires |block| == 64 && t <= 64
  {
    if t == 0 then v else Round(Rounds(v, block, t - 1), RoundConstant(t - 1), Schedule(block, t - 1))
  }

  function Plus(u: HashValue, v: HashValue): HashValue {
    HashValue(Sum2(u.a, v.a), Sum2(u.b, v.b), Sum2(u.c, v.c), Sum2(u.d, v.d),
              Sum2(u.e, v.e), Sum2(u.f, v.f), Sum2(u.g, v.g), Sum2(u.h, v.h))
  }

  ghost function Compress(v: HashValue, block: seq<Byte>): HashValue
    requires |block| == 64
  {
    Plus(v, Rounds(v, block, 64))
  }

  ghost function HashBlocks(v: HashValue, message: seq<Byte>): HashValue
    requires |message| % 64 == 0
    decreases |message|
  {
    if message == [] then v
    else
      var n := |message| - 64;
      Compress(HashBlocks(v, message[..n]), message[n..])
  }

  lemma HashBlocksAppend(v: HashValue, message: seq<Byte>, block: seq<Byte>)
    requires |message| % 64 == 0 && |block| == 64
    ensures |message + block| % 64 == 0
    ensures HashBlocks(v, message + block) == Compress(HashBlocks(v, message), block)
  {
    assert (message + block)[..|message|] == message && (message + block)[|message|..] == block;
  }

  // ----- padding (section 5.1.1) -----

  ghost function Zeros(n: nat): (r: seq<Byte>)
    ensures |r| == n && forall i :: 0 <= i < n ==> r[i] == 0
  {
    seq(n, _ => 0 as Byte)
  }

  /** How many zero bytes follow the 0x80 byte of a message of `size` bytes. */
  function PaddingZeros(size: nat): (k: nat)
    ensures k < 64
  {
    (119 - size % 64) % 64
  }

  /** In bits: the 0x80 byte is the one bit and 7 zero bits, and the zeros number the smallest k with
      size + 1 + k = 448 modulo 512. */
  lemma PaddingZerosSmallest(size: nat, k: nat)
    ensures (8 * size + 1 + (7 + 8 * PaddingZeros(size))) % 512 == 448
    ensures (8 * size + 1 + k) % 512 == 448 ==> 7 + 8 * PaddingZeros(size) <= k
  {
    var q, r := size / 64, size % 64;
    assert 8 * size == 512 * q + 8 * r;
    Modulo512(q, 8 * r + 8 + 8 * PaddingZeros(size));
    Modulo512(q, 8 * r + 1 + k);
  }

  lemma Modulo512(q: nat, x: nat)
    ensures (512 * q + x) % 512 == x % 512
  {
  }

  /** Big-endian base-256 digits. */
  function BigEndian(value: nat, digits: nat): (r: seq<Byte>)
    ensures |r| == digits
  {
    if digits == 0 then [] else BigEndian(value / 256, digits - 1) + [(value % 256) as Byte]
  }

  /** The digits themselves, most significant first. */
  ghost function Digits256(value: nat, digits: nat): (r: seq<nat>)
    ensures |r| == digits && forall i :: 0 <= i < digits ==> r[i] < 256
  {
    if digits == 0 then [] else Digits256(value / 256, digits - 1) + [value % 256]
  }

  ghost function Value256(s: seq<nat>): nat {
    if s == [] then 0 else 256 * Value256(s[..|s| - 1]) + s[|s| - 1]
  }

  ghost function Power256(n: nat): nat {
    if n == 0 then 1 else 256 * Power256(n - 1)
  }

  /** The bytes are the base-256 digits of the value, which they determine. */
  lemma {:induction false} BigEndianRoundTrip(value: nat, digits: nat)
    requires value < Power256(digits)
    ensures Value256(Digits256(value, digits)) == value
    ensures forall i :: 0 <= i < digits ==> BigEndian(value, digits)[i] == Digits256(value, digits)[i] as Byte
  {
    if digits > 0 {
      assert value / 256 < Power256(digits - 1);
      BigEndianRoundTrip(value / 256, digits - 1);
      var s := Digits256(value, digits);
      assert s[..|s| - 1] == Digits256(value / 256, digits - 1);
    }
  }

  ghost function Pad(message: seq<Byte>, bitLength: nat): (r: seq<Byte>)
    ensures |r| % 64 == 0
  {
    message + [0x80] + Zeros(PaddingZeros(|message|)) + BigEndian(bitLength, 8)
  }

  // ----- the hash -----

  function WordsBytes(words: seq<Word>): (r: seq<Byte>)
    ensures |r| == 4 * |words|
  {
    if words == [] then [] else WordsBytes(words[..|words| - 1]) + WordBytes(words[|words| - 1])
  }

  function DigestBytes(v: HashValue): (r: seq<Byte>)
    ensures |r| == 32
  {
    WordsBytes([v.a, v.b, v.c, v.d, v.e, v.f, v.g, v.h])
  }

  /** FIPS 180-4 defines this for messages shorter than 2^64 bits. */
  ghost function Sha256(message: seq<Byte>): (digest: seq<Byte>)
    requires 8 * |message| < TWO_64
    ensures |digest| == 32
  {
    DigestBytes(HashBlocks(InitialHash(), Pad(message, 8 * |message|)))
  }
}
