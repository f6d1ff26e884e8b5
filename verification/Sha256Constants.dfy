/** The constants of SHA-256 are what sections 4.2.2 and 5.3.3 of FIPS 180-4 say they
    are: the first 32 bits of the fractional parts of roots of the first primes. */
module Sha256Constants {
  import opened Objects
  import opened Sha256

  /** The first 64 primes, in rows of eight. */
  const PRIMES: seq<seq<nat>> := [
    [2, 3, 5, 7, 11, 13, 17, 19],
    [23, 29, 31, 37, 41, 43, 47, 53],
    [59, 61, 67, 71, 73, 79, 83, 89],
    [97, 101, 103, 107, 109, 113, 127, 131],
    [137, 139, 149, 151, 157, 163, 167, 173],
    [179, 181, 191, 193, 197, 199, 211, 223],
    [227, 229, 233, 239, 241, 251, 257, 263],
    [269, 271, 277, 281, 283, 293, 307, 311]]

  /** The whole parts of their cube roots. */
  const WHOLE: seq<seq<nat>> := [
    [1, 1, 1, 1, 2, 2, 2, 2],
    [2, 3, 3, 3, 3, 3, 3, 3],
    [3, 3, 4, 4, 4, 4, 4, 4],
    [4, 4, 4, 4, 4, 4, 5, 5],
    [5, 5, 5, 5, 5, 5, 5, 5],
    [5, 5, 5, 5, 5, 5, 5, 6],
    [6, 6, 6, 6, 6, 6, 6, 6],
    [6, 6, 6, 6, 6, 6, 6, 6]]

  /** `k` are the first 32 bits after the point of the cube root of `p`, whose whole part
      is `q`. */
  predicate CubeRoot(p: nat, q: nat, k: Word) {
    var r := q * UINT32 + k as int;
    r * r * r <= p * (UINT32 * UINT32 * UINT32) < (r + 1) * (r + 1) * (r + 1)
  }

  /** The same of the square root. */
  predicate SquareRoot(p: nat, q: nat, k: Word) {
    var r := q * UINT32 + k as int;
    r * r <= p * (UINT32 * UINT32) < (r + 1) * (r + 1)
  }

  predicate CubeRoots(p: seq<nat>, q: seq<nat>, k: seq<Word>) {
    |p| == |q| == |k| == 8
    && CubeRoot(p[0], q[0], k[0]) && CubeRoot(p[1], q[1], k[1])
    && CubeRoot(p[2], q[2], k[2]) && CubeRoot(p[3], q[3], k[3])
    && CubeRoot(p[4], q[4], k[4]) && CubeRoot(p[5], q[5], k[5])
    && CubeRoot(p[6], q[6], k[6]) && CubeRoot(p[7], q[7], k[7])
  }

  lemma Roots0()
    ensures CubeRoot(2, 1, 0x428a2f98) && CubeRoot(3, 1, 0x71374491)
    ensures CubeRoot(5, 1, 0xb5c0fbcf) && CubeRoot(7, 1, 0xe9b5dba5)
    ensures CubeRoot(11, 2, 0x3956c25b) && CubeRoot(13, 2, 0x59f111f1)
    ensures CubeRoot(17, 2, 0x923f82a4) && CubeRoot(19, 2, 0xab1c5ed5)
  {
  }

  lemma Row0()
    ensures |K| == |PRIMES| == |WHOLE| == 8 && CubeRoots(PRIMES[0], WHOLE[0], K[0])
  {
    hide CubeRoot;
    Roots0();
  }

  lemma Roots1()
    ensures CubeRoot(23, 2, 0xd807aa98) && CubeRoot(29, 3, 0x12835b01)
    ensures CubeRoot(31, 3, 0x243185be) && CubeRoot(37, 3, 0x550c7dc3)
    ensures CubeRoot(41, 3, 0x72be5d74) && CubeRoot(43, 3, 0x80deb1fe)
    ensures CubeRoot(47, 3, 0x9bdc06a7) && CubeRoot(53, 3, 0xc19bf174)
  {
  }

  lemma Row1()
    ensures |K| == |PRIMES| == |WHOLE| == 8 && CubeRoots(PRIMES[1], WHOLE[1], K[1])
  {
    hide CubeRoot;
    Roots1();
  }

  lemma Roots2()
    ensures CubeRoot(59, 3, 0xe49b69c1) && CubeRoot(61, 3, 0xefbe4786)
    ensures CubeRoot(67, 4, 0x0fc19dc6) && CubeRoot(71, 4, 0x240ca1cc)
    ensures CubeRoot(73, 4, 0x2de92c6f) && CubeRoot(79, 4, 0x4a7484aa)
    ensures CubeRoot(83, 4, 0x5cb0a9dc) && CubeRoot(89, 4, 0x76f988da)
  {
  }

  lemma Row2()
    ensures |K| == |PRIMES| == |WHOLE| == 8 && CubeRoots(PRIMES[2], WHOLE[2], K[2])
  {
    hide CubeRoot;
    Roots2();
  }

  lemma Roots3()
    ensures CubeRoot(97, 4, 0x983e5152) && CubeRoot(101, 4, 0xa831c66d)
    ensures CubeRoot(103, 4, 0xb00327c8) && CubeRoot(107, 4, 0xbf597fc7)
    ensures CubeRoot(109, 4, 0xc6e00bf3) && CubeRoot(113, 4, 0xd5a79147)
    ensures CubeRoot(127, 5, 0x06ca6351) && CubeRoot(131, 5, 0x14292967)
  {
  }

  lemma Row3()
    ensures |K| == |PRIMES| == |WHOLE| == 8 && CubeRoots(PRIMES[3], WHOLE[3], K[3])
  {
    hide CubeRoot;
    Roots3();
  }

  lemma Roots4()
    ensures CubeRoot(137, 5, 0x27b70a85) && CubeRoot(139, 5, 0x2e1b2138)
    ensures CubeRoot(149, 5, 0x4d2c6dfc) && CubeRoot(151, 5, 0x53380d13)
    ensures CubeRoot(157, 5, 0x650a7354) && CubeRoot(163, 5, 0x766a0abb)
    ensures CubeRoot(167, 5, 0x81c2c92e) && CubeRoot(173, 5, 0x92722c85)
  {
  }

  lemma Row4()
    ensures |K| == |PRIMES| == |WHOLE| == 8 && CubeRoots(PRIMES[4], WHOLE[4], K[4])
  {
    hide CubeRoot;
    Roots4();
  }

  lemma Roots5()
    ensures CubeRoot(179, 5, 0xa2bfe8a1) && CubeRoot(181, 5, 0xa81a664b)
    ensures CubeRoot(191, 5, 0xc24b8b70) && CubeRoot(193, 5, 0xc76c51a3)
    ensures CubeRoot(197, 5, 0xd192e819) && CubeRoot(199, 5, 0xd6990624)
    ensures CubeRoot(211, 5, 0xf40e3585) && CubeRoot(223, 6, 0x106aa070)
  {
  }

  lemma Row5()
    ensures |K| == |PRIMES| == |WHOLE| == 8 && CubeRoots(PRIMES[5], WHOLE[5], K[5])
  {
    hide CubeRoot;
    Roots5();
  }

  lemma Roots6()
    ensures CubeRoot(227, 6, 0x19a4c116) && CubeRoot(229, 6, 0x1e376c08)
    ensures CubeRoot(233, 6, 0x2748774c) && CubeRoot(239, 6, 0x34b0bcb5)
    ensures CubeRoot(241, 6, 0x391c0cb3) && CubeRoot(251, 6, 0x4ed8aa4a)
    ensures CubeRoot(257, 6, 0x5b9cca4f) && CubeRoot(263, 6, 0x682e6ff3)
  {
  }

  lemma Row6()
    ensures |K| == |PRIMES| == |WHOLE| == 8 && CubeRoots(PRIMES[6], WHOLE[6], K[6])
  {
    hide CubeRoot;
    Roots6();
  }

  lemma Roots7()
    ensures CubeRoot(269, 6, 0x748f82ee) && CubeRoot(271, 6, 0x78a5636f)
    ensures CubeRoot(277, 6, 0x84c87814) && CubeRoot(281, 6, 0x8cc70208)
    ensures CubeRoot(283, 6, 0x90befffa) && CubeRoot(293, 6, 0xa4506ceb)
    ensures CubeRoot(307, 6, 0xbef9a3f7) && CubeRoot(311, 6, 0xc67178f2)
  {
  }

  lemma Row7()
    ensures |K| == |PRIMES| == |WHOLE| == 8 && CubeRoots(PRIMES[7], WHOLE[7], K[7])
  {
    hide CubeRoot;
    Roots7();
  }

  /** Constant `t` is a cube root's fraction. */
  lemma ConstantRoot(t: nat)
    requires t < 64
    ensures |PRIMES| == |WHOLE| == 8 && |PRIMES[t / 8]| == |WHOLE[t / 8]| == 8
    ensures CubeRoot(PRIMES[t / 8][t % 8], WHOLE[t / 8][t % 8], Constant(t))
  {
    hide CubeRoot, CubeRoots;
    AllRows();
    RootsAt(PRIMES[t / 8], WHOLE[t / 8], K[t / 8], t % 8);
  }

  lemma RootsAt(p: seq<nat>, q: seq<nat>, k: seq<Word>, j: nat)
    requires CubeRoots(p, q, k) && j < 8
    ensures |p| == |q| == |k| == 8 && CubeRoot(p[j], q[j], k[j])
  {
    hide CubeRoot;
  }

  lemma AllRows()
    ensures |K| == |PRIMES| == |WHOLE| == 8 && forall i :: 0 <= i < 8 ==> CubeRoots(PRIMES[i], WHOLE[i], K[i])
  {
    hide CubeRoots;
    Row0();
    Row1();
    Row2();
    Row3();
    Row4();
    Row5();
    Row6();
    Row7();
  }

  lemma InitialRoots()
    ensures SquareRoot(2, 1, INITIAL.a)
      && SquareRoot(3, 1, INITIAL.b)
      && SquareRoot(5, 2, INITIAL.c)
      && SquareRoot(7, 2, INITIAL.d)
      && SquareRoot(11, 3, INITIAL.e)
      && SquareRoot(13, 3, INITIAL.f)
      && SquareRoot(17, 4, INITIAL.g)
      && SquareRoot(19, 4, INITIAL.h)
  {
  }
}
