/** SHA-256 as section 6.2 of FIPS 180-4 defines it. */
module Sha256 {
  import opened Objects
  import opened Sequences

  type Word = bv32
  type Byte = bv8

  const BLOCK: nat := 64

  /** The constants, in rows of eight. */
  const K: seq<seq<Word>> := [
    [0x428a2f98, 0x71374491, 0xb5c0fbcf, 0xe9b5dba5, 0x3956c25b, 0x59f111f1, 0x923f82a4, 0xab1c5ed5],
    [0xd807aa98, 0x12835b01, 0x243185be, 0x550c7dc3, 0x72be5d74, 0x80deb1fe, 0x9bdc06a7, 0xc19bf174],
    [0xe49b69c1, 0xefbe4786, 0x0fc19dc6, 0x240ca1cc, 0x2de92c6f, 0x4a7484aa, 0x5cb0a9dc, 0x76f988da],
    [0x983e5152, 0xa831c66d, 0xb00327c8, 0xbf597fc7, 0xc6e00bf3, 0xd5a79147, 0x06ca6351, 0x14292967],
    [0x27b70a85, 0x2e1b2138, 0x4d2c6dfc, 0x53380d13, 0x650a7354, 0x766a0abb, 0x81c2c92e, 0x92722c85],
    [0xa2bfe8a1, 0xa81a664b, 0xc24b8b70, 0xc76c51a3, 0xd192e819, 0xd6990624, 0xf40e3585, 0x106aa070],
    [0x19a4c116, 0x1e376c08, 0x2748774c, 0x34b0bcb5, 0x391c0cb3, 0x4ed8aa4a, 0x5b9cca4f, 0x682e6ff3],
    [0x748f82ee, 0x78a5636f, 0x84c87814, 0x8cc70208, 0x90befffa, 0xa4506ceb, 0xbef9a3f7, 0xc67178f2]
  ]

  function Constant(t: nat): Word
    requires t < 64
  {
    assert |K| == 8 && |K[t / 8]| == 8;
    K[t / 8][t % 8]
  }

  function Rotr(x: Word, n: bv6): Word
    requires 0 < n < 32
  {
    (x >> n) | (x << (32 - n))
  }

  function Ch(x: Word, y: Word, z: Word): Word {
    (x & y) ^ (!x & z)
  }

  function Maj(x: Word, y: Word, z: Word): Word {
    (x & y) ^ (x & z) ^ (y & z)
  }

  function BigSigma0(x: Word): Word {
    Rotr(x, 2) ^ Rotr(x, 13) ^ Rotr(x, 22)
  }

  function BigSigma1(x: Word): Word {
    Rotr(x, 6) ^ Rotr(x, 11) ^ Rotr(x, 25)
  }

  function SmallSigma0(x: Word): Word {
    Rotr(x, 7) ^ Rotr(x, 18) ^ (x >> 3)
  }

  function SmallSigma1(x: Word): Word {
    Rotr(x, 17) ^ Rotr(x, 19) ^ (x >> 10)
  }

  /** The eight working variables, and the hash value they are added to. */
  datatype Regs = Regs(a: Word, b: Word, c: Word, d: Word, e: Word, f: Word, g: Word, h: Word)

  const INITIAL: Regs := Regs(
    0x6a09e667, 0xbb67ae85, 0x3c6ef372, 0xa54ff53a, 0x510e527f, 0x9b05688c, 0x1f83d9ab, 0x5be0cd19)

  /** Word `t` of a block, most significant byte first. */
  function BlockWord(block: seq<Byte>, t: nat): Word
    requires |block| == BLOCK && t < 16
  {
    Pack(block[4 * t], block[4 * t + 1], block[4 * t + 2], block[4 * t + 3])
  }

  function Pack(b0: Byte, b1: Byte, b2: Byte, b3: Byte): Word {
    ((b0 as Word) << 24) | ((b1 as Word) << 16) | ((b2 as Word) << 8) | (b3 as Word)
  }

  function Extend(w2: Word, w7: Word, w15: Word, w16: Word): Word {
    SmallSigma1(w2) + w7 + SmallSigma0(w15) + w16
  }

  /** The message schedule. */
  function Schedule(block: seq<Byte>, t: nat): Word
    requires |block| == BLOCK
  {
    if t < 16 then BlockWord(block, t)
    else Extend(Schedule(block, t - 2), Schedule(block, t - 7), Schedule(block, t - 15), Schedule(block, t - 16))
  }

  lemma ScheduleStart(block: seq<Byte>, t: nat)
    requires |block| == BLOCK && t < 16
    ensures Schedule(block, t) == BlockWord(block, t)
  {
  }

  lemma ScheduleStep(block: seq<Byte>, t: nat)
    requires |block| == BLOCK && t >= 16
    ensures Schedule(block, t) ==
      Extend(Schedule(block, t - 2), Schedule(block, t - 7), Schedule(block, t - 15), Schedule(block, t - 16))
  {
  }

  function Plus(x: Word, y: Word): Word {
    x + y
  }

  function Temp1(e: Word, f: Word, g: Word, h: Word, k: Word, w: Word): Word {
    Plus(Plus(Plus(Plus(h, BigSigma1(e)), Ch(e, f, g)), k), w)
  }

  function Temp2(a: Word, b: Word, c: Word): Word {
    BigSigma0(a) + Maj(a, b, c)
  }

  function Round(r: Regs, k: Word, w: Word): Regs {
    var t1 := Temp1(r.e, r.f, r.g, r.h, k, w);
    var t2 := Temp2(r.a, r.b, r.c);
    Regs(Plus(t1, t2), r.a, r.b, r.c, Plus(r.d, t1), r.e, r.f, r.g)
  }

  /** The working variables after `t` rounds. */
  function Rounds(block: seq<Byte>, r: Regs, t: nat): Regs
    requires |block| == BLOCK && t <= 64
  {
    if t == 0 then r else Round(Rounds(block, r, t - 1), Constant(t - 1), Schedule(block, t - 1))
  }

  function Add(r: Regs, s: Regs): Regs {
    Regs(Plus(r.a, s.a), Plus(r.b, s.b), Plus(r.c, s.c), Plus(r.d, s.d),
         Plus(r.e, s.e), Plus(r.f, s.f), Plus(r.g, s.g), Plus(r.h, s.h))
  }

  function Compress(r: Regs, block: seq<Byte>): Regs
    requires |block| == BLOCK
  {
    Add(r, Rounds(block, r, 64))
  }

  /** The hash value after the blocks of `m`, first to last. */
  function Chain(m: seq<Byte>): Regs
    requires |m| % BLOCK == 0
  {
    if m == [] then INITIAL else Compress(Chain(m[..|m| - BLOCK]), m[|m| - BLOCK..])
  }

  /** Byte `k` of a number, counted from the least significant. */
  function ByteOf(n: nat, k: nat): Byte {
    if k == 0 then (n % 256) as Byte else ByteOf(n / 256, k - 1)
  }

  /** A bit count as eight bytes, most significant first. */
  function LengthField(bits: nat): (s: seq<Byte>)
    ensures |s| == 8
  {
    seq(8, i requires 0 <= i < 8 => ByteOf(bits % UINT64, 7 - i))
  }

  /** The number whose bytes these are, most significant first. */
  function Numeral(s: seq<Byte>): nat {
    if s == [] then 0 else 256 * Numeral(s[..|s| - 1]) + s[|s| - 1] as nat
  }

  /** 256 to the power `k`. */
  function Radix(k: nat): nat {
    if k == 0 then 1 else 256 * Radix(k - 1)
  }

  lemma ByteBack(m: int)
    requires 0 <= m < 256
    ensures (m as Byte) as int == m
  {
    match m / 16
    case 0 => case 1 => case 2 => case 3 => case 4 => case 5 => case 6 => case 7 =>
    case 8 => case 9 => case 10 => case 11 => case 12 => case 13 => case 14 => case _ =>
  }

  lemma FirstByte(n: nat)
    ensures ByteOf(n, 0) as nat == n % 256
  {
    ByteBack(n % 256);
  }

  lemma LaterByte(n: nat, k: nat)
    ensures ByteOf(n, k + 1) == ByteOf(n / 256, k)
  {
  }

  lemma FewerBytes(n: nat, k: nat)
    requires n < Radix(k + 1)
    ensures n / 256 < Radix(k)
  {
  }

  lemma {:induction false} BytesNumeral(s: seq<Byte>, n: nat)
    requires n < Radix(|s|)
    requires forall k :: 0 <= k < |s| ==> s[|s| - 1 - k] == ByteOf(n, k)
    ensures Numeral(s) == n
    decreases |s|
  {
    hide ByteOf, Radix;
    if s == [] {
      NoBytes();
    } else {
      var t := s[..|s| - 1];
      assert s[|s| - 1 - 0] == ByteOf(n, 0);
      FirstByte(n);
      forall k | 0 <= k < |t| ensures t[|t| - 1 - k] == ByteOf(n / 256, k) {
        assert s[|s| - 1 - (k + 1)] == ByteOf(n, k + 1);
        LaterByte(n, k);
      }
      FewerBytes(n, |t|);
      BytesNumeral(t, n / 256);
    }
  }

  lemma NoBytes()
    ensures Radix(0) == 1
  {
  }

  lemma EightBytes()
    ensures Radix(8) == UINT64
  {
    assert Radix(2) == 0x1_0000;
    assert Radix(4) == 0x1_0000_0000;
    assert Radix(6) == 0x1_0000_0000_0000;
  }

  /** The length field, read as a number, is the bit count modulo 2^64. */
  lemma LengthFieldIs(bits: nat)
    ensures Numeral(LengthField(bits)) == bits % 0x1_0000_0000_0000_0000
  {
    EightBytes();
    var s, n := LengthField(bits), bits % UINT64;
    forall k | 0 <= k < |s| ensures s[|s| - 1 - k] == ByteOf(n, k) {
    }
    BytesNumeral(s, n);
  }

  /** The least number of zero bytes that makes the padded length a whole number of
      blocks. */
  function PadZeros(len: nat): (k: nat)
    ensures k < BLOCK && (len + 1 + k + 8) % BLOCK == 0
  {
    if len % BLOCK < 56 then 55 - len % BLOCK else 119 - len % BLOCK
  }

  /** Section 5.1.1. */
  function Pad(m: seq<Byte>): (p: seq<Byte>)
    ensures |p| % BLOCK == 0
  {
    m + [0x80] + Repeat(0, PadZeros(|m|)) + LengthField(8 * |m|)
  }

  function Words(r: Regs): (w: seq<Word>)
    ensures |w| == 8
  {
    [r.a, r.b, r.c, r.d, r.e, r.f, r.g, r.h]
  }

  /** The bytes of a word, most significant first. */
  function Bytes4(w: Word): (s: seq<Byte>)
    ensures |s| == 4
  {
    [((w >> 24) & 0xff) as Byte, ((w >> 16) & 0xff) as Byte, ((w >> 8) & 0xff) as Byte, (w & 0xff) as Byte]
  }

  /** The bytes of a word make up the word again: a digest is written as it is read. */
  lemma BytesOfWord(w: Word)
    ensures var b := Bytes4(w); Pack(b[0], b[1], b[2], b[3]) == w
  {
  }

  /** Byte `i` of a word, counted from the most significant. */
  function WordByte(w: Word, i: nat): Byte
    requires i < 4
  {
    Bytes4(w)[i]
  }

  function Output(r: Regs): (s: seq<Byte>)
    ensures |s| == 32
  {
    seq(32, i requires 0 <= i < 32 => WordByte(Words(r)[i / 4], i % 4))
  }

  /** The digest of a message. */
  function Digest(m: seq<Byte>): (s: seq<Byte>)
    ensures |s| == 32
  {
    Output(Chain(Pad(m)))
  }

  lemma ChainAppend(m: seq<Byte>, block: seq<Byte>)
    requires |m| % BLOCK == 0 && |block| == BLOCK
    ensures Chain(m + block) == Compress(Chain(m), block)
  {
    var n := m + block;
    assert n[..|n| - BLOCK] == m && n[|n| - BLOCK..] == block;
  }

  lemma PadZerosOf(len: nat, tail: nat)
    requires len % BLOCK == 0 && tail < BLOCK
    ensures PadZeros(len + tail) == if tail < 56 then 55 - tail else 119 - tail
  {
    assert (len + tail) % BLOCK == tail;
  }

  lemma Regroup(h: seq<Byte>, t: seq<Byte>, one: seq<Byte>, z: seq<Byte>, z': seq<Byte>, l: seq<Byte>)
    ensures h + t + one + z + l == h + (t + one + z + l)
    ensures h + t + one + (z + z') + l == h + (t + one + z) + (z' + l)
  {
  }

  lemma PadOf(head: seq<Byte>, tail: seq<Byte>)
    requires |head| % BLOCK == 0 && |tail| < BLOCK
    ensures Pad(head + tail) == head + tail + [0x80]
      + Repeat(0, if |tail| < 56 then 55 - |tail| else 119 - |tail|) + LengthField(8 * (|head| + |tail|))
  {
    hide LengthField, Repeat, PadZeros;
    PadZerosOf(|head|, |tail|);
  }

  /** A rest of fewer than 56 bytes is padded within its block. */
  lemma PadShort(head: seq<Byte>, tail: seq<Byte>, block: seq<Byte>)
    requires |head| % BLOCK == 0 && |tail| < 56
    requires block == tail + [0x80] + Repeat(0, 55 - |tail|) + LengthField(8 * (|head| + |tail|))
    ensures Chain(Pad(head + tail)) == Compress(Chain(head), block)
  {
    PadOf(head, tail);
    assert |block| == BLOCK;
    hide *;
    Regroup(head, tail, [0x80], Repeat(0, 55 - |tail|), [], LengthField(8 * (|head| + |tail|)));
    assert Pad(head + tail) == head + block;
    ChainAppend(head, block);
  }

  /** A longer rest needs a second block. */
  lemma PadLong(head: seq<Byte>, tail: seq<Byte>, block: seq<Byte>, last: seq<Byte>)
    requires |head| % BLOCK == 0 && 56 <= |tail| < BLOCK
    requires block == tail + [0x80] + Repeat(0, 63 - |tail|)
    requires last == Repeat(0, 56) + LengthField(8 * (|head| + |tail|))
    ensures Chain(Pad(head + tail)) == Compress(Compress(Chain(head), block), last)
  {
    PadLongOf(head, tail, block, last);
    ChainAppendTwo(head, block, last);
  }

  lemma ChainAppendTwo(m: seq<Byte>, b1: seq<Byte>, b2: seq<Byte>)
    requires |m| % BLOCK == 0 && |b1| == BLOCK && |b2| == BLOCK
    ensures |m + b1 + b2| % BLOCK == 0
    ensures Chain(m + b1 + b2) == Compress(Compress(Chain(m), b1), b2)
  {
    hide Compress, Chain;
    ChainAppend(m, b1);
    ChainAppend(m + b1, b2);
  }

  lemma PadLongOf(head: seq<Byte>, tail: seq<Byte>, block: seq<Byte>, last: seq<Byte>)
    requires |head| % BLOCK == 0 && 56 <= |tail| < BLOCK
    requires block == tail + [0x80] + Repeat(0, 63 - |tail|)
    requires last == Repeat(0, 56) + LengthField(8 * (|head| + |tail|))
    ensures Pad(head + tail) == head + block + last
  {
    PadOf(head, tail);
    RepeatConcat<Byte>(0, 63 - |tail|, 56);
    hide *;
    Regroup(head, tail, [0x80], Repeat(0, 63 - |tail|), Repeat(0, 56), LengthField(8 * (|head| + |tail|)));
    assert 63 - |tail| + 56 == 119 - |tail|;
    assert head + (tail + [0x80] + Repeat(0, 63 - |tail|)) + last == head + block + last;
  }

  /** The bits in `n` bytes, as a 64-bit counter holds them. */
  function BitCount(n: nat): (bits: nat)
    ensures bits < UINT64
  {
    8 * n % UINT64
  }

  lemma CountStep(n: nat)
    requires n % BLOCK == 0
    ensures (n + BLOCK) % BLOCK == 0
    ensures (BitCount(n) + 512) % UINT64 == BitCount(n + BLOCK)
  {
    assert 8 * (n + BLOCK) == 8 * n + 512;
  }

  /** One more block. */
  lemma BlockAbsorbed(m: seq<Byte>, block: seq<Byte>)
    requires |m| % BLOCK == 0 && |block| == BLOCK
    ensures |m + block| % BLOCK == 0 && Chain(m + block) == Compress(Chain(m), block)
    ensures (BitCount(|m|) + 512) % UINT64 == BitCount(|m + block|)
  {
    hide Chain, Compress;
    ChainAppend(m, block);
    CountStep(|m|);
  }

  /** The length field only sees the bit count modulo 2^64. */
  lemma LengthFieldMod(absorbed: nat, rest: nat)
    ensures LengthField((BitCount(absorbed) + 8 * rest) % UINT64) == LengthField(8 * (absorbed + rest))
  {
    assert 8 * (absorbed + rest) == 8 * absorbed + 8 * rest;
  }
}
