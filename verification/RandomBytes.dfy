/** The random byte stream of util.c. */
module RandomBytes {
  import opened Objects
  import opened Sha256
  import opened Sha256Streaming

  function XorAll(s: seq<Byte>, b: Byte): (r: seq<Byte>)
    ensures |r| == |s|
  {
    seq(|s|, i requires 0 <= i < |s| => s[i] ^ b)
  }

  /** HMAC-SHA256 with a 64-byte key (section 2 of RFC 2104). */
  function Hmac(key: seq<Byte>, m: seq<Byte>): (s: seq<Byte>)
    requires |key| == BLOCK
    ensures |s| == 32
  {
    Digest(XorAll(key, 0x5c) + Digest(XorAll(key, 0x36) + m))
  }

  /** Section 2 of RFC 2104, for whatever the inner and the outer pad come to. */
  lemma HmacIs(key: seq<Byte>, m: seq<Byte>, inner: seq<Byte>, outer: seq<Byte>)
    requires |key| == |inner| == |outer| == 64
    requires forall i :: 0 <= i < 64 ==> inner[i] ^ key[i] == 0x36 && outer[i] ^ key[i] == 0x5c
    ensures Hmac(key, m) == Digest(outer + Digest(inner + m))
  {
    hide Digest;
    forall i | 0 <= i < 64 ensures XorAll(key, 0x36)[i] == inner[i] && XorAll(key, 0x5c)[i] == outer[i] {
      XorBack(inner[i], key[i], 0x36);
      XorBack(outer[i], key[i], 0x5c);
    }
    assert XorAll(key, 0x36) == inner && XorAll(key, 0x5c) == outer;
  }

  lemma XorBack(x: Byte, k: Byte, b: Byte)
    requires x ^ k == b
    ensures k ^ b == x
  {
  }

  /** A 64-bit counter in memory order. */
  function CounterBytes(c: nat): (s: seq<Byte>)
    ensures |s| == 8
  {
    seq(8, i requires 0 <= i < 8 => ByteOf(c % UINT64, i))
  }

  /** The counter's bytes, the last one first, are the counter: the low byte comes first,
      and no two counters have the same bytes. */
  lemma CounterBytesIs(c: nat)
    ensures var s := CounterBytes(c);
      Numeral([s[7], s[6], s[5], s[4], s[3], s[2], s[1], s[0]]) == c % 0x1_0000_0000_0000_0000
  {
    EightBytes();
    var s := CounterBytes(c);
    BytesNumeral([s[7], s[6], s[5], s[4], s[3], s[2], s[1], s[0]], c % UINT64);
  }

  /** The first `n` bytes of HMAC blocks for counters `c`, `c + 1`, ... */
  function Stream(key: seq<Byte>, c: nat, n: nat): (s: seq<Byte>)
    requires |key| == BLOCK
    ensures |s| == n
    decreases n
  {
    var block := Hmac(key, CounterBytes(c));
    if n <= 32 then block[..n] else block + Stream(key, (c + 1) % UINT64, n - 32)
  }

  /** Byte by byte: which byte of which block each one is. */
  lemma {:induction false} StreamAt(key: seq<Byte>, c: nat, n: nat, i: nat)
    requires |key| == 64 && i < n && c < 0x1_0000_0000_0000_0000
    ensures Stream(key, c, n)[i] == Hmac(key, CounterBytes((c + i / 32) % 0x1_0000_0000_0000_0000))[i % 32]
    decreases n
  {
    hide Hmac, CounterBytes;
    if i >= 32 {
      StreamAt(key, (c + 1) % UINT64, n - 32, i - 32);
      CounterAhead(c, (i - 32) / 32);
      assert i / 32 == (i - 32) / 32 + 1 && i % 32 == (i - 32) % 32;
    }
  }

  lemma CounterAhead(c: nat, k: nat)
    ensures ((c + 1) % UINT64 + k) % UINT64 == (c + (k + 1)) % UINT64
  {
  }

  function Blocks(n: nat): nat {
    (n + 31) / 32
  }

  lemma NoBlocks(c: nat)
    requires c < UINT64
    ensures (c + Blocks(0)) % UINT64 == c
  {
  }

  lemma WholeBlock(key: seq<Byte>, c: nat, n: nat)
    requires |key| == BLOCK && n >= 32
    ensures Stream(key, c, n) == Hmac(key, CounterBytes(c)) + Stream(key, (c + 1) % UINT64, n - 32)
  {
    hide Hmac, CounterBytes;
    if n == 32 {
      var block := Hmac(key, CounterBytes(c));
      assert block[..32] == block + [];
    }
  }

  /** A request of whole blocks and the next one together are one longer request:
      no counter value serves both. */
  lemma {:induction false} StreamContinues(key: seq<Byte>, c: nat, m: nat, n: nat)
    requires |key| == BLOCK && c < UINT64 && m % 32 == 0
    ensures Stream(key, c, m + n) == Stream(key, c, m) + Stream(key, (c + Blocks(m)) % UINT64, n)
    decreases m
  {
    hide Hmac, CounterBytes, Stream, Blocks;
    if m == 0 {
      NoBlocks(c);
      assert Stream(key, c, 0) == [];
    } else {
      var c' := (c + 1) % UINT64;
      WholeBlock(key, c, m);
      WholeBlock(key, c, m + n);
      StreamContinues(key, c', m - 32, n);
      CounterStep(c, m, 32);
      var a, b := Stream(key, c', m - 32), Stream(key, (c + Blocks(m)) % UINT64, n);
      assert Hmac(key, CounterBytes(c)) + (a + b) == (Hmac(key, CounterBytes(c)) + a) + b;
    }
  }

  /** A digest fed in two pieces. */
  method DigestTwo(a: seq<Byte>, b: seq<Byte>) returns (hash: array<Byte>)
    requires |a| < UINT32 && |b| < UINT32
    ensures fresh(hash) && hash[..] == Digest(a + b)
  {
    hide Digest;
    var ctx := new Ctx();
    ctx.Update(a);
    ctx.Update(b);
    assert ctx.Msg() == a + b;
    hash := ctx.Final();
  }

  /** The static state of `get_random_bytes` once it is seeded. */
  class Generator {
    const seed: seq<Byte>
    var counter: nat

    ghost predicate Valid()
      reads this
    {
      |seed| == BLOCK && counter < UINT64
    }

    constructor (seed: seq<Byte>)
      requires |seed| == BLOCK
      ensures Valid() && this.seed == seed && counter == 0
    {
      this.seed := seed;
      counter := 0;
    }

    /** The seed with every byte combined with `b`. */
    method XorKey(b: Byte) returns (kxor: array<Byte>)
      requires Valid()
      ensures fresh(kxor) && kxor[..] == XorAll(seed, b)
    {
      kxor := new Byte[BLOCK](i requires 0 <= i < BLOCK => if i < |seed| then seed[i] else 0);
      for i := 0 to BLOCK
        invariant forall j :: 0 <= j < BLOCK ==> kxor[j] == if j < i then seed[j] ^ b else seed[j]
      {
        kxor[i] := kxor[i] ^ b;
      }
    }

    /** One HMAC block, by two passes of the streaming hash. */
    method NextBlock() returns (digest: array<Byte>)
      requires Valid()
      modifies this
      ensures Valid() && fresh(digest) && digest[..] == Hmac(seed, CounterBytes(old(counter)))
      ensures counter == (old(counter) + 1) % UINT64
    {
      hide Digest, CounterBytes, XorAll;
      var kxor := XorKey(0x36);
      digest := DigestTwo(kxor[..], CounterBytes(counter));
      kxor := XorKey(0x5c);
      digest := DigestTwo(kxor[..], digest[..]);
      counter := (counter + 1) % UINT64;
    }

    /** `get_random_bytes`: fills `p` from the stream and moves the counter on by one
        for each 32 bytes or part of them. */
    method Fill(p: array<Byte>)
      requires Valid()
      modifies this, p
      ensures Valid() && p[..] == Stream(seed, old(counter), p.Length)
      ensures counter == (old(counter) + Blocks(p.Length)) % UINT64
    {
      hide Hmac, CounterBytes, Stream, Blocks;
      var done: nat, len: nat := 0, p.Length;
      while len > 0
        invariant Valid() && done + len == p.Length
        invariant p[..done] + Stream(seed, counter, len) == Stream(seed, old(counter), p.Length)
        invariant (counter + Blocks(len)) % UINT64 == (old(counter) + Blocks(p.Length)) % UINT64
      {
        ghost var c := counter;
        var copylen := if len > 32 then 32 else len;
        var digest := NextBlock();
        ghost var before, rest := p[..done], Stream(seed, counter, len - copylen);
        StreamStep(seed, c, len, copylen);
        CounterStep(c, len, copylen);
        CopyOut(p, done, digest, copylen);
        assert before + (digest[..copylen] + rest) == p[..done + copylen] + rest;
        done, len := done + copylen, len - copylen;
      }
      assert p[..done] == p[..];
      StreamEnd(seed, counter);
    }
  }

  lemma StreamEnd(key: seq<Byte>, c: nat)
    requires |key| == BLOCK
    ensures Stream(key, c, 0) == [] && Blocks(0) == 0
  {
  }

  /** `memcpy` of the first bytes of a block. */
  method CopyOut(p: array<Byte>, at: nat, block: array<Byte>, n: nat)
    requires at + n <= p.Length && n <= block.Length && p != block
    modifies p
    ensures p[..at + n] == old(p[..at]) + block[..n]
  {
    forall i | 0 <= i < n {
      p[at + i] := block[i];
    }
  }

  lemma StreamStep(key: seq<Byte>, c: nat, len: nat, copylen: nat)
    requires |key| == BLOCK && 0 < len && copylen == if len > 32 then 32 else len
    ensures Stream(key, c, len) == Hmac(key, CounterBytes(c))[..copylen] + Stream(key, (c + 1) % UINT64, len - copylen)
  {
    hide Hmac, CounterBytes;
    assert Stream(key, (c + 1) % UINT64, 0) == [];
    var block := Hmac(key, CounterBytes(c));
    assert block[..32] == block && block[..copylen] + [] == block[..copylen];
  }

  lemma CounterStep(c: nat, len: nat, copylen: nat)
    requires 0 < len && copylen == if len > 32 then 32 else len
    ensures ((c + 1) % UINT64 + Blocks(len - copylen)) % UINT64 == (c + Blocks(len)) % UINT64
  {
    assert Blocks(len) == 1 + Blocks(len - copylen);
  }
}
