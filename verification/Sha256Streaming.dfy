/** The buffered SHA-256 of sha256.c, proved to give the digest of everything it was
    fed, however it was cut into pieces. */
module Sha256Streaming {
  import opened Objects
  import opened Sequences
  import opened Sha256

  class Ctx {
    const data: array<Byte>
    var datalen: nat
    var bitlen: nat
    const state: array<Word>
    /** The complete blocks fed so far. */
    ghost var absorbed: seq<Byte>

    /** Everything fed so far. */
    ghost function Msg(): seq<Byte>
      reads this, data
      requires datalen <= data.Length
    {
      absorbed + data[..datalen]
    }

    ghost function State(): Regs
      reads state
      requires state.Length == 8
    {
      Regs(state[0], state[1], state[2], state[3], state[4], state[5], state[6], state[7])
    }

    ghost predicate Shape()
    {
      data.Length == BLOCK && state.Length == 8 && data as object != state
    }

    /** `state` has absorbed the complete blocks, `data` holds the rest, `bitlen`
        counts the absorbed bits modulo 2^64. */
    ghost predicate Valid()
      reads this, data, state
    {
      Shape() && datalen < BLOCK && |absorbed| % BLOCK == 0 &&
      State() == Chain(absorbed) && bitlen == BitCount(|absorbed|)
    }

    /** `sha256_init` */
    constructor ()
      ensures Valid() && Msg() == [] && fresh(data) && fresh(state)
    {
      data := new Byte[BLOCK];
      state := new Word[8][INITIAL.a, INITIAL.b, INITIAL.c, INITIAL.d,
                           INITIAL.e, INITIAL.f, INITIAL.g, INITIAL.h];
      datalen, bitlen, absorbed := 0, 0, [];
    }

    /** The message schedule, in one array. */
    method Expand() returns (m: array<Word>)
      requires Shape()
      ensures fresh(m) && m.Length == 64
      ensures forall t :: 0 <= t < 64 ==> m[t] == Schedule(data[..], t)
    {
      hide Pack, Extend, Schedule;
      m := new Word[64];
      for i := 0 to 16
        invariant forall t :: 0 <= t < i ==> m[t] == Schedule(data[..], t)
      {
        ScheduleStart(data[..], i);
        m[i] := Pack(data[4 * i], data[4 * i + 1], data[4 * i + 2], data[4 * i + 3]);
      }
      for i := 16 to 64
        invariant forall t :: 0 <= t < i ==> m[t] == Schedule(data[..], t)
      {
        ScheduleStep(data[..], i);
        m[i] := Extend(m[i - 2], m[i - 7], m[i - 15], m[i - 16]);
      }
    }

    /** `sha256_transform`: 64 rounds over eight shifting variables. */
    method Transform()
      requires Shape()
      modifies state
      ensures State() == Compress(old(State()), old(data[..]))
    {
      hide Plus, Temp1, Temp2, Constant, Schedule;
      ghost var block, r := data[..], State();
      var m := Expand();
      var a, b, c, d := state[0], state[1], state[2], state[3];
      var e, f, g, h := state[4], state[5], state[6], state[7];
      for i := 0 to 64
        invariant Regs(a, b, c, d, e, f, g, h) == Rounds(block, r, i)
        invariant State() == r && data[..] == block
        invariant forall t :: 0 <= t < 64 ==> m[t] == Schedule(block, t)
      {
        var t1 := Temp1(e, f, g, h, Constant(i), m[i]);
        var t2 := Temp2(a, b, c);
        h := g;
        g := f;
        f := e;
        e := Plus(d, t1);
        d := c;
        c := b;
        b := a;
        a := Plus(t1, t2);
      }
      state[0] := Plus(state[0], a);
      state[1] := Plus(state[1], b);
      state[2] := Plus(state[2], c);
      state[3] := Plus(state[3], d);
      state[4] := Plus(state[4], e);
      state[5] := Plus(state[5], f);
      state[6] := Plus(state[6], g);
      state[7] := Plus(state[7], h);
    }

    /** Absorbs a full buffer. */
    method Absorb()
      requires Shape() && datalen == BLOCK && |absorbed| % BLOCK == 0
      requires State() == Chain(absorbed) && bitlen == BitCount(|absorbed|)
      modifies this, state
      ensures Valid() && datalen == 0 && absorbed == old(absorbed) + data[..]
    {
      hide Chain, Compress, BitCount;
      ghost var full := absorbed + data[..];
      BlockAbsorbed(absorbed, data[..]);
      Transform();
      bitlen, datalen, absorbed := (bitlen + 512) % UINT64, 0, full;
    }

    method PushByte(b: Byte)
      requires Valid()
      modifies this, data, state
      ensures Valid() && Msg() == old(Msg()) + [b]
    {
      hide Compress, Chain;
      data[datalen] := b;
      datalen := datalen + 1;
      assert data[..datalen] == old(data[..datalen]) + [b];
      if datalen == BLOCK {
        Absorb();
      }
    }

    /** `sha256_update`; its counter has 32 bits. */
    method Update(bytes: seq<Byte>)
      requires Valid() && |bytes| < UINT32
      modifies this, data, state
      ensures Valid() && Msg() == old(Msg()) + bytes
    {
      hide Compress, Chain;
      for i := 0 to |bytes|
        invariant Valid() && Msg() == old(Msg()) + bytes[..i]
      {
        PushByte(bytes[i]);
      }
      assert bytes[..|bytes|] == bytes;
    }

    /** Zeroes `data` from `from` up to `to`. */
    method Clear(from: nat, to: nat)
      requires Shape() && from <= to <= BLOCK
      modifies data
      ensures data[..] == old(data[..from]) + Repeat(0, to - from) + old(data[to..])
    {
      for i := from to to
        invariant forall j :: 0 <= j < BLOCK ==> data[j] == if from <= j < i then 0 else old(data[j])
      {
        data[i] := 0x00;
      }
    }

    lemma LengthFieldBytes(bits: nat)
      requires bits < UINT64
      ensures |LengthField(bits)| == 8 && forall i :: 0 <= i < 8 ==> LengthField(bits)[i] == ByteOf(bits, 7 - i)
    {
      hide ByteOf;
      assert bits % UINT64 == bits;
    }

    /** The bit count in the last eight bytes. */
    method PutLength()
      requires Shape() && bitlen < UINT64
      modifies data
      ensures data[..] == old(data[..56]) + LengthField(bitlen)
    {
      hide ByteOf, LengthField;
      LengthFieldBytes(bitlen);
      data[63] := ByteOf(bitlen, 0);
      data[62] := ByteOf(bitlen, 1);
      data[61] := ByteOf(bitlen, 2);
      data[60] := ByteOf(bitlen, 3);
      data[59] := ByteOf(bitlen, 4);
      data[58] := ByteOf(bitlen, 5);
      data[57] := ByteOf(bitlen, 6);
      data[56] := ByteOf(bitlen, 7);
      assert data[56..] == LengthField(bitlen);
      assert data[..56] == old(data[..56]);
      assert data[..] == data[..56] + data[56..];
    }

    /** Byte `i` of each state word. */
    method WriteColumn(hash: array<Byte>, i: nat)
      requires Shape() && hash.Length == 32 && hash as object != state && i < 4
      modifies hash
      ensures forall x :: 0 <= x < 32 ==> hash[x] == if x % 4 == i then WordByte(state[x / 4], i) else old(hash[x])
    {
      hide WordByte;
      for j := 0 to 8
        invariant forall x :: 0 <= x < 4 * j ==>
          hash[x] == if x % 4 == i then WordByte(state[x / 4], i) else old(hash[x])
        invariant forall x :: 4 * j <= x < 32 ==> hash[x] == old(hash[x])
      {
        hash[4 * j + i] := WordByte(state[j], i);
      }
    }

    method WriteOut(hash: array<Byte>)
      requires Shape() && hash.Length == 32 && hash as object != state
      modifies hash
      ensures hash[..] == Output(State())
    {
      hide WordByte;
      for i := 0 to 4
        invariant forall x :: 0 <= x < 32 && x % 4 < i ==> hash[x] == WordByte(state[x / 4], x % 4)
      {
        WriteColumn(hash, i);
      }
      assert Words(State()) == state[..];
    }

    /** `sha256_final`: pads, absorbs the last block or two, and writes the digest of
        everything fed. */
    method Final() returns (hash: array<Byte>)
      requires Valid()
      modifies this, data, state
      ensures fresh(hash) && hash[..] == Digest(old(Msg()))
    {
      hide Compress, Chain, LengthField, Repeat, Output;
      ghost var tail := data[..datalen];
      data[datalen] := 0x80;
      assert data[..datalen + 1] == tail + [0x80];
      ghost var block: seq<Byte>;
      if datalen < 56 {
        Clear(datalen + 1, 56);
      } else {
        Clear(datalen + 1, BLOCK);
        block := data[..];
        Transform();
        Clear(0, 56);
      }
      LengthFieldMod(|absorbed|, datalen);
      bitlen := (bitlen + datalen * 8) % UINT64;
      PutLength();
      if datalen < 56 {
        PadShort(absorbed, tail, data[..]);
      } else {
        PadLong(absorbed, tail, block, data[..]);
      }
      Transform();
      hash := new Byte[32];
      WriteOut(hash);
    }
  }

  /** The digest of a message fed in any pieces is the digest of the message. */
  method DigestOf(chunks: seq<seq<Byte>>) returns (hash: array<Byte>)
    requires forall i :: 0 <= i < |chunks| ==> |chunks[i]| < UINT32
    ensures fresh(hash) && hash[..] == Digest(Joined(chunks))
  {
    hide Digest;
    var ctx := new Ctx();
    for i := 0 to |chunks|
      invariant fresh(ctx) && fresh(ctx.data) && fresh(ctx.state)
      invariant ctx.Valid() && ctx.Msg() == Joined(chunks[..i])
    {
      ctx.Update(chunks[i]);
      assert chunks[..i + 1][..i] == chunks[..i];
    }
    assert chunks[..|chunks|] == chunks;
    hash := ctx.Final();
  }
}
