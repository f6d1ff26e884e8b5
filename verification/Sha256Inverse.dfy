/** The compression function of SHA-256 run backwards: a step of a hash value can be undone
    when the block is known, so nothing of the old hash value is lost or left out. */
module Sha256Inverse {
  import opened Sha256

  function Minus(x: Word, y: Word): Word {
    x - y
  }

  /** The working variables before a round, from those after it. */
  function Unround(r: Regs, k: Word, w: Word): Regs {
    var t1 := Minus(r.a, Temp2(r.b, r.c, r.d));
    var h := Minus(Minus(Minus(Minus(t1, w), k), Ch(r.f, r.g, r.h)), BigSigma1(r.f));
    Regs(r.b, r.c, r.d, Minus(r.e, t1), r.f, r.g, r.h, h)
  }

  /** The working variables before the first of `t` rounds. */
  function Unrounds(block: seq<Byte>, r: Regs, t: nat): Regs
    requires |block| == BLOCK && t <= 64
    decreases t
  {
    if t == 0 then r else Unrounds(block, Unround(r, Constant(t - 1), Schedule(block, t - 1)), t - 1)
  }

  function Subtract(s: Regs, r: Regs): Regs {
    Regs(Minus(s.a, r.a), Minus(s.b, r.b), Minus(s.c, r.c), Minus(s.d, r.d),
         Minus(s.e, r.e), Minus(s.f, r.f), Minus(s.g, r.g), Minus(s.h, r.h))
  }

  lemma PlusUndone(x: Word, y: Word)
    ensures Minus(Plus(x, y), x) == y && Minus(Plus(x, y), y) == x
  {
  }

  lemma Temp1Undone(e: Word, f: Word, g: Word, h: Word, k: Word, w: Word)
    ensures Minus(Minus(Minus(Minus(Temp1(e, f, g, h, k, w), w), k), Ch(e, f, g)), BigSigma1(e)) == h
  {
    hide BigSigma1, Ch, Plus, Minus;
    PlusUndone(Plus(Plus(Plus(h, BigSigma1(e)), Ch(e, f, g)), k), w);
    PlusUndone(Plus(Plus(h, BigSigma1(e)), Ch(e, f, g)), k);
    PlusUndone(Plus(h, BigSigma1(e)), Ch(e, f, g));
    PlusUndone(h, BigSigma1(e));
  }

  lemma RoundUndone(r: Regs, k: Word, w: Word)
    ensures Unround(Round(r, k, w), k, w) == r
  {
    hide BigSigma1, Ch, Temp1, Temp2, Plus, Minus;
    PlusUndone(Temp1(r.e, r.f, r.g, r.h, k, w), Temp2(r.a, r.b, r.c));
    PlusUndone(r.d, Temp1(r.e, r.f, r.g, r.h, k, w));
    Temp1Undone(r.e, r.f, r.g, r.h, k, w);
  }

  lemma {:induction false} RoundsUndone(block: seq<Byte>, r: Regs, t: nat)
    requires |block| == BLOCK && t <= 64
    ensures Unrounds(block, Rounds(block, r, t), t) == r
  {
    hide Round, Unround, Constant, Schedule;
    if t > 0 {
      RoundUndone(Rounds(block, r, t - 1), Constant(t - 1), Schedule(block, t - 1));
      RoundsUndone(block, r, t - 1);
    }
  }

  /** The old hash value taken from the new one, and the rounds undone, gives the old one:
      it is what the rounds start from and what their outcome is added to. */
  lemma CompressUndone(r: Regs, block: seq<Byte>)
    requires |block| == BLOCK
    ensures Unrounds(block, Subtract(Compress(r, block), r), 64) == r
  {
    hide Rounds, Unrounds, Plus, Minus;
    var s := Rounds(block, r, 64);
    PlusUndone(r.a, s.a);
    PlusUndone(r.b, s.b);
    PlusUndone(r.c, s.c);
    PlusUndone(r.d, s.d);
    PlusUndone(r.e, s.e);
    PlusUndone(r.f, s.f);
    PlusUndone(r.g, s.g);
    PlusUndone(r.h, s.h);
    RoundsUndone(block, r, 64);
  }
}
