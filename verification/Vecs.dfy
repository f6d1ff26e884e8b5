/** The doubling vector of vec.c. */
module Vecs {
  import opened Buckets

  const VEC_INITIAL_CAP: nat := 2

  class Vec<T> {
    var len: nat
    var cap: nat
    var data: array<T>
    /** What unused cells are zeroed to. */
    const zero: T
    /** Elements ever pushed, and elements copied by growing. */
    ghost var pushed: nat
    ghost var copied: nat

    ghost predicate Valid()
      reads this, data
    {
      len <= cap == data.Length && cap >= VEC_INITIAL_CAP && len <= pushed &&
      copied + VEC_INITIAL_CAP == cap && (cap == VEC_INITIAL_CAP || cap <= 2 * pushed)
    }

    ghost function Repr(): set<object>
      reads this
    {
      {this, data}
    }

    ghost function Contents(): seq<T>
      reads this, data
      requires Valid()
    {
      data[..len]
    }

    constructor (zero: T)
      ensures Valid() && Contents() == [] && fresh(Repr()) && this.zero == zero
      ensures cap == VEC_INITIAL_CAP && pushed == copied == 0
    {
      this.zero := zero;
      data := new T[VEC_INITIAL_CAP](_ => zero);
      len, cap, pushed, copied := 0, VEC_INITIAL_CAP, 0, 0;
    }

    /** Doubles the buffer; the copy made here is the worst `realloc` can do. */
    method Realloc()
      requires Valid() && len == cap
      modifies this
      ensures Valid() && Contents() == old(Contents()) && fresh(data)
      ensures cap == 2 * old(cap) && len == old(len) && pushed == old(pushed)
      ensures copied == old(copied) + old(len)
    {
      var tmp := new T[2 * cap](_ => zero);
      forall i | 0 <= i < len {
        tmp[i] := data[i];
      }
      copied := copied + len;
      cap := 2 * cap;
      data := tmp;
    }

    method Push(x: T)
      requires Valid()
      modifies Repr()
      ensures Valid() && fresh(Repr() - old(Repr()))
      ensures Contents() == old(Contents()) + [x]
      ensures pushed == old(pushed) + 1
      ensures copied == old(copied) + if old(len == cap) then old(len) else 0
      ensures cap == if old(len == cap) then 2 * old(cap) else old(cap)
    {
      if len == cap {
        Realloc();
      }
      data[len] := x;
      len, pushed := len + 1, pushed + 1;
    }

    method Pop() returns (r: Option<T>)
      requires Valid()
      modifies this
      ensures Valid() && data == old(data) && cap == old(cap) && pushed == old(pushed) && copied == old(copied)
      ensures var s := old(Contents());
        if s == [] then r == None && Contents() == []
        else r == Some(s[|s| - 1]) && Contents() == s[..|s| - 1]
    {
      if len == 0 {
        return None;
      }
      r := Some(data[len - 1]);
      len := len - 1;
    }

    /** `memmove` of the elements behind a gap. */
    method CloseGap(idx: nat)
      requires idx <= len < data.Length
      modifies data
      ensures forall i :: 0 <= i < len ==> data[i] == old(if i < idx then data[i] else data[i + 1])
    {
      forall i | idx <= i < len {
        data[i] := data[i + 1];
      }
    }

    method RemoveAt(idx: nat) returns (r: Option<T>)
      requires Valid()
      modifies Repr()
      ensures Valid() && data == old(data) && cap == old(cap) && pushed == old(pushed) && copied == old(copied)
      ensures var s := old(Contents());
        if idx >= |s| then r == None && Contents() == s
        else r == Some(s[idx]) && Contents() == s[..idx] + s[idx + 1..]
    {
      if idx >= len {
        return None;
      }
      r := Some(data[idx]);
      len := len - 1;
      CloseGap(idx);
      data[len] := zero;
    }

    /** The index of the first element that `match_` accepts, or -1. */
    method Find(match_: T -> bool) returns (idx: int)
      requires Valid()
      ensures -1 <= idx < |Contents()|
      ensures idx >= 0 ==> match_(Contents()[idx])
      ensures forall i :: 0 <= i < (if idx >= 0 then idx else |Contents()|) ==> !match_(Contents()[i])
    {
      for i := 0 to len
        invariant forall j :: 0 <= j < i ==> !match_(data[j])
      {
        if match_(data[i]) {
          return i;
        }
      }
      return -1;
    }
  }

  // ---------------------------------------------------------------------- runs

  datatype VecOp<T> = PushOp(x: T) | PopOp | RemoveOp(idx: nat)

  function Applied<T>(s: seq<T>, op: VecOp<T>): seq<T> {
    match op
    case PushOp(x) => s + [x]
    case PopOp => if s == [] then [] else s[..|s| - 1]
    case RemoveOp(idx) => if idx >= |s| then s else s[..idx] + s[idx + 1..]
  }

  function AllApplied<T>(s: seq<T>, ops: seq<VecOp<T>>): seq<T> {
    if ops == [] then s else Applied(AllApplied(s, ops[..|ops| - 1]), ops[|ops| - 1])
  }

  function Pushes<T>(ops: seq<VecOp<T>>): nat {
    if ops == [] then 0 else Pushes(ops[..|ops| - 1]) + if ops[|ops| - 1].PushOp? then 1 else 0
  }

  method Perform<T>(vec: Vec<T>, op: VecOp<T>)
    requires vec.Valid()
    modifies vec.Repr()
    ensures vec.Valid() && fresh(vec.Repr() - old(vec.Repr()))
    ensures vec.Contents() == Applied(old(vec.Contents()), op)
    ensures vec.pushed == old(vec.pushed) + if op.PushOp? then 1 else 0
  {
    match op
    case PushOp(x) => vec.Push(x);
    case PopOp => var _ := vec.Pop();
    case RemoveOp(idx) => var _ := vec.RemoveAt(idx);
  }

  /** Amortised growth: over every run on a new vector the elements copied by growing
      are the capacity minus 2, and fewer than twice the pushes of the run, however
      many elements are popped or removed in between. */
  method AmortisedCopies<T>(zero: T, ops: seq<VecOp<T>>) returns (vec: Vec<T>)
    ensures vec.Valid() && vec.Contents() == AllApplied([], ops) && vec.pushed == Pushes(ops)
    ensures vec.copied == vec.cap - 2 && (vec.copied == 0 || vec.copied < 2 * Pushes(ops))
  {
    vec := new Vec(zero);
    for k := 0 to |ops|
      invariant vec.Valid() && fresh(vec.Repr())
      invariant vec.Contents() == AllApplied([], ops[..k]) && vec.pushed == Pushes(ops[..k])
    {
      assert ops[..k + 1][..k] == ops[..k];
      Perform(vec, ops[k]);
    }
    assert ops[..|ops|] == ops;
  }

  /** The two-ahead iterator over a non-empty vector; positions stand for pointers. */
  class VecIter<T> {
    var cur: Option<nat>
    var next: Option<nat>
    var nextIdx: nat
    const endIdx: nat
    const vec: Vec<T>

    /** `visited` elements lie before the current one. */
    ghost predicate At(visited: nat)
      reads this
    {
      nextIdx >= visited + 2 &&
      cur == (if visited <= endIdx then Some(visited) else None) &&
      next == (if visited + 1 <= endIdx then Some(visited + 1) else None) &&
      (visited <= endIdx + 1 ==> nextIdx == visited + 2)
    }

    constructor (vec: Vec<T>)
      requires vec.Valid() && vec.len > 0
      ensures this.vec == vec && endIdx == vec.len - 1 && At(0)
    {
      this.vec := vec;
      cur, next := None, None;
      nextIdx, endIdx := 0, vec.len - 1;
      new;
      Advance();
      Advance();
    }

    method Advance()
      modifies this
      ensures cur == old(next) && nextIdx == old(nextIdx) + 1
      ensures next == if old(nextIdx) > endIdx then None else Some(old(nextIdx))
    {
      cur := next;
      next := if nextIdx > endIdx then None else Some(nextIdx);
      nextIdx := nextIdx + 1;
    }
  }

  /** The loop every user of the iterator runs: each element once, in order. */
  method Elements<T>(vec: Vec<T>) returns (s: seq<T>)
    requires vec.Valid() && vec.len > 0
    ensures s == vec.Contents()
  {
    var iter := new VecIter(vec);
    s := [];
    while iter.cur.Some?
      invariant fresh(iter) && iter.vec == vec && vec.Valid() && iter.endIdx == vec.len - 1
      invariant |s| <= vec.len && iter.At(|s|) && s == vec.Contents()[..|s|]
      decreases vec.len - |s|
    {
      s := s + [vec.data[iter.cur.value]];
      iter.Advance();
    }
  }
}
