/** Sequences shared by several parts of the model. */
module Sequences {

  /** The concatenation of chunks. */
  function Joined<T>(chunks: seq<seq<T>>): seq<T> {
    if chunks == [] then [] else Joined(chunks[..|chunks| - 1]) + chunks[|chunks| - 1]
  }

  function Repeat<T>(x: T, n: nat): (s: seq<T>)
    ensures |s| == n && forall i :: 0 <= i < n ==> s[i] == x
  {
    seq(n, _ => x)
  }

  lemma RepeatConcat<T>(x: T, m: nat, n: nat)
    ensures Repeat(x, m + n) == Repeat(x, m) + Repeat(x, n)
  {
  }

  /** The chunks one after the other. */
  lemma {:induction false} JoinedConcat<T>(a: seq<seq<T>>, b: seq<seq<T>>)
    ensures Joined(a + b) == Joined(a) + Joined(b)
    decreases |b|
  {
    if b == [] {
      assert a + b == a;
    } else {
      var n := |b| - 1;
      JoinedConcat(a, b[..n]);
      assert (a + b)[..|a| + n] == a + b[..n];
      assert Joined(a) + Joined(b[..n]) + b[n] == Joined(a) + (Joined(b[..n]) + b[n]);
    }
  }

  lemma JoinedTwo<T>(x: seq<T>, y: seq<T>)
    ensures Joined([x]) == x && Joined([x, y]) == x + y
  {
    assert [x][..0] == [] && [x, y][..1] == [x];
  }
}
