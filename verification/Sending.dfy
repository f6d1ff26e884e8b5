/** How `write_to_client` pushes a reply into a socket. */
module Sending {
  /** No call takes more than the buffer. */
  predicate Fits(buf: string, amounts: seq<nat>) {
    forall i :: 0 <= i < |amounts| ==> amounts[i] <= |buf|
  }

  /** What a sequence of `write` calls puts on the wire, every one starting at the
      front of the buffer, and whether the loop of `write_to_client` ends by having
      counted enough bytes; a call after the last amount fails. */
  function Sent(buf: string, counted: nat, amounts: seq<nat>): (r: (string, bool))
    requires Fits(buf, amounts)
    decreases |amounts|
  {
    if counted >= |buf| then ("", true)
    else if amounts == [] then ("", false)
    else
      var (more, done) := Sent(buf, counted + amounts[0], amounts[1..]);
      (buf[..amounts[0]] + more, done)
  }

  /** The first call that writes anything writes everything. */
  predicate Whole(n: nat, amounts: seq<nat>) {
    n == 0 || amounts == [] || amounts[0] == n || (amounts[0] == 0 && Whole(n, amounts[1..]))
  }

  /** A finished loop has sent the buffer, a failed one nothing. */
  predicate Conserves(buf: string, amounts: seq<nat>)
    requires Fits(buf, amounts)
  {
    Sent(buf, 0, amounts) == if Sent(buf, 0, amounts).1 then (buf, true) else ("", false)
  }

  /** From `counted` on the calls write the buffer to its end, and every call's piece,
      which is taken from the front, is also what lies where it goes. */
  predicate InPlace(buf: string, counted: nat, amounts: seq<nat>)
    decreases |amounts|
  {
    counted == |buf|
    || (amounts != [] && counted + amounts[0] <= |buf|
        && buf[..amounts[0]] == buf[counted..counted + amounts[0]]
        && InPlace(buf, counted + amounts[0], amounts[1..]))
  }

  /** The calls write nothing at all, or the buffer in place. */
  predicate Seamless(buf: string, amounts: seq<nat>) {
    (forall i :: 0 <= i < |amounts| ==> amounts[i] == 0) || InPlace(buf, 0, amounts)
  }

  lemma {:induction false} InPlaceSends(buf: string, counted: nat, amounts: seq<nat>)
    requires Fits(buf, amounts) && counted <= |buf|
    ensures InPlace(buf, counted, amounts) <==> Sent(buf, counted, amounts) == (buf[counted..], true)
    decreases |amounts|
  {
    assert buf[|buf|..] == "";
    if counted < |buf| && amounts != [] {
      var a := amounts[0];
      var (more, done) := Sent(buf, counted + a, amounts[1..]);
      assert |buf[..a] + more| >= a && |buf[counted..]| == |buf| - counted;
      if counted + a <= |buf| {
        InPlaceSends(buf, counted + a, amounts[1..]);
        assert buf[counted..] == buf[counted..counted + a] + buf[counted + a..];
        SplitAt(buf[..a], more, buf[counted..counted + a], buf[counted + a..]);
      }
    }
  }

  lemma SplitAt(a: string, b: string, c: string, d: string)
    requires |a| == |c|
    ensures a + b == c + d <==> a == c && b == d
  {
    if a + b == c + d {
      assert (a + b)[..|a|] == a && (a + b)[|a|..] == b;
      assert (c + d)[..|c|] == c && (c + d)[|c|..] == d;
    }
  }

  lemma {:induction false} NothingSent(buf: string, counted: nat, amounts: seq<nat>)
    requires Fits(buf, amounts) && counted < |buf|
    ensures (forall i :: 0 <= i < |amounts| ==> amounts[i] == 0) <==> Sent(buf, counted, amounts) == ("", false)
    decreases |amounts|
  {
    if amounts != [] {
      if amounts[0] == 0 {
        NothingSent(buf, counted, amounts[1..]);
        assert buf[..0] + Sent(buf, counted, amounts[1..]).0 == Sent(buf, counted, amounts[1..]).0;
        if forall i :: 0 <= i < |amounts[1..]| ==> amounts[1..][i] == 0 {
          assert forall i :: 0 < i < |amounts| ==> amounts[i] == amounts[1..][i - 1];
        }
      } else {
        assert |buf[..amounts[0]]| > 0;
      }
    }
  }

  /** Which calls leave this reply intact. */
  lemma ConservesExactly(buf: string, amounts: seq<nat>)
    requires Fits(buf, amounts)
    ensures Conserves(buf, amounts) <==> Seamless(buf, amounts)
  {
    InPlaceSends(buf, 0, amounts);
    assert buf[0..] == buf;
    if buf != "" {
      NothingSent(buf, 0, amounts);
    }
  }

  lemma {:induction false} WholeConserves(buf: string, amounts: seq<nat>)
    requires Fits(buf, amounts)
    requires Whole(|buf|, amounts)
    ensures Conserves(buf, amounts)
    decreases |amounts|
  {
    if buf != "" && amounts != [] {
      if amounts[0] == |buf| {
        assert buf[..amounts[0]] + "" == buf;
      } else {
        WholeConserves(buf, amounts[1..]);
        assert buf[..0] + Sent(buf, 0, amounts[1..]).0 == Sent(buf, 0, amounts[1..]).0;
      }
    }
  }

  /** The first bytes a loop sends are the first bytes of the buffer. */
  lemma {:induction false} SentStart(buf: string, counted: nat, amounts: seq<nat>)
    requires Fits(buf, amounts)
    ensures var sent := Sent(buf, counted, amounts).0; sent != "" ==> buf != "" && sent[0] == buf[0]
    ensures var (sent, done) := Sent(buf, counted, amounts); done ==> counted + |sent| >= |buf|
    decreases |amounts|
  {
    if counted < |buf| && amounts != [] {
      SentStart(buf, counted + amounts[0], amounts[1..]);
    }
  }

  /** `n` bytes of which the first `k` differ from the others. */
  function Striped(n: nat, k: nat): (s: string)
    ensures |s| == n
  {
    seq(n, i => if i < k then 'a' else 'b')
  }

  lemma {:induction false} TornNotConserved(n: nat, amounts: seq<nat>)
    requires forall i :: 0 <= i < |amounts| ==> amounts[i] <= n
    requires !Whole(n, amounts)
    ensures exists buf :: |buf| == n && !Conserves(buf, amounts)
    decreases |amounts|
  {
    if amounts[0] == 0 {
      TornNotConserved(n, amounts[1..]);
      var buf :| |buf| == n && !Conserves(buf, amounts[1..]);
      assert buf[..0] + Sent(buf, 0, amounts[1..]).0 == Sent(buf, 0, amounts[1..]).0;
      assert !Conserves(buf, amounts);
    } else {
      var k := amounts[0];
      var buf := Striped(n, k);
      var (more, done) := Sent(buf, k, amounts[1..]);
      SentStart(buf, k, amounts[1..]);
      var sent := buf[..k] + more;
      assert sent[0] == 'a';
      if done {
        assert sent[k] == 'a' && buf[k] == 'b';
      }
      assert !Conserves(buf, amounts);
    }
  }

  /** Replies survive the write loop exactly when no call writes a proper part of the
      buffer: a torn write repeats bytes of some reply of that length. */
  lemma WritesConserve(n: nat, amounts: seq<nat>)
    requires forall i :: 0 <= i < |amounts| ==> amounts[i] <= n
    ensures (forall buf :: |buf| == n ==> Conserves(buf, amounts)) <==> Whole(n, amounts)
  {
    if Whole(n, amounts) {
      forall buf: string | |buf| == n ensures Conserves(buf, amounts) {
        WholeConserves(buf, amounts);
      }
    } else {
      TornNotConserved(n, amounts);
    }
  }
}
