/** The replies of the server as `execute_cmd` builds them, piece by piece. */
module Replies {
  import opened Objects
  import opened Wire
  import opened Vstrs
  import opened Builder
  import opened ServerSpec

  lemma EncodePairsPrefix(pairs: seq<Pair>, i: nat)
    requires i < |pairs|
    ensures EncodePairs(pairs[..i + 1]) ==
      EncodePairs(pairs[..i]) + (Encode(pairs[i].key) + Encode(pairs[i].value))
  {
    EncodePairsConcat(pairs[..i], [pairs[i]]);
    assert pairs[..i + 1] == pairs[..i] + [pairs[i]];
    var one := Encode(pairs[i].key) + Encode(pairs[i].value);
    assert EncodePairs([pairs[i]]) == one + EncodePairs([]);
    assert one + "" == one;
  }

  lemma {:induction false} EncodePairsConcat(a: seq<Pair>, b: seq<Pair>)
    ensures EncodePairs(a + b) == EncodePairs(a) + EncodePairs(b)
  {
    if a == [] {
      assert a + b == b;
    } else {
      assert (a + b)[1..] == a[1..] + b;
      EncodePairsConcat(a[1..], b);
    }
  }

  lemma {:induction false} PairEncodable(pairs: seq<Pair>, i: nat)
    requires EncodablePairs(pairs) && i < |pairs|
    ensures Encodable(pairs[i].key) && Encodable(pairs[i].value)
  {
    if i > 0 {
      PairEncodable(pairs[1..], i - 1);
    }
  }

  method AddPair(b: Vstr, p: Pair) returns (res: int)
    requires b.Valid() && Encodable(p.key) && Encodable(p.value)
    modifies b, b.small, b.data
    ensures b.Valid() && (b.data == old(b.data) || fresh(b.data))
    ensures Appended(old(b.Contents()), b.Contents(), Encode(p.key) + Encode(p.value), res)
  {
    ghost var c0 := b.Contents();
    res := AddObject(b, p.key);
    ghost var c1 := b.Contents();
    if res == -1 {
      AppendedStop(c0, c1, Encode(p.key), Encode(p.value));
      return;
    }
    res := AddObject(b, p.value);
    AppendedThen(c0, c1, b.Contents(), Encode(p.key), Encode(p.value), res);
  }

  /** Once one pair is refused the whole table does not fit. */
  lemma PairsRest(c0: string, c1: string, c2: string, pairs: seq<Pair>, i: nat)
    requires i < |pairs| && Appended(c0, c1, EncodePairs(pairs[..i]), 0)
    requires Appended(c1, c2, Encode(pairs[i].key) + Encode(pairs[i].value), -1)
    ensures Appended(c0, c2, EncodePairs(pairs), -1)
  {
    hide *;
    var upTo, after := pairs[..i + 1], pairs[i + 1..];
    AppendedThen(c0, c1, c2, EncodePairs(pairs[..i]), Encode(pairs[i].key) + Encode(pairs[i].value), -1);
    EncodePairsPrefix(pairs, i);
    EncodePairsConcat(upTo, after);
    assert upTo + after == pairs;
    AppendedStop(c0, c2, EncodePairs(upTo), EncodePairs(after));
  }

  /** The pairs INFO writes one after the other. */
  method AddPairs(b: Vstr, pairs: seq<Pair>) returns (res: int)
    requires b.Valid() && EncodablePairs(pairs)
    modifies b, b.small, b.data
    ensures b.Valid() && (b.data == old(b.data) || fresh(b.data))
    ensures Appended(old(b.Contents()), b.Contents(), EncodePairs(pairs), res)
  {
    hide Encode, EncodablePairs, Vstr.Valid, Vstr.Contents;
    ghost var c0 := b.Contents();
    res := 0;
    for i := 0 to |pairs|
      invariant b.Valid() && (b.data == old(b.data) || fresh(b.data))
      invariant res == 0 && Appended(c0, b.Contents(), EncodePairs(pairs[..i]), 0)
    {
      ghost var c1 := b.Contents();
      PairEncodable(pairs, i);
      EncodePairsPrefix(pairs, i);
      res := AddPair(b, pairs[i]);
      if res == -1 {
        PairsRest(c0, c1, b.Contents(), pairs, i);
        return;
      }
      AppendedThen(c0, c1, b.Contents(), EncodePairs(pairs[..i]), Encode(pairs[i].key) + Encode(pairs[i].value), 0);
    }
    assert pairs[..|pairs|] == pairs;
  }

  method AddListing(b: Vstr, n: nat, items: seq<Obj>) returns (res: int)
    requires b.Valid() && EncodableAll(items)
    modifies b, b.small, b.data
    ensures b.Valid() && (b.data == old(b.data) || fresh(b.data))
    ensures Appended(old(b.Contents()), b.Contents(), EncodeCount('*', n) + EncodeAll(items), res)
  {
    ghost var c0 := b.Contents();
    res := AddArray(b, n);
    ghost var c1 := b.Contents();
    if res == -1 {
      AppendedStop(c0, c1, EncodeCount('*', n), EncodeAll(items));
      return;
    }
    res := AddItems(b, items);
    AppendedThen(c0, c1, b.Contents(), EncodeCount('*', n), EncodeAll(items), res);
  }

  method AddReport(b: Vstr, pairs: seq<Pair>) returns (res: int)
    requires b.Valid() && EncodablePairs(pairs)
    modifies b, b.small, b.data
    ensures b.Valid() && (b.data == old(b.data) || fresh(b.data))
    ensures Appended(old(b.Contents()), b.Contents(), EncodeCount('%', |pairs|) + EncodePairs(pairs), res)
  {
    ghost var c0 := b.Contents();
    res := AddHt(b, |pairs|);
    ghost var c1 := b.Contents();
    if res == -1 {
      AppendedStop(c0, c1, EncodeCount('%', |pairs|), EncodePairs(pairs));
      return;
    }
    res := AddPairs(b, pairs);
    AppendedThen(c0, c1, b.Contents(), EncodeCount('%', |pairs|), EncodePairs(pairs), res);
  }

  /** The bytes of an answer: all of them are appended, or they do not fit. */
  method AddAnswer(b: Vstr, a: Answer) returns (res: int)
    requires b.Valid() && Sendable(a)
    modifies b, b.small, b.data
    ensures b.Valid() && (b.data == old(b.data) || fresh(b.data))
    ensures Appended(old(b.Contents()), b.Contents(), Bytes(a), res)
  {
    match a
    case Silent => res := 0;
    case Simple(s) => res := AddSimple(b, s);
    case Fault(s) => res := AddErr(b, s);
    case Value(o) => res := AddObject(b, o);
    case Listing(n, items) => res := AddListing(b, n, items);
    case Report(pairs) => res := AddReport(b, pairs);
  }
}
