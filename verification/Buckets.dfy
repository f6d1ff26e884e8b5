/** Chained hash tables as values: the slots of ht.c and set.c, each an
    association list with its newest entry first, and the laws that make such a
    table a finite map. */
module Buckets {

  datatype Option<+T> = None | Some(value: T)

  datatype Entry<+K, +V> = Entry(key: K, value: V)

  type Chain<K, V> = seq<Entry<K, V>>

  type Table<K, V> = seq<Chain<K, V>>

  /** How keys are compared (`key_cmp` gives 0) and hashed (siphash with a seed). */
  datatype Policy<!K> = Policy(same: (K, K) -> bool, hash: K -> nat)

  const INITIAL_CAP: nat := 32

  function Slot<K>(p: Policy<K>, k: K, capacity: nat): (slot: nat)
    requires capacity > 0
    ensures slot < capacity
  {
    p.hash(k) % capacity
  }

  /** The position of the first entry whose key compares equal, or the length. */
  function Find<K, V>(p: Policy<K>, c: Chain<K, V>, k: K): (i: nat)
    ensures i <= |c|
    ensures i < |c| ==> p.same(k, c[i].key)
    ensures forall j :: 0 <= j < i ==> !p.same(k, c[j].key)
  {
    if c == [] || p.same(k, c[0].key) then 0 else 1 + Find(p, c[1..], k)
  }

  function ChainGet<K, V>(p: Policy<K>, c: Chain<K, V>, k: K): Option<V> {
    var i := Find(p, c, k);
    if i < |c| then Some(c[i].value) else None
  }

  function ChainPut<K, V>(p: Policy<K>, c: Chain<K, V>, k: K, v: V): Chain<K, V> {
    var i := Find(p, c, k);
    if i < |c| then c[i := Entry(c[i].key, v)] else [Entry(k, v)] + c
  }

  function ChainDelete<K, V>(p: Policy<K>, c: Chain<K, V>, k: K): Chain<K, V> {
    var i := Find(p, c, k);
    if i < |c| then c[..i] + c[i + 1..] else c
  }

  /** The entries from slot `i` on, slot by slot and chain by chain. */
  function FlatFrom<K, V>(t: Table<K, V>, i: nat): Chain<K, V>
    requires i <= |t|
    decreases |t| - i
  {
    if i == |t| then [] else t[i] + FlatFrom(t, i + 1)
  }

  function Flat<K, V>(t: Table<K, V>): Chain<K, V> {
    FlatFrom(t, 0)
  }

  /** The number of entries. */
  function Count<K, V>(t: Table<K, V>): nat {
    |Flat(t)|
  }

  function Empty<K, V>(capacity: nat): (t: Table<K, V>)
    ensures |t| == capacity && forall i :: 0 <= i < capacity ==> t[i] == []
  {
    seq(capacity, _ => [])
  }

  function PushFront<K, V>(p: Policy<K>, t: Table<K, V>, e: Entry<K, V>): (r: Table<K, V>)
    requires |t| > 0
    ensures |r| == |t|
  {
    var slot := Slot(p, e.key, |t|);
    t[slot := [e] + t[slot]]
  }

  /** Pushes entries one after the other into the chains of `acc`. */
  function Rehash<K, V>(p: Policy<K>, es: Chain<K, V>, acc: Table<K, V>): (r: Table<K, V>)
    requires |acc| > 0
    ensures |r| == |acc|
    decreases |es|
  {
    if es == [] then acc else Rehash(p, es[1..], PushFront(p, acc, es[0]))
  }

  function Resize<K, V>(p: Policy<K>, t: Table<K, V>): (r: Table<K, V>)
    requires |t| > 0
    ensures |r| == 2 * |t|
  {
    Rehash(p, Flat(t), Empty(2 * |t|))
  }

  lemma {:induction false} RehashConcat<K, V>(p: Policy<K>, a: Chain<K, V>, b: Chain<K, V>, acc: Table<K, V>)
    requires |acc| > 0
    ensures Rehash(p, a + b, acc) == Rehash(p, b, Rehash(p, a, acc))
    decreases |a|
  {
    if a == [] {
      assert a + b == b;
    } else {
      assert (a + b)[1..] == a[1..] + b;
      RehashConcat(p, a[1..], b, PushFront(p, acc, a[0]));
    }
  }

  lemma {:induction false} RehashCount<K, V>(p: Policy<K>, es: Chain<K, V>, acc: Table<K, V>)
    requires |acc| > 0
    ensures Count(Rehash(p, es, acc)) == Count(acc) + |es|
    decreases |es|
  {
    if es != [] {
      var slot := Slot(p, es[0].key, |acc|);
      FlatUpdate(acc, slot, [es[0]] + acc[slot], 0);
      RehashCount(p, es[1..], PushFront(p, acc, es[0]));
    }
  }

  lemma ResizeCount<K, V>(p: Policy<K>, t: Table<K, V>)
    requires |t| > 0
    ensures Count(Resize(p, t)) == Count(t) && Resize(p, t) == Rehash(p, Flat(t), Empty(2 * |t|))
  {
    var empty: Table<K, V> := Empty(2 * |t|);
    EmptyFlat(empty, 0);
    RehashCount(p, Flat(t), empty);
  }

  function Grown<K, V>(p: Policy<K>, t: Table<K, V>): (r: Table<K, V>)
    requires |t| > 0
    ensures |r| > 0
  {
    if Count(t) == |t| then Resize(p, t) else t
  }

  function Get<K, V>(p: Policy<K>, t: Table<K, V>, k: K): Option<V>
    requires |t| > 0
  {
    ChainGet(p, t[Slot(p, k, |t|)], k)
  }

  function Put<K, V>(p: Policy<K>, t: Table<K, V>, k: K, v: V): (r: Table<K, V>)
    requires |t| > 0
    ensures |r| == |t|
  {
    var slot := Slot(p, k, |t|);
    t[slot := ChainPut(p, t[slot], k, v)]
  }

  function Insert<K, V>(p: Policy<K>, t: Table<K, V>, k: K, v: V): (r: Table<K, V>)
    requires |t| > 0
    ensures |r| > 0
  {
    Put(p, Grown(p, t), k, v)
  }

  function TryInsert<K, V>(p: Policy<K>, t: Table<K, V>, k: K, v: V): (r: Table<K, V>)
    requires |t| > 0
    ensures |r| > 0
  {
    var g := Grown(p, t);
    if Get(p, g, k).Some? then g else Put(p, g, k, v)
  }

  function Delete<K, V>(p: Policy<K>, t: Table<K, V>, k: K): (r: Table<K, V>)
    requires |t| > 0
    ensures |r| == |t|
  {
    var slot := Slot(p, k, |t|);
    t[slot := ChainDelete(p, t[slot], k)]
  }

  // -------------------------------------------------------------------- laws

  /** On the keys in `ok`, comparison is an equivalence that never equates keys
      with different hashes. */
  ghost predicate Lawful<K(!new)>(p: Policy<K>, ok: K -> bool) {
    (forall a | ok(a) :: p.same(a, a)) &&
    (forall a, b | ok(a) && ok(b) && p.same(a, b) :: p.same(b, a) && p.hash(a) == p.hash(b)) &&
    (forall a, b, c | ok(a) && ok(b) && ok(c) && p.same(a, b) && p.same(b, c) :: p.same(a, c))
  }

  /** With no `key_cmp` keys are compared as byte strings; then nothing need be
      assumed about the hash. */
  lemma BytewiseLawful(hash: string -> nat)
    ensures Lawful(Policy((a: string, b: string) => a == b, hash), _ => true)
  {
  }

  ghost predicate Unique<K, V>(p: Policy<K>, es: Chain<K, V>) {
    forall i, j :: 0 <= i < |es| && 0 <= j < |es| && i != j ==> !p.same(es[i].key, es[j].key)
  }

  ghost predicate AllOk<K, V>(ok: K -> bool, es: Chain<K, V>) {
    forall i :: 0 <= i < |es| ==> ok(es[i].key)
  }

  /** Every key lies in the slot of its hash. */
  ghost predicate Placed<K, V>(p: Policy<K>, t: Table<K, V>) {
    |t| > 0 && forall i, j :: 0 <= i < |t| && 0 <= j < |t[i]| ==> Slot(p, t[i][j].key, |t|) == i
  }

  /** Every key lies in the one chain of its slot and compares equal to no other. */
  ghost predicate WellFormed<K(!new), V>(p: Policy<K>, ok: K -> bool, t: Table<K, V>) {
    Placed(p, t) && forall i :: 0 <= i < |t| ==> AllOk(ok, t[i]) && Unique(p, t[i])
  }

  lemma ChainGetPut<K(!new), V>(p: Policy<K>, ok: K -> bool, c: Chain<K, V>, k: K, v: V, k': K)
    requires Lawful(p, ok) && AllOk(ok, c) && ok(k) && ok(k')
    ensures ChainGet(p, ChainPut(p, c, k, v), k') ==
      if p.same(k', k) then Some(v) else ChainGet(p, c, k')
  {
    var i, i' := Find(p, c, k), Find(p, c, k');
    var c' := ChainPut(p, c, k, v);
    if i < |c| {
      assert forall j :: 0 <= j < |c| ==> c'[j].key == c[j].key;
      assert Find(p, c', k') == i';
    } else if !p.same(k', k) {
      assert c'[1..] == c;
    }
  }

  lemma ChainGetDelete<K(!new), V>(p: Policy<K>, ok: K -> bool, c: Chain<K, V>, k: K, k': K)
    requires Lawful(p, ok) && AllOk(ok, c) && Unique(p, c) && ok(k) && ok(k')
    ensures ChainGet(p, ChainDelete(p, c, k), k') ==
      if p.same(k', k) then None else ChainGet(p, c, k')
  {
    var i, i' := Find(p, c, k), Find(p, c, k');
    var c' := ChainDelete(p, c, k);
    if i < |c| {
      assert forall j :: 0 <= j < |c'| ==> c'[j] == c[if j < i then j else j + 1];
      if p.same(k', k) {
        assert Find(p, c', k') == |c'|;
      } else if i' < |c| {
        assert i' != i;
        var at := if i' < i then i' else i' - 1;
        assert c'[at] == c[i'];
        assert Find(p, c', k') == at;
      } else {
        assert Find(p, c', k') == |c'|;
      }
    } else if p.same(k', k) {
      assert i' == |c|;
    }
  }

  /** Reading after writing, at table level: the defining law of a map. */
  lemma GetPut<K(!new), V>(p: Policy<K>, ok: K -> bool, t: Table<K, V>, k: K, v: V, k': K)
    requires Lawful(p, ok) && WellFormed(p, ok, t) && ok(k) && ok(k')
    ensures Get(p, Put(p, t, k, v), k') == if p.same(k', k) then Some(v) else Get(p, t, k')
  {
    ChainGetPut(p, ok, t[Slot(p, k, |t|)], k, v, k');
  }

  lemma GetDelete<K(!new), V>(p: Policy<K>, ok: K -> bool, t: Table<K, V>, k: K, k': K)
    requires Lawful(p, ok) && WellFormed(p, ok, t) && ok(k) && ok(k')
    ensures Get(p, Delete(p, t, k), k') == if p.same(k', k) then None else Get(p, t, k')
  {
    ChainGetDelete(p, ok, t[Slot(p, k, |t|)], k, k');
  }

  lemma PutWellFormed<K(!new), V>(p: Policy<K>, ok: K -> bool, t: Table<K, V>, k: K, v: V)
    requires Lawful(p, ok) && WellFormed(p, ok, t) && ok(k)
    ensures WellFormed(p, ok, Put(p, t, k, v))
  {
    var slot := Slot(p, k, |t|);
    var c, c' := t[slot], ChainPut(p, t[slot], k, v);
    if Find(p, c, k) < |c| {
      assert forall j :: 0 <= j < |c'| ==> c'[j].key == c[j].key;
    } else {
      assert forall j :: 0 < j < |c'| ==> c'[j] == c[j - 1];
    }
    assert AllOk(ok, c') && Unique(p, c');
  }

  lemma DeleteWellFormed<K(!new), V>(p: Policy<K>, ok: K -> bool, t: Table<K, V>, k: K)
    requires WellFormed(p, ok, t)
    ensures WellFormed(p, ok, Delete(p, t, k))
  {
    var slot := Slot(p, k, |t|);
    var c, c' := t[slot], ChainDelete(p, t[slot], k);
    var i := Find(p, c, k);
    assert forall j :: 0 <= j < |c'| ==> c'[j] == c[if j < i then j else j + 1];
    assert AllOk(ok, c') && Unique(p, c');
  }

  // ---------------------------------------------------------------- flattening

  /** Changing one chain changes the listing only by that chain's length. */
  lemma {:induction false} FlatUpdate<K, V>(t: Table<K, V>, slot: nat, c: Chain<K, V>, i: nat)
    requires slot < |t| && i <= |t|
    ensures |FlatFrom(t[slot := c], i)| ==
      |FlatFrom(t, i)| + if i <= slot then |c| - |t[slot]| else 0
    decreases |t| - i
  {
    if i < |t| {
      FlatUpdate(t, slot, c, i + 1);
    }
  }

  /** One more entry for a new key, none for an old one. */
  lemma PutCount<K, V>(p: Policy<K>, t: Table<K, V>, k: K, v: V)
    requires |t| > 0
    ensures Count(Put(p, t, k, v)) == Count(t) + if Get(p, t, k).Some? then 0 else 1
  {
    var slot := Slot(p, k, |t|);
    FlatUpdate(t, slot, ChainPut(p, t[slot], k, v), 0);
  }

  lemma DeleteCount<K, V>(p: Policy<K>, t: Table<K, V>, k: K)
    requires |t| > 0
    ensures Count(Delete(p, t, k)) == Count(t) - if Get(p, t, k).Some? then 1 else 0
  {
    var slot := Slot(p, k, |t|);
    FlatUpdate(t, slot, ChainDelete(p, t[slot], k), 0);
  }

  lemma {:induction false} EmptyFlat<K, V>(t: Table<K, V>, i: nat)
    requires i <= |t| && forall j :: i <= j < |t| ==> t[j] == []
    ensures FlatFrom(t, i) == []
    decreases |t| - i
  {
    if i < |t| {
      EmptyFlat(t, i + 1);
    }
  }

  /** Searching the whole listing finds what searching the key's slot finds. */
  lemma {:induction false} FlatGet<K(!new), V>(p: Policy<K>, ok: K -> bool, t: Table<K, V>, i: nat, k: K)
    requires Lawful(p, ok) && WellFormed(p, ok, t) && ok(k) && i <= |t|
    ensures ChainGet(p, FlatFrom(t, i), k) == if i <= Slot(p, k, |t|) then Get(p, t, k) else None
    decreases |t| - i
  {
    if i < |t| {
      FlatGet(p, ok, t, i + 1, k);
      ChainGetConcat(p, t[i], FlatFrom(t, i + 1), k);
      if i != Slot(p, k, |t|) {
        assert Find(p, t[i], k) == |t[i]|;
      }
    }
  }

  lemma {:induction false} ChainGetConcat<K, V>(p: Policy<K>, a: Chain<K, V>, b: Chain<K, V>, k: K)
    ensures ChainGet(p, a + b, k) == if ChainGet(p, a, k).Some? then ChainGet(p, a, k) else ChainGet(p, b, k)
  {
    if a == [] {
      assert a + b == b;
    } else {
      ChainGetConcat(p, a[1..], b, k);
      assert (a + b)[1..] == a[1..] + b;
    }
  }

  lemma {:induction false} FlatUnique<K(!new), V>(p: Policy<K>, ok: K -> bool, t: Table<K, V>, i: nat)
    requires Lawful(p, ok) && WellFormed(p, ok, t) && i <= |t|
    ensures Unique(p, FlatFrom(t, i)) && AllOk(ok, FlatFrom(t, i))
    ensures forall j :: 0 <= j < |FlatFrom(t, i)| ==> Slot(p, FlatFrom(t, i)[j].key, |t|) >= i
    decreases |t| - i
  {
    if i < |t| {
      FlatUnique(p, ok, t, i + 1);
      var a, b := t[i], FlatFrom(t, i + 1);
      forall x, y | 0 <= x < |a| && 0 <= y < |b| ensures !p.same(a[x].key, b[y].key) && !p.same(b[y].key, a[x].key) {
        assert Slot(p, a[x].key, |t|) == i;
      }
    }
  }

  // ------------------------------------------------------------------ resizing

  lemma PushFrontLaws<K(!new), V>(p: Policy<K>, ok: K -> bool, t: Table<K, V>, e: Entry<K, V>)
    requires Lawful(p, ok) && WellFormed(p, ok, t) && ok(e.key) && Get(p, t, e.key) == None
    ensures PushFront(p, t, e) == Put(p, t, e.key, e.value)
    ensures WellFormed(p, ok, PushFront(p, t, e))
    ensures Count(PushFront(p, t, e)) == Count(t) + 1
  {
    PutWellFormed(p, ok, t, e.key, e.value);
    PutCount(p, t, e.key, e.value);
  }

  lemma OnlyFirst<K(!new), V>(p: Policy<K>, ok: K -> bool, es: Chain<K, V>, k: K)
    requires Lawful(p, ok) && Unique(p, es) && AllOk(ok, es) && ok(k)
    requires es != [] && p.same(k, es[0].key)
    ensures ChainGet(p, es[1..], k) == None
  {
    assert forall j :: 0 < j < |es| ==> !p.same(k, es[j].key);
  }

  /** None of the entries `es` has a key in `t`. */
  ghost predicate AllNew<K, V>(p: Policy<K>, es: Chain<K, V>, t: Table<K, V>)
    requires |t| > 0
  {
    forall j :: 0 <= j < |es| ==> Get(p, t, es[j].key) == None
  }

  lemma AllNewStep<K(!new), V>(p: Policy<K>, ok: K -> bool, es: Chain<K, V>, t: Table<K, V>)
    requires Lawful(p, ok) && WellFormed(p, ok, t) && Unique(p, es) && AllOk(ok, es) && es != []
    requires AllNew(p, es, t)
    ensures AllNew(p, es[1..], PushFront(p, t, es[0]))
  {
    PushFrontLaws(p, ok, t, es[0]);
    forall j | 0 < j < |es| ensures Get(p, PushFront(p, t, es[0]), es[j].key) == None {
      GetPut(p, ok, t, es[0].key, es[0].value, es[j].key);
    }
  }

  /** Pushing distinct new entries one after the other keeps the table in shape. */
  lemma {:induction false} RehashWellFormed<K(!new), V>(p: Policy<K>, ok: K -> bool, es: Chain<K, V>, acc: Table<K, V>)
    requires Lawful(p, ok) && WellFormed(p, ok, acc) && Unique(p, es) && AllOk(ok, es)
    requires AllNew(p, es, acc)
    ensures WellFormed(p, ok, Rehash(p, es, acc))
    decreases |es|
  {
    if es != [] {
      PushFrontLaws(p, ok, acc, es[0]);
      AllNewStep(p, ok, es, acc);
      RehashWellFormed(p, ok, es[1..], PushFront(p, acc, es[0]));
    }
  }

  /** ... and makes all of them readable beside what was there. */
  lemma {:induction false} RehashGet<K(!new), V>(p: Policy<K>, ok: K -> bool, es: Chain<K, V>, acc: Table<K, V>, k: K)
    requires Lawful(p, ok) && WellFormed(p, ok, acc) && Unique(p, es) && AllOk(ok, es)
    requires AllNew(p, es, acc) && ok(k)
    ensures Get(p, Rehash(p, es, acc), k) == (
      if ChainGet(p, es, k).Some? then ChainGet(p, es, k) else Get(p, acc, k))
    decreases |es|
  {
    hide Put, PushFront, Get, Lawful;
    if es != [] {
      assert Get(p, acc, es[0].key) == None;
      PushFrontLaws(p, ok, acc, es[0]);
      AllNewStep(p, ok, es, acc);
      GetPut(p, ok, acc, es[0].key, es[0].value, k);
      RehashGet(p, ok, es[1..], PushFront(p, acc, es[0]), k);
      if p.same(k, es[0].key) {
        OnlyFirst(p, ok, es, k);
      }
    }
  }

  /** Doubling the table keeps the map, the number of entries and the shape. */
  lemma ResizeLaws<K(!new), V>(p: Policy<K>, ok: K -> bool, t: Table<K, V>)
    requires Lawful(p, ok) && WellFormed(p, ok, t)
    ensures WellFormed(p, ok, Resize(p, t)) && Count(Resize(p, t)) == Count(t)
    ensures forall k :: ok(k) ==> Get(p, Resize(p, t), k) == Get(p, t, k)
  {
    var empty: Table<K, V> := Empty(2 * |t|);
    EmptyFlat(empty, 0);
    FlatUnique(p, ok, t, 0);
    RehashWellFormed(p, ok, Flat(t), empty);
    ResizeCount(p, t);
    forall k | ok(k) ensures Get(p, Resize(p, t), k) == Get(p, t, k) {
      RehashGet(p, ok, Flat(t), empty, k);
      FlatGet(p, ok, t, 0, k);
    }
  }
}
