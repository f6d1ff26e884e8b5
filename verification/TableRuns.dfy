/** Whole runs of a hash table against runs of a finite map, and the cost of
    growing. */
module TableRuns {
  import opened Buckets

  // ------------------------------------------------------------ the map it is

  ghost function KeysOf<K(!new), V>(es: Chain<K, V>): set<K> {
    set i | 0 <= i < |es| :: es[i].key
  }

  /** `k` itself, not just a key equal to it, is stored. */
  ghost predicate HasKey<K(!new), V>(p: Policy<K>, t: Table<K, V>, k: K)
    requires |t| > 0
  {
    k in KeysOf(t[Slot(p, k, |t|)])
  }

  lemma {:induction false} FlatKeys<K(!new), V>(p: Policy<K>, t: Table<K, V>, i: nat, k: K)
    requires Placed(p, t) && i <= |t|
    ensures k in KeysOf(FlatFrom(t, i)) <==> i <= Slot(p, k, |t|) && HasKey(p, t, k)
    decreases |t| - i
  {
    if i < |t| {
      FlatKeys(p, t, i + 1, k);
      KeysOfConcat(t[i], FlatFrom(t, i + 1));
      if k in KeysOf(t[i]) {
        var j :| 0 <= j < |t[i]| && t[i][j].key == k;
        assert Slot(p, t[i][j].key, |t|) == i;
      }
    }
  }

  lemma KeysOfConcat<K(!new), V>(a: Chain<K, V>, b: Chain<K, V>)
    ensures KeysOf(a + b) == KeysOf(a) + KeysOf(b)
  {
    forall k | k in KeysOf(b) ensures k in KeysOf(a + b) {
      var j :| 0 <= j < |b| && b[j].key == k;
      assert (a + b)[|a| + j].key == k;
    }
    forall k | k in KeysOf(a) ensures k in KeysOf(a + b) {
      var j :| 0 <= j < |a| && a[j].key == k;
      assert (a + b)[j].key == k;
    }
  }

  lemma {:induction false} KeysOfSize<K(!new), V>(p: Policy<K>, ok: K -> bool, es: Chain<K, V>)
    requires Lawful(p, ok) && AllOk(ok, es) && Unique(p, es)
    ensures |KeysOf(es)| == |es|
  {
    if es != [] {
      KeysOfSize(p, ok, es[1..]);
      assert es == [es[0]] + es[1..];
      KeysOfConcat([es[0]], es[1..]);
      assert KeysOf([es[0]]) == {es[0].key} by {
        assert [es[0]][0].key == es[0].key;
      }
      assert es[0].key !in KeysOf(es[1..]);
    }
  }

  lemma StoredGet<K(!new), V>(p: Policy<K>, ok: K -> bool, t: Table<K, V>, k: K)
    requires Lawful(p, ok) && WellFormed(p, ok, t) && HasKey(p, t, k)
    ensures ok(k) && Get(p, t, k).Some?
  {
    var c := t[Slot(p, k, |t|)];
    var j :| 0 <= j < |c| && c[j].key == k;
    assert p.same(k, c[j].key);
  }

  /** The finite map a well-formed table stands for. */
  ghost function Abs<K(!new), V>(p: Policy<K>, ok: K -> bool, t: Table<K, V>): (m: map<K, V>)
    requires Lawful(p, ok) && WellFormed(p, ok, t)
    ensures forall k :: k in m <==> HasKey(p, t, k)
    ensures forall k :: k in m ==> ok(k) && Get(p, t, k) == Some(m[k])
  {
    AbsDefined(p, ok, t);
    map k | k in KeysOf(Flat(t)) :: Get(p, t, k).value
  }

  lemma AbsDefined<K(!new), V>(p: Policy<K>, ok: K -> bool, t: Table<K, V>)
    requires Lawful(p, ok) && WellFormed(p, ok, t)
    ensures forall k :: k in KeysOf(Flat(t)) <==> HasKey(p, t, k)
    ensures forall k :: HasKey(p, t, k) ==> ok(k) && Get(p, t, k).Some?
  {
    forall k ensures k in KeysOf(Flat(t)) <==> HasKey(p, t, k) {
      FlatKeys(p, t, 0, k);
    }
    forall k | HasKey(p, t, k) ensures ok(k) && Get(p, t, k).Some? {
      StoredGet(p, ok, t, k);
    }
  }

  /** `num_entries` is the size of the map. */
  lemma AbsSize<K(!new), V>(p: Policy<K>, ok: K -> bool, t: Table<K, V>)
    requires Lawful(p, ok) && WellFormed(p, ok, t)
    ensures |Abs(p, ok, t)| == Count(t)
  {
    FlatUnique(p, ok, t, 0);
    KeysOfSize(p, ok, Flat(t));
    AbsDefined(p, ok, t);
    assert Abs(p, ok, t).Keys == KeysOf(Flat(t));
  }

  /** The stored key that a key compares equal to. */
  ghost function Rep<K(!new), V>(p: Policy<K>, m: map<K, V>, k: K): (r: Option<K>)
    ensures r.Some? ==> r.value in m && p.same(k, r.value)
    ensures r.None? ==> forall s :: s in m ==> !p.same(k, s)
  {
    if s :| s in m && p.same(k, s) then Some(s) else None
  }

  /** The read result, and that at most one stored key can have given it. */
  lemma AbsGet<K(!new), V>(p: Policy<K>, ok: K -> bool, t: Table<K, V>, k: K)
    requires Lawful(p, ok) && WellFormed(p, ok, t) && ok(k)
    ensures var m := Abs(p, ok, t); var r := Rep(p, m, k);
      Get(p, t, k) == if r.Some? then Some(m[r.value]) else None
    ensures forall r, s :: r in Abs(p, ok, t) && s in Abs(p, ok, t) && p.same(r, s) ==> r == s
  {
    var m := Abs(p, ok, t);
    forall r, s | r in m && s in m && p.same(r, s) ensures r == s {
      SameStored(p, ok, t, r, s);
    }
    var c := t[Slot(p, k, |t|)];
    var i := Find(p, c, k);
    var r := Rep(p, m, k);
    if i < |c| {
      assert HasKey(p, t, c[i].key);
      assert c[i].key in m;
      SameStored(p, ok, t, r.value, c[i].key);
      assert Find(p, c, c[i].key) == i;
    } else {
      forall s | s in m && Slot(p, s, |t|) == Slot(p, k, |t|) ensures !p.same(k, s) {
        var j :| 0 <= j < |c| && c[j].key == s;
      }
    }
  }

  lemma SameStored<K(!new), V>(p: Policy<K>, ok: K -> bool, t: Table<K, V>, r: K, s: K)
    requires Lawful(p, ok) && WellFormed(p, ok, t)
    requires HasKey(p, t, r) && HasKey(p, t, s) && ok(r) && ok(s)
    requires p.same(r, s) || exists k :: ok(k) && p.same(k, r) && p.same(k, s)
    ensures r == s
  {
    var c := t[Slot(p, r, |t|)];
    assert p.same(r, s);
    var i :| 0 <= i < |c| && c[i].key == r;
    var j :| 0 <= j < |c| && c[j].key == s;
    assert Unique(p, c);
  }

  // ---------------------------------------------------------------- operations

  ghost function MapInsert<K(!new), V>(p: Policy<K>, m: map<K, V>, k: K, v: V): map<K, V> {
    var r := Rep(p, m, k);
    if r.Some? then m[r.value := v] else m[k := v]
  }

  ghost function MapGet<K(!new), V>(p: Policy<K>, m: map<K, V>, k: K): Option<V> {
    var r := Rep(p, m, k);
    if r.Some? then Some(m[r.value]) else None
  }

  ghost function MapDelete<K(!new), V>(p: Policy<K>, m: map<K, V>, k: K): map<K, V> {
    var r := Rep(p, m, k);
    if r.Some? then m - {r.value} else m
  }

  lemma KeysOfPut<K(!new), V>(p: Policy<K>, c: Chain<K, V>, k: K, v: V)
    ensures KeysOf(ChainPut(p, c, k, v)) ==
      KeysOf(c) + if Find(p, c, k) < |c| then {} else {k}
  {
    var i := Find(p, c, k);
    var c' := ChainPut(p, c, k, v);
    if i < |c| {
      assert forall j :: 0 <= j < |c| ==> c'[j].key == c[j].key;
      forall s | s in KeysOf(c) ensures s in KeysOf(c') {
        var j :| 0 <= j < |c| && c[j].key == s;
        assert c'[j].key == s;
      }
    } else {
      var e := [Entry(k, v)];
      KeysOfConcat(e, c);
      assert KeysOf(e) == {k} by {
        assert e[0].key == k;
      }
    }
  }

  lemma KeysOfDelete<K(!new), V>(p: Policy<K>, ok: K -> bool, c: Chain<K, V>, k: K)
    requires Lawful(p, ok) && AllOk(ok, c) && Unique(p, c)
    ensures KeysOf(ChainDelete(p, c, k)) ==
      KeysOf(c) - if Find(p, c, k) < |c| then {c[Find(p, c, k)].key} else {}
  {
    var i := Find(p, c, k);
    if i < |c| {
      KeysOfConcat(c[..i], c[i + 1..]);
      var here := [c[i]];
      KeysOfConcat(c[..i], here);
      KeysOfConcat(c[..i] + here, c[i + 1..]);
      assert c == c[..i] + here + c[i + 1..];
      assert KeysOf(here) == {c[i].key} by {
        assert here[0].key == c[i].key;
      }
      assert c[i].key !in KeysOf(c[..i]) && c[i].key !in KeysOf(c[i + 1..]);
    }
  }

  lemma HasKeyPut<K(!new), V>(p: Policy<K>, t: Table<K, V>, k: K, v: V, s: K)
    requires |t| > 0
    ensures HasKey(p, Put(p, t, k, v), s) <==> HasKey(p, t, s) || (s == k && Get(p, t, k) == None)
  {
    KeysOfPut(p, t[Slot(p, k, |t|)], k, v);
  }

  lemma HasKeyDelete<K(!new), V>(p: Policy<K>, ok: K -> bool, t: Table<K, V>, k: K, s: K)
    requires Lawful(p, ok) && WellFormed(p, ok, t) && ok(k)
    ensures HasKey(p, Delete(p, t, k), s) <==> HasKey(p, t, s) && !p.same(k, s)
  {
    var c := t[Slot(p, k, |t|)];
    KeysOfDelete(p, ok, c, k);
    if HasKey(p, t, s) && p.same(k, s) {
      StoredGet(p, ok, t, s);
      var j :| 0 <= j < |c| && c[j].key == s;
      assert Unique(p, c);
    }
  }

  /** Writing without growing is writing to the map. */
  lemma AbsPut<K(!new), V>(p: Policy<K>, ok: K -> bool, t: Table<K, V>, k: K, v: V)
    requires Lawful(p, ok) && WellFormed(p, ok, t) && ok(k)
    ensures WellFormed(p, ok, Put(p, t, k, v))
    ensures Abs(p, ok, Put(p, t, k, v)) == MapInsert(p, Abs(p, ok, t), k, v)
  {
    PutWellFormed(p, ok, t, k, v);
    forall s ensures var m' := Abs(p, ok, Put(p, t, k, v)); var n := MapInsert(p, Abs(p, ok, t), k, v);
      (s in m' <==> s in n) && (s in m' ==> m'[s] == n[s]) {
      AbsPutAt(p, ok, t, k, v, s);
    }
  }

  lemma AbsPutAt<K(!new), V>(p: Policy<K>, ok: K -> bool, t: Table<K, V>, k: K, v: V, s: K)
    requires Lawful(p, ok) && WellFormed(p, ok, t) && ok(k) && WellFormed(p, ok, Put(p, t, k, v))
    ensures var m' := Abs(p, ok, Put(p, t, k, v)); var n := MapInsert(p, Abs(p, ok, t), k, v);
      (s in m' <==> s in n) && (s in m' ==> m'[s] == n[s])
  {
    HasKeyPut(p, t, k, v, s);
    AbsGet(p, ok, t, k);
    if HasKey(p, Put(p, t, k, v), s) {
      StoredGet(p, ok, Put(p, t, k, v), s);
      GetPut(p, ok, t, k, v, s);
      var r := Rep(p, Abs(p, ok, t), k);
      if r.Some? && p.same(s, k) {
        SameStored(p, ok, t, r.value, s);
      }
    }
  }

  lemma AbsDelete<K(!new), V>(p: Policy<K>, ok: K -> bool, t: Table<K, V>, k: K)
    requires Lawful(p, ok) && WellFormed(p, ok, t) && ok(k)
    ensures WellFormed(p, ok, Delete(p, t, k))
    ensures Abs(p, ok, Delete(p, t, k)) == MapDelete(p, Abs(p, ok, t), k)
  {
    DeleteWellFormed(p, ok, t, k);
    forall s ensures var m' := Abs(p, ok, Delete(p, t, k)); var n := MapDelete(p, Abs(p, ok, t), k);
      (s in m' <==> s in n) && (s in m' ==> m'[s] == n[s]) {
      AbsDeleteAt(p, ok, t, k, s);
    }
  }

  lemma AbsDeleteAt<K(!new), V>(p: Policy<K>, ok: K -> bool, t: Table<K, V>, k: K, s: K)
    requires Lawful(p, ok) && WellFormed(p, ok, t) && ok(k) && WellFormed(p, ok, Delete(p, t, k))
    ensures var m' := Abs(p, ok, Delete(p, t, k)); var n := MapDelete(p, Abs(p, ok, t), k);
      (s in m' <==> s in n) && (s in m' ==> m'[s] == n[s])
  {
    HasKeyDelete(p, ok, t, k, s);
    AbsGet(p, ok, t, k);
    if HasKey(p, t, s) {
      StoredGet(p, ok, t, s);
      GetDelete(p, ok, t, k, s);
      var r := Rep(p, Abs(p, ok, t), k);
      if r.Some? && p.same(k, s) {
        SameStored(p, ok, t, r.value, s);
      }
    }
  }

  lemma {:induction false} HasKeyRehash<K(!new), V>(p: Policy<K>, es: Chain<K, V>, acc: Table<K, V>, s: K)
    requires |acc| > 0
    ensures HasKey(p, Rehash(p, es, acc), s) <==> s in KeysOf(es) || HasKey(p, acc, s)
    decreases |es|
  {
    if es != [] {
      var first := [es[0]];
      HasKeyRehash(p, es[1..], PushFront(p, acc, es[0]), s);
      KeysOfConcat(first, acc[Slot(p, es[0].key, |acc|)]);
      KeysOfConcat(first, es[1..]);
      assert es == first + es[1..];
      assert KeysOf(first) == {es[0].key} by {
        assert first[0].key == es[0].key;
      }
    }
  }

  /** Growing does not change the map. */
  lemma AbsGrown<K(!new), V>(p: Policy<K>, ok: K -> bool, t: Table<K, V>)
    requires Lawful(p, ok) && WellFormed(p, ok, t)
    ensures WellFormed(p, ok, Grown(p, t)) && Count(Grown(p, t)) == Count(t)
    ensures Abs(p, ok, Grown(p, t)) == Abs(p, ok, t)
  {
    ResizeLaws(p, ok, t);
    var empty: Table<K, V> := Empty(2 * |t|);
    forall s ensures HasKey(p, Resize(p, t), s) <==> HasKey(p, t, s) {
      HasKeyRehash(p, Flat(t), empty, s);
      FlatKeys(p, t, 0, s);
    }
    forall s | HasKey(p, t, s) ensures Get(p, Resize(p, t), s) == Get(p, t, s) {
      StoredGet(p, ok, t, s);
    }
  }

  // --------------------------------------------------------------------- runs

  datatype Op<K, V> = DoInsert(key: K, value: V) | DoTryInsert(key: K, value: V) | DoGet(key: K) | DoDelete(key: K)

  /** `HT_OK`, `HT_INV_KEY`, or what a lookup returned. */
  datatype Reply<V> = Done | InvKey | Got(found: Option<V>)

  /** A table with the entries its resizes have relinked and the entries its
      insertions have made. */
  datatype State<K, V> = State(table: Table<K, V>, relinked: nat, made: nat)

  function Step<K, V>(p: Policy<K>, s: State<K, V>, op: Op<K, V>): (State<K, V>, Reply<V>)
    requires |s.table| > 0
  {
    match op
    case DoInsert(k, v) =>
      var found := Get(p, Grown(p, s.table), k).Some?;
      (State(Insert(p, s.table, k, v), Relinked(s), s.made + if found then 0 else 1), Done)
    case DoTryInsert(k, v) =>
      var found := Get(p, Grown(p, s.table), k).Some?;
      (State(TryInsert(p, s.table, k, v), Relinked(s), s.made + if found then 0 else 1),
       if found then InvKey else Done)
    case DoGet(k) => (s, Got(Get(p, s.table, k)))
    case DoDelete(k) =>
      (s.(table := Delete(p, s.table, k)), if Get(p, s.table, k).Some? then Done else InvKey)
  }

  function Relinked<K, V>(s: State<K, V>): nat {
    s.relinked + if Count(s.table) == |s.table| then Count(s.table) else 0
  }

  ghost function MapStep<K(!new), V>(p: Policy<K>, m: map<K, V>, op: Op<K, V>): (map<K, V>, Reply<V>) {
    match op
    case DoInsert(k, v) => (MapInsert(p, m, k, v), Done)
    case DoTryInsert(k, v) =>
      if MapGet(p, m, k).Some? then (m, InvKey) else (MapInsert(p, m, k, v), Done)
    case DoGet(k) => (m, Got(MapGet(p, m, k)))
    case DoDelete(k) => (MapDelete(p, m, k), if MapGet(p, m, k).Some? then Done else InvKey)
  }

  /** Growth so far: the capacity is 32 doubled, as many entries were relinked as
      slots were added, and every doubling was paid for by entries made. */
  ghost predicate Accounted<K, V>(s: State<K, V>) {
    IsGrown(|s.table|) && s.relinked + INITIAL_CAP == |s.table|
    && Count(s.table) <= |s.table| && Count(s.table) <= s.made
    && (|s.table| == INITIAL_CAP || |s.table| <= 2 * s.made)
  }

  /** 32 times a power of two. */
  predicate IsGrown(n: nat) {
    n == 32 || (n > 32 && n % 2 == 0 && IsGrown(n / 2))
  }

  lemma StepRefines<K(!new), V>(p: Policy<K>, ok: K -> bool, s: State<K, V>, op: Op<K, V>)
    requires Lawful(p, ok) && WellFormed(p, ok, s.table) && ok(op.key)
    ensures WellFormed(p, ok, Step(p, s, op).0.table)
    ensures MapStep(p, Abs(p, ok, s.table), op) == (Abs(p, ok, Step(p, s, op).0.table), Step(p, s, op).1)
  {
    var t, g := s.table, Grown(p, s.table);
    AbsGrown(p, ok, t);
    AbsGet(p, ok, t, op.key);
    AbsGet(p, ok, g, op.key);
    match op
    case DoInsert(k, v) => AbsPut(p, ok, g, k, v);
    case DoTryInsert(k, v) => AbsPut(p, ok, g, k, v);
    case DoGet(k) =>
    case DoDelete(k) => AbsDelete(p, ok, t, k);
  }

  lemma StepAccounted<K(!new), V>(p: Policy<K>, ok: K -> bool, s: State<K, V>, op: Op<K, V>)
    requires Lawful(p, ok) && WellFormed(p, ok, s.table) && Accounted(s)
    ensures Accounted(Step(p, s, op).0)
  {
    var t, g := s.table, Grown(p, s.table);
    AbsGrown(p, ok, t);
    assert IsGrown(2 * |t|) by {
      assert 2 * |t| / 2 == |t|;
    }
    match op
    case DoInsert(k, v) => PutCount(p, g, k, v);
    case DoTryInsert(k, v) => PutCount(p, g, k, v);
    case DoGet(k) =>
    case DoDelete(k) => DeleteCount(p, t, k);
  }

  function Run<K, V>(p: Policy<K>, s: State<K, V>, ops: seq<Op<K, V>>): (r: (State<K, V>, seq<Reply<V>>))
    requires |s.table| > 0
    ensures |r.0.table| > 0
    decreases |ops|
  {
    if ops == [] then (s, [])
    else
      var (s', reply) := Step(p, s, ops[0]);
      var (end, replies) := Run(p, s', ops[1..]);
      (end, [reply] + replies)
  }

  ghost function MapRun<K(!new), V>(p: Policy<K>, m: map<K, V>, ops: seq<Op<K, V>>): (map<K, V>, seq<Reply<V>>)
    decreases |ops|
  {
    if ops == [] then (m, [])
    else
      var (m', reply) := MapStep(p, m, ops[0]);
      var (end, replies) := MapRun(p, m', ops[1..]);
      (end, [reply] + replies)
  }

  /** Every run of a table from any well-formed state gives the replies of the same
      run of the finite map it stands for, and ends standing for the map's end. */
  lemma {:induction false} RunRefines<K(!new), V>(p: Policy<K>, ok: K -> bool, s: State<K, V>, ops: seq<Op<K, V>>)
    requires Lawful(p, ok) && WellFormed(p, ok, s.table) && Accounted(s)
    requires forall i :: 0 <= i < |ops| ==> ok(ops[i].key)
    ensures var (end, replies) := Run(p, s, ops);
      WellFormed(p, ok, end.table) && Accounted(end)
      && MapRun(p, Abs(p, ok, s.table), ops) == (Abs(p, ok, end.table), replies)
      && |Abs(p, ok, end.table)| == Count(end.table)
    decreases |ops|
  {
    if ops == [] {
      AbsSize(p, ok, s.table);
    } else {
      StepRefines(p, ok, s, ops[0]);
      StepAccounted(p, ok, s, ops[0]);
      RunRefines(p, ok, Step(p, s, ops[0]).0, ops[1..]);
    }
  }

  /** A fresh table stands for the empty map. */
  lemma NewTable<K(!new), V>(p: Policy<K>, ok: K -> bool)
    requires Lawful(p, ok)
    ensures var t: Table<K, V> := Empty(INITIAL_CAP);
      WellFormed(p, ok, t) && Abs(p, ok, t) == map[] && Accounted(State(t, 0, 0))
  {
    var t: Table<K, V> := Empty(INITIAL_CAP);
    EmptyFlat(t, 0);
    assert Abs(p, ok, t).Keys == {};
  }

  /** However deletions and overwrites fall, resizes relink fewer than twice the
      entries ever made. */
  lemma GrowthBound<K(!new), V>(p: Policy<K>, ok: K -> bool, ops: seq<Op<K, V>>)
    requires Lawful(p, ok) && forall i :: 0 <= i < |ops| ==> ok(ops[i].key)
    ensures var end := Run(p, State(Empty(INITIAL_CAP), 0, 0), ops).0;
      IsGrown(|end.table|) && end.relinked == |end.table| - 32
      && (end.relinked == 0 || end.relinked < 2 * end.made)
  {
    NewTable<K, V>(p, ok);
    RunRefines(p, ok, State(Empty(INITIAL_CAP), 0, 0), ops);
  }
}
