/** What a run of a hash table comes to, key by key, told by the operations themselves. */
module TableHistories {
  import opened Buckets
  import opened TableRuns
  import opened HashTableRuns

  /** What was last stored under the key and not deleted since. */
  function ValueOf<K, V>(p: Policy<K>, ops: seq<Op<K, V>>, k: K): Option<V> {
    if ops == [] then None
    else
      var before, op := ValueOf(p, ops[..|ops| - 1], k), ops[|ops| - 1];
      if !p.same(k, op.key) then before
      else
        match op
        case DoInsert(_, v) => Some(v)
        case DoTryInsert(_, v) => if before.Some? then before else Some(v)
        case DoGet(_) => before
        case DoDelete(_) => None
  }

  /** What the last operation reports. */
  function Reported<K, V>(p: Policy<K>, ops: seq<Op<K, V>>): Reply<V>
    requires ops != []
  {
    var op := ops[|ops| - 1];
    var before := ValueOf(p, ops[..|ops| - 1], op.key);
    match op
    case DoInsert(_, _) => Done
    case DoTryInsert(_, _) => if before.Some? then InvKey else Done
    case DoGet(_) => Got(before)
    case DoDelete(_) => if before.Some? then Done else InvKey
  }

  /** How many operations made a new entry. */
  function MadeBy<K, V>(p: Policy<K>, ops: seq<Op<K, V>>): nat {
    if ops == [] then 0
    else
      var init, op := ops[..|ops| - 1], ops[|ops| - 1];
      MadeBy(p, init) + if (op.DoInsert? || op.DoTryInsert?) && ValueOf(p, init, op.key).None? then 1 else 0
  }

  /** One operation, for one key. */
  lemma StepGets<K(!new), V>(p: Policy<K>, ok: K -> bool, s: State<K, V>, op: Op<K, V>, k: K)
    requires Lawful(p, ok) && WellFormed(p, ok, s.table) && ok(op.key) && ok(k)
    ensures WellFormed(p, ok, Step(p, s, op).0.table)
    ensures var before := Get(p, s.table, k);
      Get(p, Step(p, s, op).0.table, k) ==
        if !p.same(k, op.key) then before
        else match op
          case DoInsert(_, v) => Some(v)
          case DoTryInsert(_, v) => if before.Some? then before else Some(v)
          case DoGet(_) => before
          case DoDelete(_) => None
  {
    hide Put, Get, Buckets.Delete, Resize, WellFormed, Count;
    GrownGets(p, ok, s.table);
    StepRefines(p, ok, s, op);
    var g := Grown(p, s.table);
    match op
    case DoInsert(key, v) => GetPut(p, ok, g, key, v, k);
    case DoTryInsert(key, v) =>
      GetPut(p, ok, g, key, v, k);
      if p.same(k, key) {
        SameGets(p, ok, s.table, k, key);
      }
    case DoGet(key) =>
    case DoDelete(key) => GetDelete(p, ok, s.table, key, k);
  }

  lemma GrownGets<K(!new), V>(p: Policy<K>, ok: K -> bool, t: Table<K, V>)
    requires Lawful(p, ok) && WellFormed(p, ok, t)
    ensures WellFormed(p, ok, Grown(p, t))
    ensures forall k :: ok(k) ==> Get(p, Grown(p, t), k) == Get(p, t, k)
  {
    ResizeLaws(p, ok, t);
  }

  /** Equal keys find the same. */
  lemma SameGets<K(!new), V>(p: Policy<K>, ok: K -> bool, t: Table<K, V>, a: K, b: K)
    requires Lawful(p, ok) && WellFormed(p, ok, t) && ok(a) && ok(b) && p.same(a, b)
    ensures Get(p, t, a) == Get(p, t, b)
  {
    var c := t[Slot(p, a, |t|)];
    assert Slot(p, a, |t|) == Slot(p, b, |t|);
    var i, j := Buckets.Find(p, c, a), Buckets.Find(p, c, b);
    assert forall n :: 0 <= n < |c| ==> ok(c[n].key) && (p.same(a, c[n].key) <==> p.same(b, c[n].key));
  }

  /** Over every run from a new table each key has what was last stored under it, every
      operation reports what the history of its key says, and the entries made are counted. */
  lemma {:induction false} RunByHistory<K(!new), V>(p: Policy<K>, ok: K -> bool, ops: seq<Op<K, V>>, k: K)
    requires Lawful(p, ok) && ok(k) && forall i :: 0 <= i < |ops| ==> ok(ops[i].key)
    ensures var (end, replies) := Run(p, State(Empty(32), 0, 0), ops);
      WellFormed(p, ok, end.table) && Get(p, end.table, k) == ValueOf(p, ops, k) && end.made == MadeBy(p, ops)
      && |replies| == |ops| && forall i :: 0 <= i < |ops| ==> replies[i] == Reported(p, ops[..i + 1])
    decreases |ops|
  {
    hide Run, Get, WellFormed, Lawful, Empty;
    if ops == [] {
      NoHistory<K, V>(p, ok, k);
    } else {
      var n := |ops| - 1;
      var start: State<K, V> := State(Empty(32), 0, 0);
      NotEmptyStart(p, ok, start);
      RunByHistory(p, ok, ops[..n], k);
      RunByHistory(p, ok, ops[..n], ops[n].key);
      RunSnoc(p, start, ops[..n], ops[n]);
      assert ops == ops[..n] + [ops[n]];
      var (before, replies) := Run(p, start, ops[..n]);
      StepGets(p, ok, before, ops[n], k);
      LastReported(p, ok, before, ops);
      forall i | 0 <= i < n ensures replies[i] == Reported(p, ops[..i + 1]) {
        assert ops[..n][..i + 1] == ops[..i + 1];
      }
      assert ops[..n + 1] == ops;
    }
  }

  lemma NotEmptyStart<K(!new), V>(p: Policy<K>, ok: K -> bool, s: State<K, V>)
    requires s.table == Empty(32)
    ensures |s.table| > 0
  {
  }

  lemma NoHistory<K(!new), V>(p: Policy<K>, ok: K -> bool, k: K)
    requires Lawful(p, ok)
    ensures var (end, replies) := Run<K, V>(p, State(Empty(32), 0, 0), []);
      WellFormed(p, ok, end.table) && Get(p, end.table, k) == None && end.made == 0 && replies == []
  {
    NewTable<K, V>(p, ok);
  }

  lemma LastReported<K(!new), V>(p: Policy<K>, ok: K -> bool, s: State<K, V>, ops: seq<Op<K, V>>)
    requires Lawful(p, ok) && WellFormed(p, ok, s.table) && ops != [] && ok(ops[|ops| - 1].key)
    requires Get(p, s.table, ops[|ops| - 1].key) == ValueOf(p, ops[..|ops| - 1], ops[|ops| - 1].key)
    requires s.made == MadeBy(p, ops[..|ops| - 1])
    ensures Step(p, s, ops[|ops| - 1]).1 == Reported(p, ops) && Step(p, s, ops[|ops| - 1]).0.made == MadeBy(p, ops)
  {
    hide Get, Insert, TryInsert, Buckets.Delete, WellFormed, Lawful, Count;
    GrownGets(p, ok, s.table);
  }
}
