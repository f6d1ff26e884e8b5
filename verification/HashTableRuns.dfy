/** Runs of operations on a hash table object. */
module HashTableRuns {
  import opened Buckets
  import opened TableRuns
  import opened HashTables

  /** The object as a state of the runs, with the nodes it has moved and made. */
  ghost function StateOf<K, V>(ht: HashTable<K, V>): State<K, V>
    reads ht
  {
    State(ht.table, ht.relinked, ht.made)
  }

  method Find<K, V>(ht: HashTable<K, V>, key: K) returns (r: Option<V>)
    requires ht.Valid()
    ensures ht.Valid() && ht.Repr() == old(ht.Repr()) && StateOf(ht) == old(StateOf(ht))
    ensures r == Get(ht.policy, ht.table, key)
  {
    hide Get;
    r := ht.Get(key);
  }

  /** One operation on the linked nodes is one step of the run. */
  method Perform<K, V>(ht: HashTable<K, V>, op: Op<K, V>) returns (reply: Reply<V>)
    requires ht.Valid()
    modifies ht.Repr()
    ensures ht.Valid() && fresh(ht.Repr() - old(ht.Repr()))
    ensures (StateOf(ht), reply) == Step(ht.policy, old(StateOf(ht)), op)
  {
    hide HashTable.Valid, HashTable.Repr, Insert, TryInsert, Delete, Get, Grown, Count;
    NotEmpty(ht);
    match op
    case DoInsert(k, v) =>
      ht.Insert(k, v);
      reply := Done;
    case DoTryInsert(k, v) =>
      var ok := ht.TryInsert(k, v);
      reply := if ok then Done else InvKey;
    case DoGet(k) =>
      var found := Find(ht, k);
      reply := Got(found);
    case DoDelete(k) =>
      var ok := ht.Delete(k);
      reply := if ok then Done else InvKey;
  }

  lemma NotEmpty<K, V>(ht: HashTable<K, V>)
    requires ht.Valid()
    ensures |ht.table| > 0
  {
  }

  /** The run is cut where the next operation goes. */
  lemma {:induction false} RunSnoc<K, V>(p: Policy<K>, s: State<K, V>, ops: seq<Op<K, V>>, op: Op<K, V>)
    requires |s.table| > 0
    ensures var (end, replies) := Run(p, s, ops); var (next, reply) := Step(p, end, op);
      Run(p, s, ops + [op]) == (next, replies + [reply])
    decreases |ops|
  {
    hide Step;
    if ops == [] {
      assert [] + [op] == [op] && [op][1..] == [];
      StepKeepsSlots(p, s, op);
      var (next, reply) := Step(p, s, op);
      assert Run(p, s, [op]) == (next, [reply] + []);
      assert [reply] + [] == [] + [reply];
    } else {
      assert (ops + [op])[1..] == ops[1..] + [op];
      StepKeepsSlots(p, s, ops[0]);
      RunSnoc(p, Step(p, s, ops[0]).0, ops[1..], op);
      var (end, replies) := Run(p, Step(p, s, ops[0]).0, ops[1..]);
      assert [Step(p, s, ops[0]).1] + (replies + [Step(p, end, op).1])
        == ([Step(p, s, ops[0]).1] + replies) + [Step(p, end, op).1];
    }
  }

  lemma StepKeepsSlots<K, V>(p: Policy<K>, s: State<K, V>, op: Op<K, V>)
    requires |s.table| > 0
    ensures |Step(p, s, op).0.table| > 0
  {
  }

  /** Any sequence of operations on the object is the run of the table, replies and
      counts of moved and made nodes included. */
  method RunAll<K, V>(ht: HashTable<K, V>, ops: seq<Op<K, V>>) returns (replies: seq<Reply<V>>)
    requires ht.Valid()
    modifies ht.Repr()
    ensures ht.Valid() && fresh(ht.Repr() - old(ht.Repr())) && |old(ht.table)| > 0
    ensures (StateOf(ht), replies) == Run(ht.policy, old(StateOf(ht)), ops)
  {
    hide HashTable.Valid, HashTable.Repr, Step, Run;
    NotEmpty(ht);
    RunNone(ht.policy, StateOf(ht));
    replies := [];
    for k := 0 to |ops|
      invariant ht.Valid() && fresh(ht.Repr() - old(ht.Repr())) && |old(ht.table)| > 0
      invariant (StateOf(ht), replies) == Run(ht.policy, old(StateOf(ht)), ops[..k])
    {
      NotEmpty(ht);
      RunSnoc(ht.policy, old(StateOf(ht)), ops[..k], ops[k]);
      assert ops[..k] + [ops[k]] == ops[..k + 1];
      ghost var before := ht.Repr();
      label Before:
      var reply := Perform(ht, ops[k]);
      forall o: object | o in ht.Repr() ensures o in before || fresh(o) {
        assert o !in before ==> o in ht.Repr() - before && !old@Before(allocated(o));
      }
      replies := replies + [reply];
    }
    assert ops[..|ops|] == ops;
  }

  lemma RunNone<K, V>(p: Policy<K>, s: State<K, V>)
    requires |s.table| > 0
    ensures Run(p, s, []) == (s, [])
  {
  }

  /** Amortised growth of the object: over every run on a new table, the nodes that
      resizes moved are the capacity minus 32, fewer than twice the nodes made. */
  method AmortisedMoves<K(!new), V>(p: Policy<K>, ghost ok: K -> bool, ops: seq<Op<K, V>>) returns (ht: HashTable<K, V>)
    requires Lawful(p, ok) && forall i :: 0 <= i < |ops| ==> ok(ops[i].key)
    ensures ht.Valid() && ht.policy == p && IsGrown(ht.capacity) && ht.relinked == ht.capacity - 32
    ensures ht.relinked == 0 || ht.relinked < 2 * ht.made
  {
    hide Step, Run, Lawful;
    ht := new HashTable(p);
    var _ := RunAll(ht, ops);
    GrowthBound(p, ok, ops);
  }
}
