/** The two-ahead iterator of ht.c over the slots and chains of a table that is
    not modified meanwhile. */
module HashTableIters {
  import opened Buckets
  import opened HashTables

  /** The nodes from slot `i` on, slot by slot and chain by chain. */
  ghost function FlatNodes<K, V>(nodes: seq<seq<Node<K, V>>>, i: nat): seq<Node<K, V>>
    requires i <= |nodes|
    decreases |nodes| - i
  {
    if i == |nodes| then [] else nodes[i] + FlatNodes(nodes, i + 1)
  }

  /** A node holds an entry. */
  ghost predicate Shows<K, V>(n: Node<K, V>, e: Entry<K, V>)
    reads n
  {
    n.key == e.key && n.value == e.value
  }

  ghost predicate ShowsAll<K, V>(ns: seq<Node<K, V>>, es: Chain<K, V>)
    reads ns
  {
    |ns| == |es| && forall j :: 0 <= j < |ns| ==> Shows(ns[j], es[j])
  }

  lemma ShowsConcat<K, V>(a: seq<Node<K, V>>, x: Chain<K, V>, b: seq<Node<K, V>>, y: Chain<K, V>)
    requires ShowsAll(a, x) && ShowsAll(b, y)
    ensures ShowsAll(a + b, x + y)
  {
    forall j | 0 <= j < |a + b| ensures Shows((a + b)[j], (x + y)[j]) {
      if j < |a| {
        assert Shows(a[j], x[j]);
      } else {
        assert Shows(b[j - |a|], y[j - |a|]);
      }
    }
  }

  /** The nodes hold the listing of the table, in order. */
  lemma {:induction false} FlatShows<K, V>(p: Policy<K>, a: array<Node?<K, V>>,
          nodes: seq<seq<Node<K, V>>>, t: Table<K, V>, i: nat)
    requires Holds(p, a, nodes, t) && i <= |t|
    ensures ShowsAll(FlatNodes(nodes, i), FlatFrom(t, i))
    decreases |t| - i
  {
    if i < |t| {
      FlatShows(p, a, nodes, t, i + 1);
      HoldsChain(p, a, nodes, t, i);
      hide Holds;
      ShowsConcat(nodes[i], t[i], FlatNodes(nodes, i + 1), FlatFrom(t, i + 1));
    }
  }

  /** The first non-empty slot from `start` on, or the capacity. */
  method FirstFrom<K, V>(ht: HashTable<K, V>, start: nat) returns (i: nat)
    requires ht.Valid() && start <= ht.capacity
    ensures i <= ht.capacity
    ensures i == ht.capacity ==> FlatNodes(ht.nodes, start) == []
    ensures i < ht.capacity ==> ht.nodes[i] != [] && ht.entries[i] == ht.nodes[i][0]
    ensures i < ht.capacity ==>
      FlatNodes(ht.nodes, start) == ht.nodes[i][0..] + FlatNodes(ht.nodes, i + 1)
  {
    i := start;
    while i < ht.capacity && ht.entries[i] == null
      invariant i <= ht.capacity && FlatNodes(ht.nodes, i) == FlatNodes(ht.nodes, start)
    {
      HoldsChain(ht.policy, ht.entries, ht.nodes, ht.table, i);
      i := i + 1;
    }
    if i < ht.capacity {
      HoldsChain(ht.policy, ht.entries, ht.nodes, ht.table, i);
      assert ht.nodes[i][0..] == ht.nodes[i];
    }
  }

  lemma NextOf<K, V>(ht: HashTable<K, V>, slot: nat, at: nat)
    requires ht.Valid() && slot < |ht.nodes| && at < |ht.nodes[slot]|
    ensures ht.nodes[slot][at].next == At(ht.nodes[slot], at + 1)
  {
    HoldsChain(ht.policy, ht.entries, ht.nodes, ht.table, slot);
  }

  lemma DropFirst<T>(ns: seq<T>, at: nat, rest: seq<T>)
    requires at < |ns|
    ensures (ns[at..] + rest)[1..] == if at + 1 < |ns| then ns[at + 1..] + rest else rest
  {
  }

  class HtIter<K, V> {
    var cur: Node?<K, V>
    var next: Node?<K, V>
    const ht: HashTable<K, V>
    var nextSlot: nat
    var endSlot: nat
    /** Where `next` is in its chain. */
    ghost var at: nat

    ghost predicate Valid()
      reads this, ht
    {
      nextSlot <= endSlot == ht.capacity == |ht.nodes| && endSlot > 0 &&
      if nextSlot == endSlot then next == null
      else if next == null then nextSlot == 0
      else at < |ht.nodes[nextSlot]| && next == ht.nodes[nextSlot][at]
    }

    /** Before the first step `next` is not loaded yet. */
    ghost predicate Started()
      reads this
    {
      nextSlot == endSlot || next != null
    }

    /** The nodes not yet visited, from `next` on. */
    ghost function Pending(): seq<Node<K, V>>
      reads this, ht
      requires Valid()
    {
      if nextSlot == endSlot then []
      else if next == null then FlatNodes(ht.nodes, 0)
      else ht.nodes[nextSlot][at..] + FlatNodes(ht.nodes, nextSlot + 1)
    }

    /** `next` is the first pending node. */
    lemma NextIsFirst()
      requires Valid() && Started()
      ensures next == At(Pending(), 0)
    {
    }

    ghost predicate Ready()
      reads this, ht
    {
      Valid() && Started() && (cur == null ==> Pending() == [])
    }

    /** The nodes still to be visited, the current one first. */
    ghost function Remaining(): seq<Node<K, V>>
      reads this, ht
      requires Ready()
    {
      if cur == null then [] else [cur] + Pending()
    }

    /** `ht_iter_new` */
    constructor (ht: HashTable<K, V>)
      requires ht.Valid()
      ensures Ready() && this.ht == ht
      ensures Remaining() == FlatNodes(ht.nodes, 0)
    {
      this.ht := ht;
      cur, next := null, null;
      nextSlot, endSlot := 0, ht.capacity;
      at := 0;
      new;
      Step();
      NextIsFirst();
      Step();
    }

    /** The step to the first node of a later slot. */
    method Advance(start: nat)
      requires ht.Valid() && start <= endSlot == ht.capacity
      modifies this
      ensures Valid() && Started() && cur == old(next) && Pending() == FlatNodes(ht.nodes, start)
    {
      hide Holds, Linked, FlatNodes;
      var slot := FirstFrom(ht, start);
      var first := if slot < endSlot then ht.entries[slot] else null;
      cur, next, nextSlot := next, first, slot;
      at := 0;
    }

    /** `ht_iter_next` */
    method Step()
      requires Valid() && ht.Valid()
      modifies this
      ensures Valid() && Started() && cur == old(next)
      ensures Pending() == if !old(Started()) || old(next) == null then old(Pending()) else old(Pending())[1..]
    {
      hide Holds, Linked, FlatNodes;
      if nextSlot == endSlot {
        cur, next := next, null;
      } else if nextSlot == 0 && next == null {
        Advance(0);
      } else {
        NextOf(ht, nextSlot, at);
        DropFirst(ht.nodes[nextSlot], at, FlatNodes(ht.nodes, nextSlot + 1));
        if next.next != null {
          cur, next := next, next.next;
          at := at + 1;
        } else {
          Advance(nextSlot + 1);
        }
      }
    }

    /** One turn of the loop every user of the iterator runs. */
    method Take() returns (e: Entry<K, V>)
      requires Ready() && ht.Valid() && cur != null
      modifies this
      ensures Ready() && old(Remaining()) != []
      ensures e == Entry(old(Remaining()[0].key), old(Remaining()[0].value))
      ensures Remaining() == old(Remaining())[1..]
    {
      hide Holds, Linked;
      e := Entry(cur.key, cur.value);
      NextIsFirst();
      Step();
    }
  }

  lemma ShowsTail<K, V>(ns: seq<Node<K, V>>, es: Chain<K, V>)
    requires ShowsAll(ns, es) && ns != []
    ensures Shows(ns[0], es[0]) && ShowsAll(ns[1..], es[1..])
  {
  }

  method TakeShown<K, V>(iter: HtIter<K, V>, ghost es: Chain<K, V>) returns (e: Entry<K, V>)
    requires iter.Ready() && iter.ht.Valid() && iter.cur != null && ShowsAll(iter.Remaining(), es)
    modifies iter
    ensures iter.Ready() && iter.ht.Valid() && es != [] && e == es[0]
    ensures ShowsAll(iter.Remaining(), es[1..])
  {
    ghost var ns := iter.Remaining();
    ShowsTail(ns, es);
    hide *;
    label Before:
    e := iter.Take();
    assert iter.ht.Valid() == old@Before(iter.ht.Valid());
    assert ShowsAll(ns[1..], es[1..]) == old@Before(ShowsAll(ns[1..], es[1..]));
  }

  method Drain<K, V>(iter: HtIter<K, V>, ghost all: Chain<K, V>) returns (es: Chain<K, V>)
    requires iter.Ready() && iter.ht.Valid() && ShowsAll(iter.Remaining(), all)
    modifies iter
    ensures es == all
  {
    hide *;
    es := [];
    ghost var left := all;
    assert es + left == all;
    while iter.cur != null
      invariant iter.Ready() && iter.ht.Valid() && ShowsAll(iter.Remaining(), left)
      invariant es + left == all
      decreases |left|
    {
      var e := TakeShown(iter, left);
      assert es + left == es + [e] + left[1..];
      es, left := es + [e], left[1..];
    }
    assert left == [] by { NoneLeft(iter, left); }
    assert es + [] == es;
  }

  lemma NoneLeft<K, V>(iter: HtIter<K, V>, left: Chain<K, V>)
    requires iter.Ready() && iter.cur == null && ShowsAll(iter.Remaining(), left)
    ensures left == []
  {
  }

  /** The loop every user of the iterator runs visits each entry exactly once, in
      listing order, and stops after as many visits as there are entries. */
  method Collect<K, V>(ht: HashTable<K, V>) returns (es: Chain<K, V>)
    requires ht.Valid()
    ensures es == Flat(ht.table) && |es| == ht.numEntries
  {
    ghost var all := FlatNodes(ht.nodes, 0);
    FlatShows(ht.policy, ht.entries, ht.nodes, ht.table, 0);
    assert |Flat(ht.table)| == ht.numEntries;
    hide *;
    label Before:
    var iter := new HtIter(ht);
    assert ht.Valid() == old@Before(ht.Valid());
    assert ShowsAll(all, Flat(ht.table)) == old@Before(ShowsAll(all, Flat(ht.table)));
    es := Drain(iter, Flat(ht.table));
  }
}
