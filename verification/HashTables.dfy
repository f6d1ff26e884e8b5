/** The chained hash table of ht.c: a bucket array and linked entries that are
    relinked in place. Every operation is proved to compute the function of the
    same name on the table's value, whatever the comparison and the hash are. */
module HashTables {
  import opened Buckets

  class Node<K, V> {
    const key: K
    var value: V
    var next: Node?<K, V>

    constructor (key: K, value: V, next: Node?<K, V>)
      ensures this.key == key && this.value == value && this.next == next
    {
      this.key, this.value, this.next := key, value, next;
    }
  }

  /** Node `j` of a chain, or the null pointer that ends it. */
  ghost function At<K, V>(ns: seq<Node<K, V>>, j: nat): Node?<K, V> {
    if j < |ns| then ns[j] else null
  }

  /** The nodes reached from `head` are `ns`, all different, and hold `c`. */
  ghost predicate Linked<K, V>(head: Node?<K, V>, ns: seq<Node<K, V>>, c: Chain<K, V>)
    reads ns
  {
    |ns| == |c| && head == At(ns, 0) &&
    (forall j :: 0 <= j < |ns| ==>
      ns[j].key == c[j].key && ns[j].value == c[j].value && ns[j].next == At(ns, j + 1)) &&
    (forall j, k :: 0 <= j < k < |ns| ==> ns[j] != ns[k])
  }

  ghost function NodeSet<K, V>(nodes: seq<seq<Node<K, V>>>): set<Node<K, V>> {
    set i, j | 0 <= i < |nodes| && 0 <= j < |nodes[i]| :: nodes[i][j]
  }

  /** The bucket array `a` holds the table `t` in the nodes `nodes`. */
  ghost predicate Holds<K, V>(p: Policy<K>, a: array<Node?<K, V>>, nodes: seq<seq<Node<K, V>>>, t: Table<K, V>)
    reads a, NodeSet(nodes)
  {
    a.Length == |nodes| == |t| && |t| > 0 &&
    (forall i :: 0 <= i < |t| ==> Linked(a[i], nodes[i], t[i])) &&
    (forall i, j :: 0 <= i < |t| && 0 <= j < |nodes[i]| ==> Slot(p, nodes[i][j].key, |t|) == i)
  }

  lemma HoldsChain<K, V>(p: Policy<K>, a: array<Node?<K, V>>, nodes: seq<seq<Node<K, V>>>, t: Table<K, V>, slot: nat)
    requires Holds(p, a, nodes, t) && slot < |t|
    ensures Linked(a[slot], nodes[slot], t[slot])
    ensures forall j :: 0 <= j < |nodes[slot]| ==> nodes[slot][j] in NodeSet(nodes)
  {
  }

  lemma LinkedCons<K, V>(n: Node<K, V>, ns: seq<Node<K, V>>, c: Chain<K, V>)
    requires Linked(n.next, ns, c) && n !in ns
    ensures Linked(n, [n] + ns, [Entry(n.key, n.value)] + c)
  {
    var ns' := [n] + ns;
    assert forall j :: 0 < j < |ns'| ==> ns'[j] == ns[j - 1];
    assert forall j: nat :: At(ns', j + 1) == At(ns, j);
  }

  lemma NodeSetFront<K, V>(nodes: seq<seq<Node<K, V>>>, slot: nat, n: Node<K, V>)
    requires slot < |nodes|
    ensures NodeSet(nodes[slot := [n] + nodes[slot]]) == NodeSet(nodes) + {n}
  {
    var nodes' := nodes[slot := [n] + nodes[slot]];
    forall m | m in NodeSet(nodes) + {n} ensures m in NodeSet(nodes') {
      if m == n {
        assert nodes'[slot][0] == m;
      } else {
        var i, j :| 0 <= i < |nodes| && 0 <= j < |nodes[i]| && nodes[i][j] == m;
        assert nodes'[i][if i == slot then j + 1 else j] == m;
      }
    }
    forall m | m in NodeSet(nodes') ensures m in NodeSet(nodes) + {n} {
      var i, j :| 0 <= i < |nodes'| && 0 <= j < |nodes'[i]| && nodes'[i][j] == m;
      assert m == n || nodes[i][if i == slot then j - 1 else j] == m;
    }
  }

  /** Links `n` in front of the chain of its slot: the last steps of an insertion
      and each step of a resize. */
  method LinkFront<K, V>(p: Policy<K>, a: array<Node?<K, V>>, n: Node<K, V>,
                         ghost nodes: seq<seq<Node<K, V>>>, ghost t: Table<K, V>)
      returns (ghost nodes': seq<seq<Node<K, V>>>)
    requires Holds(p, a, nodes, t) && n !in NodeSet(nodes)
    modifies a, n`next
    ensures Holds(p, a, nodes', PushFront(p, t, Entry(n.key, n.value)))
    ensures NodeSet(nodes') == NodeSet(nodes) + {n} && |nodes'| == |nodes|
  {
    var slot := Slot(p, n.key, a.Length);
    NodeSetFront(nodes, slot, n);
    n.next := a[slot];
    a[slot] := n;
    nodes' := nodes[slot := [n] + nodes[slot]];
    assert forall i :: 0 <= i < |t| ==> n !in nodes[i] by {
      assert forall i, j :: 0 <= i < |t| && 0 <= j < |nodes[i]| ==> nodes[i][j] in NodeSet(nodes);
    }
    LinkedCons(n, nodes[slot], t[slot]);
    forall i | 0 <= i < |t| && i != slot ensures Linked(a[i], nodes'[i], t[i]) {
      assert Linked(old(a[i]), nodes[i], t[i]);
    }
  }

  method LinkNew<K, V>(p: Policy<K>, a: array<Node?<K, V>>, key: K, value: V,
                       ghost nodes: seq<seq<Node<K, V>>>, ghost t: Table<K, V>)
      returns (ghost nodes': seq<seq<Node<K, V>>>)
    requires Holds(p, a, nodes, t)
    modifies a
    ensures Holds(p, a, nodes', PushFront(p, t, Entry(key, value)))
    ensures fresh(NodeSet(nodes') - NodeSet(nodes)) && |nodes'| == |nodes|
  {
    var n := new Node(key, value, null);
    nodes' := LinkFront(p, a, n, nodes, t);
  }

  ghost function Elements<K, V>(ns: seq<Node<K, V>>): set<Node<K, V>> {
    set n | n in ns
  }

  lemma LinkedTail<K, V>(n: Node<K, V>, ns: seq<Node<K, V>>, c: Chain<K, V>)
    requires Linked(n, ns, c)
    ensures ns != [] && n == ns[0] && c[0] == Entry(n.key, n.value)
    ensures Linked(n.next, ns[1..], c[1..])
    ensures n !in ns[1..] && Elements(ns) == Elements(ns[1..]) + {n}
  {
    assert forall j: nat :: At(ns[1..], j) == At(ns, j + 1);
    assert ns == [n] + ns[1..];
  }

  /** Moves the first node of a chain to the chain of its slot in `a`. */
  method MoveOne<K, V>(p: Policy<K>, a: array<Node?<K, V>>, n: Node<K, V>,
                       ghost ns: seq<Node<K, V>>, ghost c: Chain<K, V>,
                       ghost nodes: seq<seq<Node<K, V>>>, ghost t: Table<K, V>)
      returns (next: Node?<K, V>, ghost nodes': seq<seq<Node<K, V>>>)
    requires Holds(p, a, nodes, t) && Linked(n, ns, c) && Elements(ns) !! NodeSet(nodes)
    modifies a, n`next
    ensures ns != [] && c != [] && Elements(ns) == Elements(ns[1..]) + {n}
    ensures Holds(p, a, nodes', PushFront(p, t, c[0])) && Linked(next, ns[1..], c[1..])
    ensures NodeSet(nodes') == NodeSet(nodes) + {n} && Elements(ns[1..]) !! NodeSet(nodes')
  {
    LinkedTail(n, ns, c);
    next := n.next;
    assert n in Elements(ns);
    nodes' := LinkFront(p, a, n, nodes, t);
  }

  /** Moves every node of a chain to the chain of its slot in `a`. */
  method MoveChain<K, V>(p: Policy<K>, a: array<Node?<K, V>>, head: Node?<K, V>,
                         ghost ns: seq<Node<K, V>>, ghost c: Chain<K, V>,
                         ghost nodes: seq<seq<Node<K, V>>>, ghost t: Table<K, V>)
      returns (ghost nodes': seq<seq<Node<K, V>>>, ghost moved: nat)
    requires Holds(p, a, nodes, t) && Linked(head, ns, c) && Elements(ns) !! NodeSet(nodes)
    modifies a, Elements(ns)
    ensures Holds(p, a, nodes', Rehash(p, c, t))
    ensures NodeSet(nodes') == NodeSet(nodes) + Elements(ns) && moved == |c|
  {
    var cur := head;
    nodes', moved := nodes, 0;
    ghost var left, entries, t' := ns, c, t;
    while cur != null
      invariant |t'| > 0 && Holds(p, a, nodes', t') && Linked(cur, left, entries)
      invariant Rehash(p, entries, t') == Rehash(p, c, t)
      invariant Elements(left) !! NodeSet(nodes')
      invariant NodeSet(nodes') + Elements(left) == NodeSet(nodes) + Elements(ns)
      invariant Elements(left) <= Elements(ns) && moved + |entries| == |c|
      decreases |left|
    {
      ghost var t0 := t';
      t' := PushFront(p, t0, entries[0]);
      cur, nodes' := MoveOne(p, a, cur, left, entries, nodes', t0);
      left, entries, moved := left[1..], entries[1..], moved + 1;
    }
  }

  ghost function NodesFrom<K, V>(nodes: seq<seq<Node<K, V>>>, i: nat): set<Node<K, V>> {
    set k, j | i <= k < |nodes| && 0 <= j < |nodes[k]| :: nodes[k][j]
  }

  lemma NodesFromStep<K, V>(nodes: seq<seq<Node<K, V>>>, i: nat)
    requires i < |nodes|
    ensures NodesFrom(nodes, i) == Elements(nodes[i]) + NodesFrom(nodes, i + 1)
  {
    forall n | n in Elements(nodes[i]) ensures n in NodesFrom(nodes, i) {
      var j :| 0 <= j < |nodes[i]| && nodes[i][j] == n;
    }
  }

  /** The chains of `src` from slot `i` on are still linked. */
  ghost predicate Pending<K, V>(src: array<Node?<K, V>>, nodes: seq<seq<Node<K, V>>>, t: Table<K, V>, i: nat)
    reads src, NodesFrom(nodes, i)
  {
    src.Length == |nodes| == |t| &&
    forall k :: i <= k < |t| ==> Linked(src[k], nodes[k], t[k])
  }

  /** No node lies in two chains. */
  lemma ChainDisjoint<K, V>(p: Policy<K>, a: array<Node?<K, V>>, nodes: seq<seq<Node<K, V>>>, t: Table<K, V>, i: nat)
    requires Holds(p, a, nodes, t) && i < |t|
    ensures Elements(nodes[i]) !! NodesFrom(nodes, i + 1)
  {
    forall n | n in nodes[i] ensures n !in NodesFrom(nodes, i + 1) {
      var x :| 0 <= x < |nodes[i]| && nodes[i][x] == n;
      assert Slot(p, nodes[i][x].key, |t|) == i;
    }
  }

  method MoveSlot<K, V>(p: Policy<K>, src: array<Node?<K, V>>, dst: array<Node?<K, V>>, i: nat,
                        ghost nodes: seq<seq<Node<K, V>>>, ghost t: Table<K, V>,
                        ghost dnodes: seq<seq<Node<K, V>>>, ghost dt: Table<K, V>)
      returns (ghost dnodes': seq<seq<Node<K, V>>>, ghost moved: nat)
    requires src != dst && Pending(src, nodes, t, i) && i < |t| && Holds(p, dst, dnodes, dt)
    requires NodesFrom(nodes, i) !! NodeSet(dnodes) && Elements(nodes[i]) !! NodesFrom(nodes, i + 1)
    modifies dst, Elements(nodes[i])
    ensures Pending(src, nodes, t, i + 1) && Holds(p, dst, dnodes', Rehash(p, t[i], dt))
    ensures NodeSet(dnodes') == NodeSet(dnodes) + Elements(nodes[i]) && moved == |t[i]|
    ensures NodesFrom(nodes, i) == Elements(nodes[i]) + NodesFrom(nodes, i + 1)
  {
    NodesFromStep(nodes, i);
    assert Pending(src, nodes, t, i + 1);
    dnodes', moved := MoveChain(p, dst, src[i], nodes[i], t[i], dnodes, dt);
  }

  /** Relinks every node of `src` into the empty bucket array `dst`. */
  method MoveTable<K, V>(p: Policy<K>, src: array<Node?<K, V>>, dst: array<Node?<K, V>>,
                         ghost nodes: seq<seq<Node<K, V>>>, ghost t: Table<K, V>)
      returns (ghost dnodes: seq<seq<Node<K, V>>>, ghost moved: nat)
    requires Holds(p, src, nodes, t) && src != dst && dst.Length > 0
    requires forall i :: 0 <= i < dst.Length ==> dst[i] == null
    modifies dst, NodeSet(nodes)
    ensures Holds(p, dst, dnodes, Rehash(p, Flat(t), Empty(dst.Length)))
    ensures NodeSet(dnodes) == NodeSet(nodes) && moved == Count(t)
  {
    forall i | 0 <= i < |t| ensures Elements(nodes[i]) !! NodesFrom(nodes, i + 1) {
      ChainDisjoint(p, src, nodes, t, i);
    }
    dnodes, moved := seq(dst.Length, _ => []), 0;
    ghost var dt: Table<K, V> := Empty(dst.Length);
    for i := 0 to src.Length
      invariant Pending(src, nodes, t, i) && |dt| > 0 && Holds(p, dst, dnodes, dt)
      invariant NodesFrom(nodes, i) !! NodeSet(dnodes)
      invariant NodesFrom(nodes, i) + NodeSet(dnodes) == NodeSet(nodes)
      invariant Rehash(p, FlatFrom(t, i), dt) == Rehash(p, Flat(t), Empty(dst.Length))
      invariant moved + |FlatFrom(t, i)| == |Flat(t)|
    {
      RehashConcat(p, t[i], FlatFrom(t, i + 1), dt);
      NodesFromStep(nodes, i);
      ghost var more;
      dnodes, more := MoveSlot(p, src, dst, i, nodes, t, dnodes, dt);
      dt, moved := Rehash(p, t[i], dt), moved + more;
    }
  }

  ghost function OtherNodes<K, V>(nodes: seq<seq<Node<K, V>>>, slot: nat): set<Node<K, V>> {
    set i, j | 0 <= i < |nodes| && i != slot && 0 <= j < |nodes[i]| :: nodes[i][j]
  }

  /** What `Holds` says of every slot but one. */
  ghost predicate OthersHold<K, V>(p: Policy<K>, a: array<Node?<K, V>>,
          nodes: seq<seq<Node<K, V>>>, t: Table<K, V>, slot: nat)
    reads a, OtherNodes(nodes, slot)
  {
    a.Length == |nodes| == |t| && slot < |t| &&
    (forall i :: 0 <= i < |t| && i != slot ==> Linked(a[i], nodes[i], t[i])) &&
    (forall i, j :: 0 <= i < |t| && i != slot && 0 <= j < |nodes[i]| ==> Slot(p, nodes[i][j].key, |t|) == i)
  }

  /** Every node of a chain belongs to slot `slot`. */
  ghost predicate AllAt<K, V>(p: Policy<K>, ns: seq<Node<K, V>>, capacity: nat, slot: nat)
    requires capacity > 0
  {
    forall j :: 0 <= j < |ns| ==> Slot(p, ns[j].key, capacity) == slot
  }

  lemma SplitHolds<K, V>(p: Policy<K>, a: array<Node?<K, V>>, nodes: seq<seq<Node<K, V>>>, t: Table<K, V>, slot: nat)
    requires Holds(p, a, nodes, t) && slot < |t|
    ensures OthersHold(p, a, nodes, t, slot) && Linked(a[slot], nodes[slot], t[slot])
    ensures AllAt(p, nodes[slot], |t|, slot) && Elements(nodes[slot]) !! OtherNodes(nodes, slot)
  {
    forall n | n in Elements(nodes[slot]) ensures n !in OtherNodes(nodes, slot) {
      var j :| 0 <= j < |nodes[slot]| && nodes[slot][j] == n;
    }
  }

  lemma JoinHolds<K, V>(p: Policy<K>, a: array<Node?<K, V>>, nodes: seq<seq<Node<K, V>>>, t: Table<K, V>, slot: nat,
                        ns: seq<Node<K, V>>, c: Chain<K, V>)
    requires OthersHold(p, a, nodes, t, slot) && Linked(a[slot], ns, c) && AllAt(p, ns, |t|, slot)
    ensures Holds(p, a, nodes[slot := ns], t[slot := c])
  {
  }

  /** Storing a value in node `j` of a chain. */
  method OverwriteInChain<K, V>(ghost head: Node?<K, V>, n: Node<K, V>, value: V, ghost j: nat,
                                ghost ns: seq<Node<K, V>>, ghost c: Chain<K, V>)
    requires Linked(head, ns, c) && j < |ns| && ns[j] == n
    modifies n`value
    ensures Linked(head, ns, c[j := Entry(c[j].key, value)])
  {
    n.value := value;
  }

  method Overwrite<K, V>(p: Policy<K>, a: array<Node?<K, V>>, n: Node<K, V>, value: V, ghost slot: nat, ghost j: nat,
                         ghost nodes: seq<seq<Node<K, V>>>, ghost t: Table<K, V>)
    requires Holds(p, a, nodes, t) && slot < |t| && j < |nodes[slot]| && nodes[slot][j] == n
    modifies n`value
    ensures Holds(p, a, nodes, t[slot := t[slot][j := Entry(t[slot][j].key, value)]])
  {
    SplitHolds(p, a, nodes, t, slot);
    hide Holds, OthersHold;
    assert n in Elements(nodes[slot]);
    ghost var c := t[slot];
    OverwriteInChain(a[slot], n, value, j, nodes[slot], c);
    JoinHolds(p, a, nodes, t, slot, nodes[slot], c[j := Entry(c[j].key, value)]);
    assert nodes[slot := nodes[slot]] == nodes;
  }

  function Skip(i: nat, j: nat): nat {
    if i < j then i else i + 1
  }

  /** `ns'` is `ns` without element `j`. */
  ghost predicate Without<T>(ns': seq<T>, ns: seq<T>, j: nat) {
    j < |ns| && |ns'| == |ns| - 1 && forall i :: 0 <= i < |ns'| ==> ns'[i] == ns[Skip(i, j)]
  }

  lemma WithoutNext<K, V>(ns: seq<Node<K, V>>, j: nat, ns': seq<Node<K, V>>, i: nat)
    requires Without(ns', ns, j) && i < |ns'|
    requires var i0 := Skip(i, j); ns[i0].next == At(ns, if i0 + 1 == j then j + 1 else i0 + 1)
    ensures ns'[i].next == At(ns', i + 1)
  {
    if i + 1 < |ns'| {
      assert ns'[i + 1] == ns[Skip(i + 1, j)];
    }
  }

  lemma WithoutDistinct<T>(ns: seq<T>, j: nat, ns': seq<T>)
    requires Without(ns', ns, j)
    requires forall i, k :: 0 <= i < k < |ns| ==> ns[i] != ns[k]
    ensures forall i, k :: 0 <= i < k < |ns'| ==> ns'[i] != ns'[k]
  {
    forall i, k | 0 <= i < k < |ns'| ensures ns'[i] != ns'[k] {
      assert ns'[i] == ns[Skip(i, j)] && ns'[k] == ns[Skip(k, j)];
    }
  }

  lemma AtIndex<K, V>(ns: seq<Node<K, V>>, i: nat)
    ensures At(ns, i) == if i < |ns| then ns[i] else null
  {
  }

  /** A chain stays linked when the node before node `j` is made to point past it. */
  lemma LinkedUnlink<K, V>(ns: seq<Node<K, V>>, c: Chain<K, V>, j: nat, ns': seq<Node<K, V>>, c': Chain<K, V>)
    requires 0 < j < |ns| == |c| && Without(ns', ns, j) && Without(c', c, j)
    requires forall i :: 0 <= i < |ns| ==> ns[i].key == c[i].key && ns[i].value == c[i].value
    requires forall i :: 0 <= i < |ns| ==> ns[i].next == At(ns, if i + 1 == j then j + 1 else i + 1)
    requires forall i, k :: 0 <= i < k < |ns| ==> ns[i] != ns[k]
    ensures Linked(ns[0], ns', c')
  {
    hide At;
    AtIndex(ns', 0);
    WithoutDistinct(ns, j, ns');
    assert ns'[0] == ns[Skip(0, j)];
    forall i | 0 <= i < |ns'|
      ensures ns'[i].key == c'[i].key && ns'[i].value == c'[i].value && ns'[i].next == At(ns', i + 1) {
      WithoutNext(ns, j, ns', i);
      assert ns'[i] == ns[Skip(i, j)] && c'[i] == c[Skip(i, j)];
    }
  }

  lemma CutWithout<T>(s: seq<T>, j: nat)
    requires j < |s|
    ensures Without(s[..j] + s[j + 1..], s, j)
  {
  }

  lemma NodeSetRemove<K, V>(nodes: seq<seq<Node<K, V>>>, slot: nat, j: nat)
    requires slot < |nodes| && j < |nodes[slot]|
    ensures NodeSet(nodes[slot := nodes[slot][..j] + nodes[slot][j + 1..]]) <= NodeSet(nodes)
  {
    var nodes' := nodes[slot := nodes[slot][..j] + nodes[slot][j + 1..]];
    forall m | m in NodeSet(nodes') ensures m in NodeSet(nodes) {
      var i, k :| 0 <= i < |nodes'| && 0 <= k < |nodes'[i]| && nodes'[i][k] == m;
      assert nodes[i][if i == slot then Skip(k, j) else k] == m;
    }
  }

  /** Takes the first node out of its chain. */
  method UnlinkFirst<K, V>(p: Policy<K>, a: array<Node?<K, V>>, n: Node<K, V>, slot: nat,
                           ghost nodes: seq<seq<Node<K, V>>>, ghost t: Table<K, V>)
    requires Holds(p, a, nodes, t) && slot < |t| && a[slot] == n
    modifies a
    ensures nodes[slot] != [] && t[slot] != []
    ensures Holds(p, a, nodes[slot := nodes[slot][1..]], t[slot := t[slot][1..]])
  {
    LinkedTail(n, nodes[slot], t[slot]);
    a[slot] := n.next;
    forall i | 0 <= i < |t| && i != slot ensures Linked(a[i], nodes[i], t[i]) {
      assert Linked(old(a[i]), nodes[i], t[i]);
    }
  }

  /** Takes node `j` out of a chain by way of the node before it. */
  method UnlinkInChain<K, V>(ghost head: Node?<K, V>, prev: Node<K, V>, n: Node<K, V>, ghost j: nat,
                             ghost ns: seq<Node<K, V>>, ghost c: Chain<K, V>)
    requires Linked(head, ns, c) && 0 < j < |ns| && ns[j] == n && ns[j - 1] == prev
    modifies prev`next
    ensures Linked(head, ns[..j] + ns[j + 1..], c[..j] + c[j + 1..])
  {
    CutWithout(ns, j);
    CutWithout(c, j);
    prev.next := n.next;
    LinkedUnlink(ns, c, j, ns[..j] + ns[j + 1..], c[..j] + c[j + 1..]);
  }

  method UnlinkNext<K, V>(p: Policy<K>, a: array<Node?<K, V>>, prev: Node<K, V>, n: Node<K, V>, ghost slot: nat,
                          ghost j: nat, ghost nodes: seq<seq<Node<K, V>>>, ghost t: Table<K, V>)
    requires Holds(p, a, nodes, t) && slot < |t| && 0 < j < |nodes[slot]| && j < |t[slot]|
    requires nodes[slot][j] == n && nodes[slot][j - 1] == prev
    modifies prev`next
    ensures Holds(p, a, nodes[slot := nodes[slot][..j] + nodes[slot][j + 1..]],
                        t[slot := t[slot][..j] + t[slot][j + 1..]])
  {
    SplitHolds(p, a, nodes, t, slot);
    hide Holds, OthersHold;
    assert prev in Elements(nodes[slot]);
    ghost var ns, c := nodes[slot], t[slot];
    UnlinkInChain(a[slot], prev, n, j, ns, c);
    JoinHolds(p, a, nodes, t, slot, ns[..j] + ns[j + 1..], c[..j] + c[j + 1..]);
  }

  /** Walks a chain to the first node whose key compares equal to `key`. */
  method Walk<K, V>(p: Policy<K>, head: Node?<K, V>, key: K, ghost ns: seq<Node<K, V>>, ghost c: Chain<K, V>)
      returns (prev: Node?<K, V>, cur: Node?<K, V>, ghost j: nat)
    requires Linked(head, ns, c)
    ensures j == Find(p, c, key) && cur == At(ns, j) && prev == (if j == 0 then null else ns[j - 1])
    ensures cur != null ==> cur.value == c[j].value
  {
    prev, cur := null, head;
    j := 0;
    while cur != null && !p.same(key, cur.key)
      invariant j <= Find(p, c, key) && cur == At(ns, j)
      invariant prev == if j == 0 then null else ns[j - 1]
      decreases |ns| - j
    {
      prev, cur := cur, cur.next;
      j := j + 1;
    }
  }

  class HashTable<K, V> {
    const policy: Policy<K>
    var numEntries: nat
    var capacity: nat
    var entries: array<Node?<K, V>>
    /** The nodes of each chain, and the value the table has. */
    ghost var nodes: seq<seq<Node<K, V>>>
    ghost var table: Table<K, V>
    /** Nodes that resizes have relinked, and nodes ever made. */
    ghost var relinked: nat
    ghost var made: nat

    ghost function Repr(): set<object>
      reads this
    {
      {this, entries} + NodeSet(nodes)
    }

    ghost predicate Valid()
      reads this, Repr()
    {
      0 < capacity == entries.Length == |nodes| == |table| && numEntries == Count(table) &&
      Holds(policy, entries, nodes, table)
    }

    constructor (policy: Policy<K>)
      ensures Valid() && fresh(Repr())
      ensures this.policy == policy && table == Empty(INITIAL_CAP) && relinked == made == 0
    {
      this.policy := policy;
      numEntries, capacity := 0, INITIAL_CAP;
      entries := new Node?<K, V>[INITIAL_CAP](_ => null);
      nodes := seq(INITIAL_CAP, _ => []);
      table := Empty(INITIAL_CAP);
      relinked, made := 0, 0;
      new;
      EmptyFlat(table, 0);
    }

    /** The node that holds `key`, or null, with the node before it. */
    method FindNode(key: K) returns (prev: Node?<K, V>, cur: Node?<K, V>, ghost j: nat)
      requires Valid()
      ensures var slot := Slot(policy, key, |table|);
        j == Find(policy, table[slot], key) && |nodes[slot]| == |table[slot]| && cur == At(nodes[slot], j)
        && (j == 0 ==> cur == entries[slot]) && prev == if j == 0 then null else nodes[slot][j - 1]
      ensures cur != null ==> cur in NodeSet(nodes)
      ensures cur != null ==> cur.value == table[Slot(policy, key, |table|)][j].value
    {
      var slot := Slot(policy, key, capacity);
      HoldsChain(policy, entries, nodes, table, slot);
      hide Holds;
      prev, cur, j := Walk(policy, entries[slot], key, nodes[slot], table[slot]);
    }

    method Get(key: K) returns (r: Option<V>)
      requires Valid()
      ensures r == Buckets.Get(policy, table, key)
    {
      var _, cur, j := FindNode(key);
      hide Holds;
      r := if cur == null then None else Some(cur.value);
    }

    /** Doubles the bucket array and relinks every node into it. */
    method Resize()
      requires Valid()
      modifies this, NodeSet(nodes)
      ensures Valid() && fresh(entries) && NodeSet(nodes) == old(NodeSet(nodes))
      ensures table == Buckets.Resize(policy, old(table)) && numEntries == old(numEntries)
      ensures relinked == old(relinked) + Count(old(table)) && made == old(made)
    {
      hide Holds, Buckets.Resize, Rehash, Flat, Empty, Count;
      var newEntries := new Node?<K, V>[2 * capacity](_ => null);
      ghost var t := table;
      ResizeCount(policy, t);
      ghost var nodes', moved := MoveTable(policy, entries, newEntries, nodes, table);
      relinked := relinked + moved;
      capacity := 2 * capacity;
      entries := newEntries;
      nodes, table := nodes', Buckets.Resize(policy, t);
    }

    /** The steps insertion takes once the key is known to be new. */
    method Add(key: K, value: V)
      requires Valid() && Buckets.Get(policy, table, key) == None
      modifies this, entries
      ensures Valid() && entries == old(entries) && fresh(NodeSet(nodes) - old(NodeSet(nodes)))
      ensures table == Put(policy, old(table), key, value)
      ensures relinked == old(relinked) && made == old(made) + 1
    {
      hide Holds;
      PutCount(policy, table, key, value);
      ghost var nodes' := LinkNew(policy, entries, key, value, nodes, table);
      nodes, table := nodes', PushFront(policy, table, Entry(key, value));
      numEntries, made := numEntries + 1, made + 1;
    }

    method Insert(key: K, value: V)
      requires Valid()
      modifies Repr()
      ensures Valid() && fresh(Repr() - old(Repr()))
      ensures table == Buckets.Insert(policy, old(table), key, value)
      ensures relinked == old(relinked) + if Count(old(table)) == |old(table)| then Count(old(table)) else 0
      ensures made == old(made) + if Buckets.Get(policy, Grown(policy, old(table)), key).Some? then 0 else 1
    {
      hide Holds;
      if numEntries == capacity {
        Resize();
      }
      var _, cur, j := FindNode(key);
      ghost var slot := Slot(policy, key, |table|);
      if cur == null {
        Add(key, value);
        return;
      }
      PutCount(policy, table, key, value);
      Overwrite(policy, entries, cur, value, slot, j, nodes, table);
      table := table[slot := table[slot][j := Entry(table[slot][j].key, value)]];
    }

    method TryInsert(key: K, value: V) returns (ok: bool)
      requires Valid()
      modifies Repr()
      ensures Valid() && fresh(Repr() - old(Repr()))
      ensures table == Buckets.TryInsert(policy, old(table), key, value)
      ensures ok == Buckets.Get(policy, Grown(policy, old(table)), key).None?
      ensures relinked == old(relinked) + if Count(old(table)) == |old(table)| then Count(old(table)) else 0
      ensures made == old(made) + if Buckets.Get(policy, Grown(policy, old(table)), key).Some? then 0 else 1
    {
      hide Holds;
      if numEntries == capacity {
        Resize();
      }
      var _, cur, j := FindNode(key);
      ok := cur == null;
      if ok {
        Add(key, value);
      }
    }

    method Delete(key: K) returns (ok: bool)
      requires Valid()
      modifies Repr()
      ensures Valid() && Repr() <= old(Repr())
      ensures table == Buckets.Delete(policy, old(table), key)
      ensures ok == Buckets.Get(policy, old(table), key).Some?
      ensures relinked == old(relinked) && made == old(made)
    {
      hide Holds;
      var prev, cur, j := FindNode(key);
      ok := cur != null;
      if ok {
        DeleteCount(policy, table, key);
        var slot := Slot(policy, key, capacity);
        NodeSetRemove(nodes, slot, j);
        ghost var ns, c := nodes[slot], table[slot];
        if prev == null {
          UnlinkFirst(policy, entries, cur, slot, nodes, table);
          assert ns[1..] == ns[..0] + ns[1..] && c[1..] == c[..0] + c[1..];
        } else {
          UnlinkNext(policy, entries, prev, cur, slot, j, nodes, table);
        }
        nodes, table := nodes[slot := ns[..j] + ns[j + 1..]], table[slot := c[..j] + c[j + 1..]];
        numEntries := numEntries - 1;
      }
    }
  }
}
