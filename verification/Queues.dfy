/** The linked first-in first-out queue of queue.c. */
module Queues {
  import opened Buckets

  class QNode<T> {
    const data: T
    var next: QNode?<T>

    constructor (data: T)
      ensures this.data == data && next == null
    {
      this.data, next := data, null;
    }
  }

  class Queue<T> {
    var numEl: nat
    var head: QNode?<T>
    var tail: QNode?<T>
    ghost var nodes: seq<QNode<T>>

    ghost predicate Valid()
      reads this, nodes
    {
      numEl == |nodes| &&
      (numEl == 0 ==> head == null && tail == null) &&
      (numEl > 0 ==> head == nodes[0] && tail == nodes[numEl - 1] && tail.next == null) &&
      (forall i :: 0 <= i < numEl - 1 ==> nodes[i].next == nodes[i + 1]) &&
      (forall i, j :: 0 <= i < j < numEl ==> nodes[i] != nodes[j])
    }

    ghost function Repr(): set<object>
      reads this
    {
      {this} + (set n: QNode<T> | n in nodes)
    }

    /** The elements, oldest first. */
    ghost function Contents(): (s: seq<T>)
      reads this
      ensures |s| == |nodes|
    {
      seq(|nodes|, i requires 0 <= i < |nodes| reads this => nodes[i].data)
    }

    constructor ()
      ensures Valid() && Contents() == [] && fresh(Repr())
    {
      numEl, head, tail, nodes := 0, null, null, [];
    }

    method Enque(x: T)
      requires Valid()
      modifies Repr()
      ensures Valid() && fresh(Repr() - old(Repr()))
      ensures Contents() == old(Contents()) + [x]
    {
      var node := new QNode(x);
      numEl := numEl + 1;
      if numEl == 1 {
        head, tail := node, node;
      } else {
        assert nodes[numEl - 2] == tail;
        tail.next := node;
        tail := node;
      }
      nodes := nodes + [node];
    }

    method Deque() returns (r: Option<T>)
      requires Valid()
      modifies this
      ensures Valid() && Repr() <= old(Repr())
      ensures if old(Contents()) == [] then r == None && Contents() == []
              else r == Some(old(Contents())[0]) && Contents() == old(Contents())[1..]
    {
      if numEl == 0 {
        return None;
      }
      r := Some(head.data);
      numEl := numEl - 1;
      if numEl == 0 {
        head, tail := null, null;
      } else {
        head := head.next;
      }
      nodes := nodes[1..];
    }

    method Peek() returns (r: Option<T>)
      requires Valid()
      ensures r == if Contents() == [] then None else Some(Contents()[0])
    {
      r := if numEl == 0 then None else Some(head.data);
    }
  }
}
