/** The doubly linked first-in first-out queue of kernel/queue.h. */
module Queues {

  class Node<T> {
    var next: Node?<T>
    var prev: Node?<T>
    var value: T

    constructor (value: T)
      ensures this.value == value
    {
      this.value := value;
      next, prev := null, null;
    }
  }

  class SimpleQueue<T> {
    var first: Node?<T>
    var last: Node?<T>
    ghost var nodes: seq<Node<T>>

    ghost predicate Distinct()
      reads this
    {
      forall i, j :: 0 <= i < j < |nodes| ==> nodes[i] != nodes[j]
    }

    /** The neighbours of node i. */
    ghost predicate Linked(i: int)
      requires 0 <= i < |nodes|
      reads this, nodes
    {
      && nodes[i].next == (if i + 1 < |nodes| then nodes[i + 1] else null)
      && nodes[i].prev == (if 0 < i then nodes[i - 1] else null)
    }

    ghost predicate Valid()
      reads this, nodes
    {
      && Distinct()
      && first == (if nodes == [] then null else nodes[0])
      && last == (if nodes == [] then null else nodes[|nodes| - 1])
      && forall i :: 0 <= i < |nodes| ==> Linked(i)
    }

    /** The values from first to last. */
    ghost function Contents(): (s: seq<T>)
      reads this, nodes
      ensures |s| == |nodes|
    {
      seq(|nodes|, i requires 0 <= i < |nodes| reads this, nodes => nodes[i].value)
    }

    constructor ()
      ensures Valid() && Contents() == [] && nodes == []
    {
      first, last, nodes := null, null, [];
    }

    method AddTail(v: T)
      requires Valid()
      modifies this, last
      ensures Valid() && Contents() == old(Contents()) + [v]
      ensures |nodes| == |old(nodes)| + 1 && nodes[..|old(nodes)|] == old(nodes) && fresh(nodes[|old(nodes)|])
    {
      var n := new Node(v);
      n.prev := last;
      n.next := null;
      if last != null {
        last.next := n;
      }
      last := n;
      if first == null {
        first := n;
      }
      ghost var was := nodes;
      nodes := nodes + [n];
      forall i | 0 <= i < |nodes|
        ensures Linked(i)
      {
        assert i < |was| ==> nodes[i] == was[i] && old(Linked(i));
        assert 0 < i ==> nodes[i - 1] == was[i - 1];
      }
    }

    method IsEmpty() returns (b: bool)
      requires Valid()
      ensures b <==> Contents() == []
    {
      b := first == null;
    }

    /** The source takes the head of a queue only when there is one. */
    method RemoveHead() returns (v: T)
      requires Valid() && Contents() != []
      modifies this, nodes
      ensures Valid() && [v] + Contents() == old(Contents()) && nodes == old(nodes)[1..]
    {
      assert Linked(0);
      assert |nodes| > 1 ==> Linked(1);
      var p := first;
      first := p.next;
      if first == null {
        last := null;
      } else {
        first.prev := null;
      }
      v := p.value;
      ghost var was := nodes;
      nodes := nodes[1..];
      forall i | 0 <= i < |nodes|
        ensures Linked(i)
      {
        assert old(Linked(i + 1));
        assert nodes[i] == was[i + 1];
        assert 0 < i ==> nodes[i - 1] == was[i];
        assert i + 1 < |nodes| ==> nodes[i + 1] == was[i + 2];
      }
    }
  }
}
