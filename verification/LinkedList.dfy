/** The doubly linked list (src/tcp/src/list.c). */
module LinkedList {
  const QUEUE_SIZE: nat := 100

  class Node<T> {
    var prev: Node?<T>
    var next: Node?<T>
    const data: T

    constructor (data: T)
      ensures this.data == data && prev == null && next == null
    {
      this.data := data;
      prev, next := null, null;
    }
  }

  class List<T(==)> {
    var head: Node?<T>
    var tail: Node?<T>
    var size: int
    ghost var nodes: seq<Node<T>>

    /** Head, tail, links and size all describe the one sequence `nodes`. */
    ghost predicate Valid()
      reads this, nodes
    {
      && size == |nodes|
      && (forall i, j :: 0 <= i < j < |nodes| ==> nodes[i] != nodes[j])
      && (nodes == [] ==> head == null && tail == null)
      && (nodes != [] ==>
            && head == nodes[0] && nodes[0].prev == null
            && tail == nodes[|nodes| - 1] && nodes[|nodes| - 1].next == null)
      && (forall i {:trigger nodes[i].prev} :: 1 <= i < |nodes| ==> nodes[i].prev == nodes[i - 1])
      && (forall i {:trigger nodes[i].next} :: 0 <= i < |nodes| - 1 ==> nodes[i].next == nodes[i + 1])
    }

    ghost function Items(): (items: seq<T>)
      reads this
      ensures |items| == |nodes|
      ensures forall i :: 0 <= i < |nodes| ==> items[i] == nodes[i].data
    {
      seq(|nodes|, i requires 0 <= i < |nodes| reads this => nodes[i].data)
    }

    constructor ()
      ensures Valid() && nodes == []
    {
      head, tail, size, nodes := null, null, 0, [];
    }

    /** Appends a new node at the tail. */
    method Add(x: T) returns (n: Node<T>)
      requires Valid()
      modifies this, nodes
      ensures Valid() && fresh(n) && n.data == x
      ensures nodes == old(nodes) + [n]
    {
      n := new Node(x);
      n.prev := tail;
      if tail != null {
        tail.next := n;
        tail := n;
      } else {
        head, tail := n, n;
      }
      size := size + 1;
      nodes := nodes + [n];
    }

    method AddHead(x: T) returns (n: Node<T>)
      requires Valid()
      modifies this, nodes
      ensures Valid() && fresh(n) && n.data == x
      ensures nodes == [n] + old(nodes)
    {
      n := new Node(x);
      n.next := head;
      if head != null {
        head.prev := n;
        head := n;
      } else {
        head, tail := n, n;
      }
      size := size + 1;
      nodes := [n] + nodes;
    }

    /** Takes out a node by its own links, whether or not it is in the list. */
    method Detach(n: Node<T>)
      modifies this, n.prev, n.next
      ensures nodes == old(nodes) && size == old(size) - 1
      ensures head == if old(n.prev) != null then old(head) else old(n.next)
      ensures tail == if old(n.next) != null then old(tail) else old(n.prev)
      ensures old(n.prev) != null && old(n.prev) != n && old(n.prev) != old(n.next) ==>
        old(n.prev).next == old(n.next) && old(n.prev).prev == old(n.prev.prev)
      ensures old(n.next) != null && old(n.next) != n && old(n.prev) != old(n.next) ==>
        old(n.next).prev == old(n.prev) && old(n.next).next == old(n.next.next)
    {
      if n.prev != null {
        n.prev.next := n.next;
      } else {
        head := n.next;
      }
      if n.next != null {
        n.next.prev := n.prev;
      } else {
        tail := n.prev;
      }
      size := size - 1;
    }

    /** Takes a node out of the list; `i` is its position. */
    method Unlink(n: Node<T>, ghost i: nat)
      requires Valid() && i < |nodes| && nodes[i] == n
      modifies this, nodes
      ensures Valid()
      ensures nodes == old(nodes)[..i] + old(nodes)[i + 1..]
      ensures n.prev == old(n.prev) && n.next == old(n.next)
    {
      ghost var before := nodes;
      assert n.prev == if i > 0 then before[i - 1] else null;
      assert n.next == if i < |before| - 1 then before[i + 1] else null;
      Detach(n);
      nodes := nodes[..i] + nodes[i + 1..];
      assert |nodes| == |before| - 1;
      assert forall j :: 0 <= j < i ==> nodes[j] == before[j];
      assert forall j :: i <= j < |nodes| ==> nodes[j] == before[j + 1];
    }

    /** Deletes the first node holding `x`; fails if there is none. */
    method Del(x: T) returns (ok: bool, ghost i: nat)
      requires Valid()
      modifies this, nodes
      ensures Valid()
      ensures ok <==> exists k :: 0 <= k < |old(nodes)| && old(nodes)[k].data == x
      ensures !ok ==> nodes == old(nodes)
      ensures ok ==>
        && i < |old(nodes)| && old(nodes)[i].data == x
        && (forall k :: 0 <= k < i ==> old(nodes)[k].data != x)
        && nodes == old(nodes)[..i] + old(nodes)[i + 1..]
    {
      i := 0;
      var li := head;
      while li != null
        invariant i <= |nodes| && li == if i < |nodes| then nodes[i] else null
        invariant forall k :: 0 <= k < i ==> nodes[k].data != x
        decreases |nodes| - i
      {
        if li.data == x {
          Unlink(li, i);
          return true, i;
        }
        li := li.next;
        i := i + 1;
      }
      ok := false;
    }

    /** Prepends to a list of bounded length, dropping the last element when it is full. */
    method QueueAdd(x: T)
      requires Valid()
      modifies this, nodes
      ensures Valid()
      ensures Items() == [x] + if |old(nodes)| >= QUEUE_SIZE then old(Items())[..|old(nodes)| - 1] else old(Items())
      ensures forall n :: n in nodes ==> n in old(nodes) || fresh(n)
    {
      ghost var before := nodes;
      if tail != null && size >= QUEUE_SIZE {
        Unlink(tail, |nodes| - 1);
        assert before[|before|..] == [];
      }
      ghost var kept := if |before| >= QUEUE_SIZE then before[..|before| - 1] else before;
      assert nodes == kept;
      var n := AddHead(x);
      assert forall i :: 1 <= i < |nodes| ==> nodes[i] == kept[i - 1];
    }
  }
}
