/** The doubly linked lists of packets and of channels: head and tail pointers, nodes spliced in and out in place. */
module LinkedLists {

  class Node<T> {
    var data: T
    var next: Node?<T>
    var prev: Node?<T>

    constructor (data: T)
      ensures this.data == data && next == null && prev == null
    {
      this.data, next, prev := data, null, null;
    }
  }

  class LinkedList<T> {
    var head: Node?<T>
    var tail: Node?<T>
    ghost var nodes: seq<Node<T>>

    /** Link `i` of the chain: the node before position i and the one at position i point at each other. */
    ghost predicate Linked(i: nat)
      requires i < |nodes|
      reads this, nodes
    {
      && nodes[i].prev == (if i == 0 then null else nodes[i - 1])
      && nodes[i].next == (if i == |nodes| - 1 then null else nodes[i + 1])
    }

    ghost predicate Valid()
      reads this, nodes
    {
      && head == (if nodes == [] then null else nodes[0])
      && tail == (if nodes == [] then null else nodes[|nodes| - 1])
      && (forall i, j :: 0 <= i < j < |nodes| ==> nodes[i] != nodes[j])
      && (forall i :: 0 <= i < |nodes| ==> Linked(i))
    }

    ghost function Values(): (s: seq<T>)
      reads this, nodes
      ensures |s| == |nodes|
      ensures forall i :: 0 <= i < |s| ==> s[i] == nodes[i].data
    {
      seq(|nodes|, i requires 0 <= i < |nodes| reads this, nodes => nodes[i].data)
    }

    constructor ()
      ensures Valid() && nodes == [] && Values() == []
    {
      head, tail, nodes := null, null, [];
    }

    method Append(data: T)
      requires Valid()
      modifies this, nodes
      ensures Valid() && |nodes| == |old(nodes)| + 1
      ensures fresh(nodes[|old(nodes)|]) && nodes[..|old(nodes)|] == old(nodes)
      ensures Values() == old(Values()) + [data]
    {
      var n := new Node(data);
      n.next := null;
      if tail != null {
        n.prev := tail;
        tail.next := n;
      } else {
        head := n;
        n.prev := null;
      }
      tail := n;
      nodes := nodes + [n];
      forall i | 0 <= i < |nodes| ensures Linked(i) {
        if i < |nodes| - 1 { assert old(Linked(i)) && nodes[i] == old(nodes)[i] && nodes[i] != n; }
      }
    }

    /** The chain after n was put in front of it. */
    twostate lemma InFront(new n: Node<T>, i: nat)
      requires old(Valid()) && nodes == [n] + old(nodes) && n !in old(nodes) && i < |nodes|
      requires n.prev == null && n.next == old(head)
      requires old(nodes) != [] ==> old(nodes)[0].prev == n && old(nodes)[0].next == old(nodes[0].next)
      requires forall j :: 0 < j < |old(nodes)| ==> unchanged(old(nodes)[j])
      ensures Linked(i)
    {
      ghost var was := old(nodes);
      if i > 0 {
        assert nodes[i] == was[i - 1];
        assert old(Linked(i - 1));
      }
    }

    /** Everything that was in the chain is as it was, but for the first node's link to n. */
    twostate predicate Hooked(was: seq<Node<T>>, new n: Node<T>)
      reads this, was, n
    {
      && n !in was && n.prev == null && n.next == old(head) && head == n
      && tail == (if was == [] then n else old(tail))
      && (was != [] ==> was[0].prev == n && was[0].next == old(was[0].next) && was[0].data == old(was[0].data))
      && (forall j :: 0 < j < |was| ==> unchanged(was[j]))
    }

    twostate lemma AllInFront(new n: Node<T>)
      requires old(Valid()) && Hooked(old(nodes), n) && nodes == [n] + old(nodes)
      ensures Valid() && Values() == [n.data] + old(Values())
    {
      forall i | 0 <= i < |nodes| ensures Linked(i) {
        InFront(n, i);
      }
    }

    /** The pointer writes of linking a node in front. */
    method HookInFront(n: Node<T>)
      requires Valid() && n !in nodes
      modifies this, nodes, n
      ensures nodes == old(nodes) && n.data == old(n.data)
      ensures Hooked(old(nodes), n)
    {
      n.prev := null;
      n.next := head;
      head := n;
      if n.next != null {
        n.next.prev := n;
      } else {
        tail := n;
      }
    }

    method PushFront(data: T)
      requires Valid()
      modifies this, nodes
      ensures Valid() && |nodes| == |old(nodes)| + 1
      ensures fresh(nodes[0]) && nodes[1..] == old(nodes)
      ensures Values() == [data] + old(Values())
    {
      var n := new Node(data);
      HookInFront(n);
      nodes := [n] + nodes;
      AllInFront(n);
    }

    /** The neighbours of node k, or the list's ends, are joined around it; nothing else has changed. */
    twostate predicate Unhooked(was: seq<Node<T>>, k: nat)
      requires k < |was|
      reads this, was
    {
      && head == (if k == 0 then old(was[k].next) else old(head))
      && tail == (if k == |was| - 1 then old(was[k].prev) else old(tail))
      && forall j :: 0 <= j < |was| && j != k ==>
           && was[j].data == old(was[j].data)
           && was[j].next == (if j == k - 1 then old(was[k].next) else old(was[j].next))
           && was[j].prev == (if j == k + 1 then old(was[k].prev) else old(was[j].prev))
    }

    twostate lemma AllJoined(k: nat)
      requires old(Valid()) && k < |old(nodes)| && Unhooked(old(nodes), k)
      requires nodes == old(nodes)[..k] + old(nodes)[k + 1..]
      ensures Valid() && Values() == old(Values())[..k] + old(Values())[k + 1..]
    {
      ghost var was := old(nodes);
      assert old(Linked(k));
      forall i | 0 <= i < |nodes| ensures Linked(i) {
        assert nodes[i] == was[if i < k then i else i + 1];
        assert old(Linked(if i < k then i else i + 1));
      }
    }

    /** The pointer writes of taking a node out. */
    method Unhook(n: Node<T>, ghost k: nat)
      requires Valid() && k < |nodes| && nodes[k] == n
      modifies this, nodes
      ensures nodes == old(nodes) && Unhooked(nodes, k)
    {
      assert Linked(k);
      if n.prev != null {
        n.prev.next := n.next;
      } else {
        head := n.next;
      }
      if n.next != null {
        n.next.prev := n.prev;
      } else {
        tail := n.prev;
      }
    }

    /** Takes one node out; its neighbours, or the list's ends, are joined around it. */
    method Unlink(n: Node<T>, ghost k: nat)
      requires Valid() && k < |nodes| && nodes[k] == n
      modifies this, nodes
      ensures Valid() && nodes == old(nodes)[..k] + old(nodes)[k + 1..]
      ensures Values() == old(Values())[..k] + old(Values())[k + 1..]
    {
      Unhook(n, k);
      nodes := nodes[..k] + nodes[k + 1..];
      AllJoined(k);
    }
  }
}
