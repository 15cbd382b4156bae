/**
  The sentinel doubly linked list of src/lib/list.c, pointer by pointer. `nodes` is the list from
  head to tail; every operation is tied to what it does to that sequence.
 */
module LinkedList {
  import opened Lists

  class Node {
    var prev: Node?
    var next: Node?
    const key: int

    constructor (key: int)
      ensures this.key == key && prev == null && next == null
    {
      this.key, prev, next := key, null, null;
    }
  }

  // Links of neighbours agree, and no node occurs twice.
  ghost predicate Chained(chain: seq<Node>)
    reads chain
  {
    && |chain| >= 2
    && (forall i, j :: 0 <= i < j < |chain| ==> chain[i] != chain[j])
    && (forall i :: 0 <= i < |chain| - 1 ==> chain[i].next == chain[i + 1])
    && (forall i :: 0 < i < |chain| ==> chain[i].prev == chain[i - 1])
    && chain[0].prev == null && chain[|chain| - 1].next == null
  }

  ghost function KeysOf(nodes: seq<Node>): (r: seq<int>)
    ensures |r| == |nodes| && forall i :: 0 <= i < |nodes| ==> r[i] == nodes[i].key
  {
    seq(|nodes|, i requires 0 <= i < |nodes| => nodes[i].key)
  }

  // What linking a node in behind position p makes of a chain, the other links being as they were.
  lemma Spliced(was: seq<Node>, now: seq<Node>, node: Node, p: nat)
    requires |was| >= 2 && p < |was| - 1 && node !in was && now == was[..p + 1] + [node] + was[p + 1..]
    requires forall i, j :: 0 <= i < j < |was| ==> was[i] != was[j]
    requires forall i :: 0 <= i < |was| - 1 ==> was[i].next == if i == p then node else was[i + 1]
    requires forall i :: 0 < i < |was| ==> was[i].prev == if i == p + 1 then node else was[i - 1]
    requires was[0].prev == null && was[|was| - 1].next == null && node.prev == was[p] && node.next == was[p + 1]
    ensures Chained(now)
  {
    forall i | 0 <= i < |now| ensures now[i] == if i <= p then was[i] else if i == p + 1 then node else was[i - 1] {}
    forall i, j | 0 <= i < j < |now| ensures now[i] != now[j] {}
    forall i | 0 <= i < |now| - 1 ensures now[i].next == now[i + 1] {}
    forall i | 0 < i < |now| ensures now[i].prev == now[i - 1] {}
  }

  // What linking a node out of position p makes of a chain.
  lemma Closed(was: seq<Node>, now: seq<Node>, p: nat)
    requires 0 < p < |was| - 1 && now == RemoveAt(was, p)
    requires forall i, j :: 0 <= i < j < |was| ==> was[i] != was[j]
    requires was[p - 1].next == was[p + 1] && was[p + 1].prev == was[p - 1]
    requires forall i :: 0 <= i < |was| - 1 && i != p && i != p - 1 ==> was[i].next == was[i + 1]
    requires forall i :: 0 < i < |was| && i != p && i != p + 1 ==> was[i].prev == was[i - 1]
    requires was[0].prev == null && was[|was| - 1].next == null
    ensures Chained(now) && was[p] !in now
  {
    forall i | 0 <= i < |now| ensures now[i] == if i < p then was[i] else was[i + 1] {}
    forall i, j | 0 <= i < j < |now| ensures now[i] != now[j] {}
    forall i | 0 <= i < |now| - 1 ensures now[i].next == now[i + 1] {}
    forall i | 0 < i < |now| ensures now[i].prev == now[i - 1] {}
  }

  class List {
    const head: Node
    const tail: Node
    ghost var nodes: seq<Node>

    ghost function Chain(): seq<Node>
      reads this
    {
      [head] + nodes + [tail]
    }

    ghost predicate Valid()
      reads this, Chain()
    {
      Chained(Chain())
    }

    // list_init.
    constructor ()
      ensures Valid() && nodes == [] && fresh(head) && fresh(tail)
    {
      var h := new Node(0);
      var t := new Node(0);
      head, tail, nodes := h, t, [];
      new;
      h.next, t.prev := t, h;
    }

    // list_insert_before, at position p of the list: the anchor is the node there, or the tail.
    method InsertBefore(anchor: Node, node: Node, ghost p: nat)
      requires Valid() && p <= |nodes| && anchor == Chain()[p + 1]
      requires node !in Chain() && node.prev == null && node.next == null
      modifies this, Chain(), node
      ensures Valid() && nodes == Insert(old(nodes), p, node)
    {
      ghost var was := Chain();
      assert was[p + 1].prev == was[p];
      node.prev := anchor.prev;
      node.next := anchor;
      anchor.prev.next := node;
      anchor.prev := node;
      nodes := Insert(nodes, p, node);
      Spliced(was, Chain(), node, p);
    }

    method InsertAfter(anchor: Node, node: Node, ghost p: nat)
      requires Valid() && p <= |nodes| && anchor == Chain()[p]
      requires node !in Chain() && node.prev == null && node.next == null
      modifies this, Chain(), node
      ensures Valid() && nodes == Insert(old(nodes), p, node)
    {
      ghost var was := Chain();
      assert was[p].next == was[p + 1];
      node.prev := anchor;
      node.next := anchor.next;
      anchor.next.prev := node;
      anchor.next := node;
      nodes := Insert(nodes, p, node);
      Spliced(was, Chain(), node, p);
    }

    // list_remove: the node is left with no links.
    method Remove(node: Node, ghost p: nat)
      requires Valid() && p < |nodes| && node == nodes[p]
      modifies this, Chain()
      ensures Valid() && nodes == RemoveAt(old(nodes), p)
      ensures node.prev == null && node.next == null && node !in Chain()
    {
      ghost var was := Chain();
      assert was[p + 1] == node && was[p + 1].prev == was[p] && was[p + 1].next == was[p + 2];
      node.prev.next := node.next;
      node.next.prev := node.prev;
      node.prev := null;
      node.next := null;
      nodes := RemoveAt(nodes, p);
      assert Chain() == RemoveAt(was, p + 1);
      Closed(was, Chain(), p + 1);
    }

    method PushFront(node: Node)
      requires Valid() && node !in Chain() && node.prev == null && node.next == null
      modifies this, Chain(), node
      ensures Valid() && nodes == [node] + old(nodes)
    {
      InsertAfter(head, node, 0);
    }

    method PushBack(node: Node)
      requires Valid() && node !in Chain() && node.prev == null && node.next == null
      modifies this, Chain(), node
      ensures Valid() && nodes == old(nodes) + [node]
    {
      InsertBefore(tail, node, |nodes|);
    }

    method PopFront() returns (node: Node)
      requires Valid() && nodes != []
      modifies this, Chain()
      ensures Valid() && node == old(nodes)[0] && nodes == old(nodes)[1..] && node.prev == null && node.next == null
    {
      assert Chain()[0].next == Chain()[1];
      node := head.next;
      Remove(node, 0);
    }

    method PopBack() returns (node: Node)
      requires Valid() && nodes != []
      modifies this, Chain()
      ensures Valid() && node == old(nodes)[|old(nodes)| - 1] && nodes == old(nodes)[..|old(nodes)| - 1]
      ensures node.prev == null && node.next == null
    {
      assert Chain()[|nodes| + 1].prev == Chain()[|nodes|];
      node := tail.prev;
      Remove(node, |nodes| - 1);
    }

    method Size() returns (size: nat)
      requires Valid()
      ensures size == |nodes|
    {
      size := 0;
      assert Chain()[0].next == Chain()[1];
      var next := head.next;
      while next != tail
        invariant 0 <= size <= |nodes| && next == Chain()[size + 1]
        decreases |nodes| - size
      {
        assert Chain()[size + 1].next == Chain()[size + 2];
        size := size + 1;
        next := next.next;
      }
    }

    method Contains(node: Node) returns (r: bool)
      requires Valid() && node != head && node != tail
      ensures r <==> node in nodes
    {
      ghost var n := 0;
      assert Chain()[0].next == Chain()[1];
      var next := head.next;
      while next != tail
        invariant 0 <= n <= |nodes| && next == Chain()[n + 1]
        invariant node !in nodes[..n]
        decreases |nodes| - n
      {
        if next == node { return true; }
        assert Chain()[n + 1].next == Chain()[n + 2];
        next := next.next;
        n := n + 1;
      }
      return false;
    }

    method Empty() returns (r: bool)
      requires Valid()
      ensures r <==> nodes == []
    {
      assert Chain()[0].next == Chain()[1] && Chain()[|nodes| + 1].prev == Chain()[|nodes|];
      return head.next == tail && tail.prev == head;
    }

    method Singular() returns (r: bool)
      requires Valid()
      ensures r <==> |nodes| == 1
    {
      var empty := Empty();
      assert Chain()[0].next == Chain()[1];
      if empty { return false; }
      assert Chain()[1].next == Chain()[2];
      return head.next.next == tail;
    }

    // Whether a node of the list is its last, or its first.
    method IsTail(node: Node, ghost p: nat) returns (r: bool)
      requires Valid() && p < |nodes| && node == nodes[p]
      ensures r <==> p == |nodes| - 1
    {
      assert Chain()[p + 1].next == Chain()[p + 2];
      return node.next == tail;
    }

    method IsHead(node: Node, ghost p: nat) returns (r: bool)
      requires Valid() && p < |nodes| && node == nodes[p]
      ensures r <==> p == 0
    {
      assert Chain()[p + 1].prev == Chain()[p];
      return node.prev == head;
    }

    // The first node whose key is not smaller, or the tail.
    method FirstNotSmaller(key: int) returns (anchor: Node, ghost n: nat)
      requires Valid()
      ensures n == Place(KeysOf(nodes), key) && anchor == Chain()[n + 1]
    {
      ghost var keys := KeysOf(nodes);
      n := 0;
      assert Chain()[0].next == Chain()[1];
      var ptr := head.next;
      while ptr != tail
        invariant 0 <= n <= |nodes| && ptr == Chain()[n + 1]
        invariant Place(keys, key) == n + Place(keys[n..], key)
        decreases |nodes| - n
      {
        if ptr.key >= key { return ptr, n; }
        assert Chain()[n + 1].next == Chain()[n + 2];
        ptr := ptr.next;
        n := n + 1;
      }
      anchor := tail;
    }

    // list_insert_sort.
    method InsertSort(node: Node)
      requires Valid() && node !in Chain() && node.prev == null && node.next == null
      modifies this, Chain(), node
      ensures Valid() && nodes == Insert(old(nodes), Place(KeysOf(old(nodes)), node.key), node)
      ensures Ascending(KeysOf(old(nodes))) ==> Ascending(KeysOf(nodes))
    {
      ghost var keys := KeysOf(nodes);
      var anchor, n := FirstNotSmaller(node.key);
      InsertAscendingIf(keys, node.key);
      hide Ascending, Place, Chained;
      InsertBefore(anchor, node, n);
      assert KeysOf(nodes) == Insert(keys, n, node.key);
    }
  }

  lemma InsertAscendingIf(keys: seq<int>, key: int)
    ensures Ascending(keys) ==> Ascending(Insert(keys, Place(keys, key), key))
  {
    if Ascending(keys) { InsertAscending(keys, key); }
  }
}
