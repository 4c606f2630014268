/** The intrusive doubly linked list: the links live in the nodes, and a node outside every list has none. */
module IntrusiveList {
  import opened Basics

  class Node {
    const address: nat
    var next: Node?
    var prev: Node?

    constructor (address: nat)
      ensures this.address == address && Detached()
    {
      this.address, next, prev := address, null, null;
    }

    ghost predicate Detached()
      reads this
    {
      next == null && prev == null
    }
  }

  ghost function ToFront(s: seq<Node>, k: nat): (r: seq<Node>)
    requires k < |s|
    ensures |r| == |s|
    ensures r[0] == s[k] && (forall i :: 1 <= i <= k ==> r[i] == s[i - 1]) && forall i :: k < i < |s| ==> r[i] == s[i]
    ensures Distinct(s) ==> Distinct(r)
  {
    [s[k]] + s[..k] + s[k + 1..]
  }

  ghost function ToBack(s: seq<Node>, k: nat): (r: seq<Node>)
    requires k < |s|
    ensures |r| == |s|
    ensures r[|s| - 1] == s[k] && (forall i :: 0 <= i < k ==> r[i] == s[i]) && forall i :: k <= i < |s| - 1 ==> r[i] == s[i + 1]
    ensures Distinct(s) ==> Distinct(r)
  {
    s[..k] + s[k + 1..] + [s[k]]
  }

  class List {
    var head: Node?
    var tail: Node?
    var size: nat
    ghost var nodes: seq<Node>   // the contents, front to back

    /** Each node's links lead to its neighbours in `nodes`, and the ends are head and tail. */
    ghost predicate Valid()
      reads this, nodes
    {
      && size == |nodes|
      && Distinct(nodes)
      && (nodes == [] ==> head == null && tail == null)
      && (nodes != [] ==>
            && head == nodes[0] && nodes[0].prev == null
            && tail == nodes[|nodes| - 1] && nodes[|nodes| - 1].next == null
            && (forall i {:trigger nodes[i].next} :: 0 <= i < |nodes| - 1 ==> nodes[i].next == nodes[i + 1])
            && (forall i {:trigger nodes[i].prev} :: 1 <= i < |nodes| ==> nodes[i].prev == nodes[i - 1]))
    }

    /** What happens elsewhere does not matter to a list. */
    twostate lemma StaysValid()
      requires old(Valid()) && unchanged(this) && forall k :: 0 <= k < |nodes| ==> unchanged(nodes[k])
      ensures Valid()
    {
    }

    constructor ()
      ensures Valid() && nodes == []
    {
      head, tail, size, nodes := null, null, 0, [];
    }

    /** For a node that is in this list or in none, the test by its links is exact. */
    method IsLinked(p: Node) returns (r: bool)
      requires Valid() && (p in nodes || p.Detached())
      ensures r <==> p in nodes
    {
      if p in nodes {
        ghost var k :| 0 <= k < |nodes| && nodes[k] == p;
        assert k < |nodes| - 1 ==> nodes[k].next == nodes[k + 1];
        assert k > 0 ==> nodes[k].prev == nodes[k - 1];
      }
      r := p.next != null || p.prev != null || (p == head && p == tail);
    }

    method PushFront(p: Node)
      requires Valid() && p.Detached() && p !in nodes
      modifies this, nodes, p
      ensures Valid() && nodes == [p] + old(nodes)
    {
      if head != null { head.prev := p; }
      p.prev := null;
      p.next := head;
      head := p;
      if tail == null { tail := p; }
      size := size + 1;
      nodes := [p] + nodes;
    }

    method PushBack(p: Node)
      requires Valid() && p.Detached() && p !in nodes
      modifies this, nodes, p
      ensures Valid() && nodes == old(nodes) + [p]
    {
      if tail != null { tail.next := p; }
      p.next := null;
      p.prev := tail;
      tail := p;
      if head == null { head := p; }
      size := size + 1;
      nodes := nodes + [p];
    }

    method PopFront() returns (p: Node?)
      requires Valid()
      modifies this, nodes
      ensures Valid()
      ensures old(nodes) == [] ==> p == null && nodes == []
      ensures old(nodes) != [] ==> p == old(nodes)[0] && p.Detached() && nodes == old(nodes)[1..]
    {
      if head == null { return null; }
      p := head;
      head := head.next;
      if head != null { head.prev := null; }
      if tail == p { tail := null; }
      size := size - 1;
      p.next := null;
      nodes := nodes[1..];
    }

    method PopBack() returns (p: Node?)
      requires Valid()
      modifies this, nodes
      ensures Valid()
      ensures old(nodes) == [] ==> p == null && nodes == []
      ensures old(nodes) != [] ==> p == old(nodes)[|old(nodes)| - 1] && p.Detached() && nodes == old(nodes)[..|old(nodes)| - 1]
    {
      if tail == null { return null; }
      p := tail;
      tail := tail.prev;
      if tail != null { tail.next := null; }
      if head == p { head := null; }
      size := size - 1;
      p.prev := null;
      nodes := nodes[..|nodes| - 1];
    }

    /** The links of the node in place `k`, which is in no other place; nor are its neighbours and the ends. */
    lemma Links(k: nat)
      requires Valid() && k < |nodes|
      ensures forall i :: 0 <= i < |nodes| && i != k ==> nodes[i] != nodes[k]
      ensures forall i :: 0 < i < |nodes| ==> nodes[i] != nodes[0]
      ensures forall i :: 0 <= i < |nodes| - 1 ==> nodes[i] != nodes[|nodes| - 1]
      ensures k > 0 ==> forall i :: 0 <= i < |nodes| && i != k - 1 ==> nodes[i] != nodes[k - 1]
      ensures k + 1 < |nodes| ==> forall i :: 0 <= i < |nodes| && i != k + 1 ==> nodes[i] != nodes[k + 1]
      ensures nodes[k].next == if k + 1 < |nodes| then nodes[k + 1] else null
      ensures nodes[k].prev == if k > 0 then nodes[k - 1] else null
      ensures (nodes[k] == head <==> k == 0) && (nodes[k] == tail <==> k + 1 == |nodes|)
      ensures head == nodes[0] && tail == nodes[|nodes| - 1]
    {
    }

    lemma OthersDistinct(k: nat)
      requires Valid() && k < |nodes|
      ensures Distinct(nodes[..k] + nodes[k + 1..])
    {
    }

    /** Unlinks a node from wherever it stands; the others keep their order. */
    method Remove(p: Node, ghost k: nat)
      requires Valid() && k < |nodes| && nodes[k] == p
      modifies this, nodes
      ensures Valid() && p.Detached() && p !in nodes
      ensures nodes == old(nodes)[..k] + old(nodes)[k + 1..]
    {
      hide Distinct;
      Links(k);
      OthersDistinct(k);
      if head == p { head := p.next; }
      if tail == p { tail := p.prev; }
      if p.next != null { p.next.prev := p.prev; }
      if p.prev != null { p.prev.next := p.next; }
      p.next, p.prev := null, null;
      size := size - 1;
      nodes := nodes[..k] + nodes[k + 1..];
    }

    method MoveToFront(p: Node, ghost k: nat)
      requires Valid() && k < |nodes| && nodes[k] == p
      modifies this, nodes
      ensures Valid() && nodes == ToFront(old(nodes), k)
    {
      hide Distinct;
      Links(k);
      if head != p {
        if tail != p {
          p.next.prev := p.prev;
        } else {
          tail := p.prev;
        }
        p.prev.next := p.next;
        p.prev := null;
        p.next := head;
        head.prev := p;
        head := p;
      }
      nodes := ToFront(nodes, k);
    }

    method MoveToBack(p: Node, ghost k: nat)
      requires Valid() && k < |nodes| && nodes[k] == p
      modifies this, nodes
      ensures Valid() && nodes == ToBack(old(nodes), k)
    {
      hide Distinct;
      Links(k);
      if tail != p {
        if head != p {
          p.prev.next := p.next;
        } else {
          head := p.next;
        }
        p.next.prev := p.prev;
        p.next := null;
        p.prev := tail;
        tail.next := p;
        tail := p;
      }
      nodes := ToBack(nodes, k);
    }
  }
}
