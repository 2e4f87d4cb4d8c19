/** Circular doubly linked lists around a sentinel, as the macros of the message
    queue and the vehicle lists wire them. */
module CircularList {

  class Node<T> {
    var next: Node<T>
    var prev: Node<T>
    var item: T

    /** A node linked to itself: an empty list, if it is a sentinel. */
    constructor (item: T)
      ensures next == this && prev == this && this.item == item
    {
      this.item := item;
      next, prev := this, this;
    }
  }

  /** The way round, from the sentinel back to it. */
  function Around<T>(h: Node<T>, nodes: seq<Node<T>>): (r: seq<Node<T>>)
    ensures |r| == |nodes| + 2
  {
    [h] + nodes + [h]
  }

  /** The links lead from the sentinel through these nodes, each once, and back
      the same way. */
  ghost predicate Ring<T>(h: Node<T>, nodes: seq<Node<T>>)
    reads h, nodes
  {
    var r := Around(h, nodes);
    && (forall i {:trigger r[i].next} | 0 <= i <= |nodes| :: r[i].next == r[i + 1])
    && (forall i {:trigger r[i].prev} | 1 <= i <= |nodes| + 1 :: r[i].prev == r[i - 1])
    && (forall i, j | 0 <= i < j <= |nodes| :: r[i] != r[j])
  }

  /** The nodes are distinct from each other and from the sentinel. */
  lemma RingDistinct<T>(h: Node<T>, nodes: seq<Node<T>>)
    requires Ring(h, nodes)
    ensures forall i | 0 <= i < |nodes| :: nodes[i] != h
    ensures forall i, j | 0 <= i < j < |nodes| :: nodes[i] != nodes[j]
  {
    var r := Around(h, nodes);
    assert r[0] == h && forall i | 0 <= i < |nodes| :: nodes[i] == r[i + 1];
  }

  /** Who comes after the k-th node, and who comes first. */
  lemma RingNext<T>(h: Node<T>, nodes: seq<Node<T>>, k: nat)
    requires Ring(h, nodes) && k < |nodes|
    ensures nodes[k].next == if k + 1 < |nodes| then nodes[k + 1] else h
    ensures h.next == nodes[k] <==> k == 0
  {
    var r := Around(h, nodes);
    assert r[k + 1].next == r[k + 2] && r[0].next == r[1] == nodes[0];
    assert k > 0 ==> r[1] != r[k + 1];
  }

  /** Links q in right behind the sentinel. */
  method InsertHead<T>(h: Node<T>, q: Node<T>, ghost nodes: seq<Node<T>>)
    requires Ring(h, nodes) && q != h && q !in nodes
    modifies h`next, h`prev, q`next, q`prev, nodes`next, nodes`prev
    ensures Ring(h, [q] + nodes)
  {
    ghost var r := Around(h, nodes);
    assert r[0].next == r[1] == h.next;
    q.next := h.next;
    q.prev := h;
    h.next.prev := q;
    h.next := q;
    ghost var s := Around(h, [q] + nodes);
    assert forall i | 2 <= i < |s| :: s[i] == r[i - 1];
  }

  /** Links q in right before the sentinel. */
  method InsertTail<T>(h: Node<T>, q: Node<T>, ghost nodes: seq<Node<T>>)
    requires Ring(h, nodes) && q != h && q !in nodes
    modifies h`next, h`prev, q`next, q`prev, nodes`next, nodes`prev
    ensures Ring(h, nodes + [q])
  {
    ghost var r := Around(h, nodes);
    assert r[|nodes| + 1].prev == r[|nodes|] == h.prev;
    q.next := h;
    q.prev := h.prev;
    q.prev.next := q;
    h.prev := q;
    ghost var s := Around(h, nodes + [q]);
    assert forall i | 0 <= i <= |nodes| :: s[i] == r[i];
  }

  /** Unlinks the k-th node; its own links stay as they were. */
  method Remove<T>(h: Node<T>, q: Node<T>, ghost nodes: seq<Node<T>>, ghost k: nat)
    requires Ring(h, nodes) && k < |nodes| && nodes[k] == q
    modifies h`next, h`prev, nodes`next, nodes`prev
    ensures Ring(h, nodes[..k] + nodes[k + 1..])
    ensures q.next == old(q.next) == if k + 1 < |nodes| then nodes[k + 1] else h
  {
    ghost var r := Around(h, nodes);
    assert r[k + 1].next == r[k + 2] && r[k + 1].prev == r[k];
    assert r[k] != q && r[k + 2] != q;
    assert forall i | 1 <= i <= |nodes| && i != k + 2 :: r[i] != r[k + 2] by {
      assert r[|nodes| + 1] == r[0];
    }
    q.prev.next := q.next;
    q.next.prev := q.prev;
    ghost var s := Around(h, nodes[..k] + nodes[k + 1..]);
    assert forall i | 0 <= i <= k :: s[i] == r[i];
    assert forall i | k + 1 <= i < |s| :: s[i] == r[i + 1];
    forall i | 1 <= i < |s| ensures s[i].prev == s[i - 1] {
      if i <= k {
        assert r[i].prev == r[i - 1];
      } else if i > k + 1 {
        assert old(r[i + 1].prev) == r[i];
        assert i + 1 == |r| - 1 || r[i + 1] != r[k + 2];
      }
    }
  }
}
