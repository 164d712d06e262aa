/**
 * The intrusive FIFO queue of loki.h (the lkQ_* macros).
 *
 * A queue header holds `first` and `last`; the nodes are chained through their
 * own `next` field. The chain from `first` to `last` is the queue; whatever
 * `last.next` holds is stale and is not part of the queue (lkQ_head is what
 * cuts it off).  The ghost sequence `Nodes` is the queue's contents.
 */
module LkQueue {

  /** No element occurs twice. */
  predicate Distinct<T(==)>(q: seq<T>)
  {
    forall i, j | 0 <= i < j < |q| :: q[i] != q[j]
  }

  /** The position of the first occurrence of `n` in `q`. */
  function IndexOf<T(==)>(q: seq<T>, n: T): (i: nat)
    requires n in q
    ensures i < |q| && q[i] == n && n !in q[..i]
  {
    if q[0] == n then 0
    else
      var i := 1 + IndexOf(q[1..], n);
      assert q[..i] == [q[0]] + q[1..][..i - 1];
      i
  }

  /**
   * The queue lkQ_enqueue leaves when `n` is added to a queue holding `q`.
   * The macro does not look whether `n` is queued: a node that is not goes
   * to the back; a node that is becomes `last`, so the queue now ends at its
   * first occurrence and the nodes that followed it are no longer reached.
   */
  function Enqueued<T(==)>(q: seq<T>, n: T): seq<T>
  {
    if n in q then q[..IndexOf(q, n) + 1] else q + [n]
  }

  /**
   * What Enqueued means: `n` ends the queue and occurs in it once at the end;
   * the queue is a prefix of `q` followed by `n`, all of it when `n` was not
   * queued and none of it past `q` when it was.
   */
  lemma EnqueuedMeaning<T>(q: seq<T>, n: T)
    ensures var r := Enqueued(q, n);
            |r| > 0 && r[|r| - 1] == n && n !in r[..|r| - 1] && r <= q + [n]
    ensures n !in q ==> Enqueued(q, n) == q + [n]
    ensures n in q ==> |Enqueued(q, n)| <= |q|
  {
    if n in q {
      var i := IndexOf(q, n);
      assert q[..i + 1][..i] == q[..i];
    } else {
      assert (q + [n])[..|q|] == q;
    }
  }

  /** lkQ_enqueue never repeats a node in a queue that had none twice. */
  lemma EnqueuedDistinct<T>(q: seq<T>, n: T)
    requires Distinct(q)
    ensures Distinct(Enqueued(q, n))
  {
  }

  class Node<T> {
    var next: Node?<T>
    var data: T

    constructor (d: T)
      ensures data == d && next == null
    {
      data := d;
      next := null;
    }
  }

  class Queue<T> {
    var first: Node?<T>
    var last: Node?<T>
    ghost var Nodes: seq<Node<T>>

    /** The header and the `next` links describe exactly `Nodes`, without repetition. */
    ghost predicate Valid()
      reads this, Nodes
    {
      && (Nodes == [] <==> first == null)
      && (Nodes == [] ==> last == null)
      && (Nodes != [] ==> first == Nodes[0] && last == Nodes[|Nodes| - 1])
      && (forall i, j :: 0 <= i < j < |Nodes| ==> Nodes[i] != Nodes[j])
      && (forall i :: 0 <= i < |Nodes| - 1 ==> Nodes[i].next == Nodes[i + 1])
    }

    /** lkQ_init */
    constructor ()
      ensures Valid() && Nodes == []
    {
      first, last := null, null;
      Nodes := [];
    }

    /** lkQ_init on an existing header */
    method Init()
      modifies this
      ensures Valid() && Nodes == []
    {
      first, last := null, null;
      Nodes := [];
    }

    /** lkQ_empty */
    method IsEmpty() returns (b: bool)
      requires Valid()
      ensures b <==> Nodes == []
    {
      b := first == null;
    }

    /** lkQ_enqueue: the node goes to the back; only the old last node's link changes. */
    method Enqueue(n: Node<T>)
      requires Valid()
      requires n !in Nodes
      modifies this, last
      ensures Valid()
      ensures Nodes == old(Nodes) + [n] && Nodes == Enqueued(old(Nodes), n)
      ensures old(last) != null ==> old(last).data == old(last.data)
      ensures n.next == old(n.next)
    {
      if first == null {
        first, last := n, n;
      } else {
        last.next := n;
        last := n;
      }
      Nodes := Nodes + [n];
    }

    /**
     * lkQ_enqueue of a node that is already queued: the old last node's link
     * and `last` now point at `n`, so the queue ends at `n` and the nodes that
     * were queued behind it are cut off, their links left as they were.
     */
    method Requeue(n: Node<T>)
      requires Valid()
      requires n in Nodes
      modifies this, last
      ensures Valid()
      ensures Nodes == Enqueued(old(Nodes), n)
      ensures Nodes + old(Nodes)[|Nodes|..] == old(Nodes)
      ensures old(last) != null ==> old(last).data == old(last.data)
    {
      ghost var i := IndexOf(Nodes, n);
      last.next := n;
      last := n;
      Nodes := Nodes[..i + 1];
    }

    /** lkQ_dequeue: yields the front node (null when empty); the rest keep their order. */
    method Dequeue() returns (n: Node?<T>)
      requires Valid()
      modifies this
      ensures Valid()
      ensures old(Nodes) == [] ==> n == null && Nodes == []
      ensures old(Nodes) != [] ==> n == old(Nodes)[0] && Nodes == old(Nodes)[1..]
    {
      n := first;
      if n == last {
        first, last := null, null;
        Nodes := [];
      } else {
        assert |Nodes| > 1;
        assert Nodes[0].next == Nodes[1];
        first := first.next;
        Nodes := Nodes[1..];
      }
    }

    /**
     * lkQ_head: terminates the chain at `last` and returns the front node, so that
     * walking `next` from the result visits exactly `Nodes` and then null.
     */
    method Head() returns (n: Node?<T>)
      requires Valid()
      modifies last
      ensures Valid() && Nodes == old(Nodes)
      ensures n == (if Nodes == [] then null else Nodes[0])
      ensures Nodes != [] ==> Nodes[|Nodes| - 1].next == null
    {
      if first == null {
        n := null;
      } else {
        last.next := null;
        n := first;
      }
    }

    /**
     * lkQ_merge(this, other): splices `other` onto the back of this queue in O(1).
     * `other`'s header is left as it was, so both headers then share its nodes.
     */
    method Merge(other: Queue<T>)
      requires Valid() && other.Valid()
      requires other != this
      requires forall i, j :: 0 <= i < |Nodes| && 0 <= j < |other.Nodes| ==> Nodes[i] != other.Nodes[j]
      modifies this, last
      ensures Valid()
      ensures Nodes == old(Nodes) + old(other.Nodes)
      ensures other.first == old(other.first) && other.last == old(other.last)
    {
      if other.first != null {
        if first == null {
          first := other.first;
        } else {
          last.next := other.first;
        }
        last := other.last;
        Nodes := Nodes + other.Nodes;
      }
    }
  }
}
