/** The pending queue of a semaphore set as linked nodes: `prev` and
    `sem_pending_last` hold the ADDRESS of the pointer that leads to the next
    node, which is either the head of the queue or a node's own next field. */
module SemPending {
  import opened Semaphores

  datatype Slot = Null | Head | NextOf(node: QNode)

  /** A struct sem_queue on its owner's stack: the sleeping operation and its links. */
  class QNode {
    var entry: Pending
    var next: QNode?
    var prev: Slot

    constructor (entry: Pending)
      ensures this.entry == entry && prev == Null
    {
      this.entry, next, prev := entry, null, Null;
    }
  }

  ghost predicate Distinct(nodes: seq<QNode>) {
    forall i, j :: 0 <= i < j < |nodes| ==> nodes[i] != nodes[j]
  }

  /** Node i points at node i + 1 and back to the pointer that leads to it. */
  ghost predicate Linked(nodes: seq<QNode>)
    reads nodes`next, nodes`prev
  {
    && (forall i {:trigger nodes[i].next} :: 0 <= i < |nodes| ==> nodes[i].next == (if i + 1 < |nodes| then nodes[i+1] else null))
    && (forall i {:trigger nodes[i].prev} :: 0 <= i < |nodes| ==> nodes[i].prev == (if i == 0 then Head else NextOf(nodes[i-1])))
  }

  lemma LinkedAt(nodes: seq<QNode>)
    requires Distinct(nodes) && Linked(nodes)
    ensures forall i, j :: 0 <= i < j < |nodes| ==> nodes[i] != nodes[j]
    ensures forall i {:trigger nodes[i].next} :: 0 <= i < |nodes| ==> nodes[i].next == (if i + 1 < |nodes| then nodes[i+1] else null)
    ensures forall i {:trigger nodes[i].prev} :: 0 <= i < |nodes| ==> nodes[i].prev == (if i == 0 then Head else NextOf(nodes[i-1]))
  {
  }

  lemma Appended(was: seq<QNode>, q: QNode)
    requires Distinct(was) && q !in was && q.next == null
    requires forall i {:trigger was[i].next} :: 0 <= i < |was| ==> was[i].next == (if i + 1 < |was| then was[i+1] else q)
    requires forall i {:trigger was[i].prev} :: 0 <= i < |was| ==> was[i].prev == (if i == 0 then Head else NextOf(was[i-1]))
    requires q.prev == (if was == [] then Head else NextOf(was[|was|-1]))
    ensures Distinct(was + [q]) && Linked(was + [q])
  {
    var now := was + [q];
    forall i | 0 <= i < |was| ensures now[i] == was[i] {}
  }

  /** What remove_from_queue leaves behind, seen from the old sequence, is linked without node k. */
  lemma Unlinked(was: seq<QNode>, k: nat)
    requires k < |was| && Distinct(was)
    requires forall i {:trigger was[i].next} :: 0 <= i < |was| && i != k ==>
               was[i].next == (var j := if i + 1 == k then k + 1 else i + 1; if j < |was| then was[j] else null)
    requires forall i {:trigger was[i].prev} :: 0 <= i < |was| && i != k ==>
               was[i].prev == (var j := if i == k + 1 then k else i; if j == 0 then Head else NextOf(was[j-1]))
    ensures Distinct(was[..k] + was[k+1..]) && Linked(was[..k] + was[k+1..])
  {
    var now := was[..k] + was[k+1..];
    forall i | 0 <= i < |now| ensures now[i] == was[if i < k then i else i + 1] {}
  }

  class PendingList {
    var head: QNode?
    var last: Slot
    ghost var nodes: seq<QNode>

    /** The links spell out exactly the sequence `nodes`. */
    ghost predicate Valid()
      reads this, nodes`next, nodes`prev
    {
      && Distinct(nodes) && Linked(nodes)
      && head == (if nodes == [] then null else nodes[0])
      && last == (if nodes == [] then Head else NextOf(nodes[|nodes|-1]))
    }

    constructor ()
      ensures Valid() && nodes == []
    {
      head, last, nodes := null, Head, [];
    }

    /** Store through a pointer to a pointer. */
    method Store(slot: Slot, q: QNode?)
      requires slot != Null
      modifies this`head, (if slot.NextOf? then {slot.node} else {})`next
      ensures slot.Head? ==> head == q
      ensures slot.NextOf? ==> head == old(head) && slot.node.next == q
    {
      match slot
      case Head => head := q;
      case NextOf(n) => n.next := q;
    }

    /** append_to_queue. */
    method Append(q: QNode)
      requires Valid() && q !in nodes
      modifies this, nodes`next, nodes`prev, q`next, q`prev
      ensures Valid() && nodes == old(nodes) + [q]
    {
      hide Distinct, Linked;
      LinkedAt(nodes);
      q.prev := last;
      Store(q.prev, q);
      last := NextOf(q);
      Store(last, null);
      Appended(nodes, q);
      nodes := nodes + [q];
    }

    /** prepend_to_queue. */
    method Prepend(q: QNode)
      requires Valid() && q !in nodes
      modifies this, nodes`next, nodes`prev, q`next, q`prev
      ensures Valid() && nodes == [q] + old(nodes)
    {
      q.next := head;
      q.prev := Head;
      Store(q.prev, q);
      if q.next != null {
        q.next.prev := NextOf(q);
      } else {
        last := NextOf(q);
      }
      ghost var was := nodes;
      nodes := [q] + nodes;
      assert forall i :: 1 <= i < |nodes| ==> nodes[i] == was[i-1];
    }

    /** The pointers around node k skip it. */
    method Bypass(q: QNode, ghost k: nat)
      requires Distinct(nodes) && Linked(nodes) && k < |nodes| && nodes[k] == q
      modifies this`head, this`last, nodes`next, nodes`prev
      ensures forall i {:trigger nodes[i].next} :: 0 <= i < |nodes| && i != k ==>
                nodes[i].next == (var j := if i + 1 == k then k + 1 else i + 1; if j < |nodes| then nodes[j] else null)
      ensures forall i {:trigger nodes[i].prev} :: 0 <= i < |nodes| && i != k ==>
                nodes[i].prev == (var j := if i == k + 1 then k else i; if j == 0 then Head else NextOf(nodes[j-1]))
      ensures q.prev == Null && q.next == (if k + 1 < |nodes| then nodes[k+1] else null)
      ensures head == (if k == 0 then q.next else old(head))
      ensures last == (if k + 1 == |nodes| then (if k == 0 then Head else NextOf(nodes[k-1])) else old(last))
    {
      var slot, next := q.prev, q.next;
      Store(slot, next);
      if next != null {
        next.prev := slot;
      } else {
        last := slot;
      }
      q.prev := Null;
    }

    /** remove_from_queue: q leaves the sequence, everything else keeps its place. */
    method Remove(q: QNode, ghost k: nat)
      requires Valid() && k < |nodes| && nodes[k] == q
      modifies this, nodes`next, nodes`prev
      ensures Valid() && nodes == old(nodes)[..k] + old(nodes)[k+1..] && q.prev == Null
      ensures q.next == (if k + 1 < |old(nodes)| then old(nodes)[k+1] else null)
    {
      hide Distinct, Linked;
      Bypass(q, k);
      Unlinked(nodes, k);
      nodes := nodes[..k] + nodes[k+1..];
    }
  }
}
