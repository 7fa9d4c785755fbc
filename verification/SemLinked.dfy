/** update_queue on the linked queue: the walk follows the next pointer of the node it
    stands on, also when it has just taken that node out. */
module SemLinked {
  import opened Semaphores
  import opened SemLedger
  import opened SemArrays
  import opened SemPending

  /** The nodes carry the entries of p, in order. */
  ghost predicate Carry(nodes: seq<QNode>, p: seq<Pending>)
    reads nodes`entry
  {
    |nodes| == |p| && forall i :: 0 <= i < |p| ==> nodes[i].entry == p[i]
  }

  lemma CarrySize(nodes: seq<QNode>, p: seq<Pending>)
    requires Carry(nodes, p)
    ensures |nodes| == |p|
  {
  }

  class LinkedSet {
    const sems: SemSet
    const queue: PendingList

    /** The links are in order and carry the entries of the set's queue. */
    ghost predicate Mirrors()
      reads this, sems, queue, queue.nodes
    {
      queue.Valid() && Carry(queue.nodes, sems.pending)
    }

    constructor (n: nat)
      ensures Mirrors() && fresh(sems) && fresh(queue) && fresh(sems.base) && sems.View() == Sem(Zeros(n), [], [])
    {
      sems := new SemSet(n);
      queue := new PendingList();
    }

    /** A process goes to sleep: behind the others if it alters something, otherwise in front. */
    method Enqueue(q: QNode, alter: bool)
      requires Mirrors() && q !in queue.nodes
      modifies sems`pending, queue, queue.nodes`next, queue.nodes`prev, q`next, q`prev
      ensures Mirrors() && sems.pending == if alter then old(sems.pending) + [q.entry] else [q.entry] + old(sems.pending)
    {
      hide Distinct, Linked;
      if alter {
        queue.Append(q);
        sems.pending := sems.pending + [q.entry];
      } else {
        queue.Prepend(q);
        sems.pending := [q.entry] + sems.pending;
      }
    }

    /** The entry of node i is marked. */
    method MarkNode(q: QNode, ghost i: nat, ghost p: seq<Pending>)
      requires queue.Valid() && Carry(queue.nodes, p) && i < |p| && i < |queue.nodes| && queue.nodes[i] == q
      modifies q`entry
      ensures queue.Valid() && Carry(queue.nodes, p[i := p[i].(retry := true)])
    {
      hide Linked;
      q.entry := q.entry.(retry := true);
    }

    /** Node i leaves the list; its next pointer still leads on. */
    method TakeOut(q: QNode, ghost i: nat, ghost p: seq<Pending>)
      requires queue.Valid() && Carry(queue.nodes, p) && i < |p| && i < |queue.nodes| && queue.nodes[i] == q
      modifies queue, queue.nodes`next, queue.nodes`prev
      ensures queue.Valid() && Carry(queue.nodes, p[..i] + p[i+1..])
      ensures queue.nodes == old(queue.nodes)[..i] + old(queue.nodes)[i+1..]
      ensures q.next == if i < |queue.nodes| then queue.nodes[i] else null
    {
      hide Distinct, Linked;
      ghost var was := queue.nodes;
      queue.Remove(q, i);
      forall k | 0 <= k < |queue.nodes| ensures queue.nodes[k] == was[if k < i then k else k + 1] {}
    }

    lemma NextIs(i: nat)
      requires queue.Valid() && i < |queue.nodes|
      ensures queue.nodes[i].next == if i + 1 < |queue.nodes| then queue.nodes[i+1] else null
    {
    }

    /** The loop body of update_queue for the node q, the i-th; false ends the walk. */
    method Visit(q: QNode, i: nat) returns (goOn: bool, stay: bool)
      requires Inv(sems.View()) && Mirrors() && i < |sems.pending| && i < |queue.nodes| && queue.nodes[i] == q
      modifies sems, sems.base, queue, queue.nodes
      ensures Mirrors() && Inv(sems.View())
      ensures queue.nodes == if !goOn || stay then old(queue.nodes) else old(queue.nodes)[..i] + old(queue.nodes)[i+1..]
      ensures Visited(old(sems.View()), sems.View(), i, !goOn, stay)
      ensures goOn ==> q.next == var j := if stay then i + 1 else i; if j < |queue.nodes| then queue.nodes[j] else null
    {
      hide Inv, Visited, Distinct, Linked, Carry;
      ghost var p := sems.pending;
      NextIs(i);
      var stop, kept := sems.VisitEntry(i);
      goOn, stay := !stop, kept;
      if stop {
        MarkNode(q, i, p);
      } else if !stay {
        TakeOut(q, i, p);
      }
    }

    /** update_queue. */
    method UpdateQueue()
      requires Inv(sems.View()) && Mirrors()
      modifies sems, sems.base, queue, queue.nodes
      ensures Mirrors() && Inv(sems.View()) && sems.View() == Semaphores.UpdateQueue(old(sems.View())).s
      ensures forall n :: n in queue.nodes ==> n in old(queue.nodes)
    {
      hide Inv, Distinct, Linked, Carry, Visited, PassFrom;
      PassBegins(sems.View());
      ghost var goal := Semaphores.UpdateQueue(sems.View()).s;
      var q, i := queue.head, 0;
      while q != null
        invariant 0 <= i <= |sems.pending| && Inv(sems.View()) && Mirrors()
        invariant q == (if i < |queue.nodes| then queue.nodes[i] else null)
        invariant forall k :: 0 <= k < |queue.nodes| ==> queue.nodes[k] in old(queue.nodes)
        invariant PassFrom(sems.View(), i, goal)
        decreases |sems.pending| - i
      {
        CarrySize(queue.nodes, sems.pending);
        ghost var was := sems.View();
        var goOn, stay := Visit(q, i);
        PassGoesOn(was, sems.View(), i, !goOn, stay, goal);
        if !goOn { return; }
        if stay { i := i + 1; }
        q := q.next;
      }
      CarrySize(queue.nodes, sems.pending);
      PassEnds(sems.View(), goal);
    }
  }

  /** The pass, standing before entry i, will end in `goal`. */
  ghost predicate PassFrom(s: Sem, i: nat, goal: Sem) {
    i <= |s.pending| && Queueable(Passed(s, i), s.pending[i..]) && Update(Passed(s, i), s.pending[i..]).s == goal
  }

  lemma PassBegins(s: Sem)
    requires Inv(s)
    ensures Queueable(s, s.pending) && PassFrom(s, 0, UpdateQueue(s).s)
  {
    assert s.pending[..0] == [] && s.pending[0..] == s.pending;
  }

  lemma PassGoesOn(was: Sem, now: Sem, i: nat, stop: bool, stay: bool, goal: Sem)
    requires i < |was.pending| && Visited(was, now, i, stop, stay) && PassFrom(was, i, goal)
    ensures stop ==> now == goal
    ensures !stop ==> var j := if stay then i + 1 else i; PassFrom(now, j, goal) && |now.pending| - j < |was.pending| - i
  {
  }

  lemma PassEnds(s: Sem, goal: Sem)
    requires PassFrom(s, |s.pending|, goal)
    ensures s == goal
  {
    assert s.pending[..|s.pending|] == s.pending && s.pending[|s.pending|..] == [];
  }
}
