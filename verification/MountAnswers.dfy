/** What moving a mount answers, and what detaching and moving leave of a table. */
module MountAnswers {
  import opened Options
  import opened Chains
  import opened MountTree
  import opened MountCalls

  /** A mount is below `ns` or is it. */
  ghost predicate Under(m: Mounts, x: Mnt, ns: Mnt) {
    ns !in m.up && Reaches(m.up, x, ns)
  }

  lemma UnderIff(m: Mounts, x: Mnt, ns: Mnt)
    requires Acyclic(m.up)
    ensures Under(m, x, ns) <==> Top(m.up, x) == ns
  {
    var t := Top(m.up, x);
    if Under(m, x, ns) {
      var i: nat :| Chain(m.up, x, i) == Some(ns);
      var j: nat :| Chain(m.up, x, j) == Some(t);
      if i < j { ChainAdd(m.up, x, i, j - i); } else if j < i { ChainAdd(m.up, x, j, i - j); }
    }
  }

  /** Every answer has its cause, and the earlier tests go first: both ends in the tree of the caller,
      a living target, a whole mount that hangs somewhere and is of the same sort, and no loop. */
  lemma MoveAnswerIs(m: Mounts, ns: Mnt, x: Mnt, p: Mnt, gone: bool, whole: bool, alike: bool)
    requires Inv(m)
    ensures var a, known := MoveAnswer(m, ns, x, p, gone, whole, alike), Under(m, x, ns) && Under(m, p, ns);
            && (a == NoEntry <==> known && gone)
            && (a == Loop <==> known && !gone && whole && alike && x in m.up && Reaches(m.up, p, x))
            && (a == Moved <==> known && !gone && whole && alike && x in m.up && !Reaches(m.up, p, x))
            && (a == Invalid <==> !known || (!gone && !(whole && alike && x in m.up)))
  {
    UnderIff(m, x, ns);
    UnderIff(m, p, ns);
  }

  /** A detached mount is a root of its own, at its own root; the others hang where they hung. */
  lemma DetachMeans(m: Mounts, x: Mnt)
    requires Inv(m) && x in m.up
    ensures var m' := Detach(m, x);
            && x !in m'.up && Point(m', x) == Root(m, x) && m'.root == m.root
            && (forall y :: y != x ==> Parent(m', y) == Parent(m, y) && Point(m', y) == Point(m, y))
            && (forall y, c :: c in Kids(m', y) <==> c in Kids(m, y) && c != x)
            && (forall d :: Count(m', d) == Count(m, d) - if d == Point(m, x) then 1 else 0)
  {
    DetachInv(m, x);
    var m' := Detach(m, x);
    forall y, c ensures c in Kids(m', y) <==> c in Kids(m, y) && c != x {
      assert Hangs(m', c, y) <==> Hangs(m, c, y) && c != x;
    }
  }

  /** A moved mount hangs at the new place, before the others there; the others hang where they hung,
      its own subtree included. */
  lemma MoveMeans(m: Mounts, x: Mnt, p: Mnt, d: Dentry)
    requires Inv(m) && x in m.up && !Reaches(m.up, p, x)
    ensures var m' := Move(m, x, p, d);
            && Hangs(m', x, p) && Point(m', x) == d && Kids(m', p) != [] && Kids(m', p)[0] == x && m'.root == m.root
            && (forall y :: y != x ==> (y in m'.up <==> y in m.up) && Parent(m', y) == Parent(m, y) && Point(m', y) == Point(m, y))
            && (forall e :: Count(m', e) == Count(m, e) - (if e == Point(m, x) then 1 else 0) + if e == d then 1 else 0)
  {
    DetachMeans(m, x);
  }
}
