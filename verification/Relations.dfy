/** Relations with any number of edges out of a node, and their cycles. */
module Relations {

  type Relation<!T(==)> = iset<(T, T)>

  /** The i-th step of p is an edge. */
  ghost predicate Step<T>(r: Relation<T>, p: seq<T>, i: nat) {
    i + 1 < |p| && (p[i], p[i + 1]) in r
  }

  ghost predicate Path<T>(r: Relation<T>, p: seq<T>) {
    p != [] && forall i: nat :: i + 1 < |p| ==> Step(r, p, i)
  }

  ghost predicate PathFrom<T>(r: Relation<T>, a: T, b: T, p: seq<T>) {
    Path(r, p) && p[0] == a && p[|p| - 1] == b
  }

  ghost predicate Leads<T(!new)>(r: Relation<T>, a: T, b: T) {
    exists p :: PathFrom(r, a, b, p)
  }

  ghost predicate Cycle<T>(r: Relation<T>, p: seq<T>) {
    Path(r, p) && |p| >= 2 && p[0] == p[|p| - 1]
  }

  ghost predicate NoCycle<T(!new)>(r: Relation<T>) {
    forall p :: !Cycle(r, p)
  }

  lemma PathSub<T>(r: Relation<T>, r': Relation<T>, p: seq<T>)
    requires Path(r, p) && forall i: nat :: Step(r, p, i) ==> Step(r', p, i)
    ensures Path(r', p)
  {
  }

  lemma PathTail<T>(r: Relation<T>, p: seq<T>)
    requires Path(r, p) && |p| >= 2
    ensures Path(r, p[1..])
  {
    forall i: nat | i + 1 < |p[1..]| ensures Step(r, p[1..], i) { assert Step(r, p, i + 1); }
  }

  lemma PathCons<T>(r: Relation<T>, a: T, p: seq<T>)
    requires Path(r, p) && (a, p[0]) in r
    ensures Path(r, [a] + p)
  {
    forall i: nat | i + 1 < |[a] + p| ensures Step(r, [a] + p, i) {
      if i > 0 { assert Step(r, p, i - 1); }
    }
  }

  lemma PathJoin<T>(r: Relation<T>, p: seq<T>, q: seq<T>)
    requires Path(r, p) && Path(r, q) && p[|p| - 1] == q[0]
    ensures Path(r, p + q[1..])
  {
    var s := p + q[1..];
    forall i: nat | i + 1 < |s| ensures Step(r, s, i) {
      if i + 1 < |p| { assert Step(r, p, i); } else { assert Step(r, q, i + 1 - |p|); }
    }
  }

  lemma PathPart<T>(r: Relation<T>, p: seq<T>, i: nat, j: nat)
    requires Path(r, p) && i < j <= |p|
    ensures Path(r, p[i..j])
  {
    forall k: nat | k + 1 < |p[i..j]| ensures Step(r, p[i..j], k) { assert Step(r, p, i + k); }
  }

  /** Fewer edges, fewer cycles. */
  lemma NoCycleSub<T(!new)>(r: Relation<T>, r': Relation<T>)
    requires NoCycle(r) && r' <= r
    ensures NoCycle(r')
  {
    forall p ensures !Cycle(r', p) {
      if Cycle(r', p) {
        PathSub(r', r, p);
        assert Cycle(r, p);
      }
    }
  }

  /** New edges that all lead to a node without edges out of it close no cycle. */
  lemma NoCycleInto<T(!new)>(r: Relation<T>, r': Relation<T>, c: T)
    requires NoCycle(r) && (forall a, b :: (a, b) in r' ==> (a, b) in r || b == c) && (forall b :: (c, b) !in r')
    ensures NoCycle(r')
  {
    forall p ensures !Cycle(r', p) {
      if Cycle(r', p) {
        assert Step(r', p, 0);
        forall i: nat | Step(r', p, i) ensures Step(r, p, i) {
          if i + 2 < |p| { assert Step(r', p, i + 1); }
        }
        PathSub(r', r, p);
        assert Cycle(r, p);
      }
    }
  }

  /** r with edges from c to all of `to`. */
  ghost function AddFrom<T(!new)>(r: Relation<T>, c: T, to: iset<T>): Relation<T> {
    r + iset b | b in to :: (c, b)
  }

  /** The way to c up to its first visit uses no new edge. */
  lemma {:induction false} FirstVisit<T(!new)>(r: Relation<T>, c: T, to: iset<T>, p: seq<T>)
    requires Path(AddFrom(r, c, to), p) && p[|p| - 1] == c
    ensures Leads(r, p[0], c)
    decreases |p|
  {
    if p[0] == c {
      assert PathFrom(r, c, c, [c]);
    } else {
      assert Step(AddFrom(r, c, to), p, 0);
      PathTail(AddFrom(r, c, to), p);
      FirstVisit(r, c, to, p[1..]);
      var q :| PathFrom(r, p[1], c, q);
      PathCons(r, p[0], q);
      assert PathFrom(r, p[0], c, [p[0]] + q);
    }
  }

  /** New edges out of c close a cycle if and only if one of their ends leads back to c. */
  lemma AddFromIff<T(!new)>(r: Relation<T>, c: T, to: iset<T>)
    requires NoCycle(r) && forall b :: (c, b) !in r
    ensures NoCycle(AddFrom(r, c, to)) <==> forall b :: b in to ==> !Leads(r, b, c)
  {
    var r' := AddFrom(r, c, to);
    if forall b :: b in to ==> !Leads(r, b, c) {
      forall p ensures !Cycle(r', p) {
        if Cycle(r', p) { NewCycle(r, c, to, p); }
      }
    } else {
      var b :| b in to && Leads(r, b, c);
      var q :| PathFrom(r, b, c, q);
      PathSub(r, r', q);
      PathCons(r', c, q);
      assert Cycle(r', [c] + q);
    }
  }

  lemma NewCycle<T(!new)>(r: Relation<T>, c: T, to: iset<T>, p: seq<T>)
    requires NoCycle(r) && Cycle(AddFrom(r, c, to), p)
    ensures exists b :: b in to && Leads(r, b, c)
  {
    var r' := AddFrom(r, c, to);
    assert !Cycle(r, p);
    if forall i: nat :: Step(r', p, i) ==> Step(r, p, i) {
      PathSub(r', r, p);
      assert false;
    } else {
      var i: nat :| Step(r', p, i) && !Step(r, p, i);
      PathPart(r', p, i + 1, |p|);
      PathPart(r', p, 0, i + 1);
      assert p[i + 1..] == p[i + 1..|p|] && p[i + 1..][|p| - i - 2] == p[0..i + 1][0];
      PathJoin(r', p[i + 1..], p[0..i + 1]);
      var q := p[i + 1..] + p[0..i + 1][1..];
      assert q[|q| - 1] == c by { if i == 0 { assert q == p[1..]; } else { assert q[|q| - 1] == p[i]; } }
      FirstVisit(r, c, to, q);
    }
  }
}
