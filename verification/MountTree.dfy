/** The mount tree: parent pointers, child lists, and the walk over a subtree. */
module MountTree {
  import opened Options
  import opened Seqs
  import opened Chains

  type Mnt = nat
  type Dentry = nat

  /** All mounts. `up` is mnt_parent for the mounts that are not their own
      parent, `kids` is mnt_mounts, `point` mnt_mountpoint, `root` mnt_root, and
      `mounted` is d_mounted of the dentries. */
  datatype Mounts = Mounts(up: Graph<Mnt>, kids: map<Mnt, seq<Mnt>>, point: map<Mnt, Dentry>,
                           root: map<Mnt, Dentry>, mounted: map<Dentry, int>)

  /** mnt_parent. */
  function Parent(m: Mounts, x: Mnt): Mnt {
    if x in m.up then m.up[x] else x
  }

  function Kids(m: Mounts, x: Mnt): seq<Mnt> {
    if x in m.kids then m.kids[x] else []
  }

  function Point(m: Mounts, x: Mnt): Dentry {
    if x in m.point then m.point[x] else 0
  }

  function Root(m: Mounts, x: Mnt): Dentry {
    if x in m.root then m.root[x] else 0
  }

  function Count(m: Mounts, d: Dentry): int {
    if d in m.mounted then m.mounted[d] else 0
  }

  ghost predicate NoDuplicates<T>(s: seq<T>) {
    forall i, j :: 0 <= i < j < |s| ==> s[i] != s[j]
  }

  /** The mounts attached at a dentry. */
  function On(m: Mounts, d: Dentry): set<Mnt> {
    set x | x in m.up && Point(m, x) == d
  }

  predicate Hangs(m: Mounts, c: Mnt, x: Mnt) {
    c in m.up && m.up[c] == x
  }

  /** Child lists and parent pointers agree. */
  ghost predicate Linked(m: Mounts) {
    && (forall x :: NoDuplicates(Kids(m, x)))
    && (forall x, c :: c in Kids(m, x) <==> Hangs(m, c, x))
  }

  ghost predicate Counted(m: Mounts) {
    forall d :: Count(m, d) == |On(m, d)|
  }

  ghost predicate Inv(m: Mounts) {
    Linked(m) && Acyclic(m.up) && Counted(m)
  }

  // ---------- detach_mnt and attach_mnt ----------

  function Others(x: Mnt): Mnt -> bool { (y: Mnt) => y != x }

  function Detach(m: Mounts, x: Mnt): Mounts {
    var p, d := Parent(m, x), Point(m, x);
    m.(up := m.up - {x}, point := m.point[x := Root(m, x)],
       kids := m.kids[p := Filter(Kids(m, p), Others(x))], mounted := m.mounted[d := Count(m, d) - 1])
  }

  function Attach(m: Mounts, x: Mnt, p: Mnt, d: Dentry): Mounts {
    m.(up := m.up[x := p], point := m.point[x := d],
       kids := m.kids[p := [x] + Kids(m, p)], mounted := m.mounted[d := Count(m, d) + 1])
  }

  lemma WithoutSpec(ks: seq<Mnt>, x: Mnt)
    requires NoDuplicates(ks)
    ensures NoDuplicates(Filter(ks, Others(x))) && forall c :: c in Filter(ks, Others(x)) <==> c in ks && c != x
  {
    var r := Filter(ks, Others(x));
    forall c ensures c in r <==> c in ks && c != x { FilterMember(ks, Others(x), c); }
    forall i, j | 0 <= i < j < |r| ensures r[i] != r[j] { SourceOrder(ks, Others(x), i, j); }
  }

  lemma DetachLinked(m: Mounts, x: Mnt)
    requires Linked(m) && x in m.up
    ensures Linked(Detach(m, x))
  {
    var m', p := Detach(m, x), m.up[x];
    WithoutSpec(Kids(m, p), x);
    forall y, c ensures c in Kids(m', y) <==> Hangs(m', c, y) {
      assert c in Kids(m, y) <==> Hangs(m, c, y);
    }
    forall y ensures NoDuplicates(Kids(m', y)) {
      if y != p { assert NoDuplicates(Kids(m, y)); }
    }
  }

  lemma DetachOn(m: Mounts, x: Mnt, e: Dentry)
    requires x in m.up
    ensures On(Detach(m, x), e) == On(m, e) - {x} && (x in On(m, e) <==> e == Point(m, x))
  {
  }

  lemma DetachCounted(m: Mounts, x: Mnt)
    requires Counted(m) && x in m.up
    ensures Counted(Detach(m, x))
  {
    var m' := Detach(m, x);
    forall e ensures Count(m', e) == |On(m', e)| {
      DetachOn(m, x, e);
      assert Count(m, e) == |On(m, e)|;
    }
  }

  lemma DetachInv(m: Mounts, x: Mnt)
    requires Inv(m) && x in m.up
    ensures Inv(Detach(m, x))
  {
    var m' := Detach(m, x);
    assert Linked(m') by { DetachLinked(m, x); }
    assert Counted(m') by { DetachCounted(m, x); }
    AcyclicSub(m'.up, m.up);
  }

  lemma AttachLinked(m: Mounts, x: Mnt, p: Mnt, d: Dentry)
    requires Linked(m) && x !in m.up
    ensures Linked(Attach(m, x, p, d))
  {
    var m' := Attach(m, x, p, d);
    assert x in Kids(m, p) <==> Hangs(m, x, p);
    forall y, c ensures c in Kids(m', y) <==> Hangs(m', c, y) {
      assert c in Kids(m, y) <==> Hangs(m, c, y);
    }
    forall y ensures NoDuplicates(Kids(m', y)) {
      assert NoDuplicates(Kids(m, y));
    }
  }

  lemma AttachOn(m: Mounts, x: Mnt, p: Mnt, d: Dentry, e: Dentry)
    requires x !in m.up
    ensures On(Attach(m, x, p, d), e) == (if e == d then On(m, e) + {x} else On(m, e)) && x !in On(m, e)
  {
  }

  lemma AttachCounted(m: Mounts, x: Mnt, p: Mnt, d: Dentry)
    requires Counted(m) && x !in m.up
    ensures Counted(Attach(m, x, p, d))
  {
    var m' := Attach(m, x, p, d);
    forall e ensures Count(m', e) == |On(m', e)| {
      AttachOn(m, x, p, d, e);
      assert Count(m, e) == |On(m, e)|;
    }
  }

  /** Hanging a detached mount where its own subtree does not reach keeps a forest. */
  lemma AttachInv(m: Mounts, x: Mnt, p: Mnt, d: Dentry)
    requires Inv(m) && x !in m.up && !Reaches(m.up, p, x)
    ensures Inv(Attach(m, x, p, d))
  {
    var m' := Attach(m, x, p, d);
    assert Linked(m') by { AttachLinked(m, x, p, d); }
    assert Counted(m') by { AttachCounted(m, x, p, d); }
    AcyclicAdd(m.up, x, p);
  }

  // ---------- do_move_mount ----------

  /** The top of the tree that x is in. */
  ghost function Top(g: Graph<Mnt>, x: Mnt): (r: Mnt)
    requires Acyclic(g)
    ensures r !in g && Reaches(g, x, r)
  {
    TopExists(g, x);
    var r :| r !in g && Reaches(g, x, r);
    r
  }

  lemma TopExists(g: Graph<Mnt>, x: Mnt)
    requires Acyclic(g)
    ensures exists r :: r !in g && Reaches(g, x, r)
  {
    var n := ChainEnds(g, x);
    assert Reaches(g, x, Chain(g, x, n).value);
  }

  lemma TopUnique(g: Graph<Mnt>, x: Mnt, r: Mnt)
    requires Acyclic(g) && r !in g && Reaches(g, x, r)
    ensures Top(g, x) == r
  {
    var i: nat :| Chain(g, x, i) == Some(r);
    var j: nat :| Chain(g, x, j) == Some(Top(g, x));
    if i < j { ChainAdd(g, x, i, j - i); } else if j < i { ChainAdd(g, x, j, i - j); }
  }

  lemma ReachesTrans(g: Graph<Mnt>, x: Mnt, y: Mnt, z: Mnt)
    requires Reaches(g, x, y) && Reaches(g, y, z)
    ensures Reaches(g, x, z)
  {
    var i: nat :| Chain(g, x, i) == Some(y);
    var j: nat :| Chain(g, y, j) == Some(z);
    ChainAdd(g, x, i, j);
    assert Chain(g, x, i + j) == Some(z);
  }

  /** Detaching x and hanging it below p. */
  function Rehang(g: Graph<Mnt>, x: Mnt, p: Mnt): Graph<Mnt> {
    (g - {x})[x := p]
  }

  /** A chain that never meets x is the same after x has been re-hung. */
  lemma {:induction false} ChainAvoids(g: Graph<Mnt>, x: Mnt, p: Mnt, y: Mnt, n: nat)
    requires !Reaches(g, y, x) && Chain(g, y, n).Some?
    ensures Chain(Rehang(g, x, p), y, n) == Chain(g, y, n) && Chain(g - {x}, y, n) == Chain(g, y, n)
    decreases n
  {
    if n > 0 {
      assert Chain(g, y, 0) == Some(y);
      if Reaches(g, g[y], x) {
        StepReaches(g, y);
        ReachesTrans(g, y, g[y], x);
      }
      ChainAvoids(g, x, p, g[y], n - 1);
    }
  }

  lemma StepReaches(g: Graph<Mnt>, y: Mnt)
    requires y in g
    ensures Reaches(g, y, g[y])
  {
    assert Chain(g, g[y], 0) == Some(g[y]);
    assert Chain(g, y, 1) == Some(g[y]);
  }

  lemma TopAvoids(g: Graph<Mnt>, x: Mnt, p: Mnt, y: Mnt, top: Mnt)
    requires !Reaches(g, y, x) && Reaches(g, y, top) && top !in g && x in g
    ensures Reaches(Rehang(g, x, p), y, top) && top !in Rehang(g, x, p)
  {
    var n: nat :| Chain(g, y, n) == Some(top);
    ChainAvoids(g, x, p, y, n);
  }

  /** If y hangs somewhere below x, it still does. */
  lemma {:induction false} StillBelow(g: Graph<Mnt>, x: Mnt, p: Mnt, y: Mnt, n: nat)
    requires Chain(g, y, n) == Some(x)
    ensures Reaches(Rehang(g, x, p), y, x)
    decreases n
  {
    var k := Rehang(g, x, p);
    if y == x {
      assert Chain(k, y, 0) == Some(x);
    } else {
      StillBelow(g, x, p, g[y], n - 1);
      StepReaches(k, y);
      ReachesTrans(k, y, g[y], x);
    }
  }

  lemma RehangAcyclic(g: Graph<Mnt>, x: Mnt, p: Mnt)
    requires Acyclic(g) && !Reaches(g, p, x)
    ensures Acyclic(g - {x}) && !Reaches(g - {x}, p, x) && Acyclic(Rehang(g, x, p))
  {
    var h := g - {x};
    AcyclicSub(h, g);
    if Reaches(h, p, x) {
      var n: nat :| Chain(h, p, n) == Some(x);
      ChainSub(h, g, p, n);
    }
    AcyclicAdd(h, x, p);
  }

  /** Re-hanging x below p, where both are in the same tree: every mount stays in its tree. */
  lemma MoveKeepsTops(g: Graph<Mnt>, x: Mnt, p: Mnt, y: Mnt)
    requires Acyclic(g) && x in g && !Reaches(g, p, x) && Top(g, x) == Top(g, p)
    requires Acyclic(Rehang(g, x, p))
    ensures Top(Rehang(g, x, p), y) == Top(g, y)
  {
    var k := Rehang(g, x, p);
    if Reaches(g, y, x) {
      var top := Top(g, p);
      TopAvoids(g, x, p, p, top);
      var n: nat :| Chain(g, y, n) == Some(x);
      StillBelow(g, x, p, y, n);
      StepReaches(k, x);
      ReachesTrans(k, y, x, p);
      ReachesTrans(k, y, p, top);
      TopUnique(k, y, top);
      ReachesTrans(g, y, x, top);
      TopUnique(g, y, top);
    } else {
      TopAvoids(g, x, p, y, Top(g, y));
      TopUnique(k, y, Top(g, y));
    }
  }

  /** do_move_mount: move x, which is not a root, to hang at dentry d of p. */
  function Move(m: Mounts, x: Mnt, p: Mnt, d: Dentry): Mounts {
    Attach(Detach(m, x), x, p, d)
  }

  /** A move that passes the loop check keeps a forest with exact counts, and with
      both ends under one root every mount still reaches the root it reached. */
  lemma MoveInv(m: Mounts, x: Mnt, p: Mnt, d: Dentry)
    requires Inv(m) && x in m.up && !Reaches(m.up, p, x)
    ensures Inv(Move(m, x, p, d)) && Move(m, x, p, d).up == Rehang(m.up, x, p)
    ensures Top(m.up, x) == Top(m.up, p) ==> forall y :: Top(Move(m, x, p, d).up, y) == Top(m.up, y)
  {
    RehangAcyclic(m.up, x, p);
    DetachInv(m, x);
    AttachInv(Detach(m, x), x, p, d);
    if Top(m.up, x) == Top(m.up, p) {
      forall y ensures Top(Rehang(m.up, x, p), y) == Top(m.up, y) { MoveKeepsTops(m.up, x, p, y); }
    }
  }

  /** The loop check refuses exactly the moves that would close a loop. */
  lemma LoopCheckExact(g: Graph<Mnt>, x: Mnt, p: Mnt)
    requires Acyclic(g)
    ensures Acyclic(Rehang(g, x, p)) <==> !Reaches(g, p, x)
  {
    if Reaches(g, p, x) {
      var k := Rehang(g, x, p);
      var n: nat :| Chain(g, p, n) == Some(x);
      StillBelow(g, x, p, p, n);
      var j: nat :| Chain(k, p, j) == Some(x);
      assert Chain(k, x, j + 1) == Some(x);
    } else {
      RehangAcyclic(g, x, p);
    }
  }
}
