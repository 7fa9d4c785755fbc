/** Walking a mount subtree with next_mnt. */
module MountWalk {
  import opened Options
  import opened Chains
  import opened MountTree

  /** A list of siblings with everything below them. */
  datatype Forest = Nil | Cons(id: Mnt, kids: Forest, sibs: Forest)

  function Pre(f: Forest): seq<Mnt> {
    match f
    case Nil => []
    case Cons(id, kids, sibs) => [id] + Pre(kids) + Pre(sibs)
  }

  function Ids(f: Forest): seq<Mnt> {
    if f.Nil? then [] else [f.id] + Ids(f.sibs)
  }

  /** f spells out the children of `par` from position `pos` on. */
  ghost predicate Shape(m: Mounts, f: Forest, par: Mnt, pos: nat) {
    && pos <= |Kids(m, par)| && Kids(m, par)[pos..] == Ids(f)
    && (f.Cons? ==> Shape(m, f.kids, f.id, 0) && Shape(m, f.sibs, par, pos + 1))
  }

  lemma HeadFacts(m: Mounts, f: Forest, par: Mnt, pos: nat)
    requires Linked(m) && Shape(m, f, par, pos) && f.Cons?
    ensures pos < |Kids(m, par)| && Kids(m, par)[pos] == f.id && Kids(m, par)[pos+1..] == Ids(f.sibs) && Hangs(m, f.id, par)
    ensures Kids(m, f.id) == Ids(f.kids)
  {
    assert Kids(m, par)[pos..][0] == f.id;
    assert Kids(m, par)[pos] in Kids(m, par);
    assert Kids(m, f.id)[0..] == Kids(m, f.id);
  }

  lemma PreSize(f: Forest)
    requires f.Cons?
    ensures |Pre(f)| == 1 + |Pre(f.kids)| + |Pre(f.sibs)| && Pre(f)[0] == f.id
  {
  }

  lemma PreKids(f: Forest, k: nat)
    requires f.Cons? && k < |Pre(f.kids)|
    ensures k + 1 < |Pre(f)| && Pre(f)[k + 1] == Pre(f.kids)[k]
  {
  }

  lemma PreSibs(f: Forest, k: nat)
    requires f.Cons? && k < |Pre(f.sibs)|
    ensures k + 1 + |Pre(f.kids)| < |Pre(f)| && Pre(f)[k + 1 + |Pre(f.kids)|] == Pre(f.sibs)[k]
  {
    var a, b := [f.id] + Pre(f.kids), Pre(f.sibs);
    assert Pre(f) == a + b;
    assert (a + b)[|a| + k] == b[k];
  }

  /** The b-th mount hangs on an earlier one, or on the parent of all (-1). */
  lemma {:induction false} ParentEarlier(m: Mounts, f: Forest, par: Mnt, pos: nat, b: nat) returns (a: int)
    requires Linked(m) && Shape(m, f, par, pos) && b < |Pre(f)|
    ensures -1 <= a < b && Hangs(m, Pre(f)[b], if a < 0 then par else Pre(f)[a])
    decreases f
  {
    PreSize(f);
    var n := 1 + |Pre(f.kids)|;
    if b == 0 {
      HeadFacts(m, f, par, pos);
      a := -1;
    } else if b < n {
      a := ParentEarlier(m, f.kids, f.id, 0, b - 1);
      PreKids(f, b - 1);
      if a >= 0 { PreKids(f, a); }
      a := a + 1;
    } else {
      a := ParentEarlier(m, f.sibs, par, pos + 1, b - n);
      PreSibs(f, b - n);
      if a >= 0 {
        PreSibs(f, a);
        a := a + n;
      }
    }
  }

  // ---------- the walk exists, is complete and repeats nothing ----------

  /** The mounts strictly below x. */
  ghost function Below(m: Mounts, x: Mnt): set<Mnt> {
    set y | y in m.up.Keys && y != x && Reaches(m.up, y, x)
  }

  lemma BelowShrinks(m: Mounts, x: Mnt, c: Mnt)
    requires Acyclic(m.up) && Hangs(m, c, x)
    ensures Below(m, c) < Below(m, x)
  {
    StepReaches(m.up, c);
    NoReturn(m.up, c);
    assert Chain(m.up, x, 0) == Some(x);
    assert c != x;
    forall y | y in Below(m, c) ensures y in Below(m, x) {
      ReachesTrans(m.up, y, c, x);
    }
    assert c in Below(m, x) && c !in Below(m, c);
  }

  /** Every mount's children, from any position on, form a forest. */
  lemma {:induction false} Build(m: Mounts, x: Mnt, pos: nat) returns (f: Forest)
    requires Linked(m) && Acyclic(m.up) && pos <= |Kids(m, x)|
    ensures Shape(m, f, x, pos)
    decreases Below(m, x), |Kids(m, x)| - pos
  {
    hide Acyclic, Below;
    if pos == |Kids(m, x)| {
      f := Nil;
    } else {
      var c := Kids(m, x)[pos];
      assert c in Kids(m, x);
      BelowShrinks(m, x, c);
      var kids := Build(m, c, 0);
      var sibs := Build(m, x, pos + 1);
      f := Cons(c, kids, sibs);
      assert Kids(m, x)[pos..] == [c] + Kids(m, x)[pos+1..];
    }
  }

  /** Everything in the forest hangs below its parent. */
  lemma {:induction false} WalkIsBelow(m: Mounts, f: Forest, par: Mnt, pos: nat, y: Mnt)
    requires Linked(m) && Shape(m, f, par, pos) && y in Pre(f)
    ensures y in m.up && Reaches(m.up, m.up[y], par)
  {
    HeadFacts(m, f, par, pos);
    if y == f.id {
      assert Chain(m.up, par, 0) == Some(par);
    } else if y in Pre(f.kids) {
      WalkIsBelow(m, f.kids, f.id, 0, y);
      StepReaches(m.up, f.id);
      ReachesTrans(m.up, m.up[y], f.id, par);
    } else {
      WalkIsBelow(m, f.sibs, par, pos + 1, y);
    }
  }

  lemma {:induction false} IdsInPre(f: Forest, y: Mnt)
    requires y in Ids(f)
    ensures y in Pre(f)
  {
    if y != f.id { IdsInPre(f.sibs, y); }
  }

  /** A child of something in the walk is in the walk. */
  lemma {:induction false} WalkClosed(m: Mounts, f: Forest, par: Mnt, pos: nat, x: Mnt, y: Mnt)
    requires Linked(m) && Shape(m, f, par, pos) && x in Pre(f) && Hangs(m, y, x)
    ensures y in Pre(f)
  {
    HeadFacts(m, f, par, pos);
    if x == f.id {
      assert y in Kids(m, x);
      IdsInPre(f.kids, y);
    } else if x in Pre(f.kids) {
      WalkClosed(m, f.kids, f.id, 0, x, y);
    } else {
      WalkClosed(m, f.sibs, par, pos + 1, x, y);
    }
  }

  lemma {:induction false} WalkComplete(m: Mounts, f: Forest, r: Mnt, y: Mnt, n: nat)
    requires Linked(m) && Shape(m, f, r, 0) && Chain(m.up, y, n) == Some(r)
    ensures y in [r] + Pre(f)
    decreases n
  {
    if n > 0 {
      WalkComplete(m, f, r, m.up[y], n - 1);
      if m.up[y] == r {
        assert y in Kids(m, r);
        assert Kids(m, r)[0..] == Kids(m, r);
        IdsInPre(f, y);
      } else {
        WalkClosed(m, f, r, 0, m.up[y], y);
      }
    }
  }

  /** y hangs below (or is) the child s of par. */
  ghost predicate Under(m: Mounts, y: Mnt, s: Mnt, par: Mnt) {
    Hangs(m, s, par) && Reaches(m.up, y, s)
  }

  /** Only one child of par can be above y. */
  lemma UnderOne(m: Mounts, y: Mnt, s: Mnt, t: Mnt, par: Mnt)
    requires Acyclic(m.up) && Under(m, y, s, par) && Under(m, y, t, par)
    ensures s == t
  {
    var i: nat :| Chain(m.up, y, i) == Some(s);
    var j: nat :| Chain(m.up, y, j) == Some(t);
    ChainAdd(m.up, y, i, 1);
    ChainAdd(m.up, y, j, 1);
    assert Chain(m.up, s, 1) == Chain(m.up, par, 0) == Chain(m.up, t, 1);
    if i < j { ChainDistinct(m.up, y, i + 1, j + 1); } else if j < i { ChainDistinct(m.up, y, j + 1, i + 1); }
  }

  lemma {:induction false} WalkUnder(m: Mounts, f: Forest, par: Mnt, pos: nat, y: Mnt) returns (s: Mnt)
    requires Linked(m) && Shape(m, f, par, pos) && y in Pre(f)
    ensures s in Ids(f) && Under(m, y, s, par)
  {
    HeadFacts(m, f, par, pos);
    if y == f.id {
      s := y;
      assert Chain(m.up, y, 0) == Some(y);
    } else if y in Pre(f.kids) {
      s := f.id;
      WalkIsBelow(m, f.kids, f.id, 0, y);
      StepReaches(m.up, y);
      ReachesTrans(m.up, y, m.up[y], s);
    } else {
      s := WalkUnder(m, f.sibs, par, pos + 1, y);
    }
  }

  lemma HeadNotBelow(m: Mounts, f: Forest, par: Mnt, pos: nat)
    requires Linked(m) && Acyclic(m.up) && Shape(m, f, par, pos) && f.Cons?
    ensures f.id !in Pre(f.kids)
  {
    if f.id in Pre(f.kids) {
      WalkIsBelow(m, f.kids, f.id, 0, f.id);
      NoReturn(m.up, f.id);
    }
  }

  lemma HeadNotAgain(m: Mounts, f: Forest, par: Mnt, pos: nat)
    requires Linked(m) && Shape(m, f, par, pos) && f.Cons?
    ensures f.id !in Ids(f.sibs)
  {
    HeadFacts(m, f, par, pos);
    forall k | 0 <= k < |Ids(f.sibs)| ensures Ids(f.sibs)[k] != f.id {
      assert Kids(m, par)[pos + 1 + k] == Kids(m, par)[pos+1..][k];
    }
  }

  lemma HeadNotLater(m: Mounts, f: Forest, par: Mnt, pos: nat, y: Mnt)
    requires Linked(m) && Acyclic(m.up) && Shape(m, f, par, pos) && f.Cons? && (y == f.id || y in Pre(f.kids))
    ensures y !in Pre(f.sibs)
  {
    if y in Pre(f.sibs) {
      HeadFacts(m, f, par, pos);
      var s := WalkUnder(m, f.sibs, par, pos + 1, y);
      if y == f.id { assert Chain(m.up, y, 0) == Some(y); } else {
        WalkIsBelow(m, f.kids, f.id, 0, y);
        StepReaches(m.up, y);
        ReachesTrans(m.up, y, m.up[y], f.id);
      }
      HeadNotAgain(m, f, par, pos);
      UnderOne(m, y, f.id, s, par);
    }
  }

  lemma {:induction false} WalkDistinct(m: Mounts, f: Forest, par: Mnt, pos: nat)
    requires Linked(m) && Acyclic(m.up) && Shape(m, f, par, pos)
    ensures NoDuplicates(Pre(f))
  {
    if f.Cons? {
      WalkDistinct(m, f.kids, f.id, 0);
      WalkDistinct(m, f.sibs, par, pos + 1);
      HeadNotBelow(m, f, par, pos);
      forall y | y == f.id || y in Pre(f.kids) ensures y !in Pre(f.sibs) { HeadNotLater(m, f, par, pos, y); }
      JoinDistinct([f.id], Pre(f.kids));
      JoinDistinct([f.id] + Pre(f.kids), Pre(f.sibs));
    }
  }

  lemma JoinDistinct(a: seq<Mnt>, b: seq<Mnt>)
    requires NoDuplicates(a) && NoDuplicates(b) && forall y :: y in a ==> y !in b
    ensures NoDuplicates(a + b)
  {
    forall i, j | 0 <= i < j < |a + b| ensures (a + b)[i] != (a + b)[j] {
      if i < |a| { assert (a + b)[i] in a; }
      if j >= |a| { assert (a + b)[j] in b; }
    }
  }

  /** The order in which next_mnt visits the subtree of r. */
  ghost predicate IsWalk(m: Mounts, r: Mnt, f: Forest) {
    Linked(m) && Acyclic(m.up) && Shape(m, f, r, 0)
  }

  ghost function Walk(r: Forest, top: Mnt): seq<Mnt> {
    [top] + Pre(r)
  }

  /** The walk visits every mount of the subtree, and each exactly once. */
  lemma WalkVisitsAllOnce(m: Mounts, r: Mnt, f: Forest)
    requires IsWalk(m, r, f)
    ensures NoDuplicates(Walk(f, r)) && forall y :: y in Walk(f, r) <==> Reaches(m.up, y, r)
  {
    WalkDistinct(m, f, r, 0);
    forall y | y in Pre(f) ensures y != r && Reaches(m.up, y, r) {
      WalkIsBelow(m, f, r, 0, y);
      StepReaches(m.up, y);
      ReachesTrans(m.up, y, m.up[y], r);
      NoReturn(m.up, y);
    }
    assert Chain(m.up, r, 0) == Some(r);
    forall y | Reaches(m.up, y, r) ensures y in Walk(f, r) {
      var n: nat :| Chain(m.up, y, n) == Some(r);
      WalkComplete(m, f, r, y, n);
    }
    JoinDistinct([r], Pre(f));
  }
}
