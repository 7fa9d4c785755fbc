/** The steps of a walk, of taking a subtree apart and of copying one. */
module MountSteps {
  import opened Options
  import opened Chains
  import opened MountTree
  import opened MountWalk

  /** mnt_child.next, or None at the end of the parent's list. */
  function NextSibling(kids: seq<Mnt>, x: Mnt): Option<Mnt> {
    if kids == [] then None
    else if kids[0] == x then (if |kids| > 1 then Some(kids[1]) else None)
    else NextSibling(kids[1..], x)
  }

  lemma {:induction false} NextSiblingAt(kids: seq<Mnt>, i: nat)
    requires NoDuplicates(kids) && i < |kids|
    ensures NextSibling(kids, kids[i]) == if i + 1 < |kids| then Some(kids[i + 1]) else None
  {
    if i > 0 { NextSiblingAt(kids[1..], i - 1); }
  }

  // ---------- places in a walk ----------

  /** A mount on the way from the top to the current one, and the siblings after it. */
  datatype Frame = Frame(id: Mnt, sibs: Forest)

  /** The mount at the inner end of a path; path[0] is the innermost frame. */
  function NodeOf(top: Mnt, path: seq<Frame>): Mnt {
    if path == [] then top else path[0].id
  }

  /** What the walk still visits after everything below the current mount. */
  function Rest(path: seq<Frame>): seq<Mnt> {
    if path == [] then [] else Pre(path[0].sibs) + Rest(path[1..])
  }

  ghost predicate Sits(m: Mounts, fr: Frame, par: Mnt, pos: nat) {
    pos < |Kids(m, par)| && Kids(m, par)[pos] == fr.id && Shape(m, fr.sibs, par, pos + 1)
  }

  ghost predicate FrameOk(m: Mounts, fr: Frame, par: Mnt) {
    Hangs(m, fr.id, par) && exists pos: nat :: Sits(m, fr, par, pos)
  }

  ghost predicate OnPath(m: Mounts, top: Mnt, path: seq<Frame>) {
    path == [] || (FrameOk(m, path[0], NodeOf(top, path[1..])) && OnPath(m, top, path[1..]))
  }

  /** The current mount, the way to it, and what is below it. */
  ghost predicate Place(m: Mounts, top: Mnt, path: seq<Frame>, kids: Forest) {
    OnPath(m, top, path) && Shape(m, kids, NodeOf(top, path), 0)
  }

  lemma PathCons(m: Mounts, top: Mnt, fr: Frame, path: seq<Frame>, pos: nat)
    requires OnPath(m, top, path) && Hangs(m, fr.id, NodeOf(top, path)) && Sits(m, fr, NodeOf(top, path), pos)
    ensures OnPath(m, top, [fr] + path) && Rest([fr] + path) == Pre(fr.sibs) + Rest(path)
  {
    assert ([fr] + path)[1..] == path;
  }

  /** Entering a forest of siblings at its head. */
  lemma Enter(m: Mounts, top: Mnt, path: seq<Frame>, f: Forest, pos: nat)
    requires Linked(m) && OnPath(m, top, path) && Shape(m, f, NodeOf(top, path), pos) && f.Cons?
    ensures Place(m, top, [Frame(f.id, f.sibs)] + path, f.kids)
    ensures Pre(f) + Rest(path) == [f.id] + (Pre(f.kids) + Rest([Frame(f.id, f.sibs)] + path))
  {
    HeadFacts(m, f, NodeOf(top, path), pos);
    PathCons(m, top, Frame(f.id, f.sibs), path, pos);
    Regroup([f.id], Pre(f.kids), Pre(f.sibs), Rest(path));
  }

  lemma Regroup(a: seq<Mnt>, b: seq<Mnt>, c: seq<Mnt>, d: seq<Mnt>)
    ensures a + b + c + d == a + (b + (c + d))
  {
  }

  /** After the innermost frame comes its next sibling, if it has one. */
  lemma SiblingOf(m: Mounts, top: Mnt, path: seq<Frame>) returns (pos: nat)
    requires Linked(m) && OnPath(m, top, path) && path != []
    ensures var fr, par := path[0], NodeOf(top, path[1..]);
            && Shape(m, fr.sibs, par, pos) && Hangs(m, fr.id, par)
            && NextSibling(Kids(m, par), fr.id) == if fr.sibs.Nil? then None else Some(fr.sibs.id)
  {
    var fr, par := path[0], NodeOf(top, path[1..]);
    var at: nat :| Sits(m, fr, par, at);
    assert NoDuplicates(Kids(m, par));
    NextSiblingAt(Kids(m, par), at);
    if fr.sibs.Cons? { HeadFacts(m, fr.sibs, par, at + 1); }
    pos := at + 1;
  }

  /** What the first half of next_mnt finds. */
  lemma LookDown(m: Mounts, top: Mnt, path: seq<Frame>, kids: Forest)
    requires Linked(m) && Place(m, top, path, kids)
    ensures var p, rest := NodeOf(top, path), Pre(kids) + Rest(path);
            if Kids(m, p) == [] then rest == Rest(path)
            else rest != [] && rest[0] == Kids(m, p)[0] && Hangs(m, Kids(m, p)[0], p)
  {
    var p := NodeOf(top, path);
    assert Kids(m, p)[0..] == Kids(m, p);
    if kids.Cons? { HeadFacts(m, kids, p, 0); }
  }

  /** What one round of its loop finds. */
  lemma LookUp(m: Mounts, top: Mnt, path: seq<Frame>)
    requires Linked(m) && Acyclic(m.up) && OnPath(m, top, path)
    ensures path == [] <==> NodeOf(top, path) == top
    ensures path != [] ==>
              var q, p := path[0].id, NodeOf(top, path[1..]);
              var sib := NextSibling(Kids(m, p), q);
              && q in m.up && m.up[q] == p && OnPath(m, top, path[1..])
              && if sib.None? then Rest(path) == Rest(path[1..])
                 else Rest(path) != [] && Rest(path)[0] == sib.value && Hangs(m, sib.value, p)
  {
    if path != [] {
      PathBelow(m, top, path);
      var pos := SiblingOf(m, top, path);
      var s := path[0].sibs;
      if s.Cons? { HeadFacts(m, s, NodeOf(top, path[1..]), pos); } else { assert [] + Rest(path[1..]) == Rest(path[1..]); }
    }
  }

  /** Every mount on the path hangs below the top. */
  lemma {:induction false} PathBelow(m: Mounts, top: Mnt, path: seq<Frame>)
    requires Acyclic(m.up) && OnPath(m, top, path) && path != []
    ensures path[0].id in m.up && Reaches(m.up, m.up[path[0].id], top) && path[0].id != top
    decreases |path|
  {
    var x := path[0].id;
    if |path| == 1 {
      assert Chain(m.up, top, 0) == Some(top);
    } else {
      PathBelow(m, top, path[1..]);
      StepReaches(m.up, m.up[x]);
      ReachesTrans(m.up, m.up[x], m.up[m.up[x]], top);
    }
    NoReturn(m.up, x);
  }

  /** The place that comes next. */
  lemma {:induction false} NextUp(m: Mounts, top: Mnt, path: seq<Frame>) returns (path': seq<Frame>, kids': Forest)
    requires Linked(m) && OnPath(m, top, path) && Rest(path) != []
    ensures Place(m, top, path', kids') && Rest(path) == [NodeOf(top, path')] + (Pre(kids') + Rest(path'))
    decreases |path|
  {
    var s := path[0].sibs;
    if s.Cons? {
      var pos := SiblingOf(m, top, path);
      Enter(m, top, path[1..], s, pos);
      path', kids' := [Frame(s.id, s.sibs)] + path[1..], s.kids;
    } else {
      assert Rest(path) == Rest(path[1..]);
      path', kids' := NextUp(m, top, path[1..]);
    }
  }

  lemma NextPlace(m: Mounts, top: Mnt, path: seq<Frame>, kids: Forest) returns (path': seq<Frame>, kids': Forest)
    requires Linked(m) && Place(m, top, path, kids) && Pre(kids) + Rest(path) != []
    ensures Place(m, top, path', kids') && Pre(kids) + Rest(path) == [NodeOf(top, path')] + (Pre(kids') + Rest(path'))
  {
    if kids.Cons? {
      Enter(m, top, path, kids, 0);
      path', kids' := [Frame(kids.id, kids.sibs)] + path, kids.kids;
    } else {
      assert Pre(kids) + Rest(path) == Rest(path);
      path', kids' := NextUp(m, top, path);
    }
  }

  /** The place of the j-th mount of the walk. */
  lemma {:induction false} PlaceAt(m: Mounts, top: Mnt, f: Forest, j: nat) returns (path: seq<Frame>, kids: Forest)
    requires IsWalk(m, top, f) && j < |Walk(f, top)|
    ensures Place(m, top, path, kids) && NodeOf(top, path) == Walk(f, top)[j]
    ensures Pre(kids) + Rest(path) == Walk(f, top)[j + 1..]
    decreases j
  {
    var w := Walk(f, top);
    if j == 0 {
      path, kids := [], f;
      assert Pre(f) + [] == Pre(f) == w[1..];
    } else {
      var p, k := PlaceAt(m, top, f, j - 1);
      assert w[j..] == [w[j]] + w[j + 1..];
      path, kids := NextPlace(m, top, p, k);
      HeadTail(w[j], w[j + 1..], NodeOf(top, path), Pre(kids) + Rest(path));
    }
  }

  lemma HeadTail(x: Mnt, a: seq<Mnt>, y: Mnt, b: seq<Mnt>)
    requires [x] + a == [y] + b
    ensures x == y && a == b
  {
    assert ([x] + a)[0] == x && ([y] + b)[0] == y;
    assert ([x] + a)[1..] == a && ([y] + b)[1..] == b;
  }

  /** Parents come before their children. */
  lemma ParentsFirst(m: Mounts, top: Mnt, f: Forest, a: nat, b: nat)
    requires IsWalk(m, top, f) && a < |Walk(f, top)| && b < |Walk(f, top)| && Hangs(m, Walk(f, top)[b], Walk(f, top)[a])
    ensures a < b
  {
    var w := Walk(f, top);
    WalkVisitsAllOnce(m, top, f);
    if b == 0 {
      assert w[a] in w;
      NoReturn(m.up, top);
    } else {
      var i := ParentAt(m, top, f, b);
      assert w[i] == w[a];
    }
  }

  /** Every mount of the walk but the first hangs on an earlier one. */
  lemma ParentAt(m: Mounts, top: Mnt, f: Forest, b: nat) returns (a: nat)
    requires IsWalk(m, top, f) && 0 < b < |Walk(f, top)|
    ensures a < b && Hangs(m, Walk(f, top)[b], Walk(f, top)[a])
  {
    var i := ParentEarlier(m, f, top, 0, b - 1);
    a := i + 1;
  }

  lemma WalkExists(m: Mounts, top: Mnt) returns (f: Forest)
    requires Linked(m) && Acyclic(m.up)
    ensures IsWalk(m, top, f)
  {
    f := Build(m, top, 0);
  }

  // ---------- taking a subtree apart ----------

  /** m' is m without the edges of the mounts in `gone`. */
  ghost predicate Removed(m: Mounts, m': Mounts, gone: set<Mnt>) {
    && m'.up == m.up - gone && m'.root == m.root
    && (forall y :: y !in gone ==> Point(m', y) == Point(m, y))
    && (forall y :: (forall c :: c in gone ==> !Hangs(m, c, y)) ==> Kids(m', y) == Kids(m, y))
  }

  lemma RemovedStep(m: Mounts, mc: Mounts, gone: set<Mnt>, x: Mnt)
    requires Removed(m, mc, gone) && x in mc.up
    ensures Removed(m, Detach(mc, x), gone + {x})
  {
    var m' := Detach(mc, x);
    assert m.up - gone - {x} == m.up - (gone + {x});
    forall y | forall c :: c in gone + {x} ==> !Hangs(m, c, y) ensures Kids(m', y) == Kids(m, y) {
      assert x in gone + {x};
      assert forall c :: c in gone ==> c in gone + {x};
    }
  }

  lemma RemovedTop(m: Mounts, mc: Mounts, gone: set<Mnt>, x: Mnt)
    requires Removed(m, mc, gone) && x !in mc.up
    ensures Removed(m, mc, gone + {x})
  {
    assert m.up - gone == m.up - (gone + {x});
    forall y | forall c :: c in gone + {x} ==> !Hangs(m, c, y) ensures Kids(mc, y) == Kids(m, y) {
      assert forall c :: c in gone ==> c in gone + {x};
    }
  }

  ghost predicate ChildrenFirst(m: Mounts, s: seq<Mnt>) {
    forall a, b :: 0 <= a < |s| && 0 <= b < |s| && Hangs(m, s[a], s[b]) ==> a < b
  }

  /** s is the list w read backwards. */
  ghost predicate Backwards(s: seq<Mnt>, w: seq<Mnt>) {
    |s| == |w| && forall i :: 0 <= i < |s| ==> s[i] == w[|w| - 1 - i]
  }

  lemma BackwardsStep(s: seq<Mnt>, w: seq<Mnt>, j: nat)
    requires j < |w| && Backwards(s, w[..j])
    ensures Backwards([w[j]] + s, w[..j + 1])
  {
  }

  /** The kill list of umount_tree: the subtree once each, children before parents. */
  lemma KillList(m: Mounts, x: Mnt, f: Forest, s: seq<Mnt>)
    requires IsWalk(m, x, f) && Backwards(s, Walk(f, x))
    ensures NoDuplicates(s) && ChildrenFirst(m, s) && forall y :: y in s <==> Reaches(m.up, y, x)
  {
    var w := Walk(f, x);
    WalkVisitsAllOnce(m, x, f);
    BackwardsDistinct(s, w);
    assert ChildrenFirst(m, s) by {
      forall a, b | 0 <= a < |s| && 0 <= b < |s| && Hangs(m, s[a], s[b]) ensures a < b {
        ParentsFirst(m, x, f, |w| - 1 - b, |w| - 1 - a);
      }
    }
    forall y ensures y in s <==> y in w { BackwardsMember(s, w, y); }
  }

  lemma BackwardsDistinct(s: seq<Mnt>, w: seq<Mnt>)
    requires Backwards(s, w) && NoDuplicates(w)
    ensures NoDuplicates(s)
  {
    forall i, j | 0 <= i < j < |s| ensures s[i] != s[j] {
      assert w[|w| - 1 - j] != w[|w| - 1 - i];
    }
  }

  lemma BackwardsMember(s: seq<Mnt>, w: seq<Mnt>, y: Mnt)
    requires Backwards(s, w)
    ensures y in s <==> y in w
  {
    if y in w {
      var i :| 0 <= i < |w| && w[i] == y;
      assert s[|w| - 1 - i] == y;
    }
  }

  function Elems(s: seq<Mnt>): set<Mnt> {
    set y | y in s
  }

  lemma ElemsStep(s: seq<Mnt>, i: nat)
    requires i < |s|
    ensures Elems(s[..i + 1]) == Elems(s[..i]) + {s[i]}
  {
    assert s[..i + 1] == s[..i] + [s[i]];
  }

  /** Nothing is left hanging in a subtree that was taken apart. */
  lemma NothingLeft(m: Mounts, m': Mounts, x: Mnt, gone: set<Mnt>, y: Mnt)
    requires Inv(m) && Inv(m') && Removed(m, m', gone) && (forall z :: z in gone <==> Reaches(m.up, z, x)) && y in gone
    ensures y !in m'.up && Kids(m', y) == []
  {
    forall c: Mnt ensures !Hangs(m', c, y) {
      if Hangs(m, c, y) {
        StepReaches(m.up, c);
        ReachesTrans(m.up, c, y, x);
      }
    }
    NoKids(m', y);
  }

  lemma NoKids(m: Mounts, y: Mnt)
    requires Linked(m) && forall c: Mnt :: !Hangs(m, c, y)
    ensures Kids(m, y) == []
  {
    SomeMember(Kids(m, y));
  }

  lemma SomeMember(s: seq<Mnt>)
    ensures s == [] || exists c :: c in s
  {
    if s != [] { assert s[0] in s; }
  }

  // ---------- copying a subtree ----------

  /** Mounts numbered n and up are not in use. */
  ghost predicate Fresh(m: Mounts, n: Mnt) {
    forall y: Mnt, z: Mnt :: Hangs(m, y, z) ==> y < n && z < n
  }

  ghost predicate Untouched(m: Mounts, m': Mounts, n: Mnt) {
    forall y: Mnt :: y < n ==>
      && (y in m'.up <==> y in m.up) && Parent(m', y) == Parent(m, y)
      && Kids(m', y) == Kids(m, y) && Point(m', y) == Point(m, y) && Root(m', y) == Root(m, y)
  }

  /** Clone n + i hangs on the clone of the parent of the i-th mount, at the same dentry. */
  ghost predicate CloneAt(m: Mounts, m': Mounts, order: seq<Mnt>, n: Mnt, i: nat, h: nat)
    requires i < |order|
  {
    && h < i && Hangs(m, order[i], order[h]) && Hangs(m', n + i, n + h)
    && Point(m', n + i) == Point(m, order[i]) && Root(m', n + i) == Root(m, order[i])
  }

  ghost predicate HasClone(m: Mounts, m': Mounts, order: seq<Mnt>, n: Mnt, i: nat)
    requires i < |order|
  {
    exists h :: CloneAt(m, m', order, n, i, h)
  }

  ghost predicate Decreasing(s: seq<Mnt>) {
    forall i, j :: 0 <= i < j < |s| ==> s[i] > s[j]
  }

  /** The first k mounts of `order` have clones n, n + 1, ...; the copy is a tree of
      its own, with child lists in the opposite order. */
  ghost predicate Copy(m: Mounts, m': Mounts, order: seq<Mnt>, n: Mnt, d: Dentry, k: nat)
    requires 0 < k <= |order|
  {
    && Untouched(m, m', n)
    && (forall y: Mnt, z: Mnt :: Hangs(m', y, z) && y >= n ==> n < y < n + k)
    && n !in m'.up && Root(m', n) == d && Point(m', n) == Point(m, order[0])
    && (forall i :: 0 < i < k ==> HasClone(m, m', order, n, i))
    && (forall y: Mnt :: y >= n ==> Decreasing(Kids(m', y)))
  }

  lemma NoReachFresh(m: Mounts, n: Mnt, y: Mnt)
    requires Fresh(m, n) && y != n
    ensures !Reaches(m.up, y, n)
  {
    forall i: nat ensures Chain(m.up, y, i) != Some(n) { ChainFresh(m, n, y, i); }
  }

  lemma {:induction false} ChainFresh(m: Mounts, n: Mnt, y: Mnt, i: nat)
    requires Fresh(m, n) && y != n
    ensures Chain(m.up, y, i) != Some(n)
    decreases i
  {
    if i > 0 && y in m.up {
      assert Hangs(m, y, m.up[y]);
      ChainFresh(m, n, m.up[y], i - 1);
    }
  }

  /** clone_mnt: a new mount with root d, not attached anywhere. */
  function Clone(m: Mounts, q: Mnt, d: Dentry): Mounts {
    m.(root := m.root[q := d], point := m.point[q := d])
  }

  lemma CloneInv(m: Mounts, q: Mnt, d: Dentry)
    requires Inv(m) && Fresh(m, q)
    ensures Inv(Clone(m, q, d)) && Fresh(Clone(m, q, d), q)
  {
    var m' := Clone(m, q, d);
    assert forall y :: Kids(m', y) == Kids(m, y);
    assert forall y, z :: Hangs(m', y, z) <==> Hangs(m, y, z);
    forall x, c ensures c in Kids(m', x) <==> Hangs(m', c, x) {
      assert c in Kids(m, x) <==> Hangs(m, c, x);
    }
    forall x ensures NoDuplicates(Kids(m', x)) { assert NoDuplicates(Kids(m, x)); }
    forall e ensures Count(m', e) == |On(m', e)| {
      forall x | x in m.up ensures x != q { assert Hangs(m, x, m.up[x]); }
      assert On(m', e) == On(m, e);
      assert Count(m, e) == |On(m, e)|;
    }
  }

  lemma FreshKids(m: Mounts, n: Mnt, y: Mnt)
    requires Linked(m) && Fresh(m, n) && y >= n
    ensures Kids(m, y) == []
  {
    NoKids(m, y);
  }

  /** The first clone. */
  lemma CopyStart(m: Mounts, order: seq<Mnt>, n: Mnt, d: Dentry)
    requires Inv(m) && Fresh(m, n) && order != []
    ensures var c := Clone(m, n, d);
            var m' := c.(point := c.point[n := Point(m, order[0])]);
            Inv(m') && Fresh(m', n + 1) && Copy(m, m', order, n, d, 1)
  {
    CloneInv(m, n, d);
    var c := Clone(m, n, d);
    CloneInv(c, n, Point(m, order[0]));
    var m' := c.(point := c.point[n := Point(m, order[0])]);
    var c' := Clone(c, n, Point(m, order[0]));
    assert m'.up == c'.up && m'.kids == c'.kids && m'.point == c'.point && m'.mounted == c'.mounted;
    assert forall y :: Kids(m', y) == Kids(c', y);
    assert forall y, z :: Hangs(m', y, z) <==> Hangs(c', y, z);
    assert Linked(m');
    forall e ensures Count(m', e) == |On(m', e)| {
      assert On(m', e) == On(c', e);
      assert Count(c', e) == |On(c', e)|;
    }
    forall y: Mnt, z: Mnt | Hangs(m', y, z) ensures y < n && z < n { assert Hangs(m, y, z); }
    forall y | y >= n ensures Decreasing(Kids(m', y)) { FreshKids(m, n, y); assert Kids(m', y) == Kids(m, y); }
    if n in m.up { assert Hangs(m, n, m.up[n]); }
  }

  /** Clone number c = n + k, with root r, is hung on q = n + h at e: as the k-th of
      `order` is on the h-th. */
  ghost predicate HungAlike(m: Mounts, order: seq<Mnt>, n: Mnt, k: nat, h: nat, c: Mnt, r: Dentry, q: Mnt, e: Dentry) {
    && h < k < |order| && Hangs(m, order[k], order[h])
    && c == n + k && q == n + h && r == Root(m, order[k]) && e == Point(m, order[k])
  }

  /** One more clone, hung on the clone of its parent. */
  lemma CopyStep(m: Mounts, mc: Mounts, order: seq<Mnt>, n: Mnt, d: Dentry, k: nat, h: nat, c: Mnt, r: Dentry, q: Mnt, e: Dentry)
    requires HungAlike(m, order, n, k, h, c, r, q, e) && 0 < k && Copy(m, mc, order, n, d, k) && Inv(mc) && Fresh(mc, c) && Fresh(m, n)
    ensures var m' := Attach(Clone(mc, c, r), c, q, e);
            Inv(m') && Fresh(m', c + 1) && Copy(m, m', order, n, d, k + 1)
  {
    AttachCloneInv(mc, c, r, q, e);
    CopyStepHangs(mc, c, r, q, e);
    var m' := Attach(Clone(mc, c, r), c, q, e);
    forall i | 0 < i < k + 1 ensures HasClone(m, m', order, n, i) {
      CopyStepClones(m, mc, order, n, d, k, h, c, r, q, e, i);
    }
    forall y: Mnt | y >= n ensures Decreasing(Kids(m', y)) {
      CopyStepKids(m, mc, order, n, d, k, c, r, q, e, y);
    }
  }

  lemma AttachCloneInv(mc: Mounts, q: Mnt, r: Dentry, p: Mnt, e: Dentry)
    requires Inv(mc) && Fresh(mc, q) && p < q
    ensures Inv(Attach(Clone(mc, q, r), q, p, e))
  {
    var c := Clone(mc, q, r);
    CloneInv(mc, q, r);
    if q in c.up { assert Hangs(c, q, c.up[q]); }
    NoReachFresh(c, q, p);
    AttachInv(c, q, p, e);
  }

  lemma CopyStepClones(m: Mounts, mc: Mounts, order: seq<Mnt>, n: Mnt, d: Dentry, k: nat,
      h: nat, c: Mnt, r: Dentry, q: Mnt, e: Dentry, i: nat)
    requires HungAlike(m, order, n, k, h, c, r, q, e) && Copy(m, mc, order, n, d, k) && Fresh(mc, c) && 0 < i <= k
    ensures HasClone(m, Attach(Clone(mc, c, r), c, q, e), order, n, i)
  {
    var m' := Attach(Clone(mc, c, r), c, q, e);
    if i < k {
      assert HasClone(m, mc, order, n, i);
      var g :| CloneAt(m, mc, order, n, i, g);
      assert CloneAt(m, m', order, n, i, g);
    } else {
      assert CloneAt(m, m', order, n, k, h);
    }
  }

  lemma CopyStepKids(m: Mounts, mc: Mounts, order: seq<Mnt>, n: Mnt, d: Dentry, k: nat, c: Mnt, r: Dentry, q: Mnt, e: Dentry, y: Mnt)
    requires 0 < k <= |order| && Copy(m, mc, order, n, d, k) && Linked(mc) && Fresh(mc, c) && y >= n
    ensures Decreasing(Kids(Attach(Clone(mc, c, r), c, q, e), y))
  {
    assert Decreasing(Kids(mc, y));
    if y == q {
      forall z | z in Kids(mc, y) ensures z < c { assert Hangs(mc, z, y); }
      DecreasingCons(c, Kids(mc, y));
    }
  }

  lemma DecreasingCons(q: Mnt, s: seq<Mnt>)
    requires Decreasing(s) && forall e :: e in s ==> e < q
    ensures Decreasing([q] + s)
  {
    var t := [q] + s;
    forall i, j | 0 <= i < j < |t| ensures t[i] > t[j] {
      assert t[j] == s[j - 1] && s[j - 1] in s;
      if i > 0 { assert t[i] == s[i - 1]; }
    }
  }

  lemma CopyStepHangs(mc: Mounts, c: Mnt, r: Dentry, q: Mnt, e: Dentry)
    requires Fresh(mc, c) && q < c
    ensures var m' := Attach(Clone(mc, c, r), c, q, e);
            && (forall y: Mnt, z: Mnt :: Hangs(m', y, z) <==> Hangs(mc, y, z) || (y == c && z == q))
            && Fresh(m', c + 1)
            && (forall y: Mnt :: y != q ==> Kids(m', y) == Kids(mc, y))
            && (forall y: Mnt :: y != c ==> Point(m', y) == Point(mc, y) && Root(m', y) == Root(mc, y))
  {
    if c in mc.up { assert Hangs(mc, c, mc.up[c]); }
  }

  /** The walk of the original is not disturbed by the copy. */
  lemma {:induction false} ShapeSame(m: Mounts, m': Mounts, f: Forest, par: Mnt, pos: nat)
    requires Shape(m, f, par, pos) && Kids(m', par) == Kids(m, par) && forall y :: y in Pre(f) ==> Kids(m', y) == Kids(m, y)
    ensures Shape(m', f, par, pos)
    decreases f
  {
    if f.Cons? {
      assert f.id in Pre(f);
      forall y | y in Pre(f.kids) || y in Pre(f.sibs) ensures y in Pre(f) {}
      ShapeSame(m, m', f.kids, f.id, 0);
      ShapeSame(m, m', f.sibs, par, pos + 1);
    }
  }

  lemma WalkBelow(m: Mounts, n: Mnt, x: Mnt, f: Forest, y: Mnt)
    requires IsWalk(m, x, f) && Fresh(m, n) && x < n && y in Walk(f, x)
    ensures y < n
  {
    if y != x {
      WalkIsBelow(m, f, x, 0, y);
      assert Hangs(m, y, m.up[y]);
    }
  }

  lemma WalkKept(m: Mounts, m': Mounts, n: Mnt, x: Mnt, f: Forest)
    requires IsWalk(m, x, f) && Fresh(m, n) && x < n && Untouched(m, m', n) && Linked(m') && Acyclic(m'.up)
    ensures IsWalk(m', x, f)
  {
    forall y | y in Pre(f) ensures Kids(m', y) == Kids(m, y) {
      assert y in Walk(f, x);
      WalkBelow(m, n, x, f, y);
    }
    ShapeSame(m, m', f, x, 0);
  }

  /** One more clone, as seen by copy_tree. */
  lemma CopyGoesOn(m: Mounts, mc: Mounts, x: Mnt, f: Forest, n: Mnt, d: Dentry, k: nat, h: nat, c: Mnt, r: Dentry, q: Mnt, e: Dentry)
    requires IsWalk(m, x, f) && Fresh(m, n) && x < n && 0 < k < |Walk(f, x)| && Copy(m, mc, Walk(f, x), n, d, k)
    requires Inv(mc) && Fresh(mc, c) && HungAlike(m, Walk(f, x), n, k, h, c, r, q, e)
    ensures var m' := Attach(Clone(mc, c, r), c, q, e);
            Inv(m') && Fresh(m', c + 1) && IsWalk(m', x, f) && Copy(m, m', Walk(f, x), n, d, k + 1)
  {
    CopyStep(m, mc, Walk(f, x), n, d, k, h, c, r, q, e);
    WalkKept(m, Attach(Clone(mc, c, r), c, q, e), n, x, f);
  }

  /** One step up, in the original and in the copy. */
  lemma ClimbStep(m: Mounts, mc: Mounts, x: Mnt, f: Forest, n: Mnt, d: Dentry, k: nat, h: nat, target: Mnt, i: nat) returns (h': nat)
    requires IsWalk(m, x, f) && Fresh(m, n) && x < n && h < k <= |Walk(f, x)| && Copy(m, mc, Walk(f, x), n, d, k)
    requires Walk(f, x)[h] != target && Chain(m.up, Walk(f, x)[h], i) == Some(target) && Reaches(m.up, target, x)
    ensures h' < h && i > 0 && Chain(m.up, Walk(f, x)[h'], i - 1) == Some(target)
    ensures Walk(f, x)[h] in mc.up && mc.up[Walk(f, x)[h]] == Walk(f, x)[h'] && n + h in mc.up && mc.up[n + h] == n + h'
  {
    var p := Walk(f, x)[h];
    NotTop(m, x, target, p, i);
    h' := CloneParent(m, mc, x, f, n, d, k, h);
    WalkBelow(m, n, x, f, p);
    assert Parent(mc, p) == Parent(m, p);
  }

  /** From a clone, its parent is the clone of the parent. */
  lemma CloneParent(m: Mounts, mc: Mounts, x: Mnt, f: Forest, n: Mnt, d: Dentry, k: nat, a: nat) returns (h: nat)
    requires IsWalk(m, x, f) && 0 < a < k <= |Walk(f, x)| && Copy(m, mc, Walk(f, x), n, d, k)
    ensures h < a && mc.up.Keys >= {n + a} && mc.up[n + a] == n + h && Hangs(m, Walk(f, x)[a], Walk(f, x)[h])
  {
    assert HasClone(m, mc, Walk(f, x), n, a);
    h :| CloneAt(m, mc, Walk(f, x), n, a, h);
  }

  // ---------- undoing a partial copy ----------

  lemma {:induction false} CloneReaches(m: Mounts, mc: Mounts, order: seq<Mnt>, n: Mnt, d: Dentry, k: nat, y: Mnt)
    requires 0 < k <= |order| && Copy(m, mc, order, n, d, k) && n <= y < n + k
    ensures Reaches(mc.up, y, n)
    decreases y
  {
    if y == n {
      assert Chain(mc.up, n, 0) == Some(n);
    } else {
      assert HasClone(m, mc, order, n, y - n);
      var h :| CloneAt(m, mc, order, n, y - n, h);
      var p := mc.up[y];
      CloneReaches(m, mc, order, n, d, k, p);
      StepReaches(mc.up, y);
      ReachesTrans(mc.up, y, p, n);
    }
  }

  lemma {:induction false} OldStaysOld(m: Mounts, mc: Mounts, n: Mnt, y: Mnt, i: nat)
    requires Untouched(m, mc, n) && Fresh(m, n) && y < n
    ensures Chain(mc.up, y, i) != Some(n)
    decreases i
  {
    if i > 0 && y in mc.up {
      assert mc.up[y] == Parent(mc, y) == Parent(m, y) && Hangs(m, y, m.up[y]);
      OldStaysOld(m, mc, n, mc.up[y], i - 1);
    }
  }

  lemma CloneOnClone(m: Mounts, mc: Mounts, order: seq<Mnt>, n: Mnt, d: Dentry, k: nat, c: Mnt)
    requires 0 < k <= |order| && Copy(m, mc, order, n, d, k) && c in mc.up && c >= n
    ensures mc.up[c] >= n
  {
    assert Hangs(mc, c, mc.up[c]);
    assert HasClone(m, mc, order, n, c - n);
  }

  /** Taking the copy apart again leaves the old tree as it was. */
  lemma CopyUndone(m: Mounts, mc: Mounts, m': Mounts, order: seq<Mnt>, n: Mnt, d: Dentry, k: nat, gone: set<Mnt>)
    requires 0 < k <= |order| && Copy(m, mc, order, n, d, k) && Fresh(m, n)
    requires Removed(mc, m', gone) && forall z :: z in gone <==> Reaches(mc.up, z, n)
    ensures m'.up == m.up && Untouched(m, m', n)
  {
    forall y: Mnt ensures y in gone ==> y >= n {
      if y < n { forall i: nat ensures Chain(mc.up, y, i) != Some(n) { OldStaysOld(m, mc, n, y, i); } }
    }
    forall y: Mnt ensures y in mc.up && y >= n ==> y in gone {
      if y in mc.up && y >= n {
        assert Hangs(mc, y, mc.up[y]);
        CloneReaches(m, mc, order, n, d, k, y);
      }
    }
    forall y: Mnt | y < n ensures Kids(m', y) == Kids(m, y) {
      forall c | c in gone ensures !Hangs(mc, c, y) {
        if c in mc.up { CloneOnClone(m, mc, order, n, d, k, c); }
      }
    }
    forall y: Mnt ensures y in m'.up <==> y in m.up {
      if y in m.up { assert Hangs(m, y, m.up[y]); }
    }
    forall y: Mnt | y in m.up ensures m'.up[y] == m.up[y] {
      assert Hangs(m, y, m.up[y]);
      assert Parent(mc, y) == Parent(m, y);
    }
  }

  // ---------- climbing back up during a copy ----------

  lemma NotTop(m: Mounts, x: Mnt, target: Mnt, p: Mnt, i: nat)
    requires Acyclic(m.up) && Chain(m.up, p, i) == Some(target) && p != target && Reaches(m.up, target, x)
    ensures p != x && i > 0 && p in m.up
  {
    var j: nat :| Chain(m.up, target, j) == Some(x);
    ChainAdd(m.up, p, i, j);
  }

  lemma {:induction false} ChainKept(m: Mounts, mc: Mounts, n: Mnt, y: Mnt, i: nat)
    requires Untouched(m, mc, n) && Fresh(m, n) && y < n
    ensures Chain(m.up, y, i) == Chain(mc.up, y, i)
    decreases i
  {
    if i > 0 && y in m.up {
      assert Parent(mc, y) == Parent(m, y) && Hangs(m, y, m.up[y]);
      ChainKept(m, mc, n, m.up[y], i - 1);
    }
  }

  /** What the climb in the copy needs to know about the original. */
  lemma ClimbFacts(m: Mounts, mc: Mounts, n: Mnt, x: Mnt, f: Forest, k: nat)
    requires IsWalk(m, x, f) && Fresh(m, n) && x < n && Untouched(m, mc, n) && 0 < k < |Walk(f, x)|
    requires Walk(f, x)[k] in mc.up && Reaches(mc.up, Walk(f, x)[k - 1], mc.up[Walk(f, x)[k]])
    ensures var y := Walk(f, x)[k];
            && y in m.up && m.up[y] == mc.up[y] && Root(mc, y) == Root(m, y) && Point(mc, y) == Point(m, y)
            && Reaches(m.up, Walk(f, x)[k - 1], m.up[y]) && Reaches(m.up, m.up[y], x)
  {
    var w := Walk(f, x);
    var y, p := w[k], w[k - 1];
    assert y in w && p in w;
    WalkBelow(m, n, x, f, y);
    WalkBelow(m, n, x, f, p);
    assert Parent(mc, y) == Parent(m, y);
    var i: nat :| Chain(mc.up, p, i) == Some(mc.up[y]);
    ChainKept(m, mc, n, p, i);
    WalkVisitsAllOnce(m, x, f);
    var a := ParentAt(m, x, f, k);
    assert w[a] in w;
  }
}
