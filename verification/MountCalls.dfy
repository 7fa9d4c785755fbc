/** next_mnt, umount_tree, copy_tree and do_move_mount as they run: loops that
    follow and rewrite the links of the mount tree. */
module MountCalls {
  import opened Options
  import opened Chains
  import opened MountTree
  import opened MountWalk
  import opened MountSteps

  datatype MoveReply = Moved | Invalid | NoEntry | Loop

  /** What do_move_mount answers. `gone`: the target directory is dead or unhashed;
      `whole`: the source path is the root of its mount; `alike`: both or neither
      are directories. */
  ghost function MoveAnswer(m: Mounts, ns: Mnt, x: Mnt, p: Mnt, gone: bool, whole: bool, alike: bool): MoveReply
    requires Acyclic(m.up)
  {
    if Top(m.up, p) != ns || Top(m.up, x) != ns then Invalid
    else if gone then NoEntry
    else if !whole || x !in m.up || !alike then Invalid
    else if Reaches(m.up, p, x) then Loop
    else Moved
  }

  class MountTable {
    var up: Graph<Mnt>
    var kids: map<Mnt, seq<Mnt>>
    var point: map<Mnt, Dentry>
    var root: map<Mnt, Dentry>
    var mounted: map<Dentry, int>
    var next: Mnt

    ghost function View(): Mounts
      reads this
    {
      Mounts(up, kids, point, root, mounted)
    }

    constructor ()
      ensures View() == Mounts(map[], map[], map[], map[], map[]) && next == 0
    {
      up, kids, point, root, mounted, next := map[], map[], map[], map[], map[], 0;
    }

    method DetachMnt(x: Mnt)
      requires x in up
      modifies this
      ensures View() == Detach(old(View()), x) && next == old(next)
    {
      var p, d := up[x], if x in point then point[x] else 0;
      up := up - {x};
      point := point[x := if x in root then root[x] else 0];
      var ks := if p in kids then kids[p] else [];
      kids := kids[p := Seqs.Filter(ks, Others(x))];
      mounted := mounted[d := (if d in mounted then mounted[d] else 0) - 1];
    }

    method AttachMnt(x: Mnt, p: Mnt, d: Dentry)
      modifies this
      ensures View() == Attach(old(View()), x, p, d) && next == old(next)
    {
      up := up[x := p];
      point := point[x := d];
      kids := kids[p := [x] + if p in kids then kids[p] else []];
      mounted := mounted[d := (if d in mounted then mounted[d] else 0) + 1];
    }

    /** The mount after p in the walk of the subtree of top: the j-th to the (j+1)-st. */
    method NextMnt(p: Mnt, top: Mnt, ghost f: Forest, ghost j: nat) returns (r: Option<Mnt>)
      requires IsWalk(View(), top, f) && j < |Walk(f, top)| && Walk(f, top)[j] == p
      ensures r == if j + 1 < |Walk(f, top)| then Some(Walk(f, top)[j + 1]) else None
      ensures r.Some? ==> r.value in up && Reaches(up, p, up[r.value])
    {
      ghost var path, below := PlaceAt(View(), top, f, j);
      ghost var rest := Walk(f, top)[j + 1..];
      LookDown(View(), top, path, below);
      assert Chain(up, p, 0) == Some(p);
      var ks := if p in kids then kids[p] else [];
      if ks != [] { return Some(ks[0]); }
      var q := p;
      while true
        invariant OnPath(View(), top, path) && q == NodeOf(top, path) && Rest(path) == rest && Reaches(up, p, q)
        decreases |path|
      {
        LookUp(View(), top, path);
        if q == top { return None; }
        StepReaches(up, q);
        ReachesTrans(up, p, q, up[q]);
        var sib := NextSibling(if up[q] in kids then kids[up[q]] else [], q);
        if sib.Some? { return sib; }
        q, path := up[q], path[1..];
      }
    }

    /** check_mnt: climb to the top. */
    method CheckMnt(x: Mnt, ns: Mnt) returns (ok: bool)
      requires Acyclic(up)
      ensures ok <==> Top(up, x) == ns
    {
      var q := x;
      ghost var n: nat := 0;
      while q in up
        invariant Chain(up, x, n) == Some(q)
        decreases |up| - n
      {
        ChainBound(up, x, n);
        ChainAdd(up, x, n, 1);
        assert Chain(up, q, 1) == Chain(up, up[q], 0);
        q, n := up[q], n + 1;
        ChainBound(up, x, n);
      }
      TopUnique(up, x, q);
      ok := q == ns;
    }

    /** The loop check: does the chain of parents of p meet x before its top? */
    method Ancestor(p: Mnt, x: Mnt) returns (found: bool)
      requires Acyclic(up) && x in up
      ensures found <==> Reaches(up, p, x)
    {
      var q := p;
      ghost var n: nat := 0;
      while q in up
        invariant Chain(up, p, n) == Some(q)
        invariant forall k: nat :: k < n ==> Chain(up, p, k) != Some(x)
        decreases |up| - n
      {
        if q == x { return true; }
        ChainBound(up, p, n);
        ChainAdd(up, p, n, 1);
        assert Chain(up, q, 1) == Chain(up, up[q], 0);
        q, n := up[q], n + 1;
        ChainBound(up, p, n);
      }
      NothingBeyond(up, p, n, x);
      found := false;
    }

    /** do_move_mount, from the namespace checks on. */
    method MoveMount(x: Mnt, p: Mnt, d: Dentry, ns: Mnt, gone: bool, whole: bool, alike: bool) returns (reply: MoveReply)
      requires Inv(View())
      modifies this
      ensures Inv(View()) && reply == MoveAnswer(old(View()), ns, x, p, gone, whole, alike)
      ensures View() == if reply == Moved then Move(old(View()), x, p, d) else old(View())
      ensures forall y :: Top(up, y) == Top(old(up), y)
    {
      var here := CheckMnt(p, ns);
      if !here { return Invalid; }
      var there := CheckMnt(x, ns);
      if !there { return Invalid; }
      if gone { return NoEntry; }
      if !whole || x !in up || !alike { return Invalid; }
      var loop := Ancestor(p, x);
      if loop { return Loop; }
      MoveInv(View(), x, p, d);
      DetachMnt(x);
      AttachMnt(x, p, d);
      return Moved;
    }

    /** umount_tree's first loop: the subtree, newest first. */
    method CollectTree(x: Mnt, ghost f: Forest) returns (kill: seq<Mnt>)
      requires IsWalk(View(), x, f)
      ensures Backwards(kill, Walk(f, x))
    {
      ghost var w := Walk(f, x);
      ghost var j: nat := 0;
      kill := [];
      var p := Some(x);
      while p.Some?
        invariant j <= |w| && Backwards(kill, w[..j])
        invariant p == if j < |w| then Some(w[j]) else None
        decreases |w| - j
      {
        BackwardsStep(kill, w, j);
        kill := [p.value] + kill;
        p := NextMnt(p.value, x, f, j);
        j := j + 1;
      }
      assert w[..j] == w;
    }

    /** One round of umount_tree's second loop. */
    method KillOne(y: Mnt, ghost m: Mounts, ghost gone: set<Mnt>)
      requires Inv(View()) && Removed(m, View(), gone)
      modifies this
      ensures Inv(View()) && next == old(next) && Removed(m, View(), gone + {y})
    {
      if y in up {
        DetachInv(View(), y);
        RemovedStep(m, View(), gone, y);
        DetachMnt(y);
      } else {
        RemovedTop(m, View(), gone, y);
      }
    }

    /** umount_tree: collect the subtree, newest first, and detach all of it. */
    method UmountTree(x: Mnt) returns (killed: seq<Mnt>)
      requires Inv(View())
      modifies this
      ensures Inv(View()) && next == old(next) && Removed(old(View()), View(), Elems(killed))
      ensures NoDuplicates(killed) && ChildrenFirst(old(View()), killed)
      ensures forall y :: y in killed <==> Reaches(old(up), y, x)
      ensures forall y :: y in killed ==> y !in up && Kids(View(), y) == []
    {
      ghost var m := View();
      ghost var f := WalkExists(m, x);
      killed := CollectTree(x, f);
      KillList(m, x, f, killed);
      var i := 0;
      while i < |killed|
        invariant 0 <= i <= |killed| && Inv(View()) && next == old(next)
        invariant Removed(m, View(), Elems(killed[..i]))
      {
        ElemsStep(killed, i);
        KillOne(killed[i], m, Elems(killed[..i]));
        i := i + 1;
      }
      assert killed[..i] == killed;
      forall y | y in killed ensures y !in up && Kids(View(), y) == [] {
        NothingLeft(m, View(), x, Elems(killed), y);
      }
    }

    /** copy_tree's way back up: climb in the original and in the copy together. */
    method ClimbBoth(p: Mnt, q: Mnt, target: Mnt, x: Mnt, ghost m: Mounts, ghost f: Forest, ghost n: Mnt, ghost d: Dentry, ghost k: nat)
      returns (q': Mnt)
      requires IsWalk(m, x, f) && 0 < k <= |Walk(f, x)| && Copy(m, View(), Walk(f, x), n, d, k) && Fresh(m, n) && x < n
      requires p == Walk(f, x)[k - 1] && q == n + k - 1 && Reaches(m.up, p, target) && Reaches(m.up, target, x)
      ensures n <= q' < n + k && Walk(f, x)[q' - n] == target
    {
      hide Copy, IsWalk, Fresh;
      ghost var w := Walk(f, x);
      ghost var h: nat := k - 1;
      ghost var i: nat :| Chain(m.up, p, i) == Some(target);
      var p' := p;
      q' := q;
      while p' != target
        invariant h < k && p' == w[h] && q' == n + h && Chain(m.up, p', i) == Some(target)
        decreases i
      {
        ghost var h' := ClimbStep(m, View(), x, f, n, d, k, h, target, i);
        p', q' := up[p'], up[q'];
        h, i := h', i - 1;
      }
    }

    /** The first clone of copy_tree. */
    method CloneTop(x: Mnt, d: Dentry, ghost f: Forest)
      requires Inv(View()) && Fresh(View(), next) && x < next && IsWalk(View(), x, f)
      modifies this
      ensures Inv(View()) && next == old(next) + 1 && Fresh(View(), next) && IsWalk(View(), x, f)
      ensures Copy(old(View()), View(), Walk(f, x), old(next), d, 1)
    {
      CopyStart(View(), Walk(f, x), next, d);
      root := root[next := d];
      point := point[next := d][next := if x in point then point[x] else 0];
      next := next + 1;
      WalkKept(old(View()), View(), old(next), x, f);
    }

    /** clone_mnt(y, y->mnt_root), attached to q where y is attached to its parent. */
    method CloneAttach(y: Mnt, q: Mnt)
      modifies this
      ensures View() == Attach(Clone(old(View()), old(next), Root(old(View()), y)), old(next), q, Point(old(View()), y))
      ensures next == old(next) + 1
    {
      var c, r, e := next, if y in root then root[y] else 0, if y in point then point[y] else 0;
      root, point, next := root[c := r], point[c := r], c + 1;
      AttachMnt(c, q, e);
    }

    /** One round of copy_tree: clone y and hang the clone on q. */
    method CloneOne(y: Mnt, q: Mnt, x: Mnt, ghost m: Mounts, ghost f: Forest, ghost n: Mnt, ghost d: Dentry, ghost k: nat, ghost h: nat)
      requires IsWalk(m, x, f) && Fresh(m, n) && x < n && 0 < k < |Walk(f, x)| && Copy(m, View(), Walk(f, x), n, d, k)
      requires Inv(View()) && next == n + k && Fresh(View(), next)
      requires y == Walk(f, x)[k] && h < k && Hangs(m, y, Walk(f, x)[h]) && q == n + h
      requires Root(View(), y) == Root(m, y) && Point(View(), y) == Point(m, y)
      modifies this
      ensures Inv(View()) && next == n + k + 1 && Fresh(View(), next) && IsWalk(View(), x, f)
      ensures Copy(m, View(), Walk(f, x), n, d, k + 1)
    {
      CopyGoesOn(m, View(), x, f, n, d, k, h, next, Root(View(), y), q, Point(View(), y));
      CloneAttach(y, q);
    }

    /** copy_tree's way out when memory runs short. */
    method AbandonCopy(x: Mnt, n: Mnt, ghost m: Mounts, ghost f: Forest, ghost d: Dentry, ghost k: nat)
      requires Inv(View()) && 0 < k <= |Walk(f, x)| && Copy(m, View(), Walk(f, x), n, d, k) && Fresh(m, n) && n < next
      modifies this
      ensures Inv(View()) && next == old(next) && Fresh(View(), next) && up == m.up && Untouched(m, View(), n)
    {
      var killed := UmountTree(n);
      CopyUndone(m, old(View()), View(), Walk(f, x), n, d, k, Elems(killed));
      assert forall y: Mnt, z: Mnt :: Hangs(View(), y, z) <==> Hangs(m, y, z);
    }

    /** copy_tree under way: k clones made. */
    ghost predicate Copying(m: Mounts, f: Forest, x: Mnt, n: Mnt, d: Dentry, k: nat)
      reads this
    {
      && 0 < k <= |Walk(f, x)| && next == n + k && Inv(View()) && Fresh(View(), next) && IsWalk(View(), x, f)
      && Copy(m, View(), Walk(f, x), n, d, k)
    }

    /** One round of copy_tree, from finding the parent's clone to the next mount. */
    method CopyRound(p: Mnt, q: Mnt, y: Mnt, x: Mnt, ghost m: Mounts, ghost f: Forest, ghost n: Mnt, ghost d: Dentry, ghost k: nat)
      returns (r: Option<Mnt>)
      requires IsWalk(m, x, f) && Fresh(m, n) && x < n && k < |Walk(f, x)| && Copying(m, f, x, n, d, k)
      requires p == Walk(f, x)[k - 1] && q == n + k - 1 && y == Walk(f, x)[k] && y in up && Reaches(up, p, up[y])
      modifies this
      ensures Copying(m, f, x, n, d, k + 1)
      ensures r == if k + 1 < |Walk(f, x)| then Some(Walk(f, x)[k + 1]) else None
      ensures r.Some? ==> r.value in up && Reaches(up, y, up[r.value])
    {
      ClimbFacts(m, View(), n, x, f, k);
      var q' := ClimbBoth(p, q, up[y], x, m, f, n, d, k);
      CloneOne(y, q', x, m, f, n, d, k, q' - n);
      r := NextMnt(y, x, f, k);
    }

    /** copy_tree. `room` is the number of allocations that succeed; when one fails
        the partial copy is taken apart again. `order` is the walk of the original. */
    method CopyTree(x: Mnt, d: Dentry, room: nat) returns (res: Option<Mnt>, ghost order: seq<Mnt>)
      requires Inv(View()) && Fresh(View(), next) && x < next
      modifies this
      ensures Inv(View()) && Fresh(View(), next)
      ensures NoDuplicates(order) && order != [] && order[0] == x && forall y :: y in order <==> Reaches(old(up), y, x)
      ensures res == if room < |order| then None else Some(old(next))
      ensures res.None? ==> up == old(up) && Untouched(old(View()), View(), old(next))
      ensures res.Some? ==> Copy(old(View()), View(), order, old(next), d, |order|)
    {
      ghost var f := WalkExists(View(), x);
      order := Walk(f, x);
      WalkVisitsAllOnce(View(), x, f);
      res := CopyWalk(x, d, room, f);
    }

    method CopyWalk(x: Mnt, d: Dentry, room: nat, ghost f: Forest) returns (res: Option<Mnt>)
      requires Inv(View()) && Fresh(View(), next) && x < next && IsWalk(View(), x, f)
      modifies this
      ensures Inv(View()) && Fresh(View(), next)
      ensures res == if room < |Walk(f, x)| then None else Some(old(next))
      ensures res.None? ==> up == old(up) && Untouched(old(View()), View(), old(next))
      ensures res.Some? ==> Copy(old(View()), View(), Walk(f, x), old(next), d, |Walk(f, x)|)
    {
      hide Inv, IsWalk, Copy;
      ghost var m := View();
      if room == 0 { return None; }
      var n := next;
      CloneTop(x, d, f);
      var left, p, q := room - 1, x, n;
      ghost var k: nat := 1;
      var y := NextMnt(p, x, f, 0);
      while y.Some?
        invariant Copying(m, f, x, n, d, k) && 0 <= left == room - k
        invariant p == Walk(f, x)[k - 1] && q == n + k - 1 && y == if k < |Walk(f, x)| then Some(Walk(f, x)[k]) else None
        invariant y.Some? ==> y.value in up && Reaches(up, p, up[y.value])
        decreases |Walk(f, x)| - k
      {
        if left == 0 {
          AbandonCopy(x, n, m, f, d, k);
          return None;
        }
        var r := CopyRound(p, q, y.value, x, m, f, n, d, k);
        p, q, left, k, y := y.value, next - 1, left - 1, k + 1, r;
      }
      res := Some(n);
    }
  }
}
