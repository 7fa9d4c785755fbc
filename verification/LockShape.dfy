/** The shape of a well-formed list, and what replacing the middle of an owner's
    group does to it. */
module LockShape {
  import opened RecordLocks
  import opened LockEffects

  /** Two locks of one owner: in order, disjoint, and with a gap if of one kind. */
  predicate Apart(x: FileLock, y: FileLock) {
    x.end < y.start && (x.kind == y.kind ==> x.end + 1 < y.start)
  }

  ghost predicate Spaced(a: seq<FileLock>) {
    forall i, j :: 0 <= i < j < |a| && a[i].owner == a[j].owner ==> Apart(a[i], a[j])
  }

  ghost predicate Grouped(a: seq<FileLock>) {
    forall i, j, k :: 0 <= i < j < k < |a| && a[i].owner == a[k].owner ==> a[j].owner == a[i].owner
  }

  ghost predicate Sane(a: seq<FileLock>) {
    forall i :: 0 <= i < |a| ==> ValidRange(a[i].start, a[i].end) && a[i].kind != Unlock
  }

  /** Each owner's locks are contiguous, sorted by start, disjoint and coalesced. */
  ghost predicate WellFormed(a: seq<FileLock>) {
    Sane(a) && Spaced(a) && Grouped(a)
  }

  ghost predicate AllOwn(a: seq<FileLock>, o: Owner) {
    forall i :: 0 <= i < |a| ==> a[i].owner == o
  }

  ghost predicate NoneOwn(a: seq<FileLock>, o: Owner) {
    forall i :: 0 <= i < |a| ==> a[i].owner != o
  }

  /** What the byte map must be after `o` sets [start, end] to `kind`. */
  ghost predicate Wanted(orig: seq<FileLock>, o: Owner, kind: LockKind, start: int, end: int,
                         x: Owner, k: LockKind, b: int) {
    if x == o && start <= b <= end then k == kind && k != Unlock else Held(orig, x, k, b)
  }

  ghost predicate Overwritten(orig: seq<FileLock>, out: seq<FileLock>, o: Owner, kind: LockKind, start: int, end: int) {
    forall x, k, b :: Held(out, x, k, b) <==> Wanted(orig, o, kind, start, end, x, k, b)
  }

  // ---------- assembling the new list ----------

  /** The old list pre + own + mid + post and the pieces left, put, right that
      replace mid when `o` overwrites [start, end] with `kind`. */
  datatype Pieces = Pieces(pre: seq<FileLock>, own: seq<FileLock>, mid: seq<FileLock>, post: seq<FileLock>,
                           left: seq<FileLock>, put: seq<FileLock>, right: seq<FileLock>)
  {
    function Old(): seq<FileLock> { pre + own + mid + post }
    function New(): seq<FileLock> { (pre + own) + (left + put + right) + post }
  }

  ghost predicate OwnBefore(a: seq<FileLock>, o: Owner, kind: LockKind, start: int) {
    forall i :: 0 <= i < |a| && a[i].owner == o ==> a[i].end < start && (a[i].kind == kind ==> a[i].end + 1 < start)
  }

  ghost predicate OwnAfter(a: seq<FileLock>, o: Owner, kind: LockKind, end: int) {
    forall i :: 0 <= i < |a| && a[i].owner == o ==> end < a[i].start && (a[i].kind == kind ==> end + 1 < a[i].start)
  }

  ghost predicate Remnant(mid: seq<FileLock>, l: FileLock, o: Owner, kind: LockKind) {
    l.owner == o && l.kind != kind && l.start <= l.end &&
    exists m :: m in mid && m.kind == l.kind && m.start <= l.start && l.end <= m.end
  }

  ghost predicate Fits(p: Pieces, o: Owner, kind: LockKind, start: int, end: int) {
    && WellFormed(p.Old()) && ValidRange(start, end)
    && NoneOwn(p.pre, o) && AllOwn(p.own, o) && AllOwn(p.mid, o)
    && (p.own + p.mid == [] ==> p.post == [] || p.post[0].owner == o)
    && OwnBefore(p.own, o, kind, start) && OwnAfter(p.post, o, kind, end)
    && |p.left| <= 1 && |p.right| <= 1
    && (p.left != [] ==> Remnant(p.mid, p.left[0], o, kind) && p.left[0].end == start - 1)
    && (p.right != [] ==> Remnant(p.mid, p.right[0], o, kind) && p.right[0].start == end + 1)
    && (if kind == Unlock then p.put == []
        else |p.put| == 1 && p.put[0].owner == o && p.put[0].kind == kind && p.put[0].start == start && p.put[0].end == end)
    && (forall m, b :: m in p.mid && Covers(m, b) && !(start <= b <= end) ==> Held(p.left + p.right, o, m.kind, b))
  }

  lemma HeldConcat(a: seq<FileLock>, b: seq<FileLock>, o: Owner, k: LockKind, x: int)
    ensures Held(a + b, o, k, x) <==> Held(a, o, k, x) || Held(b, o, k, x)
  {
    if Held(a, o, k, x) {
      var l :| l in a && l.owner == o && l.kind == k && Covers(l, x);
      assert l in a + b;
    }
    if Held(b, o, k, x) {
      var l :| l in b && l.owner == o && l.kind == k && Covers(l, x);
      assert l in a + b;
    }
  }

  ghost predicate Before(a: seq<FileLock>, b: seq<FileLock>) {
    forall i, j :: 0 <= i < |a| && 0 <= j < |b| && a[i].owner == b[j].owner ==> Apart(a[i], b[j])
  }

  lemma SpacedConcat(a: seq<FileLock>, b: seq<FileLock>)
    ensures Spaced(a + b) <==> Spaced(a) && Spaced(b) && Before(a, b)
  {
    var c := a + b;
    if Spaced(c) {
      forall i, j | 0 <= i < j < |a| && a[i].owner == a[j].owner ensures Apart(a[i], a[j]) {
        assert c[i] == a[i] && c[j] == a[j];
      }
      forall i, j | 0 <= i < j < |b| && b[i].owner == b[j].owner ensures Apart(b[i], b[j]) {
        assert c[|a| + i] == b[i] && c[|a| + j] == b[j];
      }
      forall i, j | 0 <= i < |a| && 0 <= j < |b| && a[i].owner == b[j].owner ensures Apart(a[i], b[j]) {
        assert c[i] == a[i] && c[|a| + j] == b[j];
      }
    }
  }

  lemma BeforeConcat(a: seq<FileLock>, b: seq<FileLock>, c: seq<FileLock>)
    ensures Before(a + b, c) <==> Before(a, c) && Before(b, c)
    ensures Before(a, b + c) <==> Before(a, b) && Before(a, c)
  {
    if Before(a + b, c) {
      forall i, j | 0 <= i < |b| && 0 <= j < |c| && b[i].owner == c[j].owner ensures Apart(b[i], c[j]) {
        assert (a + b)[|a| + i] == b[i];
      }
      forall i, j | 0 <= i < |a| && 0 <= j < |c| && a[i].owner == c[j].owner ensures Apart(a[i], c[j]) {
        assert (a + b)[i] == a[i];
      }
    }
    if Before(a, b + c) {
      forall i, j | 0 <= i < |a| && 0 <= j < |c| && a[i].owner == c[j].owner ensures Apart(a[i], c[j]) {
        assert (b + c)[|b| + j] == c[j];
      }
      forall i, j | 0 <= i < |a| && 0 <= j < |b| && a[i].owner == b[j].owner ensures Apart(a[i], b[j]) {
        assert (b + c)[j] == b[j];
      }
    }
  }

  /** The order facts about the old list, part by part. */
  lemma OldOrder(p: Pieces)
    requires Spaced(p.Old())
    ensures Spaced(p.pre + p.own) && Spaced(p.mid) && Spaced(p.post)
    ensures Before(p.pre + p.own, p.post) && Before(p.own, p.mid) && Before(p.mid, p.post)
  {
    assert p.Old() == (p.pre + p.own + p.mid) + p.post;
    SpacedConcat(p.pre + p.own + p.mid, p.post);
    SpacedConcat(p.pre + p.own, p.mid);
    BeforeConcat(p.pre + p.own, p.mid, p.post);
    BeforeConcat(p.pre, p.own, p.mid);
  }

  /** The replacement is ordered within itself. */
  lemma MiddleSpaced(p: Pieces, o: Owner, kind: LockKind, start: int, end: int)
    requires Fits(p, o, kind, start, end)
    ensures Spaced(p.left + p.put + p.right)
  {
  }

  lemma MiddleAfterOwn(p: Pieces, o: Owner, kind: LockKind, start: int, end: int)
    requires Fits(p, o, kind, start, end)
    ensures Before(p.pre + p.own, p.left + p.put + p.right)
  {
    OldOrder(p);
    var a, n := p.pre + p.own, p.left + p.put + p.right;
    forall i, j | 0 <= i < |a| && 0 <= j < |n| && a[i].owner == n[j].owner ensures Apart(a[i], n[j]) {
      assert n[j].owner == o;
      assert i >= |p.pre| && a[i] == p.own[i - |p.pre|];
      if j < |p.left| {
        var m :| m in p.mid && m.kind == n[j].kind && m.start <= n[j].start && n[j].end <= m.end;
        var k :| 0 <= k < |p.mid| && p.mid[k] == m;
        assert Apart(p.own[i - |p.pre|], p.mid[k]);
      }
    }
  }

  lemma MiddleBeforePost(p: Pieces, o: Owner, kind: LockKind, start: int, end: int)
    requires Fits(p, o, kind, start, end)
    ensures Before(p.left + p.put + p.right, p.post)
  {
    OldOrder(p);
    var n := p.left + p.put + p.right;
    forall i, j | 0 <= i < |n| && 0 <= j < |p.post| && n[i].owner == p.post[j].owner ensures Apart(n[i], p.post[j]) {
      assert n[i].owner == o;
      if i >= |p.left| + |p.put| {
        assert n[i] == p.right[0];
        var m :| m in p.mid && m.kind == n[i].kind && m.start <= n[i].start && n[i].end <= m.end;
        var k :| 0 <= k < |p.mid| && p.mid[k] == m;
        assert Apart(p.mid[k], p.post[j]);
      }
    }
  }

  lemma NewSpaced(p: Pieces, o: Owner, kind: LockKind, start: int, end: int)
    requires Fits(p, o, kind, start, end)
    ensures Spaced(p.New())
  {
    var n := p.left + p.put + p.right;
    OldOrder(p);
    MiddleSpaced(p, o, kind, start, end);
    MiddleAfterOwn(p, o, kind, start, end);
    MiddleBeforePost(p, o, kind, start, end);
    SpacedConcat(p.pre + p.own, n);
    BeforeConcat(p.pre + p.own, n, p.post);
    SpacedConcat((p.pre + p.own) + n, p.post);
  }

  lemma NewSane(p: Pieces, o: Owner, kind: LockKind, start: int, end: int)
    requires Fits(p, o, kind, start, end)
    ensures Sane(p.New())
  {
    var a, n, was := p.pre + p.own, p.left + p.put + p.right, p.Old();
    forall i | 0 <= i < |a| ensures ValidRange(a[i].start, a[i].end) && a[i].kind != Unlock {
      assert was[i] == a[i];
    }
    forall i | 0 <= i < |p.post| ensures ValidRange(p.post[i].start, p.post[i].end) && p.post[i].kind != Unlock {
      assert was[|was| - |p.post| + i] == p.post[i];
    }
    forall i | 0 <= i < |n| ensures ValidRange(n[i].start, n[i].end) && n[i].kind != Unlock {
      if n[i].kind != kind {
        assert Remnant(p.mid, n[i], o, kind);
        var m :| m in p.mid && m.kind == n[i].kind && m.start <= n[i].start && n[i].end <= m.end;
        var k :| 0 <= k < |p.mid| && p.mid[k] == m;
        assert was[|a| + k] == m;
      }
    }
  }

  /** Nobody else has locks on both sides of the block of `o`. */
  lemma OneSideOnly(pre: seq<FileLock>, a: seq<FileLock>, post: seq<FileLock>, o: Owner, i: nat, m: nat)
    requires NoneOwn(pre, o) && AllOwn(a, o) && Grouped(pre + a + post)
    requires a == [] ==> post == [] || post[0].owner == o
    requires i < |pre| && m < |post|
    ensures pre[i].owner != post[m].owner
  {
    var was := pre + a + post;
    assert was[i] == pre[i] && was[|pre|].owner == o && was[|pre| + |a| + m] == post[m];
  }

  /** `o` owns one block between two parts. */
  lemma GroupedAround(pre: seq<FileLock>, a: seq<FileLock>, b: seq<FileLock>, post: seq<FileLock>, o: Owner)
    requires NoneOwn(pre, o) && AllOwn(a, o) && AllOwn(b, o)
    requires Grouped(pre + a + post)
    requires a == [] ==> post == [] || post[0].owner == o
    ensures Grouped(pre + b + post)
  {
    var was, now := pre + a + post, pre + b + post;
    var n, d := |pre|, |a| - |b|;
    forall i, m | 0 <= i < |pre| && 0 <= m < |post| ensures pre[i].owner != post[m].owner {
      OneSideOnly(pre, a, post, o, i, m);
    }
    forall i, j, k | 0 <= i < j < k < |now| && now[i].owner == now[k].owner ensures now[j].owner == now[i].owner {
      if k < n {
        assert was[i] == now[i] && was[j] == now[j] && was[k] == now[k];
      } else if i >= n + |b| {
        assert was[i + d] == now[i] && was[j + d] == now[j] && was[k + d] == now[k];
      } else if k >= n + |b| && j >= n + |b| {
        assert was[n].owner == o && was[j + d] == now[j] && was[k + d] == now[k];
      }
    }
  }

  lemma NewGrouped(p: Pieces, o: Owner, kind: LockKind, start: int, end: int)
    requires Fits(p, o, kind, start, end)
    ensures Grouped(p.New())
  {
    var n := p.left + p.put + p.right;
    Inner(p.pre, p.own, p.mid, p.post);
    Inner(p.pre, p.own, n, p.post);
    assert AllOwn(n, o) by { MiddleOwn(p, o, kind, start, end); }
    AllOwnJoin(p.own, p.mid, o);
    AllOwnJoin(p.own, n, o);
    GroupedAround(p.pre, p.own + p.mid, p.own + n, p.post, o);
  }

  lemma MiddleOwn(p: Pieces, o: Owner, kind: LockKind, start: int, end: int)
    requires Fits(p, o, kind, start, end)
    ensures AllOwn(p.left + p.put + p.right, o)
  {
  }

  lemma AllOwnJoin(a: seq<FileLock>, b: seq<FileLock>, o: Owner)
    requires AllOwn(a, o) && AllOwn(b, o)
    ensures AllOwn(a + b, o)
  {
  }

  lemma Inner(a: seq<FileLock>, b: seq<FileLock>, c: seq<FileLock>, d: seq<FileLock>)
    ensures a + b + c + d == a + (b + c) + d
  {
  }

  lemma HeldOld(p: Pieces, x: Owner, k: LockKind, b: int)
    ensures Held(p.Old(), x, k, b) <==> Held(p.pre, x, k, b) || Held(p.own, x, k, b) || Held(p.mid, x, k, b) || Held(p.post, x, k, b)
  {
    HeldConcat(p.pre + p.own + p.mid, p.post, x, k, b);
    HeldConcat(p.pre + p.own, p.mid, x, k, b);
    HeldConcat(p.pre, p.own, x, k, b);
  }

  lemma HeldNew(p: Pieces, x: Owner, k: LockKind, b: int)
    ensures Held(p.New(), x, k, b) <==>
            Held(p.pre, x, k, b) || Held(p.own, x, k, b) || Held(p.put, x, k, b)
                || Held(p.left + p.right, x, k, b) || Held(p.post, x, k, b)
  {
    HeldConcat((p.pre + p.own) + (p.left + p.put + p.right), p.post, x, k, b);
    HeldConcat(p.pre + p.own, p.left + p.put + p.right, x, k, b);
    HeldConcat(p.pre, p.own, x, k, b);
    HeldConcat(p.left + p.put, p.right, x, k, b);
    HeldConcat(p.left, p.put, x, k, b);
    HeldConcat(p.left, p.right, x, k, b);
  }

  /** Outside [start, end] the remnants hold what `mid` held. */
  lemma HeldRemnants(p: Pieces, o: Owner, kind: LockKind, start: int, end: int, k: LockKind, b: int)
    requires Fits(p, o, kind, start, end)
    ensures Held(p.left + p.right, o, k, b) <==> Held(p.mid, o, k, b) && !(start <= b <= end)
  {
    if Held(p.left + p.right, o, k, b) {
      var l :| l in p.left + p.right && l.owner == o && l.kind == k && Covers(l, b);
      var m :| m in p.mid && m.kind == l.kind && m.start <= l.start && l.end <= m.end;
      assert Covers(m, b);
    }
  }

  lemma NewHeld(p: Pieces, o: Owner, kind: LockKind, start: int, end: int, x: Owner, k: LockKind, b: int)
    requires Fits(p, o, kind, start, end)
    ensures Held(p.New(), x, k, b) <==> Wanted(p.Old(), o, kind, start, end, x, k, b)
  {
    HeldOld(p, x, k, b);
    HeldNew(p, x, k, b);
    HeldPut(p, o, kind, start, end, x, k, b);
    if x == o {
      HeldRemnants(p, o, kind, start, end, k, b);
      HeldOutside(p, o, kind, start, end, k, b);
    } else {
      HeldByOthers(p, o, kind, start, end, x, k, b);
    }
  }

  lemma HeldPut(p: Pieces, o: Owner, kind: LockKind, start: int, end: int, x: Owner, k: LockKind, b: int)
    requires Fits(p, o, kind, start, end)
    ensures Held(p.put, x, k, b) <==> x == o && k == kind && kind != Unlock && start <= b <= end
  {
    if kind != Unlock { assert p.put[0] in p.put; }
  }

  /** Inside [start, end] the caller held nothing but in `mid`. */
  lemma HeldOutside(p: Pieces, o: Owner, kind: LockKind, start: int, end: int, k: LockKind, b: int)
    requires Fits(p, o, kind, start, end)
    ensures start <= b <= end ==> !Held(p.pre, o, k, b) && !Held(p.own, o, k, b) && !Held(p.post, o, k, b)
  {
  }

  /** Nobody else has a part in the block of `o`. */
  lemma HeldByOthers(p: Pieces, o: Owner, kind: LockKind, start: int, end: int, x: Owner, k: LockKind, b: int)
    requires Fits(p, o, kind, start, end) && x != o
    ensures !Held(p.own, x, k, b) && !Held(p.mid, x, k, b) && !Held(p.left + p.right, x, k, b)
  {
  }

  lemma Assemble(p: Pieces, o: Owner, kind: LockKind, start: int, end: int)
    requires Fits(p, o, kind, start, end)
    ensures WellFormed(p.New()) && Overwritten(p.Old(), p.New(), o, kind, start, end)
  {
    NewSane(p, o, kind, start, end);
    NewSpaced(p, o, kind, start, end);
    NewGrouped(p, o, kind, start, end);
    forall x, k, b ensures Held(p.New(), x, k, b) <==> Wanted(p.Old(), o, kind, start, end, x, k, b) {
      NewHeld(p, o, kind, start, end, x, k, b);
    }
  }
}
