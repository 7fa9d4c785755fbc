/** On a well-formed list a granted request overwrites exactly the caller's bytes,
    and the list stays well formed; and when it does not. */
module LockOverwrite {
  import opened Options
  import opened RecordLocks
  import opened LockEffects
  import opened LockShape

  /** The one family of requests that the code gets wrong: to the end of the
      file, where `fl_end + 1` wraps, with an own lock of the same kind in reach. */
  ghost predicate Wraps(locks: seq<FileLock>, req: Request) {
    && req.kind != Unlock && req.end == OFFSET_MAX
    && exists i :: 0 <= i < |locks| && locks[i].owner == req.owner && locks[i].kind == req.kind && locks[i].end >= req.start - 1
  }

  /** How the old list is divided in the middle of the loop: foreign locks, own
      locks left of the caller, at most one lock that overlaps it from the left,
      the locks it has absorbed, and at most one entry that the caller became. */
  datatype Parts = Parts(pre: seq<FileLock>, own: seq<FileLock>, left: seq<FileLock>, gone: seq<FileLock>, put: seq<FileLock>) {
    function Old(todo: seq<FileLock>): seq<FileLock> { pre + own + (left + gone) + todo }
    function Done(): seq<FileLock> { pre + own + left + put }
  }

  ghost predicate InRange(a: seq<FileLock>, start: int, end: int) {
    forall i :: 0 <= i < |a| ==> start <= a[i].start && a[i].end <= end
  }

  /** Where the caller has grown, its owner already had the same kind of lock. */
  ghost predicate GrewOverOwn(orig: seq<FileLock>, req: Request, start: int, end: int) {
    forall b :: start <= b <= end && !(req.start <= b <= req.end) ==> Held(orig, req.owner, req.kind, b)
  }

  /** How the loop's variables describe that division. */
  ghost predicate Layout(s: Scan, p: Parts, orig: seq<FileLock>, req: Request) {
    && s.Valid() && !s.right
    && s.done == p.Done() && orig == p.Old(s.todo)
    && |p.left| <= 1 && |p.put| <= 1
    && s.left == (if p.left == [] then None else Some(|p.pre| + |p.own|))
    && s.at == (if p.put == [] then None else Some(|s.done| - 1))
    && (if req.kind == Unlock then s.added == (p.left + p.gone != []) && p.put == []
        else s.added == (p.gone != []) && s.added == (p.put != []))
    && (p.put != [] ==> p.put[0].owner == req.owner && p.put[0].kind == req.kind && p.put[0].start == s.start && p.put[0].end == s.end)
    && NoneOwn(p.pre, req.owner) && AllOwn(p.own, req.owner) && AllOwn(p.left, req.owner) && AllOwn(p.gone, req.owner)
    && (p.own + (p.left + p.gone) == [] ==> s.todo == [] || s.todo[0].owner == req.owner)
  }

  /** Where the parts lie relative to the caller's current range. */
  ghost predicate Ranges(start: int, end: int, p: Parts, orig: seq<FileLock>, req: Request) {
    && OwnBefore(p.own, req.owner, req.kind, start)
    && (p.left != [] ==> p.left[0].kind != req.kind && p.left[0].start < start <= p.left[0].end <= end)
    && InRange(p.gone, start, end)
    && ValidRange(req.start, req.end) && ValidRange(start, end) && start <= req.start && req.end <= end
    && (p.put == [] ==> start == req.start && end == req.end)
    && (end > req.end ==> p.gone != [] && p.gone[|p.gone|-1].end == end)
    && GrewOverOwn(orig, req, start, end)
  }

  ghost predicate Midway(s: Scan, p: Parts, orig: seq<FileLock>, req: Request) {
    WellFormed(orig) && Layout(s, p, orig, req) && Ranges(s.start, s.end, p, orig, req)
  }

  /** The next own lock lies after everything that was absorbed. */
  lemma NextLock(s: Scan, p: Parts, orig: seq<FileLock>, req: Request)
    requires Midway(s, p, orig, req) && s.todo != [] && s.todo[0].owner == req.owner
    ensures var fl := s.todo[0];
            && ValidRange(fl.start, fl.end) && fl.kind != Unlock && fl in orig
            && (forall i :: 0 <= i < |p.own| ==> Apart(p.own[i], fl))
            && (forall i :: 0 <= i < |p.left| ==> Apart(p.left[i], fl))
            && (forall i :: 0 <= i < |p.gone| ==> p.gone[i].start <= p.gone[i].end && Apart(p.gone[i], fl))
            && (s.end > req.end ==> s.end < fl.start)
            && (p.gone != [] ==> s.start < fl.start)
  {
    var fl := s.todo[0];
    var n := |p.pre| + |p.own|;
    var k := n + |p.left| + |p.gone|;
    assert orig[k] == fl;
    forall i | 0 <= i < |p.own| ensures Apart(p.own[i], fl) {
      assert orig[|p.pre| + i] == p.own[i];
    }
    forall i | 0 <= i < |p.left| ensures Apart(p.left[i], fl) {
      assert orig[n + i] == p.left[i];
    }
    forall i | 0 <= i < |p.gone| ensures p.gone[i].start <= p.gone[i].end && Apart(p.gone[i], fl) {
      assert orig[n + |p.left| + i] == p.gone[i];
    }
    assert p.gone != [] ==> Apart(p.gone[0], fl);
  }

  /** `fl` lies wholly left of the caller. */
  lemma StepPast(s: Scan, p: Parts, orig: seq<FileLock>, req: Request) returns (p': Parts)
    requires Midway(s, p, orig, req) && s.todo != [] && s.todo[0].owner == req.owner
    requires var fl := s.todo[0]; fl.end < s.start && (fl.kind == req.kind ==> fl.end + 1 < s.start)
    ensures Midway(s.Pass(s.todo[0]), p', orig, req)
  {
    NextLock(s, p, orig, req);
    NothingAbsorbed(s, p, orig, req);
    var fl := s.todo[0];
    p' := Parts(p.pre, p.own + [fl], [], [], []);
    assert p == Parts(p.pre, p.own, [], [], []);
    assert Ranges(s.start, s.end, p', orig, req);
    assert Layout(s.Pass(fl), p', orig, req) by {
      PassedOwn(p.pre, p.own, s.todo);
      AllOwnMore(p.own, fl, req.owner);
    }
  }

  lemma PassedOwn(a: seq<FileLock>, own: seq<FileLock>, todo: seq<FileLock>)
    requires todo != []
    ensures a + own + [] + [] + [todo[0]] == a + (own + [todo[0]]) + [] + []
    ensures a + (own + [todo[0]]) + ([] + []) + todo[1..] == a + own + ([] + []) + todo
  {
    assert todo == [todo[0]] + todo[1..];
  }

  /** Own bytes of the right kind justify a wider caller. */
  lemma GrewByMerge(orig: seq<FileLock>, req: Request, s: Scan, fl: FileLock)
    requires GrewOverOwn(orig, req, s.start, s.end) && fl in orig && fl.owner == req.owner && fl.kind == req.kind
    requires fl.end >= s.start - 1 && fl.start <= s.end + 1
    ensures GrewOverOwn(orig, req, Min(fl.start, s.start), Max(fl.end, s.end))
  {
    forall b | Min(fl.start, s.start) <= b <= Max(fl.end, s.end) && !(req.start <= b <= req.end)
      ensures Held(orig, req.owner, req.kind, b)
    {
      if !(s.start <= b <= s.end) { assert Covers(fl, b); }
    }
  }

  lemma MergeRanges(s: Scan, p: Parts, orig: seq<FileLock>, req: Request, put: FileLock)
    requires Midway(s, p, orig, req) && s.todo != [] && s.todo[0].owner == req.owner
    requires var fl := s.todo[0]; fl.kind == req.kind && fl.end >= s.start - 1 && fl.start <= Succ(s.end)
    ensures var fl := s.todo[0];
            Ranges(Min(fl.start, s.start), Max(fl.end, s.end), p.(gone := p.gone + [fl], put := [put]), orig, req)
    ensures p.gone != [] ==> Min(s.todo[0].start, s.start) == s.start
  {
    NextLock(s, p, orig, req);
    var fl := s.todo[0];
    assert fl.start <= s.end + 1;
    GrewByMerge(orig, req, s, fl);
    MoreGone(p.gone, fl, Min(fl.start, s.start), Max(fl.end, s.end));
    if p.own != [] { OwnStaysBefore(p.own, fl, req, s.start); }
  }

  lemma OwnStaysBefore(own: seq<FileLock>, fl: FileLock, req: Request, start: int)
    requires OwnBefore(own, req.owner, req.kind, start) && fl.kind == req.kind
    requires forall i :: 0 <= i < |own| ==> Apart(own[i], fl)
    ensures OwnBefore(own, req.owner, req.kind, Min(fl.start, start))
  {
  }

  /** The caller becomes the first own lock of its kind that it touches. */
  lemma StepMerge(s: Scan, p: Parts, orig: seq<FileLock>, req: Request) returns (p': Parts)
    requires Midway(s, p, orig, req) && s.todo != [] && s.todo[0].owner == req.owner
    requires var fl := s.todo[0]; fl.kind == req.kind && fl.end >= s.start - 1 && fl.start <= Succ(s.end)
    requires !s.added && req.kind != Unlock
    ensures VisitSame(s).Continue? && Midway(VisitSame(s).s, p', orig, req)
  {
    var fl, t := s.todo[0], VisitSame(s).s;
    var put := fl.(start := t.start, end := t.end);
    MergeRanges(s, p, orig, req, put);
    p' := p.(gone := p.gone + [fl], put := [put]);
    assert Layout(t, p', orig, req) by {
      assert p.gone == [] && p.put == [];
      assert t.done == p'.Done();
      assert p'.Old(s.todo[1..]) == orig;
    }
  }

  /** The caller absorbs a further own lock of its kind. */
  lemma StepAbsorb(s: Scan, p: Parts, orig: seq<FileLock>, req: Request) returns (p': Parts)
    requires Midway(s, p, orig, req) && s.todo != [] && s.todo[0].owner == req.owner
    requires var fl := s.todo[0]; fl.kind == req.kind && fl.end >= s.start - 1 && fl.start <= Succ(s.end)
    requires s.added && req.kind != Unlock
    ensures VisitSame(s).Continue? && Midway(VisitSame(s).s, p', orig, req)
  {
    var fl, t := s.todo[0], VisitSame(s).s;
    var put := p.put[0].(start := t.start, end := t.end);
    MergeRanges(s, p, orig, req, put);
    p' := p.(gone := p.gone + [fl], put := [put]);
    assert Layout(t, p', orig, req) by {
      assert t.done == p'.Done();
      assert p'.Old(s.todo[1..]) == orig;
    }
  }

  /** An own lock of another kind begins left of the caller and ends inside it. */
  lemma StepLeft(s: Scan, p: Parts, orig: seq<FileLock>, req: Request) returns (p': Parts)
    requires Midway(s, p, orig, req) && s.todo != [] && s.todo[0].owner == req.owner
    requires var fl := s.todo[0]; fl.kind != req.kind && fl.start < s.start <= fl.end <= s.end
    ensures VisitOther(s, req.kind).Continue? && Midway(VisitOther(s, req.kind).s, p', orig, req)
  {
    NothingAbsorbed(s, p, orig, req);
    NextLock(s, p, orig, req);
    var fl, t := s.todo[0], VisitOther(s, req.kind).s;
    p' := p.(left := [fl]);
    assert t.done == p'.Done();
    assert p'.Old(s.todo[1..]) == orig;
  }

  /** Before a lock that begins left of the caller nothing can have been absorbed. */
  lemma NothingAbsorbed(s: Scan, p: Parts, orig: seq<FileLock>, req: Request)
    requires Midway(s, p, orig, req) && s.todo != [] && s.todo[0].owner == req.owner
    requires s.todo[0].start < s.start
    ensures p.left == [] && p.gone == []
  {
    NextLock(s, p, orig, req);
  }

  /** An own lock of another kind inside the caller is deleted. */
  lemma StepDelete(s: Scan, p: Parts, orig: seq<FileLock>, req: Request) returns (p': Parts)
    requires Midway(s, p, orig, req) && s.todo != [] && s.todo[0].owner == req.owner
    requires var fl := s.todo[0]; fl.kind != req.kind && s.start <= fl.start && fl.end <= s.end
    requires s.added || req.kind == Unlock
    ensures VisitOther(s, req.kind).Continue? && Midway(VisitOther(s, req.kind).s, p', orig, req)
  {
    NextLock(s, p, orig, req);
    DeletesHead(s, req.kind);
    MoreGone(p.gone, s.todo[0], s.start, s.end);
    DeletedLayout(s, p, orig, req);
    p' := p.(gone := p.gone + [s.todo[0]]);
  }

  lemma DeletedLayout(s: Scan, p: Parts, orig: seq<FileLock>, req: Request)
    requires Layout(s, p, orig, req) && s.todo != [] && s.todo[0].owner == req.owner && (s.added || req.kind == Unlock)
    ensures var t := s.(added := true, todo := s.todo[1..], woken := s.woken + {s.todo[0].id});
            Layout(t, p.(gone := p.gone + [s.todo[0]]), orig, req)
  {
    HeadMoves(p.pre + p.own, p.left, p.gone, s.todo);
    AllOwnMore(p.gone, s.todo[0], req.owner);
  }

  lemma AllOwnMore(a: seq<FileLock>, fl: FileLock, o: Owner)
    requires AllOwn(a, o) && fl.owner == o
    ensures AllOwn(a + [fl], o)
  {
  }

  lemma MoreGone(gone: seq<FileLock>, fl: FileLock, start: int, end: int)
    requires InRange(gone, start, end) && start <= fl.start && fl.end <= end
    ensures InRange(gone + [fl], start, end) && (gone + [fl])[|gone|] == fl
  {
  }

  lemma DeletesHead(s: Scan, kind: LockKind)
    requires s.Valid() && !s.right && s.todo != [] && (s.added || kind == Unlock)
    requires s.start <= s.todo[0].start <= s.todo[0].end <= s.end
    ensures VisitOther(s, kind) == Continue(s.(added := true, todo := s.todo[1..], woken := s.woken + {s.todo[0].id}))
  {
  }

  lemma HeadMoves(a: seq<FileLock>, b: seq<FileLock>, c: seq<FileLock>, todo: seq<FileLock>)
    requires todo != []
    ensures a + (b + (c + [todo[0]])) + todo[1..] == a + (b + c) + todo
  {
    assert todo == [todo[0]] + todo[1..];
  }

  /** The first such lock is replaced: the caller takes its place in the list. */
  lemma StepReplace(s: Scan, p: Parts, orig: seq<FileLock>, req: Request) returns (p': Parts)
    requires Midway(s, p, orig, req) && s.todo != [] && s.todo[0].owner == req.owner
    requires var fl := s.todo[0]; fl.kind != req.kind && s.start <= fl.start && fl.end <= s.end
    requires !s.added && req.kind != Unlock
    ensures VisitOther(s, req.kind).Continue? && Midway(VisitOther(s, req.kind).s, p', orig, req)
  {
    NextLock(s, p, orig, req);
    var fl, t := s.todo[0], VisitOther(s, req.kind).s;
    p' := p.(gone := p.gone + [fl], put := [fl.(start := s.start, end := s.end, kind := req.kind)]);
    assert Ranges(t.start, t.end, p', orig, req) by { MoreGone(p.gone, fl, s.start, s.end); }
    assert Layout(t, p', orig, req) by {
      assert t.done == p'.Done();
      HeadMoves(p.pre + p.own, p.left, p.gone, s.todo);
      AllOwnMore(p.gone, fl, req.owner);
    }
  }

  /** Away from the failing family the test `fl_start > fl_end + 1` does not wrap. */
  lemma NoWrap(s: Scan, p: Parts, orig: seq<FileLock>, req: Request)
    requires Midway(s, p, orig, req) && s.todo != [] && s.todo[0].owner == req.owner && !Wraps(orig, req)
    requires s.todo[0].kind == req.kind && s.todo[0].end >= s.start - 1
    ensures s.end < OFFSET_MAX
  {
    NextLock(s, p, orig, req);
    var b := req.start - 1;
    if s.start <= b {
      assert Held(orig, req.owner, req.kind, b);
      var l :| l in orig && l.owner == req.owner && l.kind == req.kind && Covers(l, b);
      assert req.end < OFFSET_MAX;
    } else {
      assert s.todo[0] in orig;
      assert req.end < OFFSET_MAX;
    }
  }

  // ---------- after the loop ----------

  /** The request's effect on the byte map, and the list's shape. */
  ghost predicate Good(orig: seq<FileLock>, out: seq<FileLock>, req: Request) {
    WellFormed(out) && Overwritten(orig, out, req.owner, req.kind, req.start, req.end)
  }

  lemma OneKindPerByte(a: seq<FileLock>, o: Owner, k1: LockKind, k2: LockKind, b: int)
    requires WellFormed(a) && Held(a, o, k1, b) && Held(a, o, k2, b)
    ensures k1 == k2 && k1 != Unlock
  {
    var x :| x in a && x.owner == o && x.kind == k1 && Covers(x, b);
    var y :| y in a && y.owner == o && y.kind == k2 && Covers(y, b);
    var i :| 0 <= i < |a| && a[i] == x;
    var j :| 0 <= j < |a| && a[j] == y;
    assert i < j ==> Apart(a[i], a[j]);
    assert j < i ==> Apart(a[j], a[i]);
  }

  /** Overwriting the grown range is overwriting the requested one. */
  lemma Narrow(orig: seq<FileLock>, out: seq<FileLock>, req: Request, start: int, end: int)
    requires WellFormed(orig) && WellFormed(out) && Overwritten(orig, out, req.owner, req.kind, start, end)
    requires GrewOverOwn(orig, req, start, end) && start <= req.start && req.end <= end
    ensures Good(orig, out, req)
  {
    forall x, k, b ensures Held(out, x, k, b) <==> Wanted(orig, req.owner, req.kind, req.start, req.end, x, k, b) {
      assert Held(out, x, k, b) <==> Wanted(orig, req.owner, req.kind, start, end, x, k, b);
      if x == req.owner && start <= b <= end && !(req.start <= b <= req.end) {
        assert Held(orig, x, req.kind, b);
        OneKindPerByte(orig, x, req.kind, req.kind, b);
        if Held(orig, x, k, b) { OneKindPerByte(orig, x, req.kind, k, b); }
      }
    }
  }

  /** The lock that stands for the caller in the new list. */
  function Put(s: Scan, p: Parts, req: Request, id: nat): seq<FileLock> {
    if req.kind == Unlock then []
    else if p.put != [] then p.put
    else [FileLock(id, req.owner, req.kind, s.start, s.end)]
  }

  function LeftRemnant(p: Parts, start: int): seq<FileLock> {
    if p.left == [] then [] else [p.left[0].(end := start - 1)]
  }

  /** What `mid` held outside the caller's range is in the remnants. */
  lemma MidHeld(s: Scan, p: Parts, orig: seq<FileLock>, req: Request, right: seq<FileLock>, m: FileLock, b: int)
    requires Midway(s, p, orig, req) && m in p.left + p.gone && Covers(m, b) && !(s.start <= b <= s.end)
    ensures Held(LeftRemnant(p, s.start) + right, req.owner, m.kind, b)
  {
    if m in p.left {
      var l := LeftRemnant(p, s.start)[0];
      assert l in LeftRemnant(p, s.start) + right && Covers(l, b);
    }
  }

  /** The pieces when no lock sticks out on the right. */
  function ClearPieces(s: Scan, p: Parts, req: Request, id: nat): Pieces {
    Pieces(p.pre, p.own, p.left + p.gone, s.todo, LeftRemnant(p, s.start), Put(s, p, req, id), [])
  }

  lemma ClearFits(s: Scan, p: Parts, orig: seq<FileLock>, req: Request, id: nat)
    requires Midway(s, p, orig, req) && OwnAfter(s.todo, req.owner, req.kind, s.end)
    ensures ClearPieces(s, p, req, id).Old() == orig
    ensures Fits(ClearPieces(s, p, req, id), req.owner, req.kind, s.start, s.end)
  {
    var q := ClearPieces(s, p, req, id);
    forall m, b | m in q.mid && Covers(m, b) && !(s.start <= b <= s.end) ensures Held(q.left + q.right, req.owner, m.kind, b) {
      MidHeld(s, p, orig, req, [], m, b);
    }
    if p.left != [] {
      assert p.left[0] in q.mid;
    }
  }

  lemma ClearList(s: Scan, p: Parts, orig: seq<FileLock>, req: Request, id: nat)
    requires Midway(s, p, orig, req)
    ensures Finish(s, req, id).locks == ClearPieces(s, p, req, id).New()
  {
    hide WellFormed, Ranges, TrimLeft, TrimRight;
    var q := ClearPieces(s, p, req, id);
    var a := p.pre + p.own;
    if s.added || req.kind != Unlock {
      Trimmed(s, p);
      FinishedList(s, req, id);
      Assembled(a, q.left, p.put, Inserted(s, req, id), [], s.todo);
      assert p.put + Inserted(s, req, id) == q.put && [] + s.todo == s.todo;
    } else {
      assert p.left == [] && p.put == [];
      Assembled(a, [], [], [], [], s.todo);
      assert a + [] + [] == a && [] + s.todo == s.todo;
    }
  }

  /** The lock that Finish inserts, if any. */
  function Inserted(s: Scan, req: Request, id: nat): seq<FileLock> {
    if s.added then [] else [FileLock(id, req.owner, req.kind, s.start, s.end)]
  }

  lemma FinishedList(s: Scan, req: Request, id: nat)
    requires s.Valid() && (s.added || req.kind != Unlock) && (s.left.Some? ==> s.left.value < |s.done|)
    ensures Finish(s, req, id).locks == TrimLeft(TrimRight(s)).done + Inserted(s, req, id) + TrimLeft(TrimRight(s)).todo
  {
  }

  /** The two trims, on a list divided as `p`. */
  lemma Trimmed(t: Scan, p: Parts)
    requires t.Valid() && t.done == p.Done() && |p.left| <= 1 && t.left == (if p.left == [] then None else Some(|p.pre| + |p.own|))
    ensures t.left.Some? ==> t.left.value < |t.done|
    ensures TrimLeft(TrimRight(t)).done == p.pre + p.own + LeftRemnant(p, t.start) + p.put
    ensures TrimLeft(TrimRight(t)).todo == if t.right then RightRemnant(t) + t.todo[1..] else t.todo
  {
    if p.left != [] { TrimmedOne(p.pre + p.own, p.left[0], p.put, LeftRemnant(p, t.start)[0]); }
    if t.right { assert t.todo[0 := RightRemnant(t)[0]] == RightRemnant(t) + t.todo[1..]; }
  }

  lemma TrimmedOne(a: seq<FileLock>, left: FileLock, put: seq<FileLock>, x: FileLock)
    ensures (a + [left] + put)[|a|] == left && (a + [left] + put)[|a| := x] == a + [x] + put
  {
  }

  lemma Assembled(a: seq<FileLock>, left: seq<FileLock>, put: seq<FileLock>,
      inserted: seq<FileLock>, right: seq<FileLock>, post: seq<FileLock>)
    ensures (a + left + put) + inserted + (right + post) == a + (left + (put + inserted) + right) + post
  {
  }

  lemma EndClear(s: Scan, p: Parts, orig: seq<FileLock>, req: Request, id: nat)
    requires Midway(s, p, orig, req) && OwnAfter(s.todo, req.owner, req.kind, s.end)
    ensures Good(orig, Finish(s, req, id).locks, req)
  {
    var q := ClearPieces(s, p, req, id);
    ClearFits(s, p, orig, req, id);
    ClearList(s, p, orig, req, id);
    Assemble(q, req.owner, req.kind, s.start, s.end);
    Narrow(orig, q.New(), req, s.start, s.end);
  }

  /** A lock of another kind ends right of the caller. */
  predicate SticksOut(s: Scan, req: Request) {
    s.todo != [] && s.todo[0].owner == req.owner && s.todo[0].kind != req.kind && s.todo[0].start <= s.end < s.todo[0].end
  }

  function RightRemnant(s: Scan): seq<FileLock>
    requires s.todo != []
  {
    [s.todo[0].(start := s.end + 1)]
  }

  function RightPieces(s: Scan, p: Parts, req: Request, id: nat): Pieces
    requires s.todo != []
  {
    Pieces(p.pre, p.own, p.left + p.gone + [s.todo[0]], s.todo[1..], LeftRemnant(p, s.start), Put(s, p, req, id), RightRemnant(s))
  }

  lemma RestAfter(s: Scan, p: Parts, orig: seq<FileLock>, req: Request)
    requires Midway(s, p, orig, req) && SticksOut(s, req)
    ensures OwnAfter(s.todo[1..], req.owner, req.kind, s.end)
    ensures s.todo[0].end <= OFFSET_MAX
  {
    var k := |orig| - |s.todo|;
    assert orig[k] == s.todo[0];
    forall i | 0 <= i < |s.todo[1..]| && s.todo[1..][i].owner == req.owner
      ensures s.end + 1 < s.todo[1..][i].start
    {
      assert orig[k + 1 + i] == s.todo[1..][i];
    }
  }

  lemma RightFits(s: Scan, p: Parts, orig: seq<FileLock>, req: Request, id: nat)
    requires Midway(s, p, orig, req) && SticksOut(s, req) && s.start <= s.todo[0].start
    ensures RightPieces(s, p, req, id).Old() == orig
    ensures Fits(RightPieces(s, p, req, id), req.owner, req.kind, s.start, s.end)
  {
    var q, fl := RightPieces(s, p, req, id), s.todo[0];
    RestAfter(s, p, orig, req);
    assert p.Old(s.todo) == p.pre + p.own + (p.left + p.gone + [fl]) + s.todo[1..];
    forall m, b | m in q.mid && Covers(m, b) && !(s.start <= b <= s.end) ensures Held(q.left + q.right, req.owner, m.kind, b) {
      if m in p.left + p.gone {
        MidHeld(s, p, orig, req, q.right, m, b);
      } else {
        assert q.right[0] in q.left + q.right && Covers(q.right[0], b);
      }
    }
    assert fl in q.mid;
    if p.left != [] {
      assert p.left[0] in p.left + p.gone && p.left[0] in q.mid;
    }
  }

  /** The loop's last state in that case. */
  function StopRight(s: Scan, kind: LockKind): Scan
    requires s.Valid() && s.todo != []
  {
    s.(added := s.added || kind == Unlock, right := true)
  }

  lemma RightList(s: Scan, p: Parts, orig: seq<FileLock>, req: Request, id: nat)
    requires Midway(s, p, orig, req) && SticksOut(s, req)
    ensures Finish(StopRight(s, req.kind), req, id).locks == RightPieces(s, p, req, id).New()
  {
    hide WellFormed, Ranges, Finish, TrimLeft, TrimRight, LeftRemnant;
    var q, t := RightPieces(s, p, req, id), StopRight(s, req.kind);
    Trimmed(t, p);
    FinishedList(t, req, id);
    Assembled(p.pre + p.own, q.left, p.put, Inserted(t, req, id), q.right, q.post);
    assert p.put + Inserted(t, req, id) == q.put;
  }

  lemma EndRight(s: Scan, p: Parts, orig: seq<FileLock>, req: Request, id: nat)
    requires Midway(s, p, orig, req) && SticksOut(s, req) && s.start <= s.todo[0].start
    ensures Good(orig, Finish(StopRight(s, req.kind), req, id).locks, req)
  {
    var q := RightPieces(s, p, req, id);
    RightFits(s, p, orig, req, id);
    RightList(s, p, orig, req, id);
    Assemble(q, req.owner, req.kind, s.start, s.end);
    Narrow(orig, q.New(), req, s.start, s.end);
  }

  /** One lock of another kind sticks out on both sides: it is split in two. */
  function SplitPieces(s: Scan, p: Parts, req: Request, id: nat): Pieces
    requires s.todo != []
  {
    Pieces(p.pre, p.own, [s.todo[0]], s.todo[1..],
           [s.todo[0].(id := id + 1, end := s.start - 1)], Put(s, p, req, id), RightRemnant(s))
  }

  lemma SplitFits(s: Scan, p: Parts, orig: seq<FileLock>, req: Request, id: nat)
    requires Midway(s, p, orig, req) && SticksOut(s, req) && s.todo[0].start < s.start
    ensures p.left == [] && p.gone == [] && SplitPieces(s, p, req, id).Old() == orig
    ensures Fits(SplitPieces(s, p, req, id), req.owner, req.kind, s.start, s.end)
  {
    var q, fl := SplitPieces(s, p, req, id), s.todo[0];
    RestAfter(s, p, orig, req);
    NothingAbsorbed(s, p, orig, req);
    assert p.Old(s.todo) == p.pre + p.own + [fl] + s.todo[1..];
    forall m, b | m in q.mid && Covers(m, b) && !(s.start <= b <= s.end) ensures Held(q.left + q.right, req.owner, m.kind, b) {
      assert q.left[0] in q.left + q.right && q.right[0] in q.left + q.right;
      assert Covers(q.left[0], b) || Covers(q.right[0], b);
    }
    assert fl in q.mid;
  }

  lemma SplitList(s: Scan, p: Parts, orig: seq<FileLock>, req: Request, id: nat)
    requires Midway(s, p, orig, req) && SticksOut(s, req) && p.left == [] && p.gone == []
    ensures Finish(StopRight(s, req.kind).(left := Some(|s.done|)), req, id).locks == SplitPieces(s, p, req, id).New()
  {
    var q, t := SplitPieces(s, p, req, id), StopRight(s, req.kind).(left := Some(|s.done|));
    var u := TrimLeft(TrimRight(t.(done := t.done + [t.todo[0].(id := id + 1)])));
    assert u.done == p.pre + p.own + q.left;
    assert u.todo == q.right + q.post;
  }

  lemma EndSplit(s: Scan, p: Parts, orig: seq<FileLock>, req: Request, id: nat)
    requires Midway(s, p, orig, req) && SticksOut(s, req) && s.todo[0].start < s.start
    ensures Good(orig, Finish(StopRight(s, req.kind).(left := Some(|s.done|)), req, id).locks, req)
  {
    var q := SplitPieces(s, p, req, id);
    SplitFits(s, p, orig, req, id);
    SplitList(s, p, orig, req, id);
    Assemble(q, req.owner, req.kind, s.start, s.end);
    Narrow(orig, q.New(), req, s.start, s.end);
  }

  // ---------- the loop as a whole ----------

  lemma OwnGroupDone(s: Scan, p: Parts, orig: seq<FileLock>, req: Request)
    requires Midway(s, p, orig, req) && (s.todo == [] || s.todo[0].owner != req.owner)
    ensures OwnAfter(s.todo, req.owner, req.kind, s.end)
  {
    if s.todo != [] {
      var k := |orig| - |s.todo|;
      assert orig[k] == s.todo[0];
      assert orig[k-1].owner == req.owner by {
        var own := p.own + (p.left + p.gone);
        assert orig[k-1] == own[|own|-1];
      }
      forall i | 0 <= i < |s.todo| ensures s.todo[i].owner != req.owner {
        assert orig[k + i] == s.todo[i];
      }
    }
  }

  lemma NextIsAfter(s: Scan, p: Parts, orig: seq<FileLock>, req: Request)
    requires Midway(s, p, orig, req) && s.todo != [] && s.todo[0].owner == req.owner
    requires s.end < s.todo[0].start && (s.todo[0].kind == req.kind ==> s.end + 1 < s.todo[0].start)
    ensures OwnAfter(s.todo, req.owner, req.kind, s.end)
  {
    var k := |orig| - |s.todo|;
    assert orig[k] == s.todo[0];
    forall i | 0 < i < |s.todo| && s.todo[i].owner == req.owner ensures s.end + 1 < s.todo[i].start {
      assert orig[k + i] == s.todo[i];
    }
  }

  lemma {:induction false} LoopGood(s: Scan, p: Parts, orig: seq<FileLock>, req: Request, id: nat)
    requires Midway(s, p, orig, req) && !Wraps(orig, req)
    ensures Good(orig, Finish(ScanOwn(s, req.owner, req.kind), req, id).locks, req)
    decreases |s.todo|
  {
    if s.todo == [] || s.todo[0].owner != req.owner {
      OwnGroupDone(s, p, orig, req);
      EndClear(s, p, orig, req, id);
    } else {
      NextLock(s, p, orig, req);
      if s.todo[0].kind == req.kind {
        LoopGoodSame(s, p, orig, req, id);
      } else {
        LoopGoodOther(s, p, orig, req, id);
      }
    }
  }

  lemma {:induction false} LoopGoodSame(s: Scan, p: Parts, orig: seq<FileLock>, req: Request, id: nat)
    requires Midway(s, p, orig, req) && !Wraps(orig, req)
    requires s.todo != [] && s.todo[0].owner == req.owner && s.todo[0].kind == req.kind && req.kind != Unlock
    ensures Good(orig, Finish(ScanOwn(s, req.owner, req.kind), req, id).locks, req)
    decreases |s.todo|, 0
  {
    var fl := s.todo[0];
    if fl.end < s.start - 1 {
      var p' := StepPast(s, p, orig, req);
      LoopGood(s.Pass(fl), p', orig, req, id);
    } else {
      NoWrap(s, p, orig, req);
      if fl.start > Succ(s.end) {
        NextIsAfter(s, p, orig, req);
        EndClear(s, p, orig, req, id);
      } else if s.added {
        var p' := StepAbsorb(s, p, orig, req);
        LoopGood(VisitSame(s).s, p', orig, req, id);
      } else {
        var p' := StepMerge(s, p, orig, req);
        LoopGood(VisitSame(s).s, p', orig, req, id);
      }
    }
  }

  lemma {:induction false} LoopGoodOther(s: Scan, p: Parts, orig: seq<FileLock>, req: Request, id: nat)
    requires Midway(s, p, orig, req) && !Wraps(orig, req)
    requires s.todo != [] && s.todo[0].owner == req.owner && s.todo[0].kind != req.kind
    ensures Good(orig, Finish(ScanOwn(s, req.owner, req.kind), req, id).locks, req)
    decreases |s.todo|, 0
  {
    var fl := s.todo[0];
    if fl.end < s.start {
      var p' := StepPast(s, p, orig, req);
      LoopGood(s.Pass(fl), p', orig, req, id);
    } else if fl.start > s.end {
      NextIsAfter(s, p, orig, req);
      EndClear(s, p, orig, req, id);
    } else if fl.end > s.end {
      if fl.start < s.start { EndSplit(s, p, orig, req, id); } else { EndRight(s, p, orig, req, id); }
    } else {
      var p';
      if fl.start < s.start {
        p' := StepLeft(s, p, orig, req);
      } else if s.added || req.kind == Unlock {
        p' := StepDelete(s, p, orig, req);
      } else {
        p' := StepReplace(s, p, orig, req);
      }
      LoopGood(VisitOther(s, req.kind).s, p', orig, req, id);
    }
  }

  /** A granted request on a well-formed list: exactly the caller's bytes change. */
  lemma ApplyOverwrites(locks: seq<FileLock>, req: Request, id: nat)
    requires WellFormed(locks) && ValidRange(req.start, req.end) && !Wraps(locks, req)
    ensures Good(locks, Apply(locks, req, id).locks, req)
  {
    var s, n := Start(locks, req), Skip(locks, req.owner);
    var p := Parts(locks[..n], [], [], [], []);
    assert p.Done() == s.done && p.Old(s.todo) == locks;
    LoopGood(s, p, locks, req, id);
  }

  // ---------- the failing family ----------

  /** The caller reaches the end of the file and an own lock still lies ahead. */
  ghost predicate Doomed(s: Scan, req: Request) {
    && Aliased(s) && !s.right && s.end == OFFSET_MAX && s.start == req.start && req.kind != Unlock
    && s.added == s.at.Some?
    && (s.at.Some? ==> s.done[s.at.value].owner == req.owner && s.left != s.at)
    && Sane(s.todo) && s.todo != [] && s.todo[0].owner == req.owner
  }

  lemma {:induction false} WrapScan(s: Scan, req: Request, k: nat)
    requires Doomed(s, req) && k < |s.todo|
    requires forall i :: 0 <= i <= k ==> s.todo[i].owner == req.owner
    requires s.todo[k].kind == req.kind && s.todo[k].end >= req.start - 1
    ensures Doomed(ScanOwn(s, req.owner, req.kind), req)
    decreases |s.todo|
  {
    var fl := s.todo[0];
    if fl.kind != req.kind || fl.end < s.start - 1 {
      var t := Visit(s, req.kind).s;
      assert Visit(s, req.kind).Continue? && t.todo == s.todo[1..];
      WrapScan(t, req, k - 1);
    }
  }

  lemma DoomedList(s: Scan, req: Request, id: nat)
    requires Doomed(s, req)
    ensures !Spaced(Finish(s, req, id).locks)
  {
    var out := Finish(s, req, id).locks;
    var j := |out| - |s.todo|;
    assert out[j] == s.todo[0];
    var i := if s.added then s.at.value else j - 1;
    assert out[i].owner == req.owner && out[i].end == OFFSET_MAX;
    assert !Apart(out[i], out[j]);
  }

  lemma WrapsBreaksTheList(locks: seq<FileLock>, req: Request, id: nat)
    requires WellFormed(locks) && Wraps(locks, req)
    ensures !WellFormed(Apply(locks, req, id).locks)
  {
    hide ScanOwn, Finish, Spaced, Skip, Sane, Doomed, Grouped;
    var s, n := Start(locks, req), Skip(locks, req.owner);
    var m :| 0 <= m < |locks| && locks[m].owner == req.owner && locks[m].kind == req.kind && locks[m].end >= req.start - 1;
    OwnRun(locks, req, m);
    StartDoomed(locks, req);
    assert s.todo[m - n] == locks[m];
    WrapScan(s, req, m - n);
    DoomedList(ScanOwn(s, req.owner, req.kind), req, id);
  }

  lemma StartDoomed(locks: seq<FileLock>, req: Request)
    requires var s := Start(locks, req); s.todo != [] && s.todo[0].owner == req.owner && Sane(s.todo)
    requires req.end == OFFSET_MAX && req.kind != Unlock
    ensures Doomed(Start(locks, req), req)
  {
    hide Sane;
  }

  /** From the first own lock to another one there are only own locks. */
  lemma OwnRun(locks: seq<FileLock>, req: Request, m: nat)
    requires WellFormed(locks) && m < |locks| && locks[m].owner == req.owner
    ensures var s, n := Start(locks, req), Skip(locks, req.owner);
            && n <= m && |s.todo| == |locks| - n && Sane(s.todo)
            && forall i :: 0 <= i <= m - n ==> s.todo[i].owner == req.owner
  {
    var n := Skip(locks, req.owner);
    forall i | 0 <= i <= m - n ensures locks[n..][i].owner == req.owner {
      OwnBetween(locks, req.owner, n, n + i, m);
    }
  }

  lemma OwnBetween(locks: seq<FileLock>, o: Owner, n: nat, i: nat, m: nat)
    requires Grouped(locks) && n <= i <= m < |locks| && locks[n].owner == o == locks[m].owner
    ensures locks[i].owner == o
  {
  }

  /** posix_lock_file keeps the list well formed and turns the byte map into the
      old one with the caller's bytes overwritten, exactly when the request does
      not reach the end of the file next to an own lock of the same kind. */
  lemma ApplyIsOverwriteIff(locks: seq<FileLock>, req: Request, id: nat)
    requires WellFormed(locks) && ValidRange(req.start, req.end)
    ensures Good(locks, Apply(locks, req, id).locks, req) <==> !Wraps(locks, req)
  {
    if Wraps(locks, req) {
      WrapsBreaksTheList(locks, req, id);
    } else {
      ApplyOverwrites(locks, req, id);
    }
  }

  /** Locking a whole file for reading twice leaves two overlapping locks. */
  lemma LockingTwiceToTheEnd(o: Owner)
    ensures var req := Request(o, Read, 0, OFFSET_MAX);
            var once := Apply([], req, 0).locks;
            var twice := Apply(once, req, 2).locks;
            && once == [FileLock(0, o, Read, 0, OFFSET_MAX)]
            && twice == [FileLock(2, o, Read, 0, OFFSET_MAX), FileLock(0, o, Read, 0, OFFSET_MAX)]
            && !WellFormed(twice)
  {
    var req := Request(o, Read, 0, OFFSET_MAX);
    var once := Apply([], req, 0).locks;
    assert once == [FileLock(0, o, Read, 0, OFFSET_MAX)];
    var s := Start(once, req);
    assert Skip(once, o) == 0;
    assert ScanOwn(s, o, Read) == s;
    var twice := Apply(once, req, 2).locks;
    assert twice == [FileLock(2, o, Read, 0, OFFSET_MAX), FileLock(0, o, Read, 0, OFFSET_MAX)];
    assert twice[0].owner == twice[1].owner && !Apart(twice[0], twice[1]);
  }
}
