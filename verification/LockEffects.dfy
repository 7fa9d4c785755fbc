/** What applying a request does to ANY lock list, sorted or not: a lock whose
    waiters are not woken keeps its identity and never shrinks, and no byte is
    ever locked that was not locked before or asked for now. */
module LockEffects {
  import opened Options
  import opened RecordLocks

  predicate Covers(l: FileLock, b: int) {
    l.start <= b <= l.end
  }

  /** Owner `o` holds byte `b` with kind `k`. */
  ghost predicate Held(locks: seq<FileLock>, o: Owner, k: LockKind, b: int) {
    exists l :: l in locks && l.owner == o && l.kind == k && Covers(l, b)
  }

  ghost predicate Asked(req: Request, o: Owner, k: LockKind, b: int) {
    o == req.owner && k == req.kind && req.start <= b <= req.end
  }

  /** l' is l after changes that a waiter on l need not hear about. */
  predicate Grew(l: FileLock, l': FileLock) {
    l'.id == l.id && l'.owner == l.owner && l'.kind == l.kind && l'.start <= l.start && l.end <= l'.end
  }

  ghost predicate Kept(before: seq<FileLock>, after: seq<FileLock>, woken: set<nat>) {
    forall l :: l in before && l.id !in woken ==> exists l' :: l' in after && Grew(l, l')
  }

  ghost predicate Unique(locks: seq<FileLock>, bound: nat) {
    && (forall i, j :: 0 <= i < j < |locks| ==> locks[i].id != locks[j].id)
    && (forall i :: 0 <= i < |locks| ==> locks[i].id < bound)
  }

  /** The caller's own structure and the list entry it stands for agree. */
  predicate Aliased(s: Scan) {
    s.Valid() && (s.at.Some? ==> s.done[s.at.value].start == s.start && s.done[s.at.value].end == s.end)
  }

  function List(s: Scan): seq<FileLock> {
    s.done + s.todo
  }

  lemma KeptTrans(a: seq<FileLock>, b: seq<FileLock>, c: seq<FileLock>, w1: set<nat>, w2: set<nat>)
    requires Kept(a, b, w1) && Kept(b, c, w2) && w1 <= w2
    ensures Kept(a, c, w2)
  {
    forall l | l in a && l.id !in w2 ensures exists l' :: l' in c && Grew(l, l') {
      var m :| m in b && Grew(l, m);
      var n :| n in c && Grew(m, n);
      assert Grew(l, n);
    }
  }

  lemma KeptSame(a: seq<FileLock>, w: set<nat>)
    ensures Kept(a, a, w)
  {
    forall l | l in a ensures Grew(l, l) {}
  }

  lemma KeptConcat(a: seq<FileLock>, a': seq<FileLock>, b: seq<FileLock>, b': seq<FileLock>, w: set<nat>)
    requires Kept(a, a', w) && Kept(b, b', w)
    ensures Kept(a + b, a' + b', w)
  {
    forall l | l in a + b && l.id !in w ensures exists l' :: l' in a' + b' && Grew(l, l') {
      if l in a {
        var m :| m in a' && Grew(l, m);
        assert m in a' + b';
      } else {
        var m :| m in b' && Grew(l, m);
        assert m in a' + b';
      }
    }
  }

  /** Rewriting one entry in place is safe if it grows or its waiters are woken. */
  lemma KeptUpdate(a: seq<FileLock>, i: nat, l': FileLock, w: set<nat>)
    requires i < |a| && (a[i].id in w || Grew(a[i], l'))
    ensures Kept(a, a[i := l'], w)
  {
    forall l | l in a && l.id !in w ensures exists m :: m in a[i := l'] && Grew(l, m) {
      var j :| 0 <= j < |a| && a[j] == l;
      assert a[i := l'][j] in a[i := l'];
      assert Grew(l, a[i := l'][j]);
    }
  }

  /** One step of the loop: the passed part, then the current lock, then the rest. */
  lemma KeptStep(s: Scan, done: seq<FileLock>, put: seq<FileLock>, w: set<nat>)
    requires s.todo != [] && Kept(s.done, done, w) && Kept([s.todo[0]], put, w)
    ensures Kept(List(s), done + put + s.todo[1..], w)
  {
    KeptSame(s.todo[1..], w);
    KeptConcat(s.done, done, [s.todo[0]], put, w);
    KeptConcat(s.done + [s.todo[0]], done + put, s.todo[1..], s.todo[1..], w);
    assert List(s) == s.done + [s.todo[0]] + s.todo[1..];
  }

  lemma KeptRange(s: Scan, lo: int, hi: int, w: set<nat>)
    requires Aliased(s) && lo <= s.start && s.end <= hi
    ensures Aliased(s.SetRange(lo, hi)) && Kept(s.done, s.SetRange(lo, hi).done, w)
  {
    if s.at.Some? {
      KeptUpdate(s.done, s.at.value, s.done[s.at.value].(start := lo, end := hi), w);
    } else {
      KeptSame(s.done, w);
    }
  }

  lemma KeptVisitSame(s: Scan)
    requires Aliased(s) && !s.right && s.todo != []
    ensures Aliased(VisitSame(s).s) && !VisitSame(s).s.right
    ensures s.woken <= VisitSame(s).s.woken
    ensures Kept(List(s), List(VisitSame(s).s), VisitSame(s).s.woken)
  {
    var fl, t := s.todo[0], VisitSame(s).s;
    var lo, hi := Min(fl.start, s.start), Max(fl.end, s.end);
    KeptSame(s.done, t.woken);
    if VisitSame(s).Stop? {
      KeptSame(List(s), t.woken);
    } else if fl.end < s.start - 1 {
      KeptSame([fl], t.woken);
      KeptStep(s, s.done, [fl], t.woken);
    } else if s.added {
      KeptRange(s, lo, hi, t.woken);
      KeptStep(s, t.done, [], t.woken);
      assert List(t) == t.done + [] + s.todo[1..];
    } else {
      var fl' := fl.(start := lo, end := hi);
      assert Grew(fl, fl') && fl' in [fl'];
      KeptStep(s, s.done, [fl'], t.woken);
    }
  }

  lemma KeptVisitOther(s: Scan, kind: LockKind)
    requires Aliased(s) && !s.right && s.todo != []
    ensures Aliased(VisitOther(s, kind).s)
    ensures VisitOther(s, kind).Continue? ==> !VisitOther(s, kind).s.right
    ensures s.woken <= VisitOther(s, kind).s.woken
    ensures Kept(List(s), List(VisitOther(s, kind).s), VisitOther(s, kind).s.woken)
  {
    var fl, t := s.todo[0], VisitOther(s, kind).s;
    if VisitOther(s, kind).Stop? {
      KeptSame(List(s), t.woken);
    } else if fl.end < s.start || fl.start < s.start {
      KeptPassed(s, t, fl);
    } else if s.added || kind == Unlock {
      KeptDropped(s, t);
    } else {
      KeptPassed(s, t, fl.(start := s.start, end := s.end, kind := kind));
    }
  }

  /** The current lock is passed, perhaps rewritten with its waiters woken. */
  lemma KeptPassed(s: Scan, t: Scan, fl: FileLock)
    requires s.todo != [] && t.done == s.done + [fl] && t.todo == s.todo[1..]
    requires fl == s.todo[0] || s.todo[0].id in t.woken
    ensures Kept(List(s), List(t), t.woken)
  {
    KeptSame(s.done, t.woken);
    if fl == s.todo[0] { KeptSame([fl], t.woken); }
    KeptStep(s, s.done, [fl], t.woken);
  }

  /** The current lock is deleted and its waiters are woken. */
  lemma KeptDropped(s: Scan, t: Scan)
    requires s.todo != [] && t.done == s.done && t.todo == s.todo[1..] && s.todo[0].id in t.woken
    ensures Kept(List(s), List(t), t.woken)
  {
    KeptSame(s.done, t.woken);
    KeptStep(s, s.done, [], t.woken);
    assert s.done + [] == s.done;
  }

  lemma KeptVisit(s: Scan, kind: LockKind)
    requires Aliased(s) && !s.right && s.todo != []
    ensures Aliased(Visit(s, kind).s)
    ensures Visit(s, kind).Continue? ==> !Visit(s, kind).s.right
    ensures s.woken <= Visit(s, kind).s.woken
    ensures Kept(List(s), List(Visit(s, kind).s), Visit(s, kind).s.woken)
  {
    if s.todo[0].kind == kind {
      KeptVisitSame(s);
    } else {
      KeptVisitOther(s, kind);
    }
  }

  lemma {:induction false} KeptScan(s: Scan, owner: Owner, kind: LockKind)
    requires Aliased(s) && !s.right
    ensures Aliased(ScanOwn(s, owner, kind))
    ensures s.woken <= ScanOwn(s, owner, kind).woken
    ensures Kept(List(s), List(ScanOwn(s, owner, kind)), ScanOwn(s, owner, kind).woken)
    decreases |s.todo|
  {
    if s.todo == [] || s.todo[0].owner != owner {
      KeptSame(List(s), s.woken);
    } else {
      KeptVisit(s, kind);
      var v := Visit(s, kind);
      if v.Continue? {
        KeptScan(v.s, owner, kind);
        KeptTrans(List(s), List(v.s), List(ScanOwn(s, owner, kind)), v.s.woken, ScanOwn(s, owner, kind).woken);
      }
    }
  }

  lemma KeptTrims(s: Scan)
    requires s.Valid() && (s.left.Some? ==> s.left.value < |s.done|)
    ensures var t := TrimLeft(TrimRight(s)); s.woken <= t.woken && Kept(s.done, t.done, t.woken) && Kept(s.todo, t.todo, t.woken)
  {
    var t := TrimLeft(TrimRight(s));
    KeptSame(s.done, t.woken);
    KeptSame(s.todo, t.woken);
    if s.right {
      KeptUpdate(s.todo, 0, t.todo[0], t.woken);
    }
    if s.left.Some? {
      KeptUpdate(s.done, s.left.value, t.done[s.left.value], t.woken);
    }
  }

  /** Room for new locks between the two halves. */
  lemma KeptAround(a: seq<FileLock>, more: seq<FileLock>, b: seq<FileLock>, w: set<nat>)
    ensures Kept(a + b, a + more + b, w)
  {
    forall l | l in a + b ensures l in a + more + b && Grew(l, l) {
      if l in a { assert l in a + more; }
    }
  }

  lemma KeptFinish(s: Scan, req: Request, id: nat)
    requires s.Valid()
    ensures Kept(List(s), Finish(s, req, id).locks, Finish(s, req, id).woken)
    ensures s.woken <= Finish(s, req, id).woken
  {
    var out := Finish(s, req, id);
    if !s.added && req.kind == Unlock {
      KeptSame(List(s), out.woken);
    } else {
      var inserted := if s.added then [] else [FileLock(id, req.owner, req.kind, s.start, s.end)];
      var copy := if s.left == Some(|s.done|) then [s.todo[0].(id := id + 1)] else [];
      var s1 := s.(done := s.done + copy);
      assert copy == [] ==> s1 == s;
      var t := TrimLeft(TrimRight(s1));
      KeptTrims(s1);
      KeptAround(s.done, copy, s.todo, out.woken);
      KeptConcat(s1.done, t.done, s1.todo, t.todo, out.woken);
      KeptTrans(List(s), List(s1), List(t), out.woken, out.woken);
      KeptAround(t.done, inserted, t.todo, out.woken);
      KeptTrans(List(s), List(t), out.locks, out.woken, out.woken);
    }
  }

  /** Every lock that has waiters left afterwards is still in the list, with the
      same owner and kind, and covers at least what it covered. */
  lemma UnwokenLocksOnlyGrow(locks: seq<FileLock>, req: Request, id: nat)
    ensures Kept(locks, Apply(locks, req, id).locks, Apply(locks, req, id).woken)
  {
    var s := Start(locks, req);
    assert List(s) == locks;
    KeptScan(s, req.owner, req.kind);
    var t := ScanOwn(s, req.owner, req.kind);
    KeptFinish(t, req, id);
    KeptTrans(locks, List(t), Apply(locks, req, id).locks, t.woken, Apply(locks, req, id).woken);
  }

  predicate SameIds(a: seq<FileLock>, b: seq<FileLock>) {
    |a| == |b| && forall i :: 0 <= i < |b| ==> b[i].id == a[i].id
  }

  /** b has the identities of a without the one at position n. */
  predicate DropsId(a: seq<FileLock>, b: seq<FileLock>, n: nat) {
    n < |a| == |b| + 1 && forall i :: 0 <= i < |b| ==> b[i].id == a[if i < n then i else i + 1].id
  }

  lemma UniqueSame(a: seq<FileLock>, b: seq<FileLock>, bound: nat)
    requires Unique(a, bound) && SameIds(a, b)
    ensures Unique(b, bound)
  {
  }

  lemma UniqueDrops(a: seq<FileLock>, b: seq<FileLock>, n: nat, bound: nat)
    requires Unique(a, bound) && DropsId(a, b, n)
    ensures Unique(b, bound)
  {
  }

  lemma PassIds(s: Scan, fl: FileLock)
    requires s.todo != [] && fl.id == s.todo[0].id
    ensures SameIds(List(s), s.done + [fl] + s.todo[1..])
  {
  }

  lemma DeleteIds(s: Scan, done: seq<FileLock>)
    requires s.todo != [] && SameIds(s.done, done)
    ensures DropsId(List(s), done + s.todo[1..], |done|)
  {
  }

  lemma RangeIds(s: Scan, lo: int, hi: int)
    requires s.Valid()
    ensures SameIds(s.done, s.SetRange(lo, hi).done) && s.SetRange(lo, hi).todo == s.todo
  {
  }

  lemma VisitSameIds(s: Scan)
    requires s.Valid() && !s.right && s.todo != []
    ensures var t := VisitSame(s).s; SameIds(List(s), List(t)) || DropsId(List(s), List(t), |s.done|)
  {
    hide SameIds, DropsId;
    var fl := s.todo[0];
    var lo, hi := Min(fl.start, s.start), Max(fl.end, s.end);
    PassIds(s, fl);
    PassIds(s, fl.(start := lo, end := hi));
    RangeIds(s, lo, hi);
    DeleteIds(s, s.SetRange(lo, hi).done);
    SameIdsSelf(List(s));
  }

  lemma SameIdsSelf(a: seq<FileLock>)
    ensures SameIds(a, a)
  {
  }

  lemma VisitOtherIds(s: Scan, kind: LockKind)
    requires s.Valid() && !s.right && s.todo != []
    ensures var t := VisitOther(s, kind).s; SameIds(List(s), List(t)) || DropsId(List(s), List(t), |s.done|)
  {
    hide SameIds, DropsId;
    var fl := s.todo[0];
    PassIds(s, fl);
    PassIds(s, fl.(start := s.start, end := s.end, kind := kind));
    SameIdsSelf(s.done);
    DeleteIds(s, s.done);
    SameIdsSelf(List(s));
  }

  lemma UniqueVisit(s: Scan, kind: LockKind, bound: nat)
    requires s.Valid() && !s.right && s.todo != [] && Unique(List(s), bound)
    ensures Unique(List(Visit(s, kind).s), bound)
  {
    hide Unique, SameIds, DropsId, VisitSame, VisitOther, List;
    if s.todo[0].kind == kind { VisitSameIds(s); } else { VisitOtherIds(s, kind); }
    var a, b := List(s), List(Visit(s, kind).s);
    if SameIds(a, b) { UniqueSame(a, b, bound); } else { UniqueDrops(a, b, |s.done|, bound); }
  }

  lemma {:induction false} UniqueScan(s: Scan, owner: Owner, kind: LockKind, bound: nat)
    requires s.Valid() && !s.right && Unique(List(s), bound)
    ensures Unique(List(ScanOwn(s, owner, kind)), bound)
    decreases |s.todo|
  {
    hide Unique, Visit, List;
    if s.todo != [] && s.todo[0].owner == owner {
      VisitValid(s, kind);
      UniqueVisit(s, kind, bound);
      if Visit(s, kind).Continue? { UniqueScan(Visit(s, kind).s, owner, kind, bound); }
    }
  }

  lemma FinishIds(s: Scan, req: Request, id: nat, i: nat)
    requires s.Valid() && (s.added || req.kind != Unlock) && i < |Finish(s, req, id).locks|
    ensures var c := if s.left == Some(|s.done|) then 1 else 0;
            var m := if s.added then 0 else 1;
            var j := if i < |s.done| + c then i else i - c - m;
            |Finish(s, req, id).locks| == |List(s)| + c + m &&
            Finish(s, req, id).locks[i].id ==
              if i < |s.done| then List(s)[i].id
              else if i < |s.done| + c then id + 1
              else if i < |s.done| + c + m then id
              else List(s)[i - c - m].id
  {
  }

  lemma UniqueFinish(s: Scan, req: Request, id: nat)
    requires s.Valid() && Unique(List(s), id)
    ensures Unique(Finish(s, req, id).locks, id + 2)
  {
    if s.added || req.kind != Unlock {
      var out := Finish(s, req, id).locks;
      forall i, j | 0 <= i < j < |out| ensures out[i].id != out[j].id && out[i].id < id + 2 {
        FinishIds(s, req, id, i);
        FinishIds(s, req, id, j);
      }
      forall i | 0 <= i < |out| ensures out[i].id < id + 2 {
        FinishIds(s, req, id, i);
      }
    }
  }

  lemma UniqueApply(locks: seq<FileLock>, req: Request, id: nat)
    requires Unique(locks, id)
    ensures Unique(Apply(locks, req, id).locks, id + 2)
  {
    hide Unique, Visit, Finish;
    var s := Start(locks, req);
    assert List(s) == locks;
    UniqueScan(s, req.owner, req.kind, id);
    UniqueFinish(ScanOwn(s, req.owner, req.kind), req, id);
  }

  ghost predicate Allowed(orig: seq<FileLock>, req: Request, o: Owner, k: LockKind, b: int) {
    Held(orig, o, k, b) || Asked(req, o, k, b)
  }

  ghost predicate SoundLock(orig: seq<FileLock>, req: Request, l: FileLock) {
    forall b :: Covers(l, b) ==> Allowed(orig, req, l.owner, l.kind, b)
  }

  ghost predicate SoundAll(orig: seq<FileLock>, req: Request, locks: seq<FileLock>) {
    forall i :: 0 <= i < |locks| ==> SoundLock(orig, req, locks[i])
  }

  /** The caller's current range as a lock of its own. */
  function Caller(s: Scan, req: Request): FileLock {
    FileLock(0, req.owner, req.kind, s.start, s.end)
  }

  ghost predicate Sound(orig: seq<FileLock>, req: Request, s: Scan) {
    s.start <= s.end && SoundAll(orig, req, s.done) && SoundAll(orig, req, s.todo) && SoundLock(orig, req, Caller(s, req))
    && (s.at.Some? ==> s.at.value < |s.done| && s.done[s.at.value].owner == req.owner && s.done[s.at.value].kind == req.kind)
  }

  /** Two touching sound ranges of one owner and kind have a sound hull. */
  lemma SoundHull(orig: seq<FileLock>, req: Request, x: FileLock, s: Scan, id: nat)
    requires SoundLock(orig, req, x) && SoundLock(orig, req, Caller(s, req)) && s.start <= s.end
    requires x.owner == req.owner && x.kind == req.kind && x.end >= s.start - 1 && x.start <= s.end + 1
    ensures SoundLock(orig, req, FileLock(id, req.owner, req.kind, Min(x.start, s.start), Max(x.end, s.end)))
  {
    var h := FileLock(id, req.owner, req.kind, Min(x.start, s.start), Max(x.end, s.end));
    forall b | Covers(h, b) ensures Allowed(orig, req, h.owner, h.kind, b) {
      assert Covers(x, b) || Covers(Caller(s, req), b);
    }
  }

  lemma SoundRenamed(orig: seq<FileLock>, req: Request, x: FileLock, y: FileLock)
    requires SoundLock(orig, req, x) && y.owner == x.owner && y.kind == x.kind && x.start <= y.start && y.end <= x.end
    ensures SoundLock(orig, req, y)
  {
    forall b | Covers(y, b) ensures Allowed(orig, req, y.owner, y.kind, b) {
      assert Covers(x, b);
    }
  }

  lemma SoundVisitSame(orig: seq<FileLock>, req: Request, s: Scan)
    requires s.Valid() && !s.right && s.todo != [] && s.todo[0].owner == req.owner && s.todo[0].kind == req.kind
    requires Sound(orig, req, s)
    ensures Sound(orig, req, VisitSame(s).s)
  {
    var fl, t := s.todo[0], VisitSame(s).s;
    if VisitSame(s).Continue? && fl.end >= s.start - 1 {
      var lo, hi := Min(fl.start, s.start), Max(fl.end, s.end);
      SoundHull(orig, req, fl, s, 0);
      SoundHull(orig, req, fl, s, fl.id);
      if s.added && s.at.Some? {
        SoundHull(orig, req, fl, s, s.done[s.at.value].id);
      }
    }
  }

  lemma SoundVisitOther(orig: seq<FileLock>, req: Request, s: Scan)
    requires s.Valid() && !s.right && s.todo != [] && s.todo[0].owner == req.owner
    requires Sound(orig, req, s)
    ensures Sound(orig, req, VisitOther(s, req.kind).s)
  {
    var fl, t := s.todo[0], VisitOther(s, req.kind).s;
    assert t.start == s.start && t.end == s.end;
    if |t.done| > |s.done| && t.done[|s.done|] != fl {
      SoundRenamed(orig, req, Caller(s, req), t.done[|s.done|]);
    }
  }

  lemma {:induction false} SoundScan(orig: seq<FileLock>, req: Request, s: Scan)
    requires s.Valid() && !s.right && Sound(orig, req, s)
    ensures Sound(orig, req, ScanOwn(s, req.owner, req.kind))
    decreases |s.todo|
  {
    if s.todo != [] && s.todo[0].owner == req.owner {
      if s.todo[0].kind == req.kind { SoundVisitSame(orig, req, s); } else { SoundVisitOther(orig, req, s); }
      if Visit(s, req.kind).Continue? { SoundScan(orig, req, Visit(s, req.kind).s); }
    }
  }

  /** Where `left` and `right` stick out: trimming them can only take bytes away. */
  predicate Overhangs(s: Scan) {
    && s.Valid()
    && (s.right ==> s.todo[0].start <= s.end)
    && (s.left.Some? ==>
          s.left != s.at && s.start - 1 <= (if s.right && s.left.value == |s.done| then s.todo[0] else s.done[s.left.value]).end)
  }

  lemma OverhangsSame(s: Scan)
    requires Overhangs(s) && !s.right && s.todo != []
    ensures Overhangs(VisitSame(s).s)
  {
  }

  lemma OverhangsOther(s: Scan, kind: LockKind)
    requires Overhangs(s) && !s.right && s.todo != []
    ensures Overhangs(VisitOther(s, kind).s)
  {
  }

  lemma {:induction false} OverhangsScan(s: Scan, owner: Owner, kind: LockKind)
    requires Overhangs(s) && !s.right
    ensures Overhangs(ScanOwn(s, owner, kind))
    decreases |s.todo|
  {
    if s.todo != [] && s.todo[0].owner == owner {
      if s.todo[0].kind == kind { OverhangsSame(s); } else { OverhangsOther(s, kind); }
      if Visit(s, kind).Continue? { OverhangsScan(Visit(s, kind).s, owner, kind); }
    }
  }

  lemma SoundTrims(orig: seq<FileLock>, req: Request, s: Scan)
    requires Overhangs(s) && Sound(orig, req, s) && (s.left.Some? ==> s.left.value < |s.done|)
    ensures var t := TrimLeft(TrimRight(s)); SoundAll(orig, req, t.done) && SoundAll(orig, req, t.todo)
  {
    var t := TrimLeft(TrimRight(s));
    if s.right {
      SoundRenamed(orig, req, s.todo[0], t.todo[0]);
    }
    if s.left.Some? {
      SoundRenamed(orig, req, s.done[s.left.value], t.done[s.left.value]);
    }
  }

  lemma SoundFinish(orig: seq<FileLock>, req: Request, s: Scan, id: nat)
    requires Overhangs(s) && Sound(orig, req, s)
    ensures SoundAll(orig, req, Finish(s, req, id).locks)
  {
    if s.added || req.kind != Unlock {
      var split := s.left == Some(|s.done|);
      var copy := if split then [s.todo[0].(id := id + 1)] else [];
      var s1 := s.(done := s.done + copy);
      assert !split ==> s1 == s;
      if split {
        SoundRenamed(orig, req, s.todo[0], copy[0]);
      }
      SoundTrims(orig, req, s1);
      SoundRenamed(orig, req, Caller(s, req), FileLock(id, req.owner, req.kind, s.start, s.end));
    }
  }

  /** Nothing is locked afterwards that was not locked before or asked for. */
  lemma NoStrayBytes(locks: seq<FileLock>, req: Request, id: nat, o: Owner, k: LockKind, b: int)
    requires req.start <= req.end
    requires Held(Apply(locks, req, id).locks, o, k, b)
    ensures Held(locks, o, k, b) || Asked(req, o, k, b)
  {
    var s := Start(locks, req);
    forall i | 0 <= i < |locks| ensures SoundLock(locks, req, locks[i]) {}
    SoundScan(locks, req, s);
    OverhangsScan(s, req.owner, req.kind);
    SoundFinish(locks, req, ScanOwn(s, req.owner, req.kind), id);
    var out := Apply(locks, req, id).locks;
    var l :| l in out && l.owner == o && l.kind == k && Covers(l, b);
    var i :| 0 <= i < |out| && out[i] == l;
    assert SoundLock(locks, req, out[i]);
  }

  ghost predicate NoUnlocks(locks: seq<FileLock>) {
    forall i :: 0 <= i < |locks| ==> locks[i].kind != Unlock
  }

  lemma NoUnlocksVisitSame(s: Scan)
    requires s.Valid() && !s.right && s.todo != [] && NoUnlocks(s.done) && NoUnlocks(s.todo)
    ensures var t := VisitSame(s).s; NoUnlocks(t.done) && NoUnlocks(t.todo)
  {
  }

  lemma NoUnlocksVisitOther(s: Scan, kind: LockKind)
    requires s.Valid() && !s.right && s.todo != [] && NoUnlocks(s.done) && NoUnlocks(s.todo)
    ensures var t := VisitOther(s, kind).s; NoUnlocks(t.done) && NoUnlocks(t.todo)
  {
  }

  lemma {:induction false} NoUnlocksScan(s: Scan, owner: Owner, kind: LockKind)
    requires s.Valid() && !s.right && NoUnlocks(s.done) && NoUnlocks(s.todo)
    ensures NoUnlocks(ScanOwn(s, owner, kind).done) && NoUnlocks(ScanOwn(s, owner, kind).todo)
    decreases |s.todo|
  {
    hide NoUnlocks, VisitSame, VisitOther;
    if s.todo != [] && s.todo[0].owner == owner {
      VisitValid(s, kind);
      if s.todo[0].kind == kind { NoUnlocksVisitSame(s); } else { NoUnlocksVisitOther(s, kind); }
      if Visit(s, kind).Continue? { NoUnlocksScan(Visit(s, kind).s, owner, kind); }
    }
  }

  lemma NoUnlocksFinish(s: Scan, req: Request, id: nat)
    requires s.Valid() && NoUnlocks(s.done) && NoUnlocks(s.todo)
    ensures NoUnlocks(Finish(s, req, id).locks)
  {
  }

  /** F_UNLCK is never the type of a lock in the list. */
  lemma NoUnlocksApply(locks: seq<FileLock>, req: Request, id: nat)
    requires NoUnlocks(locks)
    ensures NoUnlocks(Apply(locks, req, id).locks)
  {
    hide Visit, Finish;
    NoUnlocksScan(Start(locks, req), req.owner, req.kind);
    NoUnlocksFinish(ScanOwn(Start(locks, req), req.owner, req.kind), req, id);
  }
}
