/** Nobody is woken for nothing: a lock whose waiters are woken is gone, has another kind, or
    no longer covers what it covered. */
module LockWakes {
  import opened Options
  import opened Seqs
  import opened RecordLocks
  import opened LockEffects
  import opened LockSystem
  import opened LockRuns

  /** Of a lock whose waiters were woken in the loop nothing is left but perhaps its structure,
      with the new kind. */
  ghost predicate Noted(orig: seq<FileLock>, locks: seq<FileLock>, woken: set<nat>, kind: LockKind) {
    forall l, x :: l in orig && x in locks && l.id in woken && x.id == l.id ==> l.kind != kind && x.kind == kind
  }

  lemma NotedSame(orig: seq<FileLock>, a: seq<FileLock>, b: seq<FileLock>, w: set<nat>, kind: LockKind)
    requires Noted(orig, a, w, kind) && |a| == |b|
    requires forall i :: 0 <= i < |b| ==> b[i].id == a[i].id && b[i].kind == a[i].kind
    ensures Noted(orig, b, w, kind)
  {
    forall l, x | l in orig && x in b && l.id in w && x.id == l.id ensures l.kind != kind && x.kind == kind {
      var i :| 0 <= i < |b| && b[i] == x;
      assert a[i] in a;
    }
  }

  lemma NotedDrop(orig: seq<FileLock>, a: seq<FileLock>, n: nat, w: set<nat>, kind: LockKind, bound: nat)
    requires Noted(orig, a, w, kind) && n < |a| && Unique(a, bound)
    ensures Noted(orig, a[..n] + a[n + 1..], w + {a[n].id}, kind)
  {
    var b := a[..n] + a[n + 1..];
    forall l, x | l in orig && x in b && l.id in w + {a[n].id} && x.id == l.id ensures l.kind != kind && x.kind == kind {
      var i :| 0 <= i < |b| && b[i] == x;
      assert x == a[if i < n then i else i + 1];
      assert x in a;
    }
  }

  lemma NotedReplace(orig: seq<FileLock>, a: seq<FileLock>, n: nat, x': FileLock, w: set<nat>, kind: LockKind, bound: nat)
    requires Noted(orig, a, w, kind) && n < |a| && Unique(a, bound) && Unique(orig, bound)
    requires a[n] in orig && a[n].kind != kind && x'.id == a[n].id && x'.kind == kind
    ensures Noted(orig, a[n := x'], w + {a[n].id}, kind)
  {
    var b := a[n := x'];
    forall l, x | l in orig && x in b && l.id in w + {a[n].id} && x.id == l.id ensures l.kind != kind && x.kind == kind {
      var i :| 0 <= i < |b| && b[i] == x;
      if i == n {
        OneOf(orig, bound, l, a[n]);
      } else {
        assert x == a[i] && x in a;
      }
    }
  }

  lemma OneOf(locks: seq<FileLock>, bound: nat, a: FileLock, b: FileLock)
    requires Unique(locks, bound) && a in locks && b in locks && a.id == b.id
    ensures a == b
  {
    var i :| 0 <= i < |locks| && locks[i] == a;
    var j :| 0 <= j < |locks| && locks[j] == b;
  }

  /** What the loop still has to trim is as it was, and sticks out. */
  ghost predicate Untouched(orig: seq<FileLock>, s: Scan, kind: LockKind) {
    && s.Valid()
    && (forall x :: x in s.todo ==> x in orig)
    && (s.right ==> s.todo[0].start <= s.end < s.todo[0].end)
    && (s.at.Some? ==> s.done[s.at.value].kind == kind)
    && (s.left.Some? ==> var x := if s.left.value < |s.done| then s.done[s.left.value] else s.todo[0];
          x in orig && x.kind != kind && x.end >= s.start)
  }

  lemma UntouchedSame(orig: seq<FileLock>, s: Scan, kind: LockKind)
    requires Untouched(orig, s, kind) && !s.right && s.todo != [] && s.todo[0].kind == kind
    ensures Untouched(orig, VisitSame(s).s, kind)
  {
  }

  lemma UntouchedOther(orig: seq<FileLock>, s: Scan, kind: LockKind)
    requires Untouched(orig, s, kind) && !s.right && s.todo != [] && s.todo[0].kind != kind
    ensures Untouched(orig, VisitOther(s, kind).s, kind)
  {
    assert s.todo[0] in orig;
  }

  lemma NotedVisitSame(orig: seq<FileLock>, s: Scan, kind: LockKind, bound: nat)
    requires s.Valid() && !s.right && s.todo != [] && Unique(List(s), bound) && Noted(orig, List(s), s.woken, kind)
    ensures Noted(orig, List(VisitSame(s).s), VisitSame(s).s.woken, kind)
  {
    hide Noted, Unique;
    var fl, t := s.todo[0], VisitSame(s).s;
    var lo, hi := Min(fl.start, s.start), Max(fl.end, s.end);
    if VisitSame(s).Continue? && fl.end >= s.start - 1 && s.added {
      var a, n := List(s), |s.done|;
      assert a[n] == fl && a[..n] + a[n + 1..] == s.done + s.todo[1..];
      NotedDrop(orig, a, n, s.woken, kind, bound);
      NotedSame(orig, s.done + s.todo[1..], List(t), t.woken, kind);
    } else {
      NotedSame(orig, List(s), List(t), s.woken, kind);
    }
  }

  /** The list around the current lock. */
  lemma Around(s: Scan)
    requires s.todo != []
    ensures var a, n := List(s), |s.done|;
            && a[n] == s.todo[0] && a[..n] + a[n + 1..] == s.done + s.todo[1..]
            && s.done + [s.todo[0]] + s.todo[1..] == a
            && forall x :: a[n := x] == s.done + [x] + s.todo[1..]
  {
  }

  lemma NotedVisitOther(orig: seq<FileLock>, s: Scan, kind: LockKind, bound: nat)
    requires s.Valid() && !s.right && s.todo != [] && Unique(List(s), bound) && Unique(orig, bound)
    requires Noted(orig, List(s), s.woken, kind) && s.todo[0] in orig && s.todo[0].kind != kind
    ensures Noted(orig, List(VisitOther(s, kind).s), VisitOther(s, kind).s.woken, kind)
  {
    hide Noted, Unique;
    var fl, t, a, n := s.todo[0], VisitOther(s, kind).s, List(s), |s.done|;
    Around(s);
    if VisitOther(s, kind).Stop? || fl.end < s.start || fl.start < s.start {
      assert List(t) == a;
    } else if s.added || kind == Unlock {
      NotedDrop(orig, a, n, s.woken, kind, bound);
    } else {
      var x' := fl.(start := s.start, end := s.end, kind := kind);
      NotedReplace(orig, a, n, x', s.woken, kind, bound);
    }
  }

  lemma {:induction false} NotedScan(orig: seq<FileLock>, s: Scan, owner: Owner, kind: LockKind, bound: nat)
    requires Untouched(orig, s, kind) && !s.right && Unique(List(s), bound) && Unique(orig, bound)
    requires Noted(orig, List(s), s.woken, kind)
    ensures var t := ScanOwn(s, owner, kind);
            Untouched(orig, t, kind) && Noted(orig, List(t), t.woken, kind) && Unique(List(t), bound)
    decreases |s.todo|
  {
    hide Noted, Unique, VisitSame, VisitOther, List;
    UniqueScan(s, owner, kind, bound);
    if s.todo != [] && s.todo[0].owner == owner {
      VisitValid(s, kind);
      UniqueVisit(s, kind, bound);
      if s.todo[0].kind == kind {
        UntouchedSame(orig, s, kind);
        NotedVisitSame(orig, s, kind, bound);
      } else {
        UntouchedOther(orig, s, kind);
        NotedVisitOther(orig, s, kind, bound);
      }
      if Visit(s, kind).Continue? { NotedScan(orig, Visit(s, kind).s, owner, kind, bound); }
    }
  }

  /** No lock with woken waiters is left with all that it had. */
  ghost predicate NoneGrew(orig: seq<FileLock>, locks: seq<FileLock>, woken: set<nat>) {
    forall l, x :: l in orig && x in locks && l.id in woken ==> !Grew(l, x)
  }

  lemma NotedNoneGrew(orig: seq<FileLock>, locks: seq<FileLock>, woken: set<nat>, kind: LockKind)
    requires Noted(orig, locks, woken, kind)
    ensures NoneGrew(orig, locks, woken)
  {
  }

  /** One entry is cut, and its waiters are woken. */
  lemma NoneGrewCut(orig: seq<FileLock>, a: seq<FileLock>, n: nat, x': FileLock, w: set<nat>, bound: nat)
    requires NoneGrew(orig, a, w) && n < |a| && Unique(a, bound) && Unique(orig, bound)
    requires a[n] in orig && x'.id == a[n].id && x'.kind == a[n].kind && a[n].start <= x'.start && x'.end <= a[n].end
    requires !Grew(a[n], x')
    ensures NoneGrew(orig, a[n := x'], w + {a[n].id})
  {
    var b := a[n := x'];
    forall l, x | l in orig && x in b && l.id in w + {a[n].id} ensures !Grew(l, x) {
      if x.id == l.id {
        var i :| 0 <= i < |b| && b[i] == x;
        if i == n { OneOf(orig, bound, l, a[n]); } else { assert x == a[i] && x in a; }
      }
    }
  }

  /** New structures are not those of old locks. */
  lemma NoneGrewMore(orig: seq<FileLock>, a: seq<FileLock>, b: seq<FileLock>, w: set<nat>, w': set<nat>, bound: nat)
    requires NoneGrew(orig, a, w) && Unique(orig, bound)
    requires forall x :: x in b ==> x in a || x.id >= bound
    requires forall i :: i in w' ==> i in w || i >= bound
    ensures NoneGrew(orig, b, w')
  {
    forall l, x | l in orig && x in b && l.id in w' ensures !Grew(l, x) {
      var i :| 0 <= i < |orig| && orig[i] == l;
    }
  }

  lemma TrimsNoneGrew(orig: seq<FileLock>, s: Scan, kind: LockKind, bound: nat, top: nat)
    requires Untouched(orig, s, kind) && Unique(List(s), top) && bound <= top && Unique(orig, bound)
    requires NoneGrew(orig, List(s), s.woken) && (s.left.Some? ==> s.left.value < |s.done|)
    ensures var t := TrimLeft(TrimRight(s)); NoneGrew(orig, List(t), t.woken)
  {
    hide NoneGrew, Unique;
    UniqueMore(orig, bound, top);
    var s1 := TrimRight(s);
    if s.right {
      var a, n := List(s), |s.done|;
      assert a[n] == s.todo[0] && a[n := s1.todo[0]] == List(s1);
      NoneGrewCut(orig, a, n, s1.todo[0], s.woken, top);
      UniqueSame(a, List(s1), top);
    }
    if s.left.Some? {
      var a, n := List(s1), s.left.value;
      var t := TrimLeft(s1);
      assert a[n] == s.done[n] && a[n := t.done[n]] == List(t);
      NoneGrewCut(orig, a, n, t.done[n], s1.woken, top);
    }
  }

  lemma UniqueMore(a: seq<FileLock>, bound: nat, top: nat)
    requires Unique(a, bound) && bound <= top
    ensures Unique(a, top)
  {
  }

  lemma FinishNoneGrew(orig: seq<FileLock>, s: Scan, req: Request, id: nat)
    requires Untouched(orig, s, req.kind) && Unique(List(s), id) && Unique(orig, id) && Noted(orig, List(s), s.woken, req.kind)
    ensures var out := Finish(s, req, id); NoneGrew(orig, out.locks, out.woken)
  {
    hide Noted, NoneGrew, Unique;
    NotedNoneGrew(orig, List(s), s.woken, req.kind);
    var out := Finish(s, req, id);
    if s.added || req.kind != Unlock {
      var s' := if s.left == Some(|s.done|) then s.(left := None) else s;
      TrimsNoneGrew(orig, s', req.kind, id, id);
      var t := TrimLeft(TrimRight(s'));
      FinishEntries(s, req, id);
      NoneGrewMore(orig, List(t), out.locks, t.woken, out.woken, id);
    }
  }

  /** What Finish adds to the trimmed list are new structures. */
  lemma FinishEntries(s: Scan, req: Request, id: nat)
    requires s.Valid() && (s.added || req.kind != Unlock)
    ensures var out, t := Finish(s, req, id), TrimLeft(TrimRight(if s.left == Some(|s.done|) then s.(left := None) else s));
            && (forall x :: x in out.locks ==> x in List(t) || x.id >= id)
            && (forall i :: i in out.woken ==> i in t.woken || i >= id)
  {
    var out := Finish(s, req, id);
    if s.left == Some(|s.done|) {
      var t := TrimRight(s.(left := None));
      var copy := s.todo[0].(id := id + 1, end := s.start - 1);
      var inserted := if s.added then [] else [FileLock(id, req.owner, req.kind, s.start, s.end)];
      assert out.locks == (s.done + [copy]) + inserted + t.todo;
    }
  }

  /** On ANY list with distinct identities: a lock whose waiters are woken is afterwards gone, of
      another kind, or smaller. */
  lemma WokenLocksChange(locks: seq<FileLock>, req: Request, id: nat)
    requires Unique(locks, id)
    ensures NoneGrew(locks, Apply(locks, req, id).locks, Apply(locks, req, id).woken)
  {
    hide Visit, Finish, NoneGrew;
    var s := Start(locks, req);
    assert List(s) == locks;
    NotedScan(locks, s, req.owner, req.kind, id);
    FinishNoneGrew(locks, ScanOwn(s, req.owner, req.kind), req, id);
  }

  // ---------- who is woken ----------

  /** The lock that w sleeps on is there, with at least what it had. */
  ghost predicate BlockerStands(s: State, s': State, w: Waiter) {
    exists l, x :: l in Locks(s, w.ino) && l.id == w.blocker && x in Locks(s', w.ino) && Grew(l, x)
  }

  lemma StandsSame(s: State, s': State, w: Waiter)
    requires Justified(s, w) && Locks(s', w.ino) == Locks(s, w.ino)
    ensures BlockerStands(s, s', w)
  {
    var l :| l in Locks(s, w.ino) && l.id == w.blocker && Stops(l, w.req);
    assert Grew(l, l);
  }

  /** Of the waiters on a changed list exactly those stay whose lock stands. */
  lemma StandsIff(s: State, s': State, w: Waiter, woken: set<nat>)
    requires Justified(s, w) && Unique(Locks(s, w.ino), s.nextId)
    requires Kept(Locks(s, w.ino), Locks(s', w.ino), woken) && NoneGrew(Locks(s, w.ino), Locks(s', w.ino), woken)
    ensures BlockerStands(s, s', w) <==> w.blocker !in woken
  {
    var l :| l in Locks(s, w.ino) && l.id == w.blocker && Stops(l, w.req);
    if w.blocker !in woken {
      var x :| x in Locks(s', w.ino) && Grew(l, x);
    }
  }

  lemma CloseKept(locks: seq<FileLock>, files: nat, bound: nat)
    requires Unique(locks, bound)
    ensures Kept(locks, Without(locks, files), Closed(locks, files)) && NoneGrew(locks, Without(locks, files), Closed(locks, files))
  {
    var out, ids := Without(locks, files), Closed(locks, files);
    forall l ensures l in out <==> l in locks && l.owner.files != files { FilterMember(locks, NotOf(files), l); }
    forall l | l in locks && l.id !in ids ensures l in out && Grew(l, l) {
      var i :| 0 <= i < |locks| && locks[i] == l;
    }
    forall l, x | l in locks && x in out && l.id in ids ensures !Grew(l, x) {
      if x.id == l.id { OneOf(locks, bound, l, x); }
      var i :| 0 <= i < |locks| && locks[i].owner.files == files && locks[i].id == l.id;
      OneOf(locks, bound, l, locks[i]);
    }
  }

  /** A sleeper stays asleep through every event if and only if it is not interrupted and the lock
      that it sleeps on stands, with at least what it had. */
  lemma StaysAsleepIff(s: State, e: Event, w: Waiter)
    requires Inv(s) && Enabled(s, e) && w in s.blocked
    ensures w in Next(s, e).blocked <==> !(e.Interrupt? && e.owner == w.req.owner) && BlockerStands(s, Next(s, e), w)
  {
    var i :| 0 <= i < |s.blocked| && s.blocked[i] == w;
    assert Justified(s, w);
    LocksOk(s, w.ino);
    hide Inv, Apply, BlockerStands, Justified, Unique, Kept, NoneGrew;
    var s' := Next(s, e);
    match e
    case SetLock(ino, req, wait) =>
      if Decide(s, e) == Granted {
        var out := Apply(Locks(s, ino), req, s.nextId);
        FilterMember(s.blocked, Unwoken(ino, out.woken), w);
        if w.ino == ino {
          UnwokenLocksOnlyGrow(Locks(s, ino), req, s.nextId);
          WokenLocksChange(Locks(s, ino), req, s.nextId);
          StandsIff(s, s', w, out.woken);
        } else {
          StandsSame(s, s', w);
        }
      } else {
        StandsSame(s, s', w);
      }
    case Close(ino, files) =>
      FilterMember(s.blocked, Unwoken(ino, Closed(Locks(s, ino), files)), w);
      if w.ino == ino {
        CloseKept(Locks(s, ino), files, s.nextId);
        StandsIff(s, s', w, Closed(Locks(s, ino), files));
      } else {
        StandsSame(s, s', w);
      }
    case Interrupt(o) =>
      FilterMember(s.blocked, NotBy(o), w);
      StandsSame(s, s', w);
  }
}
