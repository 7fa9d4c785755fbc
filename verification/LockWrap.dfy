/** What a request of the failing family does to the bytes: the list goes wrong every
    time, the byte map only if a lock of another kind lies behind the one that the loop
    stops at. */
module LockWrap {
  import opened RecordLocks
  import opened LockEffects
  import opened LockShape
  import opened LockOverwrite

  /** An own lock of the request's kind that it touches. */
  predicate Touched(l: FileLock, req: Request) {
    l.owner == req.owner && l.kind == req.kind && l.end >= req.start - 1
  }

  /** Behind an own lock that the request touches lies one of another kind. */
  ghost predicate OtherBehind(locks: seq<FileLock>, req: Request) {
    exists i, j :: 0 <= i < j < |locks| && Touched(locks[i], req) && locks[j].owner == req.owner && locks[j].kind != req.kind
  }

  /** The scan of such a request before it stops: the caller has not grown and nothing that
      it touches has been passed. */
  ghost predicate OnTheWay(s: Scan, p: Parts, orig: seq<FileLock>, req: Request) {
    && Midway(s, p, orig, req) && req.kind != Unlock && req.end == OFFSET_MAX
    && s.start == req.start && s.end == OFFSET_MAX && |s.todo| <= |orig|
    && (forall i :: 0 <= i < |orig| - |s.todo| ==> !Touched(orig[i], req))
    && (exists k :: 0 <= k < |s.todo| && Touched(s.todo[k], req))
  }

  lemma TodoIsSuffix(s: Scan, p: Parts, orig: seq<FileLock>, req: Request)
    requires Midway(s, p, orig, req)
    ensures |s.todo| <= |orig| && orig[|orig| - |s.todo|..] == s.todo
  {
    assert orig == p.pre + p.own + (p.left + p.gone) + s.todo;
  }

  lemma AheadIsValid(s: Scan, p: Parts, orig: seq<FileLock>, req: Request, k: nat)
    requires Midway(s, p, orig, req) && k < |s.todo|
    ensures ValidRange(s.todo[k].start, s.todo[k].end)
  {
    TodoIsSuffix(s, p, orig, req);
    assert orig[|orig| - |s.todo| + k] == s.todo[k];
  }

  /** While something touched lies ahead, the head of todo is the caller's own. */
  lemma HeadIsOwn(s: Scan, p: Parts, orig: seq<FileLock>, req: Request)
    requires OnTheWay(s, p, orig, req)
    ensures s.todo != [] && s.todo[0].owner == req.owner
  {
    hide Midway;
    var k :| 0 <= k < |s.todo| && Touched(s.todo[k], req);
    AheadIsValid(s, p, orig, req, k);
    if s.todo[0].owner != req.owner {
      OwnGroupDone(s, p, orig, req);
      assert false;
    }
  }

  lemma MovesOn(s: Scan, s': Scan, orig: seq<FileLock>, req: Request)
    requires s.todo != [] && s'.todo == s.todo[1..] && |s.todo| <= |orig| && orig[|orig| - |s.todo|] == s.todo[0]
    requires !Touched(s.todo[0], req)
    requires forall i :: 0 <= i < |orig| - |s.todo| ==> !Touched(orig[i], req)
    requires exists k :: 0 <= k < |s.todo| && Touched(s.todo[k], req)
    ensures forall i :: 0 <= i < |orig| - |s'.todo| ==> !Touched(orig[i], req)
    ensures exists k :: 0 <= k < |s'.todo| && Touched(s'.todo[k], req)
  {
    var k :| 0 <= k < |s.todo| && Touched(s.todo[k], req);
    assert s'.todo[k - 1] == s.todo[k];
  }

  lemma Untouched(s: Scan, req: Request)
    requires s.Valid() && !s.right && s.todo != [] && s.todo[0].owner == req.owner && !Touched(s.todo[0], req)
    requires ValidRange(s.todo[0].start, s.todo[0].end) && s.start == req.start && s.end == OFFSET_MAX
    ensures var fl, v := s.todo[0], Visit(s, req.kind);
            && v.Continue? && v.s.todo == s.todo[1..] && v.s.start == s.start && v.s.end == s.end
            && (fl.end < s.start ==> v.s == s.Pass(fl)) && (fl.end >= s.start ==> v == VisitOther(s, req.kind) && fl.kind != req.kind)
            && (fl.kind == req.kind ==> fl.end + 1 < s.start)
  {
  }

  /** One step of the loop over a lock that the request does not touch. */
  lemma WayStep(s: Scan, p: Parts, orig: seq<FileLock>, req: Request) returns (p': Parts)
    requires OnTheWay(s, p, orig, req) && s.todo != [] && s.todo[0].owner == req.owner && !Touched(s.todo[0], req)
    ensures Visit(s, req.kind).Continue? && OnTheWay(Visit(s, req.kind).s, p', orig, req)
    ensures |Visit(s, req.kind).s.todo| < |s.todo|
  {
    hide Midway, Visit, VisitOther;
    var fl := s.todo[0];
    WayValid(s, p, orig, req);
    TodoIsSuffix(s, p, orig, req);
    NextLock(s, p, orig, req);
    Untouched(s, req);
    var t := Visit(s, req.kind).s;
    if fl.end < s.start {
      p' := StepPast(s, p, orig, req);
    } else if fl.start < s.start {
      p' := StepLeft(s, p, orig, req);
    } else if s.added {
      p' := StepDelete(s, p, orig, req);
    } else {
      p' := StepReplace(s, p, orig, req);
    }
    MovesOn(s, t, orig, req);
  }

  /** The loop stops at the first lock that the request touches. */
  lemma {:induction false} WayEnds(s: Scan, p: Parts, orig: seq<FileLock>, req: Request) returns (t: Scan, p': Parts)
    requires OnTheWay(s, p, orig, req)
    ensures t == ScanOwn(s, req.owner, req.kind) && OnTheWay(t, p', orig, req) && Touched(t.todo[0], req)
    decreases |s.todo|
  {
    hide OnTheWay, Midway, Visit;
    HeadIsOwn(s, p, orig, req);
    WayValid(s, p, orig, req);
    if Touched(s.todo[0], req) {
      StopsHere(s, p, orig, req);
      t, p' := s, p;
    } else {
      var p1 := WayStep(s, p, orig, req);
      VisitValid(s, req.kind);
      t, p' := WayEnds(Visit(s, req.kind).s, p1, orig, req);
    }
  }

  lemma WayValid(s: Scan, p: Parts, orig: seq<FileLock>, req: Request)
    requires OnTheWay(s, p, orig, req)
    ensures s.Valid() && !s.right
  {
  }

  lemma StopsHere(s: Scan, p: Parts, orig: seq<FileLock>, req: Request)
    requires OnTheWay(s, p, orig, req) && s.todo != [] && Touched(s.todo[0], req)
    ensures Visit(s, req.kind) == Stop(s)
  {
    NextLock(s, p, orig, req);
  }

  // ---------- the bytes ----------

  lemma NotHeldBy(a: seq<FileLock>, o: Owner, x: Owner, k: LockKind, b: int)
    requires AllOwn(a, o) && x != o
    ensures !Held(a, x, k, b)
  {
  }

  lemma NoneHeld(a: seq<FileLock>, o: Owner, k: LockKind, b: int)
    requires NoneOwn(a, o)
    ensures !Held(a, o, k, b)
  {
  }

  /** For anybody else nothing changes. */
  lemma HeldByOthersStill(s: Scan, p: Parts, orig: seq<FileLock>, req: Request, id: nat, x: Owner, k: LockKind, b: int)
    requires OnTheWay(s, p, orig, req) && x != req.owner
    ensures var q := ClearPieces(s, p, req, id); Held(q.New(), x, k, b) <==> Held(q.Old(), x, k, b)
  {
    var q := ClearPieces(s, p, req, id);
    HeldOld(q, x, k, b);
    HeldNew(q, x, k, b);
    NotHeldBy(p.own, req.owner, x, k, b);
    NotHeldBy(p.left + p.gone, req.owner, x, k, b);
    NotHeldBy(LeftRemnant(p, s.start) + [], req.owner, x, k, b);
    NotHeldBy(q.put, req.owner, x, k, b);
  }

  /** Inside the range the caller has the new kind, and what lies ahead. */
  lemma HeldInside(s: Scan, p: Parts, orig: seq<FileLock>, req: Request, id: nat, k: LockKind, b: int)
    requires OnTheWay(s, p, orig, req) && req.start <= b <= req.end
    ensures var q := ClearPieces(s, p, req, id); Held(q.New(), req.owner, k, b) <==> k == req.kind || Held(s.todo, req.owner, k, b)
  {
    hide Midway, Pieces.New;
    var q := ClearPieces(s, p, req, id);
    HeldNew(q, req.owner, k, b);
    NothingElseInside(s, p, orig, req, k, b);
    PutHolds(s, p, orig, req, id, k, b);
  }

  lemma NothingElseInside(s: Scan, p: Parts, orig: seq<FileLock>, req: Request, k: LockKind, b: int)
    requires Midway(s, p, orig, req) && s.start <= b
    ensures !Held(p.pre, req.owner, k, b) && !Held(p.own, req.owner, k, b) && !Held(LeftRemnant(p, s.start) + [], req.owner, k, b)
  {
    NoneHeld(p.pre, req.owner, k, b);
  }

  lemma PutHolds(s: Scan, p: Parts, orig: seq<FileLock>, req: Request, id: nat, k: LockKind, b: int)
    requires Midway(s, p, orig, req) && req.kind != Unlock
    ensures Held(Put(s, p, req, id), req.owner, k, b) <==> k == req.kind && s.start <= b <= s.end
  {
    var put := Put(s, p, req, id);
    assert put[0] in put;
  }

  /** Outside it everything is as it was. */
  lemma HeldBeside(s: Scan, p: Parts, orig: seq<FileLock>, req: Request, id: nat, k: LockKind, b: int)
    requires OnTheWay(s, p, orig, req) && !(req.start <= b <= req.end)
    ensures var q := ClearPieces(s, p, req, id); Held(q.New(), req.owner, k, b) <==> Held(q.Old(), req.owner, k, b)
  {
    hide Pieces.New, Pieces.Old;
    var q := ClearPieces(s, p, req, id);
    HeldOld(q, req.owner, k, b);
    HeldNew(q, req.owner, k, b);
    PutHolds(s, p, orig, req, id, k, b);
    if Held(p.left + p.gone, req.owner, k, b) {
      var m :| m in p.left + p.gone && m.owner == req.owner && m.kind == k && Covers(m, b);
      MidHeld(s, p, orig, req, [], m, b);
    }
    if Held(LeftRemnant(p, s.start) + [], req.owner, k, b) {
      assert p.left[0] in p.left + p.gone && Covers(p.left[0], b);
    }
  }

  /** An own lock of another kind still lies ahead of the one where the loop stopped. */
  ghost predicate OtherAhead(s: Scan, req: Request) {
    exists j :: 0 < j < |s.todo| && s.todo[j].owner == req.owner && s.todo[j].kind != req.kind
  }

  /** Whatever the caller owns behind that lock lies in the range. */
  lemma AheadIsInside(s: Scan, p: Parts, orig: seq<FileLock>, req: Request, j: nat)
    requires OnTheWay(s, p, orig, req) && Touched(s.todo[0], req) && 0 < j < |s.todo| && s.todo[j].owner == req.owner
    ensures req.start <= s.todo[j].start <= s.todo[j].end <= OFFSET_MAX
  {
    TodoIsSuffix(s, p, orig, req);
    var n := |orig| - |s.todo|;
    assert orig[n] == s.todo[0] && orig[n + j] == s.todo[j];
    assert Apart(orig[n], orig[n + j]);
  }

  lemma BytesWhereStopped(s: Scan, p: Parts, orig: seq<FileLock>, req: Request, id: nat)
    requires OnTheWay(s, p, orig, req) && Touched(s.todo[0], req)
    ensures Overwritten(orig, Finish(s, req, id).locks, req.owner, req.kind, req.start, req.end) <==> !OtherAhead(s, req)
  {
    hide Midway, Finish;
    WayValid(s, p, orig, req);
    var q, out := ClearPieces(s, p, req, id), Finish(s, req, id).locks;
    ClearList(s, p, orig, req, id);
    OldPieces(s, p, orig, req, id);
    if OtherAhead(s, req) {
      var j :| 0 < j < |s.todo| && s.todo[j].owner == req.owner && s.todo[j].kind != req.kind;
      var l := s.todo[j];
      AheadIsInside(s, p, orig, req, j);
      assert l in s.todo && Covers(l, l.start);
      HeldInside(s, p, orig, req, id, l.kind, l.start);
      assert !Wanted(orig, req.owner, req.kind, req.start, req.end, req.owner, l.kind, l.start);
    } else {
      forall x, k, b ensures Held(out, x, k, b) <==> Wanted(orig, req.owner, req.kind, req.start, req.end, x, k, b) {
        if x != req.owner {
          HeldByOthersStill(s, p, orig, req, id, x, k, b);
        } else if req.start <= b <= req.end {
          HeldInside(s, p, orig, req, id, k, b);
          if k != req.kind { OnlyOneKindAhead(s, req, k, b); }
        } else {
          HeldBeside(s, p, orig, req, id, k, b);
        }
      }
    }
  }

  lemma OldPieces(s: Scan, p: Parts, orig: seq<FileLock>, req: Request, id: nat)
    requires Midway(s, p, orig, req)
    ensures ClearPieces(s, p, req, id).Old() == orig
  {
  }

  lemma OnlyOneKindAhead(s: Scan, req: Request, k: LockKind, b: int)
    requires !OtherAhead(s, req) && s.todo != [] && Touched(s.todo[0], req) && k != req.kind
    ensures !Held(s.todo, req.owner, k, b)
  {
  }

  /** The byte map of a well-formed list goes wrong if and only if the request is of the
      failing family and a lock of another kind lies behind one that it touches. */
  lemma BytesRightIff(locks: seq<FileLock>, req: Request, id: nat)
    requires WellFormed(locks) && ValidRange(req.start, req.end)
    ensures Overwritten(locks, Apply(locks, req, id).locks, req.owner, req.kind, req.start, req.end)
      <==> !(Wraps(locks, req) && OtherBehind(locks, req))
  {
    hide WellFormed, Overwritten, Wraps, OtherBehind, Finish, ScanOwn;
    if !Wraps(locks, req) {
      ApplyOverwrites(locks, req, id);
    } else {
      var p := StartOnTheWay(locks, req);
      var t, p' := WayEnds(Start(locks, req), p, locks, req);
      BytesWhereStopped(t, p', locks, req, id);
      BehindIsAhead(t, p', locks, req);
    }
  }

  lemma StartOnTheWay(locks: seq<FileLock>, req: Request) returns (p: Parts)
    requires WellFormed(locks) && ValidRange(req.start, req.end) && Wraps(locks, req)
    ensures OnTheWay(Start(locks, req), p, locks, req)
  {
    hide Midway, WellFormed;
    var s, n := Start(locks, req), Skip(locks, req.owner);
    p := StartMidway(locks, req);
    var i :| 0 <= i < |locks| && locks[i].owner == req.owner && locks[i].kind == req.kind && locks[i].end >= req.start - 1;
    assert s.todo[i - n] == locks[i];
  }

  lemma StartMidway(locks: seq<FileLock>, req: Request) returns (p: Parts)
    requires WellFormed(locks) && ValidRange(req.start, req.end)
    ensures Midway(Start(locks, req), p, locks, req)
  {
    hide WellFormed, Layout, Ranges;
    p := Parts(locks[..Skip(locks, req.owner)], [], [], [], []);
    StartLayout(locks, req, p);
    StartRanges(locks, req, p);
  }

  lemma StartLayout(locks: seq<FileLock>, req: Request, p: Parts)
    requires ValidRange(req.start, req.end) && p == Parts(locks[..Skip(locks, req.owner)], [], [], [], [])
    ensures Layout(Start(locks, req), p, locks, req)
  {
    var s := Start(locks, req);
    assert p.Done() == s.done && p.Old(s.todo) == locks;
  }

  lemma StartRanges(locks: seq<FileLock>, req: Request, p: Parts)
    requires ValidRange(req.start, req.end) && p == Parts(locks[..Skip(locks, req.owner)], [], [], [], [])
    ensures var s := Start(locks, req); Ranges(s.start, s.end, p, locks, req)
  {
  }

  lemma BehindIsAhead(s: Scan, p: Parts, orig: seq<FileLock>, req: Request)
    requires OnTheWay(s, p, orig, req) && Touched(s.todo[0], req)
    ensures OtherBehind(orig, req) <==> OtherAhead(s, req)
  {
    hide Midway;
    TodoIsSuffix(s, p, orig, req);
    var n := |orig| - |s.todo|;
    assert forall j :: 0 <= j < |s.todo| ==> orig[n..][j] == s.todo[j];
    if OtherAhead(s, req) {
      var j :| 0 < j < |s.todo| && s.todo[j].owner == req.owner && s.todo[j].kind != req.kind;
      assert orig[n + j] == orig[n..][j] && orig[n] == orig[n..][0];
    }
    if OtherBehind(orig, req) {
      var i, j :| 0 <= i < j < |orig| && Touched(orig[i], req) && orig[j].owner == req.owner && orig[j].kind != req.kind;
      assert i >= n;
      assert orig[n..][j - n] == orig[j];
    }
  }

  /** A read lock on byte 0 and a write lock on byte 5; read-locking the whole file leaves
      byte 5 with both kinds. */
  lemma TwoKindsOnAByte(o: Owner)
    ensures var locks, req := [FileLock(0, o, Read, 0, 0), FileLock(2, o, Write, 5, 5)], Request(o, Read, 0, OFFSET_MAX);
            && WellFormed(locks)
            && !Overwritten(locks, Apply(locks, req, 4).locks, o, Read, 0, OFFSET_MAX)
  {
    var locks, req := [FileLock(0, o, Read, 0, 0), FileLock(2, o, Write, 5, 5)], Request(o, Read, 0, OFFSET_MAX);
    assert Touched(locks[0], req) && locks[1].owner == o && locks[1].kind != Read;
    BytesRightIff(locks, req, 4);
  }
}
