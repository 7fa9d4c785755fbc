/** What posix_lock_file answers, in terms of who holds which byte, and who goes to sleep
    and is woken. */
module LockAnswers {
  import opened Options
  import opened RecordLocks
  import opened LockEffects
  import opened LockShape
  import opened Chains
  import opened LockSystem
  import opened LockRuns
  import opened LockMeaning
  import opened Seqs

  /** Somebody else holds a byte of the range, and not both only want to read. */
  ghost predicate Hindered(m: iset<Cell>, ino: nat, req: Request) {
    req.kind != Unlock &&
    exists c :: c in m && InReach(c, ino, req) && c.owner != req.owner && (c.kind == Write || req.kind == Write)
  }

  /** Kinds that do not conflict are both read. */
  lemma KindsApart(s: State, c: Cell, req: Request)
    requires c in Table(s) && NoUnlocks(Locks(s, c.ino)) && req.kind != Unlock && !KindsConflict(req.kind, c.kind)
    ensures c.kind != Write && req.kind != Write
  {
  }

  lemma HinderedIff(s: State, ino: nat, req: Request)
    requires Sane(Locks(s, ino)) && ValidRange(req.start, req.end) && NoUnlocks(Locks(s, ino))
    ensures Hindered(Table(s), ino, req) <==> req.kind != Unlock && FirstConflict(Locks(s, ino), req).Some?
  {
    ScanIsFree(s, ino, req);
    if req.kind != Unlock {
      if FirstConflict(Locks(s, ino), req).Some? {
        var c :| c in Table(s) && InReach(c, ino, req) && c.owner != req.owner && KindsConflict(req.kind, c.kind);
        assert c.kind == Write || req.kind == Write;
      } else {
        forall c | c in Table(s) && InReach(c, ino, req) && c.owner != req.owner ensures c.kind != Write && req.kind != Write {
          KindsApart(s, c, req);
        }
      }
    }
  }

  /** The first lock of the list that somebody else holds in the way of the request. */
  ghost predicate FirstInTheWay(locks: seq<FileLock>, req: Request, i: nat) {
    i < |locks| && InTheWay(locks[i], req) && forall k :: 0 <= k < i ==> !InTheWay(locks[k], req)
  }

  predicate InTheWay(l: FileLock, req: Request) {
    && l.owner != req.owner && l.start <= req.end && req.start <= l.end
    && req.kind != Unlock && (l.kind == Write || req.kind == Write)
  }

  lemma {:induction false} FirstIs(locks: seq<FileLock>, req: Request, i: nat)
    requires FirstInTheWay(locks, req, i)
    ensures FirstConflict(locks, req) == Some(locks[i])
  {
    if i > 0 {
      assert !InTheWay(locks[0], req);
      assert FirstInTheWay(locks[1..], req, i - 1);
      FirstIs(locks[1..], req, i - 1);
    }
  }

  /** The owners form a chain in which each waits on a lock of the next. */
  ghost predicate WaitsOn(s: State, a: Owner, b: Owner) {
    exists w, l :: w in s.blocked && w.req.owner == a && l in Locks(s, w.ino) && l.id == w.blocker && l.owner == b
  }

  ghost predicate WaitChain(s: State, p: seq<Owner>) {
    p != [] && forall i :: 0 <= i < |p| - 1 ==> WaitsOn(s, p[i], p[i + 1])
  }

  lemma EdgeIff(s: State, a: Owner, b: Owner)
    requires Inv(s)
    ensures WaitsOn(s, a, b) <==> a in Edges(s.files, s.blocked) && Edges(s.files, s.blocked)[a] == b
  {
    if WaitsOn(s, a, b) {
      var w, l :| w in s.blocked && w.req.owner == a && l in Locks(s, w.ino) && l.id == w.blocker && l.owner == b;
      var i :| 0 <= i < |s.blocked| && s.blocked[i] == w;
      SleeperEdge(s, i);
      LocksOk(s, w.ino);
      FindUnique(Locks(s, w.ino), s.nextId, l);
    }
    if a in Edges(s.files, s.blocked) && Edges(s.files, s.blocked)[a] == b {
      var i := EdgeFrom(s.files, s.blocked, a);
      var w := s.blocked[i];
      SleeperEdge(s, i);
      var l := Find(s.files[w.ino], w.blocker).value;
      assert WaitsOn(s, a, l.owner);
    }
  }

  lemma {:induction false} ChainIsPath(s: State, a: Owner, n: nat) returns (p: seq<Owner>)
    requires Inv(s) && Chain(Edges(s.files, s.blocked), a, n).Some?
    ensures WaitChain(s, p) && p[0] == a && p[|p| - 1] == Chain(Edges(s.files, s.blocked), a, n).value
    decreases n
  {
    hide WaitsOn, Inv;
    if n == 0 {
      p := [a];
    } else {
      var b := Edges(s.files, s.blocked)[a];
      EdgeIff(s, a, b);
      var q := ChainIsPath(s, b, n - 1);
      p := [a] + q;
      PathFront(s, a, q);
    }
  }

  lemma PathNotEmpty(s: State, p: seq<Owner>)
    requires WaitChain(s, p)
    ensures p != []
  {
  }

  lemma FirstWaits(s: State, p: seq<Owner>)
    requires WaitChain(s, p) && |p| > 1
    ensures WaitsOn(s, p[0], p[1])
  {
  }

  lemma PathTail(s: State, p: seq<Owner>)
    requires WaitChain(s, p) && |p| > 1
    ensures WaitChain(s, p[1..])
  {
    hide WaitsOn;
    forall i | 0 <= i < |p[1..]| - 1 ensures WaitsOn(s, p[1..][i], p[1..][i + 1]) { assert WaitsOn(s, p[i + 1], p[i + 2]); }
  }

  lemma PathFront(s: State, a: Owner, q: seq<Owner>)
    requires WaitChain(s, q) && WaitsOn(s, a, q[0])
    ensures WaitChain(s, [a] + q)
  {
    hide WaitsOn;
    var p := [a] + q;
    forall i | 0 <= i < |p| - 1 ensures WaitsOn(s, p[i], p[i + 1]) {
      if i > 0 { assert WaitsOn(s, q[i - 1], q[i]); }
    }
  }

  lemma {:induction false} PathIsChain(s: State, p: seq<Owner>)
    requires Inv(s) && WaitChain(s, p)
    ensures Chain(Edges(s.files, s.blocked), p[0], |p| - 1) == Some(p[|p| - 1])
    decreases |p|
  {
    hide WaitsOn, Inv, WaitChain;
    PathNotEmpty(s, p);
    if |p| > 1 {
      FirstWaits(s, p);
      EdgeIff(s, p[0], p[1]);
      PathTail(s, p);
      PathIsChain(s, p[1..]);
    }
  }

  /** Whoever stands first in the way waits, perhaps through others, for the caller. */
  ghost predicate WouldCircle(s: State, ino: nat, req: Request) {
    exists i: nat :: FirstInTheWay(Locks(s, ino), req, i) && WaitsThrough(s, Locks(s, ino)[i].owner, req.owner)
  }

  ghost predicate WaitsThrough(s: State, a: Owner, b: Owner) {
    exists p :: WaitChain(s, p) && p[0] == a && p[|p| - 1] == b
  }

  lemma SomebodyFirst(locks: seq<FileLock>, req: Request) returns (i: nat)
    requires req.kind != Unlock && FirstConflict(locks, req).Some?
    ensures FirstInTheWay(locks, req, i)
  {
    i := 0;
    while !InTheWay(locks[i], req)
      invariant i < |locks| && forall k :: 0 <= k < i ==> !InTheWay(locks[k], req)
      invariant FirstConflict(locks[i..], req) == FirstConflict(locks, req)
      decreases |locks| - i
    {
      assert locks[i..][1..] == locks[i + 1..] && !Stops(locks[i], req);
      i := i + 1;
    }
  }

  lemma CircleIff(s: State, ino: nat, req: Request)
    requires Inv(s) && req.kind != Unlock && FirstConflict(Locks(s, ino), req).Some?
    ensures WouldCircle(s, ino, req) <==>
            Reaches(Edges(s.files, s.blocked), FirstConflict(Locks(s, ino), req).value.owner, req.owner)
  {
    var g, o := Edges(s.files, s.blocked), FirstConflict(Locks(s, ino), req).value.owner;
    if WouldCircle(s, ino, req) {
      var i: nat :| FirstInTheWay(Locks(s, ino), req, i) && WaitsThrough(s, Locks(s, ino)[i].owner, req.owner);
      var p :| WaitChain(s, p) && p[0] == Locks(s, ino)[i].owner && p[|p| - 1] == req.owner;
      FirstIs(Locks(s, ino), req, i);
      PathIsChain(s, p);
      assert Chain(g, o, |p| - 1) == Some(req.owner);
    }
    if Reaches(g, o, req.owner) {
      var n: nat :| Chain(g, o, n) == Some(req.owner);
      var i := SomebodyFirst(Locks(s, ino), req);
      FirstIs(Locks(s, ino), req, i);
      var p := ChainIsPath(s, o, n);
      assert FirstInTheWay(Locks(s, ino), req, i);
    }
  }

  /** The answer in every state with well-formed lists: a request that nobody hinders is granted;
      one that is hindered is refused at once if it may not wait, refused with -EDEADLK if
      whoever is first in its way waits for its owner, and otherwise sleeps. Nothing changes
      but that the sleeper is entered, on the lock that is first in its way. */
  lemma AnswerIs(s: State, ino: nat, req: Request, wait: bool)
    requires Inv(s) && AllWellFormed(s) && Enabled(s, SetLock(ino, req, wait))
    ensures var e, hindered := SetLock(ino, req, wait), Hindered(Table(s), ino, req);
            && (Decide(s, e) == Granted <==> !hindered)
            && (Decide(s, e) == Again <==> hindered && !wait)
            && (Decide(s, e) == Deadlock <==> hindered && wait && WouldCircle(s, ino, req))
            && (Decide(s, e) == Sleeping <==> hindered && wait && !WouldCircle(s, ino, req))
  {
    LocksOk(s, ino);
    AllSane(s, ino);
    HinderedIff(s, ino, req);
    if Hindered(Table(s), ino, req) { CircleIff(s, ino, req); }
  }

  /** Who is asleep after it, and on what. */
  lemma OnlySleepersAreEntered(s: State, ino: nat, req: Request, wait: bool)
    requires Inv(s) && AllWellFormed(s) && Enabled(s, SetLock(ino, req, wait))
    ensures var s', sleeps := Next(s, SetLock(ino, req, wait)), wait && Hindered(Table(s), ino, req) && !WouldCircle(s, ino, req);
            && (Asleep(s', req.owner) <==> sleeps)
            && (forall w :: w in s'.blocked && w.req.owner != req.owner ==> w in s.blocked)
            && (Hindered(Table(s), ino, req) ==> s'.files == s.files)
            && (sleeps ==> exists i: nat, w :: FirstInTheWay(Locks(s, ino), req, i) && w in s'.blocked &&
                             w.ino == ino && w.req == req && w.blocker == Locks(s, ino)[i].id)
  {
    hide Inv, AllWellFormed, Hindered, Table, Apply, WouldCircle;
    AnswerIs(s, ino, req, wait);
    var e := SetLock(ino, req, wait);
    var s' := Next(s, e);
    if Decide(s, e) == Granted {
      var woken := Apply(Locks(s, ino), req, s.nextId).woken;
      forall w ensures w in s'.blocked ==> w in s.blocked { FilterMember(s.blocked, Unwoken(ino, woken), w); }
      forall i | 0 <= i < |s'.blocked| ensures s'.blocked[i].req.owner != req.owner {
        assert s'.blocked[i] in s'.blocked;
        var k :| 0 <= k < |s.blocked| && s.blocked[k] == s'.blocked[i];
      }
    } else if Decide(s, e) == Sleeping {
      HinderedIs(s, ino, req);
      var i := SomebodyFirst(Locks(s, ino), req);
      FirstIs(Locks(s, ino), req, i);
      var w := Waiter(ino, req, Locks(s, ino)[i].id);
      assert s'.blocked == [w] + s.blocked && s'.blocked[0] == w;
      assert FirstInTheWay(Locks(s, ino), req, i) && w in s'.blocked;
    }
  }

  lemma HinderedIs(s: State, ino: nat, req: Request)
    requires Inv(s) && AllWellFormed(s) && ValidRange(req.start, req.end) && Hindered(Table(s), ino, req)
    ensures req.kind != Unlock && FirstConflict(Locks(s, ino), req).Some?
  {
    LocksOk(s, ino);
    AllSane(s, ino);
    HinderedIff(s, ino, req);
  }
}
