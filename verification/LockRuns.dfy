/** Safety of record locking over whole runs. */
module LockRuns {
  import opened Options
  import opened RecordLocks
  import opened LockEffects
  import opened Chains
  import opened Seqs
  import opened LockSystem

  lemma FindUnique(locks: seq<FileLock>, bound: nat, l: FileLock)
    requires Unique(locks, bound) && l in locks
    ensures Find(locks, l.id) == Some(l)
  {
    var i :| 0 <= i < |locks| && locks[i] == l;
    var r := Find(locks, l.id);
    assert locks[i].id == l.id;
    var j :| 0 <= j < |locks| && locks[j] == r.value;
  }

  function Target(files: map<nat, seq<FileLock>>, w: Waiter): Option<FileLock> {
    Find(if w.ino in files then files[w.ino] else [], w.blocker)
  }

  lemma {:induction false} EdgeOf(files: map<nat, seq<FileLock>>, blocked: seq<Waiter>, i: nat)
    requires i < |blocked| && SleepOnce(blocked) && Target(files, blocked[i]).Some?
    ensures blocked[i].req.owner in Edges(files, blocked)
    ensures Edges(files, blocked)[blocked[i].req.owner] == Target(files, blocked[i]).value.owner
  {
    if i > 0 {
      assert blocked[0].req.owner != blocked[i].req.owner;
      EdgeOf(files, blocked[1..], i - 1);
    }
  }

  lemma {:induction false} EdgeFrom(files: map<nat, seq<FileLock>>, blocked: seq<Waiter>, o: Owner) returns (i: nat)
    requires o in Edges(files, blocked)
    ensures i < |blocked| && blocked[i].req.owner == o && Target(files, blocked[i]).Some?
    ensures Edges(files, blocked)[o] == Target(files, blocked[i]).value.owner
  {
    if blocked[0].req.owner == o && Target(files, blocked[0]).Some? {
      i := 0;
    } else {
      i := EdgeFrom(files, blocked[1..], o);
      i := i + 1;
    }
  }

  lemma SleepOnceFilter(blocked: seq<Waiter>, f: Waiter -> bool)
    requires SleepOnce(blocked)
    ensures SleepOnce(Filter(blocked, f))
  {
    var r := Filter(blocked, f);
    forall i, j | 0 <= i < j < |r| ensures r[i].req.owner != r[j].req.owner {
      SourceOrder(blocked, f, i, j);
      assert blocked[Source(blocked, f, i)].req.owner != blocked[Source(blocked, f, j)].req.owner;
    }
  }

  /** A lock that only grew still stops whom it stopped. */
  lemma StopsGrew(l: FileLock, l': FileLock, req: Request)
    requires Stops(l, req) && Grew(l, l')
    ensures Stops(l', req)
  {
  }

  /** The edge of the i-th sleeper. */
  lemma SleeperEdge(s: State, i: nat)
    requires Inv(s) && i < |s.blocked|
    ensures var w, g := s.blocked[i], Edges(s.files, s.blocked);
            && w.ino in s.files && Find(s.files[w.ino], w.blocker).Some?
            && w.req.owner in g && g[w.req.owner] == Find(s.files[w.ino], w.blocker).value.owner
  {
    var w := s.blocked[i];
    assert Justified(s, w);
    var l :| l in Locks(s, w.ino) && l.id == w.blocker && Stops(l, w.req);
    FindUnique(Locks(s, w.ino), s.nextId, l);
    EdgeOf(s.files, s.blocked, i);
  }

  lemma AwakeHasNoEdge(s: State, o: Owner)
    requires !Asleep(s, o)
    ensures o !in Edges(s.files, s.blocked)
  {
    if o in Edges(s.files, s.blocked) {
      var i := EdgeFrom(s.files, s.blocked, o);
    }
  }

  /** A step that changes one file's locks and filters the waiters. */
  ghost predicate Shrinks(s: State, s': State, f: Waiter -> bool, ino: nat, woken: set<nat>) {
    && (forall i :: i != ino ==> Locks(s', i) == Locks(s, i))
    && Kept(Locks(s, ino), Locks(s', ino), woken)
    && s'.blocked == Filter(s.blocked, f)
    && (forall w :: w in s.blocked && f(w) && w.ino == ino ==> w.blocker !in woken)
    && (forall i :: i in s'.files ==> FileOk(s'.files[i], s'.nextId))
  }

  lemma StillJustified(s: State, s': State, f: Waiter -> bool, ino: nat, woken: set<nat>, w: Waiter) returns (l: FileLock, l': FileLock)
    requires Inv(s) && Shrinks(s, s', f, ino, woken) && w in s'.blocked
    ensures Target(s.files, w) == Some(l) && Target(s'.files, w) == Some(l') && l'.owner == l.owner
    ensures l' in Locks(s', w.ino) && l'.id == w.blocker && Stops(l', w.req)
  {
    FilterMember(s.blocked, f, w);
    var i :| 0 <= i < |s.blocked| && s.blocked[i] == w;
    assert Justified(s, s.blocked[i]);
    l :| l in Locks(s, w.ino) && l.id == w.blocker && Stops(l, w.req);
    FindUnique(Locks(s, w.ino), s.nextId, l);
    if w.ino == ino {
      l' :| l' in Locks(s', ino) && Grew(l, l');
      StopsGrew(l, l', w.req);
    } else {
      l' := l;
    }
    FindUnique(Locks(s', w.ino), s'.nextId, l');
  }

  lemma FewerEdges(s: State, s': State, f: Waiter -> bool, ino: nat, woken: set<nat>, o: Owner)
    requires Inv(s) && Shrinks(s, s', f, ino, woken) && o in Edges(s'.files, s'.blocked)
    ensures o in Edges(s.files, s.blocked) && Edges(s.files, s.blocked)[o] == Edges(s'.files, s'.blocked)[o]
  {
    var i := EdgeFrom(s'.files, s'.blocked, o);
    var w := s'.blocked[i];
    var l, l' := StillJustified(s, s', f, ino, woken, w);
    FilterMember(s.blocked, f, w);
    var j :| 0 <= j < |s.blocked| && s.blocked[j] == w;
    EdgeOf(s.files, s.blocked, j);
  }

  lemma InvShrinks(s: State, s': State, f: Waiter -> bool, ino: nat, woken: set<nat>)
    requires Inv(s) && Shrinks(s, s', f, ino, woken)
    ensures Inv(s')
  {
    SleepOnceFilter(s.blocked, f);
    forall i | 0 <= i < |s'.blocked| ensures Justified(s', s'.blocked[i]) {
      var l, l' := StillJustified(s, s', f, ino, woken, s'.blocked[i]);
    }
    forall o | o in Edges(s'.files, s'.blocked)
      ensures o in Edges(s.files, s.blocked) && Edges(s.files, s.blocked)[o] == Edges(s'.files, s'.blocked)[o]
    {
      FewerEdges(s, s', f, ino, woken, o);
    }
    AcyclicSub(Edges(s'.files, s'.blocked), Edges(s.files, s.blocked));
  }

  lemma GrantExclusive(locks: seq<FileLock>, req: Request, id: nat)
    requires Exclusive(locks) && NoUnlocks(locks) && req.start <= req.end
    requires req.kind == Unlock || FirstConflict(locks, req).None?
    ensures Exclusive(Apply(locks, req, id).locks)
  {
    var out := Apply(locks, req, id).locks;
    NoUnlocksApply(locks, req, id);
    forall o, o', k, k', b | o != o' && Held(out, o, k, b) && Held(out, o', k', b) ensures k == Read && k' == Read {
      NoStrayBytes(locks, req, id, o, k, b);
      NoStrayBytes(locks, req, id, o', k', b);
      if !Held(locks, o, k, b) { AskedIsFree(locks, out, req, o, k, o', k', b); }
      if !Held(locks, o', k', b) { AskedIsFree(locks, out, req, o', k', o, k, b); }
    }
  }

  lemma AskedIsFree(locks: seq<FileLock>, out: seq<FileLock>, req: Request, o: Owner, k: LockKind, o': Owner, k': LockKind, b: int)
    requires NoUnlocks(out) && (req.kind == Unlock || FirstConflict(locks, req).None?)
    requires Asked(req, o, k, b) && Held(out, o, k, b) && o' != o && (Held(locks, o', k', b) || Asked(req, o', k', b))
    requires NoUnlocks(locks)
    ensures k == Read && k' == Read
  {
    var l :| l in out && l.owner == o && l.kind == k && Covers(l, b);
    assert k != Unlock;
    var l' :| l' in locks && l'.owner == o' && l'.kind == k' && Covers(l', b);
    var i :| 0 <= i < |locks| && locks[i] == l';
    assert !Stops(locks[i], req);
  }

  lemma InvGrant(s: State, ino: nat, req: Request)
    requires Inv(s) && ValidRange(req.start, req.end)
    requires req.kind == Unlock || FirstConflict(Locks(s, ino), req).None?
    ensures Inv(Grant(s, ino, req))
  {
    var locks, woken := GrantResult(s, ino, req);
    InvReplaced(s, ino, locks, woken, s.nextId + 2);
  }

  lemma GrantResult(s: State, ino: nat, req: Request) returns (locks: seq<FileLock>, woken: set<nat>)
    requires Inv(s) && ValidRange(req.start, req.end)
    requires req.kind == Unlock || FirstConflict(Locks(s, ino), req).None?
    ensures Grant(s, ino, req) == State(s.files[ino := locks], Wake(s.blocked, ino, woken), s.nextId + 2)
    ensures FileOk(locks, s.nextId + 2) && Kept(Locks(s, ino), locks, woken)
  {
    LocksOk(s, ino);
    GrantOk(Locks(s, ino), req, s.nextId);
    UnwokenLocksOnlyGrow(Locks(s, ino), req, s.nextId);
    var out := Apply(Locks(s, ino), req, s.nextId);
    locks, woken := out.locks, out.woken;
  }

  lemma LocksOk(s: State, ino: nat)
    requires Inv(s)
    ensures FileOk(Locks(s, ino), s.nextId)
  {
    EmptyOk(s.nextId);
  }

  /** One file gets a new list, and the waiters that need to hear of it are woken. */
  lemma InvReplaced(s: State, ino: nat, locks: seq<FileLock>, woken: set<nat>, bound: nat)
    requires Inv(s) && s.nextId <= bound && FileOk(locks, bound) && Kept(Locks(s, ino), locks, woken)
    ensures Inv(State(s.files[ino := locks], Wake(s.blocked, ino, woken), bound))
  {
    var s' := State(s.files[ino := locks], Wake(s.blocked, ino, woken), bound);
    forall i | i in s'.files ensures FileOk(s'.files[i], bound) {
      if i != ino { MoreRoom(s.files[i], s.nextId, bound); }
    }
    InvShrinks(s, s', Unwoken(ino, woken), ino, woken);
  }

  lemma MoreRoom(locks: seq<FileLock>, bound: nat, bound': nat)
    requires FileOk(locks, bound) && bound <= bound'
    ensures FileOk(locks, bound')
  {
  }

  lemma GrantOk(locks: seq<FileLock>, req: Request, id: nat)
    requires FileOk(locks, id) && ValidRange(req.start, req.end)
    requires req.kind == Unlock || FirstConflict(locks, req).None?
    ensures FileOk(Apply(locks, req, id).locks, id + 2)
  {
    UniqueApply(locks, req, id);
    NoUnlocksApply(locks, req, id);
    GrantExclusive(locks, req, id);
  }

  lemma EmptyOk(bound: nat)
    ensures FileOk([], bound)
  {
  }

  lemma CloseOk(locks: seq<FileLock>, files: nat, bound: nat)
    requires FileOk(locks, bound)
    ensures FileOk(Without(locks, files), bound)
    ensures Kept(locks, Without(locks, files), Closed(locks, files))
  {
    var f := NotOf(files);
    var r := Without(locks, files);
    forall i | 0 <= i < |r| ensures r[i].id < bound && r[i].kind != Unlock && r[i] in locks {
      assert r[i] == locks[Source(locks, f, i)];
    }
    forall i, j | 0 <= i < j < |r| ensures r[i].id != r[j].id {
      SourceOrder(locks, f, i, j);
    }
    forall l | l in locks && l.id !in Closed(locks, files) ensures exists l' :: l' in r && Grew(l, l') {
      FilterMember(locks, f, l);
      assert Grew(l, l);
    }
    forall o, k, b | Held(r, o, k, b) ensures Held(locks, o, k, b) {}
  }

  lemma InvClose(s: State, ino: nat, files: nat)
    requires Inv(s)
    ensures Inv(CloseFile(s, ino, files))
  {
    var locks := Locks(s, ino);
    LocksOk(s, ino);
    CloseOk(locks, files, s.nextId);
    InvReplaced(s, ino, Without(locks, files), Closed(locks, files), s.nextId);
  }

  lemma InvInterrupt(s: State, o: Owner)
    requires Inv(s)
    ensures Inv(s.(blocked := Drop(s.blocked, o)))
  {
    hide Inv, Shrinks;
    DropShrinks(s, o);
    InvShrinks(s, s.(blocked := Drop(s.blocked, o)), NotBy(o), 0, {});
  }

  lemma DropShrinks(s: State, o: Owner)
    requires Inv(s)
    ensures Shrinks(s, s.(blocked := Drop(s.blocked, o)), NotBy(o), 0, {})
  {
    hide Edges, Acyclic, Filter, FileOk, Justified, SleepOnce, Kept;
    KeptSame(Locks(s, 0), {});
  }

  /** Going to sleep after posix_locks_deadlock said no closes no cycle. */
  lemma InvSleep(s: State, ino: nat, req: Request)
    requires Inv(s) && !Asleep(s, req.owner) && FirstConflict(Locks(s, ino), req).Some?
    requires !Reaches(Edges(s.files, s.blocked), FirstConflict(Locks(s, ino), req).value.owner, req.owner)
    ensures Inv(s.(blocked := [Waiter(ino, req, FirstConflict(Locks(s, ino), req).value.id)] + s.blocked))
  {
    var c := FirstConflict(Locks(s, ino), req).value;
    var w := Waiter(ino, req, c.id);
    var s' := s.(blocked := [w] + s.blocked);
    var g := Edges(s.files, s.blocked);
    FindUnique(Locks(s, ino), s.nextId, c);
    assert s'.blocked[1..] == s.blocked;
    assert Edges(s'.files, s'.blocked) == g[req.owner := c.owner];
    AwakeHasNoEdge(s, req.owner);
    AcyclicAdd(g, req.owner, c.owner);
    assert Justified(s', w);
    forall i | 0 <= i < |s'.blocked| ensures Justified(s', s'.blocked[i]) {
      if i > 0 { assert Justified(s, s.blocked[i - 1]); }
    }
  }

  lemma InvNext(s: State, e: Event)
    requires Inv(s) && Enabled(s, e)
    ensures Inv(Next(s, e))
  {
    match e
    case SetLock(ino, req, wait) =>
      match Decide(s, e) {
        case Granted => InvGrant(s, ino, req);
        case Sleeping => InvSleep(s, ino, req);
        case Again =>
        case Deadlock =>
      }
    case Close(ino, files) => InvClose(s, ino, files);
    case Interrupt(o) => InvInterrupt(s, o);
  }

  lemma {:induction false} InvRun(s: State, run: seq<Event>)
    requires Inv(s) && IsRun(s, run)
    ensures Inv(After(s, run))
    decreases |run|
  {
    if run != [] {
      InvNext(s, run[0]);
      InvRun(Next(s, run[0]), run[1..]);
    }
  }
}
