/** Record locking means a plain table of bytes: the lists, merges and splits
    compute the same decisions and the same table as a machine without them. */
module LockMeaning {
  import opened RecordLocks
  import opened LockEffects
  import opened LockShape
  import opened LockOverwrite
  import opened Chains
  import opened Seqs
  import opened LockSystem
  import opened LockRuns

  // ---------- safety of every run ----------

  /** Over every run: locks of different owners never clash on a byte, and each
      sleeper is stopped by the very lock it sleeps on, hence by the scan. */
  lemma RunIsSafe(run: seq<Event>)
    requires IsRun(Init, run)
    ensures forall ino :: Exclusive(Locks(After(Init, run), ino))
    ensures forall w :: w in After(Init, run).blocked ==>
              Justified(After(Init, run), w) && FirstConflict(Locks(After(Init, run), w.ino), w.req).Some?
  {
    InvRun(Init, run);
    var s := After(Init, run);
    forall ino ensures Exclusive(Locks(s, ino)) { EmptyOk(s.nextId); }
    forall w | w in s.blocked ensures Justified(s, w) && FirstConflict(Locks(s, w.ino), w.req).Some? {
      var i :| 0 <= i < |s.blocked| && s.blocked[i] == w;
      assert Justified(s, s.blocked[i]);
      var l :| l in Locks(s, w.ino) && l.id == w.blocker && Stops(l, w.req);
      var j :| 0 <= j < |Locks(s, w.ino)| && Locks(s, w.ino)[j] == l;
    }
  }

  /** Over every run: following the recorded blockers, one for each sleeper, always leads
      to an owner that is awake. LockWaits has the other locks that stop a sleeper. */
  lemma SomebodyIsAwake(run: seq<Event>, o: Owner) returns (n: nat)
    requires IsRun(Init, run)
    ensures var s := After(Init, run);
            var end := Chain(Edges(s.files, s.blocked), o, n);
            end.Some? && !Asleep(s, end.value)
  {
    InvRun(Init, run);
    var s := After(Init, run);
    n := ChainEnds(Edges(s.files, s.blocked), o);
    var x := Chain(Edges(s.files, s.blocked), o, n).value;
    if Asleep(s, x) {
      var i :| 0 <= i < |s.blocked| && s.blocked[i].req.owner == x;
      SleeperEdge(s, i);
    }
  }

  /** posix_test_lock and the scan of posix_lock_file name the same lock. */
  lemma {:induction false} TestLockAgrees(locks: seq<FileLock>, req: Request)
    requires NoUnlocks(locks) && req.kind != Unlock
    ensures TestLock(locks, req) == FirstConflict(locks, req)
  {
    if locks != [] {
      assert locks[0].kind != Unlock;
      TestLockAgrees(locks[1..], req);
    }
  }

  // ---------- the table of bytes ----------

  datatype Cell = Cell(ino: nat, owner: Owner, kind: LockKind, byte: int)

  ghost predicate InReach(c: Cell, ino: nat, req: Request) {
    c.ino == ino && req.start <= c.byte <= req.end
  }

  /** Nobody else holds a byte of the range in a way that conflicts. */
  ghost predicate Free(m: iset<Cell>, ino: nat, req: Request) {
    forall c :: c in m && InReach(c, ino, req) && c.owner != req.owner ==> !KindsConflict(req.kind, c.kind)
  }

  /** fcntl locking as POSIX describes it, byte by byte. */
  ghost function TableNext(m: iset<Cell>, e: Event): iset<Cell> {
    match e
    case SetLock(ino, req, wait) =>
      if req.kind == Unlock || Free(m, ino, req) then
        iset c: Cell | if InReach(c, ino, req) && c.owner == req.owner then c.kind == req.kind && c.kind != Unlock else c in m
      else m
    case Close(ino, files) => iset c | c in m && !(c.ino == ino && c.owner.files == files)
    case Interrupt(o) => m
  }

  ghost function TableAfter(m: iset<Cell>, run: seq<Event>): iset<Cell>
    decreases |run|
  {
    if run == [] then m else TableAfter(TableNext(m, run[0]), run[1..])
  }

  ghost function Table(s: State): iset<Cell> {
    iset c: Cell | Held(Locks(s, c.ino), c.owner, c.kind, c.byte)
  }

  ghost predicate AllWellFormed(s: State) {
    forall ino :: ino in s.files ==> WellFormed(s.files[ino])
  }

  /** A request of the failing family is granted. */
  ghost predicate GoesWrong(s: State, e: Event) {
    e.SetLock? && Decide(s, e) == Granted && Wraps(Locks(s, e.ino), e.req)
  }

  /** No granted request of the run is of the failing family. */
  ghost predicate WrapFree(s: State, run: seq<Event>)
    decreases |run|
  {
    run == [] || (!GoesWrong(s, run[0]) && WrapFree(Next(s, run[0]), run[1..]))
  }

  /** The event leaves well-formed lists that denote what the byte-by-byte machine gets. */
  ghost predicate Exact(s: State, e: Event) {
    AllWellFormed(Next(s, e)) && Table(Next(s, e)) == TableNext(Table(s), e)
  }

  /** So does every event of the run. */
  ghost predicate AlwaysExact(s: State, run: seq<Event>)
    decreases |run|
  {
    run == [] || (Exact(s, run[0]) && AlwaysExact(Next(s, run[0]), run[1..]))
  }

  lemma ScanIsFree(s: State, ino: nat, req: Request)
    requires Sane(Locks(s, ino)) && ValidRange(req.start, req.end)
    ensures FirstConflict(Locks(s, ino), req).None? <==> Free(Table(s), ino, req)
  {
    var locks := Locks(s, ino);
    if FirstConflict(locks, req).Some? {
      var l := FirstConflict(locks, req).value;
      var c := Cell(ino, l.owner, l.kind, Max(l.start, req.start));
      var i :| 0 <= i < |locks| && locks[i] == l;
      assert Covers(l, c.byte);
      assert c in Table(s) && InReach(c, ino, req);
    } else {
      forall c | c in Table(s) && InReach(c, ino, req) && c.owner != req.owner ensures !KindsConflict(req.kind, c.kind) {
        var l :| l in locks && l.owner == c.owner && l.kind == c.kind && Covers(l, c.byte);
        var i :| 0 <= i < |locks| && locks[i] == l;
        assert !Stops(locks[i], req);
      }
    }
  }

  lemma GrantMeans(s: State, ino: nat, req: Request, wait: bool)
    requires AllWellFormed(s) && ValidRange(req.start, req.end) && !Wraps(Locks(s, ino), req)
    requires req.kind == Unlock || Free(Table(s), ino, req)
    ensures AllWellFormed(Grant(s, ino, req))
    ensures Table(Grant(s, ino, req)) == TableNext(Table(s), SetLock(ino, req, wait))
  {
    var locks, s' := Locks(s, ino), Grant(s, ino, req);
    ApplyIsOverwriteIff(locks, req, s.nextId);
    var out := Apply(locks, req, s.nextId).locks;
    forall c: Cell ensures c in Table(s') <==> c in TableNext(Table(s), SetLock(ino, req, wait)) {
      if c.ino == ino {
        assert Held(out, c.owner, c.kind, c.byte) <==> Wanted(locks, req.owner, req.kind, req.start, req.end, c.owner, c.kind, c.byte);
      }
    }
  }

  lemma CloseHeld(locks: seq<FileLock>, files: nat, o: Owner, k: LockKind, b: int)
    ensures Held(Without(locks, files), o, k, b) <==> Held(locks, o, k, b) && o.files != files
  {
    var f := NotOf(files);
    forall l ensures l in Without(locks, files) <==> l in locks && f(l) {
      FilterMember(locks, f, l);
    }
  }

  lemma CloseWellFormed(locks: seq<FileLock>, files: nat)
    requires WellFormed(locks)
    ensures WellFormed(Without(locks, files))
  {
    var f := NotOf(files);
    var r := Without(locks, files);
    forall i | 0 <= i < |r| ensures ValidRange(r[i].start, r[i].end) && r[i].kind != Unlock {
      assert r[i] == locks[Source(locks, f, i)];
    }
    forall i, j | 0 <= i < j < |r| && r[i].owner == r[j].owner ensures Apart(r[i], r[j]) {
      SourceOrder(locks, f, i, j);
    }
    forall i, j, k | 0 <= i < j < k < |r| && r[i].owner == r[k].owner ensures r[j].owner == r[i].owner {
      SourceOrder(locks, f, i, j);
      SourceOrder(locks, f, j, k);
      assert locks[Source(locks, f, j)].owner == locks[Source(locks, f, i)].owner;
    }
  }

  lemma CloseMeans(s: State, ino: nat, files: nat)
    requires AllWellFormed(s)
    ensures AllWellFormed(CloseFile(s, ino, files))
    ensures Table(CloseFile(s, ino, files)) == TableNext(Table(s), Close(ino, files))
  {
    var locks, s' := Locks(s, ino), CloseFile(s, ino, files);
    CloseWellFormed(locks, files);
    forall c: Cell ensures c in Table(s') <==> c in TableNext(Table(s), Close(ino, files)) {
      if c.ino == ino { CloseHeld(locks, files, c.owner, c.kind, c.byte); }
    }
  }

  lemma NextMeans(s: State, e: Event)
    requires AllWellFormed(s) && Enabled(s, e) && !GoesWrong(s, e)
    ensures Exact(s, e)
  {
    hide Grant, CloseFile, Wraps, Free, Table, WellFormed, FirstConflict;
    match e
    case SetLock(ino, req, wait) =>
      AllSane(s, ino);
      ScanIsFree(s, ino, req);
      if req.kind == Unlock || FirstConflict(Locks(s, ino), req).None? {
        GrantMeans(s, ino, req, wait);
      } else {
        SameFiles(s, Next(s, e));
      }
    case Close(ino, files) => CloseMeans(s, ino, files);
    case Interrupt(o) => SameFiles(s, Next(s, e));
  }

  /** An event is exact if and only if it does not grant a request of the failing family. */
  lemma NextMeansIff(s: State, e: Event)
    requires AllWellFormed(s) && Enabled(s, e)
    ensures Exact(s, e) <==> !GoesWrong(s, e)
  {
    hide Wraps, WellFormed, Table, Apply;
    if GoesWrong(s, e) {
      EmptyWellFormed();
      WrapsBreaksTheList(Locks(s, e.ino), e.req, s.nextId);
      assert Next(s, e).files[e.ino] == Apply(Locks(s, e.ino), e.req, s.nextId).locks;
    } else {
      NextMeans(s, e);
    }
  }

  lemma EmptyWellFormed()
    ensures WellFormed([])
  {
  }

  lemma AllSane(s: State, ino: nat)
    requires AllWellFormed(s)
    ensures Sane(Locks(s, ino))
  {
  }

  lemma SameFiles(s: State, s': State)
    requires s'.files == s.files
    ensures Table(s') == Table(s)
  {
  }

  /** A run is exact throughout if and only if it grants no request of the failing
      family: the lists stay well formed, denote exactly the table of the byte-by-byte
      machine, and grant and refuse the same requests. Its end then denotes the table that
      the machine arrives at. */
  lemma {:induction false} RunMeansIff(s: State, run: seq<Event>)
    requires AllWellFormed(s) && IsRun(s, run)
    ensures AlwaysExact(s, run) <==> WrapFree(s, run)
    ensures WrapFree(s, run) ==> AllWellFormed(After(s, run)) && Table(After(s, run)) == TableAfter(Table(s), run)
    decreases |run|
  {
    hide GoesWrong, Table, Next, TableNext;
    if run != [] {
      NextMeansIff(s, run[0]);
      if Exact(s, run[0]) { RunMeansIff(Next(s, run[0]), run[1..]); }
    }
  }
}
