/** Who really waits for whom: a sleeping request is stopped by every conflicting lock,
    while the block lists, and with them the deadlock check, know only the first one. */
module LockWaits {
  import opened Options
  import opened Chains
  import opened Relations
  import opened Seqs
  import opened RecordLocks
  import opened LockSystem
  import opened LockRuns

  // ---------- locks of others ----------

  /** Entries that the scan may still rewrite belong to the caller. */
  ghost predicate OwnPlaces(s: Scan, owner: Owner) {
    && s.Valid()
    && (s.at.Some? ==> s.done[s.at.value].owner == owner)
    && (s.left.Some? ==> (if s.left.value < |s.done| then s.done[s.left.value] else s.todo[0]).owner == owner)
    && (s.right ==> s.todo[0].owner == owner)
  }

  /** Every lock of somebody else in `locks` is in `orig`. */
  ghost predicate ForeignIn(locks: seq<FileLock>, orig: seq<FileLock>, owner: Owner) {
    forall i :: 0 <= i < |locks| && locks[i].owner != owner ==> locks[i] in orig
  }

  ghost predicate Foreign(s: Scan, orig: seq<FileLock>, owner: Owner) {
    OwnPlaces(s, owner) && ForeignIn(s.done, orig, owner) && ForeignIn(s.todo, orig, owner)
  }

  lemma ForeignVisitSame(s: Scan, orig: seq<FileLock>, owner: Owner)
    requires Foreign(s, orig, owner) && !s.right && s.todo != [] && s.todo[0].owner == owner
    ensures Foreign(VisitSame(s).s, orig, owner)
  {
  }

  lemma ForeignVisitOther(s: Scan, orig: seq<FileLock>, owner: Owner, kind: LockKind)
    requires Foreign(s, orig, owner) && !s.right && s.todo != [] && s.todo[0].owner == owner
    ensures Foreign(VisitOther(s, kind).s, orig, owner)
  {
  }

  lemma {:induction false} ForeignScan(s: Scan, orig: seq<FileLock>, owner: Owner, kind: LockKind)
    requires Foreign(s, orig, owner) && !s.right
    ensures Foreign(ScanOwn(s, owner, kind), orig, owner)
    decreases |s.todo|
  {
    hide ForeignIn, OwnPlaces, VisitSame, VisitOther;
    ForeignValid(s, orig, owner);
    if s.todo != [] && s.todo[0].owner == owner {
      VisitValid(s, kind);
      if s.todo[0].kind == kind { ForeignVisitSame(s, orig, owner); } else { ForeignVisitOther(s, orig, owner, kind); }
      if Visit(s, kind).Continue? { ForeignScan(Visit(s, kind).s, orig, owner, kind); }
    }
  }

  lemma ForeignValid(s: Scan, orig: seq<FileLock>, owner: Owner)
    requires Foreign(s, orig, owner)
    ensures s.Valid()
  {
  }

  lemma ForeignTrim(s: Scan, orig: seq<FileLock>, owner: Owner)
    requires Foreign(s, orig, owner) && (s.left.Some? ==> s.left.value < |s.done|)
    ensures Foreign(TrimLeft(TrimRight(s)), orig, owner)
  {
  }

  lemma ForeignFinish(s: Scan, orig: seq<FileLock>, req: Request, id: nat)
    requires Foreign(s, orig, req.owner)
    ensures ForeignIn(Finish(s, req, id).locks, orig, req.owner)
  {
    if s.added || req.kind != Unlock {
      if s.left == Some(|s.done|) {
        ForeignTrim(s.(done := s.done + [s.todo[0].(id := id + 1)]), orig, req.owner);
      } else {
        ForeignTrim(s, orig, req.owner);
      }
    }
  }

  /** A granted request changes no lock of anybody else, whatever the list looks like. */
  lemma OthersKept(locks: seq<FileLock>, req: Request, id: nat)
    ensures ForeignIn(Apply(locks, req, id).locks, locks, req.owner)
  {
    hide ScanOwn, Finish;
    ForeignScan(Start(locks, req), locks, req.owner, req.kind);
    ForeignFinish(ScanOwn(Start(locks, req), req.owner, req.kind), locks, req, id);
  }

  // ---------- who waits for whom ----------

  ghost predicate StoppedBy(s: State, ino: nat, req: Request, b: Owner) {
    exists l :: l in Locks(s, ino) && l.owner == b && Stops(l, req)
  }

  ghost predicate WaitsFor(s: State, a: Owner, b: Owner) {
    exists w :: w in s.blocked && w.req.owner == a && StoppedBy(s, w.ino, w.req, b)
  }

  ghost function Waits(s: State): Relation<Owner> {
    iset e: (Owner, Owner) | WaitsFor(s, e.0, e.1)
  }

  ghost function Stoppers(s: State, ino: nat, req: Request): iset<Owner> {
    iset b | StoppedBy(s, ino, req, b)
  }

  lemma AwakeWaitsForNobody(s: State, a: Owner)
    requires !Asleep(s, a)
    ensures forall b :: (a, b) !in Waits(s)
  {
    forall w | w in s.blocked ensures w.req.owner != a {
      var i :| 0 <= i < |s.blocked| && s.blocked[i] == w;
      assert s.blocked[i].req.owner != a;
    }
  }

  /** Fewer sleepers and, but for one owner, no more locks. */
  lemma WaitsShrink(s: State, s': State, o: Owner)
    requires forall w :: w in s'.blocked ==> w in s.blocked
    requires forall ino, l :: l in Locks(s', ino) ==> l in Locks(s, ino) || l.owner == o
    ensures forall a, b :: (a, b) in Waits(s') ==> (a, b) in Waits(s) || b == o
  {
    forall a, b | WaitsFor(s', a, b) ensures WaitsFor(s, a, b) || b == o {
      var w :| w in s'.blocked && w.req.owner == a && StoppedBy(s', w.ino, w.req, b);
      var l :| l in Locks(s', w.ino) && l.owner == b && Stops(l, w.req);
      if b != o { assert StoppedBy(s, w.ino, w.req, b); }
    }
  }

  lemma FewerAsleep(s: State, s': State, o: Owner)
    requires !Asleep(s, o) && forall w :: w in s'.blocked ==> w in s.blocked
    ensures !Asleep(s', o)
  {
    forall i | 0 <= i < |s'.blocked| ensures s'.blocked[i].req.owner != o {
      assert s'.blocked[i] in s.blocked;
    }
  }

  lemma GrantWaits(s: State, ino: nat, req: Request)
    requires NoCycle(Waits(s)) && !Asleep(s, req.owner)
    ensures NoCycle(Waits(Grant(s, ino, req)))
  {
    hide Apply, NoCycle, Waits;
    var s', out := Grant(s, ino, req), Apply(Locks(s, ino), req, s.nextId);
    OthersKept(Locks(s, ino), req, s.nextId);
    forall w ensures w in s'.blocked ==> w in s.blocked { FilterMember(s.blocked, Unwoken(ino, out.woken), w); }
    forall i, l | l in Locks(s', i) ensures l in Locks(s, i) || l.owner == req.owner {
      if i == ino { var k :| 0 <= k < |out.locks| && out.locks[k] == l; }
    }
    WaitsShrink(s, s', req.owner);
    FewerAsleep(s, s', req.owner);
    AwakeWaitsForNobody(s', req.owner);
    NoCycleInto(Waits(s), Waits(s'), req.owner);
  }

  lemma CloseWaits(s: State, ino: nat, files: nat)
    requires NoCycle(Waits(s))
    ensures NoCycle(Waits(CloseFile(s, ino, files)))
  {
    hide NoCycle, Waits;
    var s', ids := CloseFile(s, ino, files), Closed(Locks(s, ino), files);
    forall w ensures w in s'.blocked ==> w in s.blocked { FilterMember(s.blocked, Unwoken(ino, ids), w); }
    forall i, l | l in Locks(s', i) ensures l in Locks(s, i) {
      if i == ino { FilterMember(Locks(s, ino), NotOf(files), l); }
    }
    WaitsFewer(s, s');
    NoCycleSub(Waits(s), Waits(s'));
  }

  lemma WaitsFewer(s: State, s': State)
    requires forall w :: w in s'.blocked ==> w in s.blocked
    requires forall ino, l :: l in Locks(s', ino) ==> l in Locks(s, ino)
    ensures Waits(s') <= Waits(s)
  {
    forall a, b | WaitsFor(s', a, b) ensures WaitsFor(s, a, b) {
      var w :| w in s'.blocked && w.req.owner == a && StoppedBy(s', w.ino, w.req, b);
      var l :| l in Locks(s', w.ino) && l.owner == b && Stops(l, w.req);
      assert StoppedBy(s, w.ino, w.req, b);
    }
  }

  lemma InterruptWaits(s: State, o: Owner)
    requires NoCycle(Waits(s))
    ensures NoCycle(Waits(s.(blocked := Drop(s.blocked, o))))
  {
    hide NoCycle, Waits;
    var s' := s.(blocked := Drop(s.blocked, o));
    forall w ensures w in s'.blocked ==> w in s.blocked { FilterMember(s.blocked, NotBy(o), w); }
    WaitsFewer(s, s');
    NoCycleSub(Waits(s), Waits(s'));
  }

  /** Going to sleep adds an edge to every owner of a lock that stops the request. */
  lemma SleepWaits(s: State, w: Waiter)
    ensures Waits(s.(blocked := [w] + s.blocked)) == AddFrom(Waits(s), w.req.owner, Stoppers(s, w.ino, w.req))
  {
    var s', o := s.(blocked := [w] + s.blocked), w.req.owner;
    forall ino, req, b ensures StoppedBy(s', ino, req, b) <==> StoppedBy(s, ino, req, b) {}
    forall a, b ensures WaitsFor(s', a, b) <==> WaitsFor(s, a, b) || (a == o && StoppedBy(s, w.ino, w.req, b)) {
      assert forall x :: x in s'.blocked <==> x == w || x in s.blocked;
    }
    forall a, b ensures (a, b) in Waits(s') <==> (a, b) in AddFrom(Waits(s), o, Stoppers(s, w.ino, w.req)) {}
  }

  /** A request goes to sleep that some owner of a lock in its way is waiting for, be it
      in several steps. */
  ghost predicate ClosesCycle(s: State, e: Event) {
    && e.SetLock? && Decide(s, e) == Sleeping
    && exists b :: b in Stoppers(s, e.ino, e.req) && Leads(Waits(s), b, e.req.owner)
  }

  /** An event closes a cycle of waiting owners if and only if it is such a request. */
  lemma NextFreeIff(s: State, e: Event)
    requires Enabled(s, e) && NoCycle(Waits(s))
    ensures NoCycle(Waits(Next(s, e))) <==> !ClosesCycle(s, e)
  {
    hide NoCycle, Waits, Grant, CloseFile, Leads, Stoppers;
    match e
    case SetLock(ino, req, wait) =>
      if Decide(s, e) == Granted {
        GrantWaits(s, ino, req);
      } else if Decide(s, e) == Sleeping {
        AwakeWaitsForNobody(s, req.owner);
        SleepWaits(s, Waiter(ino, req, FirstConflict(Locks(s, ino), req).value.id));
        AddFromIff(Waits(s), req.owner, Stoppers(s, ino, req));
      }
    case Close(ino, files) => CloseWaits(s, ino, files);
    case Interrupt(o) => InterruptWaits(s, o);
  }

  ghost predicate AlwaysFree(s: State, run: seq<Event>)
    decreases |run|
  {
    NoCycle(Waits(s)) && (run == [] || AlwaysFree(Next(s, run[0]), run[1..]))
  }

  ghost predicate NeverCloses(s: State, run: seq<Event>)
    decreases |run|
  {
    run == [] || (!ClosesCycle(s, run[0]) && NeverCloses(Next(s, run[0]), run[1..]))
  }

  /** A run is free of deadlock throughout if and only if none of its requests closes a cycle. */
  lemma {:induction false} RunFreeIff(s: State, run: seq<Event>)
    requires IsRun(s, run) && NoCycle(Waits(s))
    ensures AlwaysFree(s, run) <==> NeverCloses(s, run)
    decreases |run|
  {
    hide NoCycle, Waits, ClosesCycle, Next;
    if run != [] {
      NextFreeIff(s, run[0]);
      if NoCycle(Waits(Next(s, run[0]))) { RunFreeIff(Next(s, run[0]), run[1..]); }
    }
  }

  lemma InitFree()
    ensures NoCycle(Waits(Init))
  {
    forall p ensures !Cycle(Waits(Init), p) {
      if Path(Waits(Init), p) && |p| >= 2 { assert Step(Waits(Init), p, 0); }
    }
  }

  /** So every run of the system is free of deadlock throughout exactly in that case. */
  lemma SystemFreeIff(run: seq<Event>)
    requires IsRun(Init, run)
    ensures AlwaysFree(Init, run) <==> NeverCloses(Init, run)
  {
    InitFree();
    RunFreeIff(Init, run);
  }

  // ---------- what the deadlock check sees ----------

  /** The recorded edge is one of the real ones. */
  lemma EdgeIsReal(s: State, a: Owner)
    requires Inv(s) && a in Edges(s.files, s.blocked)
    ensures (a, Edges(s.files, s.blocked)[a]) in Waits(s)
  {
    var i := EdgeFrom(s.files, s.blocked, a);
    var w := s.blocked[i];
    assert Justified(s, w);
    var l :| l in Locks(s, w.ino) && l.id == w.blocker && Stops(l, w.req);
    FindUnique(Locks(s, w.ino), s.nextId, l);
    assert StoppedBy(s, w.ino, w.req, l.owner);
  }

  lemma {:induction false} ChainLeads(s: State, a: Owner, b: Owner, n: nat)
    requires Inv(s) && Chain(Edges(s.files, s.blocked), a, n) == Some(b)
    ensures Leads(Waits(s), a, b)
    decreases n
  {
    hide Inv, Waits;
    var g := Edges(s.files, s.blocked);
    if n == 0 {
      assert PathFrom(Waits(s), a, a, [a]);
    } else {
      EdgeIsReal(s, a);
      ChainLeads(s, g[a], b, n - 1);
      var p :| PathFrom(Waits(s), g[a], b, p);
      PathCons(Waits(s), a, p);
      assert PathFrom(Waits(s), a, b, [a] + p);
    }
  }

  /** -EDEADLK is no false alarm: the request would have closed a cycle. */
  lemma NoFalseAlarm(s: State, e: Event)
    requires Inv(s) && e.SetLock? && Decide(s, e) == Deadlock
    ensures exists b :: b in Stoppers(s, e.ino, e.req) && Leads(Waits(s), b, e.req.owner)
  {
    hide Inv, Waits;
    var c := FirstConflict(Locks(s, e.ino), e.req).value;
    assert StoppedBy(s, e.ino, e.req, c.owner);
    var n: nat :| Chain(Edges(s.files, s.blocked), c.owner, n) == Some(e.req.owner);
    ChainLeads(s, c.owner, e.req.owner, n);
  }

  ghost predicate StoppedByTwo(s: State, a: Owner) {
    exists b, c :: b != c && WaitsFor(s, a, b) && WaitsFor(s, a, c)
  }

  lemma OnlyEdge(s: State, a: Owner, b: Owner)
    requires Inv(s) && WaitsFor(s, a, b) && !StoppedByTwo(s, a)
    ensures a in Edges(s.files, s.blocked) && Edges(s.files, s.blocked)[a] == b
  {
    var w :| w in s.blocked && w.req.owner == a && StoppedBy(s, w.ino, w.req, b);
    var i :| 0 <= i < |s.blocked| && s.blocked[i] == w;
    SleeperEdge(s, i);
    EdgeIsReal(s, a);
  }

  lemma {:induction false} CycleIsChain(s: State, p: seq<Owner>, k: nat)
    requires Inv(s) && Path(Waits(s), p) && k < |p|
    requires forall i :: 0 <= i < k ==> !StoppedByTwo(s, p[i])
    ensures Chain(Edges(s.files, s.blocked), p[0], k) == Some(p[k])
  {
    hide Inv, StoppedByTwo;
    if k > 0 {
      CycleIsChain(s, p, k - 1);
      assert Step(Waits(s), p, k - 1);
      OnlyEdge(s, p[k - 1], p[k]);
      var g := Edges(s.files, s.blocked);
      ChainAdd(g, p[0], k - 1, 1);
      assert Chain(g, p[k - 1], 1) == Chain(g, g[p[k - 1]], 0);
    }
  }

  /** In a deadlock that gets past the check somebody is stopped by two owners. */
  lemma DeadlockNeedsTwo(s: State, p: seq<Owner>)
    requires Inv(s) && Cycle(Waits(s), p)
    ensures exists i :: 0 <= i < |p| - 1 && StoppedByTwo(s, p[i])
  {
    if forall i :: 0 <= i < |p| - 1 ==> !StoppedByTwo(s, p[i]) {
      CycleIsChain(s, p, |p| - 1);
      assert false;
    }
  }

  /** Over every run: where nobody is stopped by two owners there is no deadlock. */
  lemma OneStopperNoDeadlock(run: seq<Event>)
    requires IsRun(Init, run) && forall a :: !StoppedByTwo(After(Init, run), a)
    ensures NoCycle(Waits(After(Init, run)))
  {
    hide Inv, StoppedByTwo, Waits;
    InitInv();
    InvRun(Init, run);
    var s := After(Init, run);
    forall p ensures !Cycle(Waits(s), p) {
      if Cycle(Waits(s), p) { DeadlockNeedsTwo(s, p); }
    }
  }

  lemma InitInv()
    ensures Inv(Init)
  {
  }

  // ---------- a deadlock that gets past the check ----------

  /** The first lock of an owner on a file goes to the end of the list. */
  lemma FirstLock(locks: seq<FileLock>, req: Request, id: nat)
    requires req.kind != Unlock && forall i :: 0 <= i < |locks| ==> locks[i].owner != req.owner
    ensures Apply(locks, req, id) == Outcome(locks + [FileLock(id, req.owner, req.kind, req.start, req.end)], {})
  {
    var n := Skip(locks, req.owner);
    assert n == |locks| && locks[..n] == locks && locks[n..] == [];
    assert locks + [FileLock(id, req.owner, req.kind, req.start, req.end)] + [] ==
           locks + [FileLock(id, req.owner, req.kind, req.start, req.end)];
  }

  const READER := Owner(1, 1)
  const BOTH := Owner(2, 2)
  const WRITER := Owner(3, 3)

  function Byte0(o: Owner, kind: LockKind): Request { Request(o, kind, 0, 0) }

  function Ask(ino: nat, o: Owner, kind: LockKind): Event { SetLock(ino, Byte0(o, kind), true) }

  function Lock0(id: nat, o: Owner, kind: LockKind): FileLock { FileLock(id, o, kind, 0, 0) }

  const READERS := [Lock0(0, READER, Read), Lock0(2, BOTH, Read)]
  const WRITERS := [Lock0(4, WRITER, Write)]
  const FILES: map<nat, seq<FileLock>> := map[7 := READERS, 8 := WRITERS]

  const FIVE := [Ask(7, READER, Read), Ask(7, BOTH, Read), Ask(8, WRITER, Write), Ask(7, WRITER, Write), Ask(8, BOTH, Write)]

  const STUCK := State(FILES, [Waiter(8, Byte0(BOTH, Write), 4), Waiter(7, Byte0(WRITER, Write), 0)], 6)

  lemma GrantedFirst(s: State, ino: nat, req: Request)
    requires s.blocked == [] && req.kind != Unlock
    requires forall i :: 0 <= i < |Locks(s, ino)| ==> Locks(s, ino)[i].owner != req.owner && !Stops(Locks(s, ino)[i], req)
    ensures Next(s, SetLock(ino, req, true)) ==
            State(s.files[ino := Locks(s, ino) + [FileLock(s.nextId, req.owner, req.kind, req.start, req.end)]], [], s.nextId + 2)
  {
    FirstLock(Locks(s, ino), req, s.nextId);
  }

  const ONE := State(map[7 := [Lock0(0, READER, Read)]], [], 2)
  const TWO := State(map[7 := READERS], [], 4)
  const THREE := State(FILES, [], 6)
  const FOUR := State(FILES, [Waiter(7, Byte0(WRITER, Write), 0)], 6)

  lemma FirstReader()
    ensures Enabled(Init, Ask(7, READER, Read)) && Next(Init, Ask(7, READER, Read)) == ONE
  {
    GrantedFirst(Init, 7, Byte0(READER, Read));
    assert [] + [Lock0(0, READER, Read)] == [Lock0(0, READER, Read)];
  }

  lemma SecondReader()
    ensures Enabled(ONE, Ask(7, BOTH, Read)) && Next(ONE, Ask(7, BOTH, Read)) == TWO
  {
    GrantedFirst(ONE, 7, Byte0(BOTH, Read));
    assert [Lock0(0, READER, Read)] + [Lock0(2, BOTH, Read)] == READERS;
    assert ONE.files[7 := READERS] == TWO.files;
  }

  lemma FirstWriter()
    ensures Enabled(TWO, Ask(8, WRITER, Write)) && Next(TWO, Ask(8, WRITER, Write)) == THREE
  {
    GrantedFirst(TWO, 8, Byte0(WRITER, Write));
    assert [] + [Lock0(4, WRITER, Write)] == WRITERS;
    assert TWO.files[8 := WRITERS] == FILES;
  }

  /** The writer is queued behind the first of the two readers alone. */
  lemma WriterSleeps()
    ensures Enabled(THREE, Ask(7, WRITER, Write)) && Next(THREE, Ask(7, WRITER, Write)) == FOUR
  {
    var e, g := Ask(7, WRITER, Write), Edges(THREE.files, THREE.blocked);
    assert FirstConflict(READERS, e.req) == Some(Lock0(0, READER, Read));
    assert !Reaches(g, READER, WRITER) by {
      NothingBeyond(g, READER, 0, WRITER);
    }
    assert [Waiter(7, Byte0(WRITER, Write), 0)] + [] == FOUR.blocked;
  }

  lemma OneSleeper(files: map<nat, seq<FileLock>>, w: Waiter)
    requires w.ino in files && Find(files[w.ino], w.blocker).Some?
    ensures Edges(files, [w]) == map[w.req.owner := Find(files[w.ino], w.blocker).value.owner]
  {
    assert [w][1..] == [] && Edges(files, []) == map[];
  }

  /** The check follows the writer to the first reader and finds nobody asleep there. */
  lemma ReaderSleeps()
    ensures Enabled(FOUR, Ask(8, BOTH, Write)) && Next(FOUR, Ask(8, BOTH, Write)) == STUCK
  {
    var e, g := Ask(8, BOTH, Write), Edges(FOUR.files, FOUR.blocked);
    assert FirstConflict(WRITERS, e.req) == Some(Lock0(4, WRITER, Write));
    assert Find(READERS, 0) == Some(Lock0(0, READER, Read));
    OneSleeper(FILES, Waiter(7, Byte0(WRITER, Write), 0));
    assert !Reaches(g, WRITER, BOTH) by {
      assert Chain(g, WRITER, 0) == Some(WRITER);
      assert Chain(g, WRITER, 1) == Chain(g, READER, 0) == Some(READER);
      NothingBeyond(g, WRITER, 1, BOTH);
    }
    assert [Waiter(8, Byte0(BOTH, Write), 4)] + FOUR.blocked == STUCK.blocked;
  }

  lemma RunStep(s: State, e: Event, s': State, run: seq<Event>, t: State)
    requires Enabled(s, e) && Next(s, e) == s' && IsRun(s', run) && After(s', run) == t
    ensures IsRun(s, [e] + run) && After(s, [e] + run) == t
  {
    assert ([e] + run)[1..] == run;
  }

  lemma StuckCycle()
    ensures Cycle(Waits(STUCK), [WRITER, BOTH, WRITER])
  {
    var p := [WRITER, BOTH, WRITER];
    assert READERS[1] in Locks(STUCK, 7) && Stops(READERS[1], Byte0(WRITER, Write));
    assert WRITERS[0] in Locks(STUCK, 8) && Stops(WRITERS[0], Byte0(BOTH, Write));
    assert STUCK.blocked[0] in STUCK.blocked && STUCK.blocked[1] in STUCK.blocked;
    assert StoppedBy(STUCK, 7, Byte0(WRITER, Write), BOTH) && StoppedBy(STUCK, 8, Byte0(BOTH, Write), WRITER);
    assert WaitsFor(STUCK, WRITER, BOTH) && WaitsFor(STUCK, BOTH, WRITER);
    assert Step(Waits(STUCK), p, 0) && Step(Waits(STUCK), p, 1);
  }

  /** Two readers of one file and a writer of another; the writer waits for both readers, and
      the second reader then waits for the writer: each is stopped by a lock of the other,
      and neither request was refused. */
  lemma DeadlockPastTheCheck()
    ensures IsRun(Init, FIVE) && After(Init, FIVE) == STUCK && Cycle(Waits(STUCK), [WRITER, BOTH, WRITER])
  {
    hide Next, Enabled, Waits, IsRun, After;
    RunEnds(STUCK);
    FirstReader();
    SecondReader();
    FirstWriter();
    WriterSleeps();
    ReaderSleeps();
    RunStep(FOUR, FIVE[4], STUCK, [], STUCK);
    RunStep(THREE, FIVE[3], FOUR, [FIVE[4]] + [], STUCK);
    RunStep(TWO, FIVE[2], THREE, [FIVE[3]] + ([FIVE[4]] + []), STUCK);
    RunStep(ONE, FIVE[1], TWO, [FIVE[2]] + ([FIVE[3]] + ([FIVE[4]] + [])), STUCK);
    RunStep(Init, FIVE[0], ONE, [FIVE[1]] + ([FIVE[2]] + ([FIVE[3]] + ([FIVE[4]] + []))), STUCK);
    assert [FIVE[0]] + ([FIVE[1]] + ([FIVE[2]] + ([FIVE[3]] + ([FIVE[4]] + [])))) == FIVE;
    StuckCycle();
  }

  lemma RunEnds(s: State)
    ensures IsRun(s, []) && After(s, []) == s
  {
  }
}
