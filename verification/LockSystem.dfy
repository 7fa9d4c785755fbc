/** All POSIX locks of a system and the requests asleep on them, as a machine
    that moves by fcntl calls, closes and signals, in any order. */
module LockSystem {
  import opened Options
  import opened RecordLocks
  import opened LockEffects
  import opened Chains
  import opened Seqs

  /** A request asleep on the lock `blocker` of file `ino` (fl_next of the request). */
  datatype Waiter = Waiter(ino: nat, req: Request, blocker: nat)

  /** `blocked` is the global blocked_list, newest first. */
  datatype State = State(files: map<nat, seq<FileLock>>, blocked: seq<Waiter>, nextId: nat)

  datatype Event =
    | SetLock(ino: nat, req: Request, wait: bool)
    | Close(ino: nat, files: nat)
    | Interrupt(owner: Owner)

  function Locks(s: State, ino: nat): seq<FileLock> {
    if ino in s.files then s.files[ino] else []
  }

  // ---------- conflicts ----------

  predicate Overlap(s1: int, e1: int, s2: int, e2: int) {
    e1 >= s2 && e2 >= s1
  }

  /** locks_conflict: does a lock of kind `held` stop a request of kind `asked`? */
  predicate KindsConflict(asked: LockKind, held: LockKind) {
    match asked
    case Read => held == Write
    case Write => true
    case Unlock => false
  }

  /** posix_locks_conflict(caller, sys). */
  predicate Stops(l: FileLock, req: Request) {
    l.owner != req.owner && Overlap(req.start, req.end, l.start, l.end) && KindsConflict(req.kind, l.kind)
  }

  /** The first lock that stops the request (the scan of posix_lock_file). */
  function FirstConflict(locks: seq<FileLock>, req: Request): (r: Option<FileLock>)
    ensures r.Some? ==> r.value in locks && Stops(r.value, req)
    ensures r.None? ==> forall i :: 0 <= i < |locks| ==> !Stops(locks[i], req)
  {
    if locks == [] then None
    else if Stops(locks[0], req) then Some(locks[0])
    else FirstConflict(locks[1..], req)
  }

  /** posix_test_lock: the same scan with the two arguments of the test swapped. */
  function TestLock(locks: seq<FileLock>, req: Request): Option<FileLock> {
    if locks == [] then None
    else
      var l := locks[0];
      if l.owner != req.owner && Overlap(l.start, l.end, req.start, req.end) && KindsConflict(l.kind, req.kind) then Some(l)
      else TestLock(locks[1..], req)
  }

  // ---------- waiting ----------

  function Find(locks: seq<FileLock>, id: nat): (r: Option<FileLock>)
    ensures r.Some? ==> r.value in locks && r.value.id == id
    ensures r.None? ==> forall i :: 0 <= i < |locks| ==> locks[i].id != id
  {
    if locks == [] then None
    else if locks[0].id == id then Some(locks[0])
    else Find(locks[1..], id)
  }

  /** Who waits for whom. */
  function Edges(files: map<nat, seq<FileLock>>, blocked: seq<Waiter>): Graph<Owner> {
    if blocked == [] then map[]
    else
      var w, g := blocked[0], Edges(files, blocked[1..]);
      var l := Find(if w.ino in files then files[w.ino] else [], w.blocker);
      if l.Some? then g[w.req.owner := l.value.owner] else g
  }

  function Unwoken(ino: nat, ids: set<nat>): Waiter -> bool {
    (w: Waiter) => !(w.ino == ino && w.blocker in ids)
  }

  /** locks_wake_up_blocks on all of `ids`: their waiters leave the block lists. */
  function Wake(blocked: seq<Waiter>, ino: nat, ids: set<nat>): seq<Waiter> {
    Filter(blocked, Unwoken(ino, ids))
  }

  function NotBy(o: Owner): Waiter -> bool {
    (w: Waiter) => w.req.owner != o
  }

  /** locks_delete_block on the request of one owner. */
  function Drop(blocked: seq<Waiter>, o: Owner): seq<Waiter> {
    Filter(blocked, NotBy(o))
  }

  function NotOf(files: nat): FileLock -> bool {
    (l: FileLock) => l.owner.files != files
  }

  /** locks_remove_posix: the locks of one file left after a close. */
  function Without(locks: seq<FileLock>, files: nat): seq<FileLock> {
    Filter(locks, NotOf(files))
  }

  function Closed(locks: seq<FileLock>, files: nat): set<nat> {
    set i | 0 <= i < |locks| && locks[i].owner.files == files :: locks[i].id
  }

  // ---------- the machine ----------

  predicate Asleep(s: State, o: Owner) {
    exists i :: 0 <= i < |s.blocked| && s.blocked[i].req.owner == o
  }

  /** A task that sleeps in one call cannot make another. */
  predicate Enabled(s: State, e: Event) {
    e.SetLock? ==> ValidRange(e.req.start, e.req.end) && !Asleep(s, e.req.owner)
  }

  datatype Reply = Granted | Again | Deadlock | Sleeping

  ghost function Decide(s: State, e: Event): Reply
    requires e.SetLock?
  {
    var c := FirstConflict(Locks(s, e.ino), e.req);
    if e.req.kind == Unlock || c.None? then Granted
    else if !e.wait then Again
    else if Reaches(Edges(s.files, s.blocked), c.value.owner, e.req.owner) then Deadlock
    else Sleeping
  }

  function Grant(s: State, ino: nat, req: Request): State {
    var out := Apply(Locks(s, ino), req, s.nextId);
    State(s.files[ino := out.locks], Wake(s.blocked, ino, out.woken), s.nextId + 2)
  }

  function CloseFile(s: State, ino: nat, files: nat): State {
    s.(files := s.files[ino := Without(Locks(s, ino), files)],
       blocked := Wake(s.blocked, ino, Closed(Locks(s, ino), files)))
  }

  ghost function Next(s: State, e: Event): State {
    match e
    case SetLock(ino, req, wait) =>
      (match Decide(s, e)
       case Granted => Grant(s, ino, req)
       case Sleeping =>
         var c := FirstConflict(Locks(s, ino), req);
         s.(blocked := [Waiter(ino, req, c.value.id)] + s.blocked)
       case _ => s)
    case Close(ino, files) => CloseFile(s, ino, files)
    case Interrupt(o) => s.(blocked := Drop(s.blocked, o))
  }

  const Init := State(map[], [], 0)

  ghost predicate IsRun(s: State, run: seq<Event>)
    decreases |run|
  {
    run == [] || (Enabled(s, run[0]) && IsRun(Next(s, run[0]), run[1..]))
  }

  ghost function After(s: State, run: seq<Event>): State
    decreases |run|
  {
    if run == [] then s else After(Next(s, run[0]), run[1..])
  }

  // ---------- what every state satisfies ----------

  /** Locks of different owners on one byte are both read locks. */
  ghost predicate Exclusive(locks: seq<FileLock>) {
    forall o, o', k, k', b :: o != o' && Held(locks, o, k, b) && Held(locks, o', k', b) ==> k == Read && k' == Read
  }

  /** A sleeping request is still stopped by the very lock it sleeps on. */
  ghost predicate Justified(s: State, w: Waiter) {
    exists l :: l in Locks(s, w.ino) && l.id == w.blocker && Stops(l, w.req)
  }

  ghost predicate SleepOnce(blocked: seq<Waiter>) {
    forall i, j :: 0 <= i < j < |blocked| ==> blocked[i].req.owner != blocked[j].req.owner
  }

  ghost predicate FileOk(locks: seq<FileLock>, bound: nat) {
    Unique(locks, bound) && NoUnlocks(locks) && Exclusive(locks)
  }

  ghost predicate Inv(s: State) {
    && (forall ino :: ino in s.files ==> FileOk(s.files[ino], s.nextId))
    && (forall i :: 0 <= i < |s.blocked| ==> Justified(s, s.blocked[i]))
    && SleepOnce(s.blocked)
    && Acyclic(Edges(s.files, s.blocked))
  }
}
