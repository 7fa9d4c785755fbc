/** Applying a granted POSIX record lock to the lock list of one file.

    The list is the per-inode chain of `struct file_lock`. `id` stands for the
    address of the structure: sleeping requests refer to the lock that stops
    them by that address, and the list surgery below changes locks in place, so
    the identity of a lock matters as much as its contents.
 */
module RecordLocks {
  import opened Options

  const OFFSET_MAX: int := 0x7FFF_FFFF_FFFF_FFFF
  const OFFSET_MIN: int := -OFFSET_MAX - 1

  /** `x + 1` in the signed 64-bit loff_t. */
  function Succ(x: int): int {
    if x == OFFSET_MAX then OFFSET_MIN else x + 1
  }

  datatype LockKind = Read | Write | Unlock

  datatype Owner = Owner(files: nat, pid: nat)

  datatype FileLock = FileLock(id: nat, owner: Owner, kind: LockKind, start: int, end: int)

  datatype Request = Request(owner: Owner, kind: LockKind, start: int, end: int)

  /** The ranges that flock_to_posix_lock lets through. */
  predicate ValidRange(start: int, end: int) {
    0 <= start <= end <= OFFSET_MAX
  }

  /** The state of the loop over the caller's own locks. `done` is what `before`
      has passed, `todo` what it points at; `start` and `end` are the caller's
      current range and `at` the list entry that the caller aliases, if any. */
  datatype Scan = Scan(done: seq<FileLock>, todo: seq<FileLock>, start: int, end: int,
                       at: Option<nat>, added: bool, left: Option<nat>, right: bool, woken: set<nat>)
  {
    predicate Valid() {
      && (at.Some? ==> at.value < |done|)
      && (left.Some? ==> left.value < |done| || (left.value == |done| && right))
      && (right ==> todo != [])
    }

    /** The scan with the caller's range set to [s, e], in the list as well when it aliases an entry. */
    function SetRange(s: int, e: int): Scan
      requires Valid()
    {
      if at.Some? then
        this.(start := s, end := e, done := done[at.value := done[at.value].(start := s, end := e)])
      else
        this.(start := s, end := e)
    }

    /** locks_delete_lock(before, 0): unlink the current lock and wake its waiters. */
    function Delete(): Scan
      requires todo != []
    {
      this.(todo := todo[1..], woken := woken + {todo[0].id})
    }

    /** Pass the current lock, perhaps rewritten as `fl`. */
    function Pass(fl: FileLock): Scan
      requires todo != []
    {
      this.(done := done + [fl], todo := todo[1..])
    }
  }

  function Min(a: int, b: int): int { if a < b then a else b }
  function Max(a: int, b: int): int { if a > b then a else b }

  datatype Verdict = Continue(s: Scan) | Stop(s: Scan)

  /** Loop body for a lock of the caller's own kind. */
  function VisitSame(s: Scan): Verdict
    requires s.Valid() && !s.right && s.todo != []
  {
    var fl := s.todo[0];
    if fl.end < s.start - 1 then Continue(s.Pass(fl))
    else if fl.start > Succ(s.end) then Stop(s)
    else
      var lo, hi := Min(fl.start, s.start), Max(fl.end, s.end);
      if s.added then Continue(s.SetRange(lo, hi).Delete())
      else Continue(s.Pass(fl.(start := lo, end := hi)).(start := lo, end := hi, at := Some(|s.done|), added := true))
  }

  /** Loop body for a lock of another kind. */
  function VisitOther(s: Scan, kind: LockKind): Verdict
    requires s.Valid() && !s.right && s.todo != []
  {
    var fl := s.todo[0];
    if fl.end < s.start then Continue(s.Pass(fl))
    else if fl.start > s.end then Stop(s)
    else
      var added := s.added || kind == Unlock;
      var left := if fl.start < s.start then Some(|s.done|) else s.left;
      var s1 := s.(added := added, left := left);
      if fl.end > s.end then Stop(s1.(right := true))
      else if fl.start < s.start then Continue(s1.Pass(fl))
      else if added then Continue(s1.Delete())
      else
        Continue(s1.Pass(fl.(start := s.start, end := s.end, kind := kind))
             .(at := Some(|s.done|), added := true, woken := s.woken + {fl.id}))
  }

  function Visit(s: Scan, kind: LockKind): Verdict
    requires s.Valid() && !s.right && s.todo != []
  {
    if s.todo[0].kind == kind then VisitSame(s) else VisitOther(s, kind)
  }

  lemma VisitValid(s: Scan, kind: LockKind)
    requires s.Valid() && !s.right && s.todo != []
    ensures Visit(s, kind).s.Valid() && (Visit(s, kind).Continue? ==> !Visit(s, kind).s.right && |Visit(s, kind).s.todo| < |s.todo|)
  {
    if s.todo[0].kind == kind { VisitSameValid(s); } else { VisitOtherValid(s, kind); }
  }

  lemma VisitSameValid(s: Scan)
    requires s.Valid() && !s.right && s.todo != []
    ensures var v := VisitSame(s); v.s.Valid() && !v.s.right && (v.Continue? ==> |v.s.todo| < |s.todo|)
  {
  }

  lemma VisitOtherValid(s: Scan, kind: LockKind)
    requires s.Valid() && !s.right && s.todo != []
    ensures var v := VisitOther(s, kind); v.s.Valid() && (v.Continue? ==> !v.s.right && |v.s.todo| < |s.todo|)
  {
  }

  /** The whole loop over the locks of `owner` that start at `before`. */
  function ScanOwn(s: Scan, owner: Owner, kind: LockKind): (r: Scan)
    requires s.Valid() && !s.right
    ensures r.Valid()
    decreases |s.todo|
  {
    if s.todo == [] || s.todo[0].owner != owner then s
    else
      VisitValid(s, kind);
      match Visit(s, kind)
      case Continue(s') => ScanOwn(s', owner, kind)
      case Stop(s') => s'
  }

  /** The first lock of `owner` in the list, or its end. */
  function Skip(locks: seq<FileLock>, owner: Owner): (n: nat)
    ensures n <= |locks|
    ensures forall k :: 0 <= k < n ==> locks[k].owner != owner
    ensures n < |locks| ==> locks[n].owner == owner
  {
    if locks == [] || locks[0].owner == owner then 0 else 1 + Skip(locks[1..], owner)
  }

  datatype Outcome = Outcome(locks: seq<FileLock>, woken: set<nat>)

  /** The right remnant of a lock that reaches past the caller. */
  function TrimRight(s: Scan): Scan
    requires s.Valid()
  {
    if s.right then
      s.(todo := s.todo[0 := s.todo[0].(start := s.end + 1)], woken := s.woken + {s.todo[0].id})
    else s
  }

  /** The left remnant of a lock that begins before the caller. */
  function TrimLeft(s: Scan): Scan
    requires s.Valid() && (s.left.Some? ==> s.left.value < |s.done|)
  {
    if s.left.Some? then
      var l := s.left.value;
      s.(done := s.done[l := s.done[l].(end := s.start - 1)], woken := s.woken + {s.done[l].id})
    else s
  }

  /** After the loop: insert the new lock, split and trim. `id` and `id + 1` are
      the two structures allocated in advance. */
  function Finish(s: Scan, req: Request, id: nat): Outcome
    requires s.Valid()
  {
    if !s.added && req.kind == Unlock then Outcome(s.done + s.todo, s.woken)
    else
      var inserted := if s.added then [] else [FileLock(id, req.owner, req.kind, s.start, s.end)];
      if s.left == Some(|s.done|) then
        var s1 := s.(done := s.done + [s.todo[0].(id := id + 1)]);
        var s2 := TrimLeft(TrimRight(s1));
        Outcome(s2.done + inserted + s2.todo, s2.woken)
      else
        var s2 := TrimLeft(TrimRight(s));
        Outcome(s2.done + inserted + s2.todo, s2.woken)
  }

  function Start(locks: seq<FileLock>, req: Request): Scan {
    var n := Skip(locks, req.owner);
    Scan(locks[..n], locks[n..], req.start, req.end, None, false, None, false, {})
  }

  /** The effect of a granted request on the lock list, and the locks whose waiters it wakes. */
  function Apply(locks: seq<FileLock>, req: Request, id: nat): Outcome {
    Finish(ScanOwn(Start(locks, req), req.owner, req.kind), req, id)
  }
}
