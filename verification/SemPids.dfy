/** sempid, which GETPID shows: try_atomic_semop shifts the caller in for every operation
    and shifts it out again when the vector fails. */
module SemPids {
  import opened Semaphores

  const HALF: nat := 0x1_0000
  const PID_LIMIT: nat := 0x8000

  /** What the low half shows is the last process, the high half the one before it. */
  ghost predicate PidPair(x: nat) {
    x % HALF < PID_LIMIT && x / HALF < PID_LIMIT
  }

  /** (x << 16) | pid in 32 bits. */
  function Push(x: nat, pid: nat): nat { x % HALF * HALF + pid }

  /** x >> 16. */
  function Pop(x: nat): nat { x / HALF }

  /** GETPID. */
  function Shown(x: nat): nat { x % HALF }

  function PushN(x: nat, pid: nat, m: nat): nat {
    if m == 0 then x else Push(PushN(x, pid, m - 1), pid)
  }

  function PopN(x: nat, n: nat): nat {
    if n == 0 then x else Pop(PopN(x, n - 1))
  }

  /** Does the wait-for-zero exit, which comes before the shift, end the vector here? */
  predicate Early(v: Vals, op: SemOp)
    requires op.num < |v.semval|
  {
    op.op == 0 && v.semval[op.num] != 0
  }

  /** The sempid of semaphore i after the forward loop. */
  function Forth(x: nat, pid: nat, v: Vals, ops: seq<SemOp>, i: nat): nat
    requires |v.semval| == |v.semadj| && InSet(ops, |v.semval|)
    decreases |ops|
  {
    if ops == [] || Early(v, ops[0]) then x
    else
      var x' := if ops[0].num == i then Push(x, pid) else x;
      match Step(v, ops[0])
      case Fail(_) => x'
      case Ok(v') => Forth(x', pid, v', ops[1..], i)
  }

  /** How many operations on semaphore i the reverse loop takes back: those up to and with
      the one that failed. */
  function TakenBack(v: Vals, ops: seq<SemOp>, i: nat): nat
    requires |v.semval| == |v.semadj| && InSet(ops, |v.semval|)
    decreases |ops|
  {
    if ops == [] then 0
    else
      (if ops[0].num == i then 1 else 0) +
      match Step(v, ops[0])
      case Fail(_) => 0
      case Ok(v') => TakenBack(v', ops[1..], i)
  }

  /** Does the vector end at a wait-for-zero exit on semaphore i? */
  predicate EndsEarly(v: Vals, ops: seq<SemOp>, i: nat)
    requires |v.semval| == |v.semadj| && InSet(ops, |v.semval|)
    decreases |ops|
  {
    ops != [] &&
    match Step(v, ops[0])
    case Fail(_) => ops[0].num == i && Early(v, ops[0])
    case Ok(v') => EndsEarly(v', ops[1..], i)
  }

  /** How many of the first k operations are on semaphore i. */
  function Count(ops: seq<SemOp>, k: nat, i: nat): nat
    requires k <= |ops|
  {
    if k == 0 then 0 else Count(ops, k - 1, i) + if ops[k - 1].num == i then 1 else 0
  }

  lemma {:induction false} CountSame(a: seq<SemOp>, b: seq<SemOp>, k: nat, i: nat)
    requires k <= |a| == |b| && forall j :: 0 <= j < |a| ==> a[j].num == b[j].num
    ensures Count(a, k, i) == Count(b, k, i)
  {
    if k > 0 { CountSame(a, b, k - 1, i); }
  }

  lemma {:induction false} PopFirst(x: nat, n: nat)
    ensures PopN(Pop(x), n) == PopN(x, n + 1)
  {
    if n > 0 { PopFirst(x, n - 1); }
  }

  /** The sempid of semaphore i after a vector that failed or was only tried. */
  function SempidAfter(x: nat, pid: nat, v: Vals, ops: seq<SemOp>, i: nat): nat
    requires |v.semval| == |v.semadj| && InSet(ops, |v.semval|)
  {
    PopN(Forth(x, pid, v, ops, i), TakenBack(v, ops, i))
  }

  lemma {:induction false} PushMore(x: nat, pid: nat, m: nat)
    ensures PushN(Push(x, pid), pid, m) == PushN(x, pid, m + 1)
  {
    if m > 0 { PushMore(x, pid, m - 1); }
  }

  /** The forward loop shifts in once for every operation that the reverse loop takes back,
      but for an early exit. */
  lemma {:induction false} ForthPushes(x: nat, pid: nat, v: Vals, ops: seq<SemOp>, i: nat)
    requires |v.semval| == |v.semadj| && InSet(ops, |v.semval|)
    ensures EndsEarly(v, ops, i) ==> TakenBack(v, ops, i) > 0
    ensures Forth(x, pid, v, ops, i) == PushN(x, pid, TakenBack(v, ops, i) - if EndsEarly(v, ops, i) then 1 else 0)
    decreases |ops|
  {
    if ops != [] && !Early(v, ops[0]) {
      var x' := if ops[0].num == i then Push(x, pid) else x;
      var t := Step(v, ops[0]);
      if t.Ok? {
        ForthPushes(x', pid, t.v, ops[1..], i);
        if ops[0].num == i {
          PushMore(x, pid, TakenBack(t.v, ops[1..], i) - if EndsEarly(t.v, ops[1..], i) then 1 else 0);
        }
      } else {
        assert PushN(x, pid, 0) == x;
      }
    }
  }

  lemma PushPop(x: nat, pid: nat)
    requires pid < PID_LIMIT
    ensures Pop(Push(x, pid)) == Shown(x) && Shown(Push(x, pid)) == pid
  {
  }

  lemma PushTwice(x: nat, pid: nat, m: nat)
    requires pid < PID_LIMIT && m >= 2
    ensures PushN(x, pid, m) == pid * HALF + pid
  {
    PushPop(PushN(x, pid, m - 2), pid);
  }

  lemma {:induction false} PopToZero(x: nat, n: nat)
    requires x < HALF * HALF && n >= 2
    ensures PopN(x, n) == 0
    decreases n
  {
    if n > 2 {
      PopToZero(x, n - 1);
    } else {
      assert PopN(x, 0) == x && PopN(x, 1) == Pop(PopN(x, 0)) && PopN(x, 2) == Pop(PopN(x, 1));
    }
  }

  /** m times in and n times out. */
  lemma InAndOut(x: nat, pid: nat, m: nat, n: nat)
    requires PidPair(x) && pid < PID_LIMIT && m <= n <= m + 1
    ensures Shown(PopN(PushN(x, pid, m), n)) ==
            if n == 0 || (m == 1 && n == 1) then Shown(x)
            else if n == 1 then x / HALF
            else 0
  {
    if m == 0 {
      assert PushN(x, pid, 0) == x;
      if n == 1 { assert PopN(x, 1) == Pop(PopN(x, 0)); }
    } else if m == 1 {
      assert PushN(x, pid, 1) == Push(PushN(x, pid, 0), pid);
      PushPop(x, pid);
      if n == 1 { assert PopN(Push(x, pid), 1) == Pop(PopN(Push(x, pid), 0)); } else { PopToZero(Push(x, pid), n); }
    } else {
      PushTwice(x, pid, m);
      PopToZero(pid * HALF + pid, n);
    }
  }

  /** A vector that fails leaves what GETPID shows for semaphore i unchanged if and only if it
      took back no operation on i, or just one that had been shifted in, or one that had not
      where both halves show the same process, or several where nobody was shown. */
  lemma GetpidKeptIff(x: nat, pid: nat, v: Vals, ops: seq<SemOp>, i: nat)
    requires |v.semval| == |v.semadj| && InSet(ops, |v.semval|) && PidPair(x) && pid < PID_LIMIT
    ensures var n := TakenBack(v, ops, i);
            Shown(SempidAfter(x, pid, v, ops, i)) == Shown(x) <==>
              || n == 0
              || (n == 1 && (EndsEarly(v, ops, i) ==> x / HALF == Shown(x)))
              || (n >= 2 && Shown(x) == 0)
  {
    var n := TakenBack(v, ops, i);
    ForthPushes(x, pid, v, ops, i);
    InAndOut(x, pid, n - if EndsEarly(v, ops, i) then 1 else 0, n);
  }

  /** Processes 5 and 7 have operated on a semaphore that is 1; process 9 tries whether it is
      zero; GETPID then shows 5. */
  lemma WrongPidShown()
    ensures var v, ops := Vals([1], [0]), [SemOp(0, 0, false, true)];
            && Exec(v, ops) == Fail(Again) && Shown(Push(Push(0, 5), 7)) == 7
            && Shown(SempidAfter(Push(Push(0, 5), 7), 9, v, ops, 0)) == 5
  {
    var v, ops := Vals([1], [0]), [SemOp(0, 0, false, true)];
    var x := Push(Push(0, 5), 7);
    assert Early(v, ops[0]) && Forth(x, 9, v, ops, 0) == x;
    assert TakenBack(v, ops, 0) == 1;
    assert PopN(x, 1) == Pop(PopN(x, 0));
  }

  // ---------- all semaphores of a set ----------

  /** sempid by semaphore, 0 where nobody has written it. */
  type Pids = map<nat, nat>

  function At(pids: Pids, i: nat): nat { if i in pids then pids[i] else 0 }

  /** One operation has been shifted in, unless it is an early exit. */
  ghost predicate Pushed(was: Pids, now: Pids, pid: nat, v: Vals, op: SemOp)
    requires op.num < |v.semval|
  {
    forall i :: At(now, i) == if i == op.num && !Early(v, op) then Push(At(was, i), pid) else At(was, i)
  }

  /** After k operations, which have led to w, what is left leads to the same sempids. */
  ghost predicate ForthFrom(was: Pids, now: Pids, pid: nat, v: Vals, ops: seq<SemOp>, k: nat, w: Vals)
    requires |v.semval| == |v.semadj| == |w.semval| == |w.semadj| && InSet(ops, |v.semval|) && k <= |ops|
  {
    forall i :: Forth(At(was, i), pid, v, ops, i) == Forth(At(now, i), pid, w, ops[k..], i)
  }

  /** The forward loop has ended. */
  ghost predicate ForthDone(was: Pids, now: Pids, pid: nat, v: Vals, ops: seq<SemOp>)
    requires |v.semval| == |v.semadj| && InSet(ops, |v.semval|)
  {
    forall i :: At(now, i) == Forth(At(was, i), pid, v, ops, i)
  }

  /** The reverse loop has taken back the first n operations. */
  ghost predicate BackDone(was: Pids, now: Pids, ops: seq<SemOp>, n: nat)
    requires n <= |ops|
  {
    forall i :: At(now, i) == PopN(At(was, i), Count(ops, n, i))
  }

  /** The operations to take back are the k that were performed and those of what is left. */
  ghost predicate CountFrom(v: Vals, ops: seq<SemOp>, k: nat, w: Vals)
    requires |v.semval| == |v.semadj| == |w.semval| == |w.semadj| && InSet(ops, |v.semval|) && k <= |ops|
  {
    forall i :: TakenBack(v, ops, i) == Count(ops, k, i) + TakenBack(w, ops[k..], i)
  }

  ghost predicate CountDone(v: Vals, ops: seq<SemOp>, done: seq<SemOp>, n: nat)
    requires |v.semval| == |v.semadj| && InSet(ops, |v.semval|) && n <= |done|
  {
    forall i :: TakenBack(v, ops, i) == Count(done, n, i)
  }

  lemma PidsBegin(was: Pids, pid: nat, v: Vals, ops: seq<SemOp>)
    requires |v.semval| == |v.semadj| && InSet(ops, |v.semval|)
    ensures ForthFrom(was, was, pid, v, ops, 0, v) && CountFrom(v, ops, 0, v)
  {
    assert ops[0..] == ops;
  }

  lemma PidsStep(was: Pids, now: Pids, next: Pids, pid: nat, v: Vals, ops: seq<SemOp>, k: nat, w: Vals)
    requires |v.semval| == |v.semadj| == |w.semval| == |w.semadj| && InSet(ops, |v.semval|) && k < |ops|
    requires ForthFrom(was, now, pid, v, ops, k, w) && CountFrom(v, ops, k, w) && Pushed(now, next, pid, w, ops[k])
    ensures match Step(w, ops[k])
            case Ok(w') => |w'.semval| == |w'.semadj| == |v.semval| &&
              ForthFrom(was, next, pid, v, ops, k + 1, w') && CountFrom(v, ops, k + 1, w')
            case Fail(_) => ForthDone(was, next, pid, v, ops) && CountDone(v, ops, ops, k + 1)
  {
    hide Push;
    assert ops[k..][0] == ops[k] && ops[k..][1..] == ops[k + 1..];
    forall i
      ensures Forth(At(now, i), pid, w, ops[k..], i) ==
              match Step(w, ops[k]) case Ok(w') => Forth(At(next, i), pid, w', ops[k + 1..], i) case Fail(_) => At(next, i)
      ensures TakenBack(w, ops[k..], i) == (if ops[k].num == i then 1 else 0) +
              match Step(w, ops[k]) case Ok(w') => TakenBack(w', ops[k + 1..], i) case Fail(_) => 0
    {
    }
  }

  lemma PidsEnd(was: Pids, now: Pids, pid: nat, v: Vals, ops: seq<SemOp>, w: Vals)
    requires |v.semval| == |v.semadj| == |w.semval| == |w.semadj| && InSet(ops, |v.semval|)
    requires ForthFrom(was, now, pid, v, ops, |ops|, w) && CountFrom(v, ops, |ops|, w)
    ensures ForthDone(was, now, pid, v, ops) && CountDone(v, ops, ops, |ops|)
  {
    assert ops[|ops|..] == [];
  }

  /** The flags do not matter. */
  lemma CountAnyFlags(v: Vals, ops: seq<SemOp>, done: seq<SemOp>, n: nat)
    requires |v.semval| == |v.semadj| && InSet(ops, |v.semval|) && n <= |ops| == |done|
    requires CountDone(v, ops, ops, n) && forall j :: 0 <= j < |ops| ==> ops[j].num == done[j].num
    ensures CountDone(v, ops, done, n)
  {
    forall i ensures TakenBack(v, ops, i) == Count(done, n, i) { CountSame(ops, done, n, i); }
  }

  /** Forth and back. */
  lemma ThereAndBack(was: Pids, mid: Pids, now: Pids, pid: nat, v: Vals, ops: seq<SemOp>, done: seq<SemOp>, n: nat)
    requires |v.semval| == |v.semadj| && InSet(ops, |v.semval|) && n <= |done|
    requires ForthDone(was, mid, pid, v, ops) && CountDone(v, ops, done, n) && BackDone(mid, now, done, n)
    ensures Restored(was, now, pid, v, ops)
  {
  }

  ghost predicate Restored(was: Pids, now: Pids, pid: nat, v: Vals, ops: seq<SemOp>)
    requires |v.semval| == |v.semadj| && InSet(ops, |v.semval|)
  {
    forall i :: At(now, i) == SempidAfter(At(was, i), pid, v, ops, i)
  }

  /** One round of the reverse loop: the k-th operation is shifted out. */
  ghost predicate BackFrom(was: Pids, now: Pids, ops: seq<SemOp>, k: nat, n: nat)
    requires k <= n <= |ops|
  {
    forall i :: PopN(At(now, i), Count(ops, k, i)) == PopN(At(was, i), Count(ops, n, i))
  }

  lemma BackStep(was: Pids, now: Pids, ops: seq<SemOp>, k: nat, n: nat)
    requires k < n <= |ops| && BackFrom(was, now, ops, k + 1, n)
    ensures var o := ops[k].num; BackFrom(was, now[o := Pop(At(now, o))], ops, k, n)
  {
    hide Pop;
    var o := ops[k].num;
    var next := now[o := Pop(At(now, o))];
    forall i ensures PopN(At(next, i), Count(ops, k, i)) == PopN(At(was, i), Count(ops, n, i)) {
      if i == o { PopFirst(At(now, o), Count(ops, k, o)); }
    }
  }

  lemma BackBegins(was: Pids, ops: seq<SemOp>, n: nat)
    requires n <= |ops|
    ensures BackFrom(was, was, ops, n, n)
  {
  }

  lemma BackEnds(was: Pids, now: Pids, ops: seq<SemOp>, n: nat)
    requires n <= |ops| && BackFrom(was, now, ops, 0, n)
    ensures BackDone(was, now, ops, n)
  {
    forall i ensures At(now, i) == PopN(At(was, i), Count(ops, n, i)) { assert PopN(At(now, i), 0) == At(now, i); }
  }
}
