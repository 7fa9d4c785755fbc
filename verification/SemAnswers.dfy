/** What the semaphore calls answer and leave, by sums over the vector and without the order
    in which the code makes its tests. */
module SemAnswers {
  import opened Seqs
  import opened Semaphores
  import opened SemLedger
  import opened SemArrays
  import opened SemQueue

  // ---------- sums ----------

  /** What the first k operations add to semaphore n. */
  function Sum(ops: seq<SemOp>, k: nat, n: nat): int
    requires k <= |ops|
  {
    if k == 0 then 0 else Sum(ops, k - 1, n) + if ops[k - 1].num == n then ops[k - 1].op else 0
  }

  /** What those among them with SEM_UNDO add. */
  function UndoSum(ops: seq<SemOp>, k: nat, n: nat): int
    requires k <= |ops|
  {
    if k == 0 then 0 else UndoSum(ops, k - 1, n) + if ops[k - 1].num == n && ops[k - 1].undo then ops[k - 1].op else 0
  }

  lemma {:induction false} PrefixIs(v: Vals, ops: seq<SemOp>, k: nat, n: nat)
    requires |v.semval| == |v.semadj| && InSet(ops, |v.semval|) && k <= |ops| && n < |v.semval|
    ensures Prefix(v, ops, k).semval[n] == v.semval[n] + Sum(ops, k, n)
    ensures Prefix(v, ops, k).semadj[n] == v.semadj[n] - UndoSum(ops, k, n)
  {
    if k > 0 { PrefixIs(v, ops, k - 1, n); }
  }

  // ---------- one vector ----------

  /** The value that operation i finds. */
  function Found(v: Vals, ops: seq<SemOp>, i: nat): int
    requires i < |ops| && ops[i].num < |v.semval|
  {
    v.semval[ops[i].num] + Sum(ops, i, ops[i].num)
  }

  /** Operation i waits for zero and the value is not. */
  predicate NotZero(v: Vals, ops: seq<SemOp>, i: nat)
    requires i < |ops| && ops[i].num < |v.semval|
  {
    ops[i].op == 0 && Found(v, ops, i) != 0
  }

  predicate TooLow(v: Vals, ops: seq<SemOp>, i: nat)
    requires i < |ops| && ops[i].num < |v.semval|
  {
    Found(v, ops, i) + ops[i].op < 0
  }

  predicate TooHigh(v: Vals, ops: seq<SemOp>, i: nat)
    requires i < |ops| && ops[i].num < |v.semval|
  {
    Found(v, ops, i) + ops[i].op > 32767
  }

  /** The adjustment would not fit into 16 bits. */
  predicate BadUndo(v: Vals, ops: seq<SemOp>, i: nat)
    requires i < |ops| && ops[i].num < |v.semadj|
  {
    ops[i].undo && !(-32768 <= v.semadj[ops[i].num] - UndoSum(ops, i, ops[i].num) - ops[i].op <= 32767)
  }

  predicate Trouble(v: Vals, ops: seq<SemOp>, i: nat)
    requires i < |ops| && ops[i].num < |v.semval| == |v.semadj|
  {
    NotZero(v, ops, i) || TooLow(v, ops, i) || TooHigh(v, ops, i) || BadUndo(v, ops, i)
  }

  predicate FirstTrouble(v: Vals, ops: seq<SemOp>, i: nat)
    requires |v.semval| == |v.semadj| && InSet(ops, |v.semval|)
  {
    i < |ops| && Trouble(v, ops, i) && forall k :: 0 <= k < i ==> !Trouble(v, ops, k)
  }

  lemma {:induction false} ExecUpTo(v: Vals, ops: seq<SemOp>, k: nat)
    requires |v.semval| == |v.semadj| && InSet(ops, |v.semval|) && k <= |ops|
    requires forall i :: 0 <= i < k ==> !Trouble(v, ops, i)
    ensures Exec(v, ops) == Exec(Prefix(v, ops, k), ops[k..])
    decreases k
  {
    hide Exec;
    if k == 0 {
      assert ops[0..] == ops;
    } else {
      ExecUpTo(v, ops, k - 1);
      PrefixIs(v, ops, k - 1, ops[k - 1].num);
      assert !Trouble(v, ops, k - 1);
      ExecNext(v, ops, k - 1);
    }
  }

  /** A vector fails at the first operation that is in trouble, and with what that operation says:
      it has to wait if the value is not zero or would be negative, unless its adjustment is out of
      range; and waiting is sleeping, or -EAGAIN with IPC_NOWAIT. Everything else is -ERANGE.
      Without trouble all of it is performed. */
  lemma ExecIs(v: Vals, ops: seq<SemOp>)
    requires |v.semval| == |v.semadj| && InSet(ops, |v.semval|)
    ensures forall i: nat :: FirstTrouble(v, ops, i) ==>
              Exec(v, ops) == Fail(if NotZero(v, ops, i) || (TooLow(v, ops, i) && !BadUndo(v, ops, i))
                                   then (if ops[i].nowait then Again else Sleep) else Range)
    ensures (forall i :: 0 <= i < |ops| ==> !Trouble(v, ops, i)) ==>
              Exec(v, ops).Ok? && forall n :: 0 <= n < |v.semval| ==>
                && Exec(v, ops).v.semval[n] == v.semval[n] + Sum(ops, |ops|, n)
                && Exec(v, ops).v.semadj[n] == v.semadj[n] - UndoSum(ops, |ops|, n)
  {
    forall i: nat | FirstTrouble(v, ops, i)
      ensures Exec(v, ops) == Fail(if NotZero(v, ops, i) || (TooLow(v, ops, i) && !BadUndo(v, ops, i))
                                   then (if ops[i].nowait then Again else Sleep) else Range)
    {
      FailsHere(v, ops, i);
    }
    if forall i :: 0 <= i < |ops| ==> !Trouble(v, ops, i) {
      ExecUpTo(v, ops, |ops|);
      ExecEnds(v, ops);
      forall n | 0 <= n < |v.semval| ensures
          && Exec(v, ops).v.semval[n] == v.semval[n] + Sum(ops, |ops|, n)
          && Exec(v, ops).v.semadj[n] == v.semadj[n] - UndoSum(ops, |ops|, n)
      {
        PrefixIs(v, ops, |ops|, n);
      }
    }
  }

  lemma FailsHere(v: Vals, ops: seq<SemOp>, i: nat)
    requires |v.semval| == |v.semadj| && InSet(ops, |v.semval|) && FirstTrouble(v, ops, i)
    ensures Exec(v, ops) == Fail(if NotZero(v, ops, i) || (TooLow(v, ops, i) && !BadUndo(v, ops, i))
                                 then (if ops[i].nowait then Again else Sleep) else Range)
  {
    hide Exec;
    ExecUpTo(v, ops, i);
    PrefixIs(v, ops, i, ops[i].num);
    ExecNext(v, ops, i);
  }

  lemma {:induction false} FindTrouble(v: Vals, ops: seq<SemOp>, k: nat) returns (i: nat)
    requires |v.semval| == |v.semadj| && InSet(ops, |v.semval|) && k <= |ops|
    requires exists j :: k <= j < |ops| && Trouble(v, ops, j)
    requires forall j :: 0 <= j < k ==> !Trouble(v, ops, j)
    ensures FirstTrouble(v, ops, i)
    decreases |ops| - k
  {
    if Trouble(v, ops, k) { i := k; } else { i := FindTrouble(v, ops, k + 1); }
  }

  /** Both ways: a vector succeeds if and only if no operation is in trouble. */
  lemma SucceedsIff(v: Vals, ops: seq<SemOp>)
    requires |v.semval| == |v.semadj| && InSet(ops, |v.semval|)
    ensures Exec(v, ops).Ok? <==> forall i :: 0 <= i < |ops| ==> !Trouble(v, ops, i)
  {
    ExecIs(v, ops);
    if !forall i :: 0 <= i < |ops| ==> !Trouble(v, ops, i) {
      var i := FindTrouble(v, ops, 0);
      assert FirstTrouble(v, ops, i);
    }
  }

  /** A vector that goes to sleep has an operation without IPC_NOWAIT. */
  lemma SleeperMayWait(v: Vals, ops: seq<SemOp>) returns (i: nat)
    requires |v.semval| == |v.semadj| && InSet(ops, |v.semval|) && Exec(v, ops) == Fail(Sleep)
    ensures i < |ops| && !ops[i].nowait && FirstTrouble(v, ops, i) && (NotZero(v, ops, i) || TooLow(v, ops, i))
  {
    SucceedsIff(v, ops);
    i := FindTrouble(v, ops, 0);
    FailsHere(v, ops, i);
  }

  // ---------- the queue ----------

  predicate MayWait(ops: seq<SemOp>) {
    exists i :: 0 <= i < |ops| && !ops[i].nowait
  }

  /** All of `after` is in `before`, but for the marks. */
  ghost predicate From(before: seq<Pending>, after: seq<Pending>) {
    forall q :: q in after ==> exists p :: p in before && p.pid == q.pid && p.ops == q.ops
  }

  lemma UpdateFrom(s: Sem)
    requires Valid(s)
    ensures From(s.pending, UpdateQueue(s).s.pending)
  {
    UpdateQueueSpec(s);
    var r := UpdateQueue(s);
    var base := Filter(s.pending, NotFinished(r.log));
    forall q | q in r.s.pending ensures exists p :: p in s.pending && p.pid == q.pid && p.ops == q.ops {
      var i :| 0 <= i < |r.s.pending| && r.s.pending[i] == q;
      assert |base| == |r.s.pending| && base[i].pid == q.pid && base[i].ops == q.ops;
      FilterMember(s.pending, NotFinished(r.log), base[i]);
    }
  }

  /** Everybody who sleeps has an operation that may wait. */
  ghost predicate SleepersMayWait(s: Sem) {
    forall q :: q in s.pending ==> MayWait(q.ops)
  }

  lemma FromMayWait(before: seq<Pending>, s: Sem)
    requires From(before, s.pending) && forall q :: q in before ==> MayWait(q.ops)
    ensures SleepersMayWait(s)
  {
  }

  lemma DequeueFrom(s: Sem, pid: nat)
    requires Valid(s)
    ensures From(s.pending, Dequeue(s, pid).pending)
  {
    forall q | q in Dequeue(s, pid).pending ensures q in s.pending { FilterMember(s.pending, NotPid(pid), q); }
  }

  lemma FollowMayWait(s: Sem, ops: seq<SemOp>, log: seq<Effect>)
    requires Valid(s) && SleepersMayWait(s)
    ensures SleepersMayWait(Follow(s, ops, log).s)
  {
    if Alters(ops) {
      UpdateFrom(s);
      FromMayWait(s.pending, UpdateQueue(s).s);
    }
  }

  lemma AttemptMayWait(s: Sem, pid: nat, ops: seq<SemOp>, wait: Sem)
    requires Valid(s) && InSet(ops, |s.semval|) && SleepersMayWait(s)
    requires MayWait(ops) ==> SleepersMayWait(wait)
    ensures SleepersMayWait(Attempt(s, pid, ops, wait).s)
  {
    var t := TryOps(s, pid, ops);
    if t.Ok? {
      CommitOk(s, pid, t.v);
      FollowMayWait(Commit(s, pid, t.v), ops, [Committed(pid, ops)]);
    } else if t.why == Sleep {
      var i := SleeperMayWait(Vals(s.semval, AdjOf(s.undos, pid, |s.semval|)), ops);
    } else {
      FollowMayWait(s, ops, [Refused(pid, t.why)]);
    }
  }

  lemma NextMayWait(s: Sem, e: Event)
    requires Valid(s) && SleepersMayWait(s)
    ensures SleepersMayWait(Next(s, e).s)
  {
    hide Attempt, UpdateQueue;
    match e
    case Semop(pid, ops) =>
      if ops != [] && |ops| <= SEMOPM && InSet(ops, |s.semval|) {
        var s1 := WithUndo(s, pid, ops);
        AttemptMayWait(s1, pid, ops, Enqueue(s1, pid, ops));
      }
    case Resume(pid) => ResumeMayWait(s, pid);
    case Signal(pid) => SignalMayWait(s, pid);
    case SetVal(num, val) =>
      if num < |s.semval| && 0 <= val <= SEMVMX {
        var s1 := s.(semval := s.semval[num := val], undos := Clear(s.undos, num));
        SamePids(s, s1);
        UpdateFrom(s1);
        FromMayWait(s1.pending, UpdateQueue(s1).s);
      }
    case SetAll(vals) =>
      if |vals| == |s.semval| && forall i :: 0 <= i < |vals| ==> 0 <= vals[i] <= SEMVMX {
        var s1 := s.(semval := vals, undos := ClearAll(s.undos, |vals|));
        SamePids(s, s1);
        UpdateFrom(s1);
        FromMayWait(s1.pending, UpdateQueue(s1).s);
      }
    case Exit(pid) => ExitMayWait(s, pid);
  }

  lemma ResumeMayWait(s: Sem, pid: nat)
    requires Valid(s) && SleepersMayWait(s)
    ensures SleepersMayWait(ResumeNext(s, pid).s)
  {
    hide Attempt;
    var i := Entry(s.pending, pid);
    if i < |s.pending| && s.pending[i].retry {
      var q := s.pending[i];
      assert OpsOk(s.undos, q.pid, q.ops, |s.semval|) && q in s.pending;
      DequeueFrom(s, pid);
      FromMayWait(s.pending, Dequeue(s, pid));
      AttemptMayWait(Dequeue(s, pid), pid, q.ops, s.(pending := s.pending[i := q.(retry := false)]));
    }
  }

  lemma SignalMayWait(s: Sem, pid: nat)
    requires Valid(s) && SleepersMayWait(s)
    ensures SleepersMayWait(SignalNext(s, pid).s)
  {
    var i := Entry(s.pending, pid);
    if i < |s.pending| && !s.pending[i].retry {
      DequeueFrom(s, pid);
      FromMayWait(s.pending, Dequeue(s, pid));
      FollowMayWait(Dequeue(s, pid), s.pending[i].ops, []);
    }
  }

  lemma ExitMayWait(s: Sem, pid: nat)
    requires Valid(s) && SleepersMayWait(s)
    ensures SleepersMayWait(ExitNext(s, pid).s)
  {
    hide UpdateQueue;
    var s1 := Dequeue(s, pid);
    DequeueFrom(s, pid);
    FromMayWait(s.pending, s1);
    var i := IndexOf(s1.undos, pid);
    if i < |s1.undos| {
      var s2 := s1.(semval := Adjusted(s1.semval, s1.undos[i].adj), undos := s1.undos[..i] + s1.undos[i+1..]);
      ExitOk(s1, s2, i);
      UpdateFrom(s2);
      FromMayWait(s2.pending, UpdateQueue(s2).s);
    }
  }

  /** Over every run: a call all of whose operations carry IPC_NOWAIT never sleeps. */
  lemma {:induction false} NowaitNeverSleeps(s: Sem, run: seq<Event>)
    requires IsRun(s, run) && SleepersMayWait(s)
    ensures SleepersMayWait(After(s, run).s)
    decreases |run|
  {
    hide Next, SleepersMayWait;
    if run != [] {
      NextMayWait(s, run[0]);
      NowaitNeverSleeps(Next(s, run[0]).s, run[1..]);
    }
  }
}
