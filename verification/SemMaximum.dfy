/** Which runs of a semaphore set keep every value within SEMVMX: exit adds
    adjustments without an upper check, and nothing else goes over the top. */
module SemMaximum {
  import opened Semaphores
  import opened SemLedger

  ghost predicate AtMostMaximum(semval: seq<int>) {
    forall i :: 0 <= i < |semval| ==> semval[i] <= SEMVMX
  }

  /** A vector that succeeds leaves nothing above SEMVMX that was not above it. */
  lemma {:induction false} ExecAtMost(v: Vals, ops: seq<SemOp>, i: nat)
    requires |v.semval| == |v.semadj| && InSet(ops, |v.semval|) && Exec(v, ops).Ok? && i < |v.semval|
    ensures v.semval[i] <= SEMVMX ==> Exec(v, ops).v.semval[i] <= SEMVMX
    ensures !Decreases(ops) && v.semval[i] > SEMVMX ==> Exec(v, ops).v.semval[i] > SEMVMX
    decreases |ops|
  {
    if ops != [] {
      assert !Decreases(ops) ==> ops[0].op >= 0 && !Decreases(ops[1..]);
      ExecAtMost(Step(v, ops[0]).v, ops[1..], i);
    }
  }

  /** update_queue moves no value across SEMVMX, in either direction. */
  lemma {:induction false} UpdateAtMost(s: Sem, todo: seq<Pending>, i: nat)
    requires Queueable(s, todo) && i < |s.semval|
    requires forall k :: 0 <= k < |todo| ==> todo[k].decrease == Decreases(todo[k].ops)
    ensures i < |Update(s, todo).s.semval|
    ensures Update(s, todo).s.semval[i] <= SEMVMX <==> s.semval[i] <= SEMVMX
    decreases |todo|
  {
    if todo != [] {
      var q := todo[0];
      var t := TryOps(s, q.pid, q.ops);
      if q.retry || t == Fail(Sleep) {
        UpdateAtMost(s.(pending := s.pending + [q]), todo[1..], i);
      } else if !(t.Ok? && q.decrease) {
        if t.Ok? {
          ExecAtMost(Vals(s.semval, AdjOf(s.undos, q.pid, |s.semval|)), q.ops, i);
          SetAdjOk(s.undos, q.pid, t.v.semadj, |s.semval|);
          UpdateAtMost(Commit(s, q.pid, t.v), todo[1..], i);
        } else {
          UpdateAtMost(s, todo[1..], i);
        }
      }
    }
  }

  lemma QueueAtMost(s: Sem)
    requires Valid(s)
    ensures |UpdateQueue(s).s.semval| == |s.semval|
    ensures AtMostMaximum(UpdateQueue(s).s.semval) <==> AtMostMaximum(s.semval)
  {
    hide Update;
    var s0 := s.(pending := []);
    UpdateSize(s0, s.pending);
    forall i | 0 <= i < |s.semval| ensures UpdateQueue(s).s.semval[i] <= SEMVMX <==> s.semval[i] <= SEMVMX {
      UpdateAtMost(s0, s.pending, i);
    }
  }

  lemma {:induction false} UpdateSize(s: Sem, todo: seq<Pending>)
    requires Queueable(s, todo)
    ensures |Update(s, todo).s.semval| == |s.semval|
    decreases |todo|
  {
    if todo != [] {
      var q := todo[0];
      var t := TryOps(s, q.pid, q.ops);
      if q.retry || t == Fail(Sleep) {
        UpdateSize(s.(pending := s.pending + [q]), todo[1..]);
      } else if !(t.Ok? && q.decrease) {
        if t.Ok? {
          SetAdjOk(s.undos, q.pid, t.v.semadj, |s.semval|);
          UpdateSize(Commit(s, q.pid, t.v), todo[1..]);
        } else {
          UpdateSize(s, todo[1..]);
        }
      }
    }
  }

  /** Would the adjustments of an exiting process lift a value over SEMVMX? */
  predicate ExitOverflows(s: Sem, pid: nat) {
    var k := IndexOf(s.undos, pid);
    k < |s.undos| && exists i :: 0 <= i < |s.semval| && i < |s.undos[k].adj| && s.semval[i] + s.undos[k].adj[i] > SEMVMX
  }

  /** exit, update_queue included, leaves every value within SEMVMX if and only if no
      sum of a value and the process's adjustment to it exceeds SEMVMX. */
  lemma ExitKeepsMaximumIff(s: Sem, pid: nat)
    requires Valid(s) && AtMostMaximum(s.semval)
    ensures AtMostMaximum(ExitNext(s, pid).s.semval) <==> !ExitOverflows(s, pid)
  {
    var s1 := Dequeue(s, pid);
    var k := IndexOf(s1.undos, pid);
    if k < |s1.undos| {
      var adj := s1.undos[k].adj;
      ExitOk(s1, Settled(s1, k), k);
      QueueAtMost(Settled(s1, k));
      var sums := Adjusted(s1.semval, adj);
      if AtMostMaximum(sums) {
        forall i | 0 <= i < |s.semval| ensures s.semval[i] + adj[i] <= SEMVMX { assert sums[i] <= SEMVMX; }
      }
    }
  }

  // ---------- the other events ----------

  lemma CommitAtMost(s: Sem, pid: nat, ops: seq<SemOp>)
    requires Valid(s) && AtMostMaximum(s.semval) && InSet(ops, |s.semval|) && TryOps(s, pid, ops).Ok?
    ensures AtMostMaximum(Commit(s, pid, TryOps(s, pid, ops).v).semval)
  {
    var v := Vals(s.semval, AdjOf(s.undos, pid, |s.semval|));
    forall i | 0 <= i < |s.semval| ensures Exec(v, ops).v.semval[i] <= SEMVMX {
      ExecAtMost(v, ops, i);
    }
  }

  lemma AttemptAtMost(s: Sem, pid: nat, ops: seq<SemOp>, wait: Sem)
    requires Valid(s) && AtMostMaximum(s.semval) && InSet(ops, |s.semval|) && wait.semval == s.semval
    ensures AtMostMaximum(Attempt(s, pid, ops, wait).s.semval)
  {
    hide AtMostMaximum;
    var t := TryOps(s, pid, ops);
    QueueAtMost(s);
    if t.Ok? {
      CommitOk(s, pid, t.v);
      CommitAtMost(s, pid, ops);
      QueueAtMost(Commit(s, pid, t.v));
    }
  }

  /** No event but an overflowing exit lifts a value over SEMVMX. */
  lemma NextKeepsMaximumIff(s: Sem, e: Event)
    requires Valid(s) && AtMostMaximum(s.semval)
    ensures AtMostMaximum(Next(s, e).s.semval) <==> !(e.Exit? && ExitOverflows(s, e.pid))
  {
    match e
    case Semop(pid, ops) =>
      if ops != [] && |ops| <= SEMOPM && InSet(ops, |s.semval|) {
        var s1 := WithUndo(s, pid, ops);
        AttemptAtMost(s1, pid, ops, Enqueue(s1, pid, ops));
      }
    case Resume(pid) =>
      var i := Entry(s.pending, pid);
      if i < |s.pending| && s.pending[i].retry {
        var q := s.pending[i];
        assert OpsOk(s.undos, s.pending[i].pid, s.pending[i].ops, |s.semval|);
        AttemptAtMost(Dequeue(s, pid), pid, q.ops, s.(pending := s.pending[i := q.(retry := false)]));
      }
    case Signal(pid) => QueueAtMost(Dequeue(s, pid));
    case SetVal(num, val) =>
      if num < |s.semval| && 0 <= val <= SEMVMX {
        var s1 := s.(semval := s.semval[num := val], undos := Clear(s.undos, num));
        SamePids(s, s1);
        QueueAtMost(s1);
      }
    case SetAll(vals) =>
      if |vals| == |s.semval| && forall i :: 0 <= i < |vals| ==> 0 <= vals[i] <= SEMVMX {
        var s1 := s.(semval := vals, undos := ClearAll(s.undos, |vals|));
        SamePids(s, s1);
        QueueAtMost(s1);
      }
    case Exit(pid) => ExitKeepsMaximumIff(s, pid);
  }

  // ---------- runs ----------

  /** Every state of the run is within SEMVMX. */
  ghost predicate StaysBelow(s: Sem, run: seq<Event>)
    requires IsRun(s, run)
    decreases |run|
  {
    AtMostMaximum(s.semval) && (run == [] || StaysBelow(Next(s, run[0]).s, run[1..]))
  }

  /** No exit of the run finds a sum over SEMVMX. */
  ghost predicate NoOverflow(s: Sem, run: seq<Event>)
    requires IsRun(s, run)
    decreases |run|
  {
    run == [] || (!(run[0].Exit? && ExitOverflows(s, run[0].pid)) && NoOverflow(Next(s, run[0]).s, run[1..]))
  }

  /** A run stays within SEMVMX throughout if and only if none of its exits overflows. */
  lemma {:induction false} RunKeepsMaximumIff(s: Sem, run: seq<Event>)
    requires IsRun(s, run) && AtMostMaximum(s.semval)
    ensures StaysBelow(s, run) <==> NoOverflow(s, run)
    decreases |run|
  {
    if run != [] {
      hide AtMostMaximum, ExitOverflows;
      NextKeepsMaximumIff(s, run[0]);
      if AtMostMaximum(Next(s, run[0]).s.semval) { RunKeepsMaximumIff(Next(s, run[0]).s, run[1..]); }
    }
  }

  /** A single operation on a set where nobody sleeps. */
  lemma OneOp(s: Sem, pid: nat, op: SemOp)
    requires Valid(s) && s.pending == [] && op.num < |s.semval|
    requires TryOps(WithUndo(s, pid, [op]), pid, [op]).Ok?
    ensures var s1 := WithUndo(s, pid, [op]); SemopNext(s, pid, [op]).s == Commit(s1, pid, TryOps(s1, pid, [op]).v)
  {
    var s1 := WithUndo(s, pid, [op]);
    var s2 := Commit(s1, pid, TryOps(s1, pid, [op]).v);
    CommitOk(s1, pid, TryOps(s1, pid, [op]).v);
    assert s2.(pending := []) == s2;
  }

  lemma OneStep(v: Vals, op: SemOp)
    requires op.num < |v.semval| == |v.semadj|
    ensures Exec(v, [op]) == Step(v, op)
  {
    assert [op][1..] == [];
  }

  const TAKE := SemOp(0, -1, true, false)
  const FILL := SemOp(0, SEMVMX, false, false)

  lemma Takes()
    ensures SemopNext(Sem([1], [], []), 1, [TAKE]).s == Sem([0], [Undo(1, [1])], [])
  {
    var s := Sem([1], [], []);
    assert [TAKE][0].undo;
    assert Zeros(1) == [0];
    assert WithUndo(s, 1, [TAKE]) == Sem([1], [Undo(1, [0])], []);
    OneStep(Vals([1], [0]), TAKE);
    assert Step(Vals([1], [0]), TAKE) == Ok(Vals([0], [1]));
    assert SetAdj([Undo(1, [0])], 1, [1]) == [Undo(1, [1])];
    OneOp(s, 1, TAKE);
  }

  lemma Fills()
    ensures SemopNext(Sem([0], [Undo(1, [1])], []), 2, [FILL]).s == Sem([SEMVMX], [Undo(1, [1])], [])
  {
    var s := Sem([0], [Undo(1, [1])], []);
    assert IndexOf(s.undos, 2) == 1;
    assert WithUndo(s, 2, [FILL]) == s;
    OneStep(Vals([0], Zeros(1)), FILL);
    OneOp(s, 2, FILL);
  }

  lemma Leaves()
    ensures ExitNext(Sem([SEMVMX], [Undo(1, [1])], []), 1).s == Sem([SEMVMX + 1], [], [])
  {
    var s := Sem([SEMVMX], [Undo(1, [1])], []);
    assert Adjusted([SEMVMX], [1]) == [SEMVMX + 1];
    assert Dequeue(s, 1) == s;
  }

  lemma ThreeEvents(s: Sem, a: Event, b: Event, c: Event, s1: Sem, s2: Sem, s3: Sem)
    requires Valid(s) && Valid(s1) && Valid(s2) && Valid(s3) && Enabled(s, a) && Enabled(s1, b) && Enabled(s2, c)
    requires Next(s, a).s == s1 && Next(s1, b).s == s2 && Next(s2, c).s == s3
    ensures IsRun(s, [a, b, c]) && After(s, [a, b, c]).s == s3
  {
    hide Next, Valid;
    assert [a, b, c][1..] == [b, c] && [b, c][1..] == [c] && [c][1..] == [];
    assert IsRun(s3, []) && After(s3, []).s == s3;
    assert IsRun(s2, [c]) && After(s2, [c]).s == s3;
    assert IsRun(s1, [b, c]) && After(s1, [b, c]).s == s3;
  }

  /** Process 1 takes one with SEM_UNDO, process 2 fills the semaphore up, process 1
      exits: the value is 32768. */
  lemma ExitOverTheTop()
    ensures var s, run := Sem([1], [], []), [Semop(1, [TAKE]), Semop(2, [FILL]), Exit(1)];
            IsRun(s, run) && AtMostMaximum(s.semval) && After(s, run).s.semval == [SEMVMX + 1]
  {
    hide SemopNext, ExitNext;
    Takes();
    Fills();
    Leaves();
    ThreeEvents(Sem([1], [], []), Semop(1, [TAKE]), Semop(2, [FILL]), Exit(1),
                Sem([0], [Undo(1, [1])], []), Sem([SEMVMX], [Undo(1, [1])], []), Sem([SEMVMX + 1], [], []));
  }
}
