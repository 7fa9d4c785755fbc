/** Who is left asleep although its vector could go through: update_queue is one pass,
    so a vector that it performs for a sleeper can help a sleeper already passed. */
module SemWakeups {
  import opened Seqs
  import opened Semaphores
  import opened SemLedger
  import opened SemMaximum

  predicate Raises(ops: seq<SemOp>) {
    exists i :: 0 <= i < |ops| && ops[i].op > 0
  }

  /** update_queue may perform such a vector, and it changes values. */
  predicate Stirs(q: Pending) {
    !q.retry && !q.decrease && Raises(q.ops)
  }

  predicate Waits(s: Sem, q: Pending)
    requires UndosOk(s.undos, |s.semval|) && InSet(q.ops, |s.semval|)
  {
    TryOps(s, q.pid, q.ops) == Fail(Sleep)
  }

  /** Every sleeper of p that has not been told to try again has reason to sleep. */
  ghost predicate AllWait(s: Sem, p: seq<Pending>)
    requires Queueable(s, p)
  {
    forall i :: 0 <= i < |p| && !p[i].retry ==> Waits(s, p[i])
  }

  /** Somebody has been told to try again and will succeed. */
  ghost predicate SomebodyTries(s: Sem)
    requires Queueable(s, s.pending)
  {
    exists i :: 0 <= i < |s.pending| && s.pending[i].retry && TryOps(s, s.pending[i].pid, s.pending[i].ops).Ok?
  }

  /** Nobody sleeps in vain: a sleeper could go on only where another one is about to. */
  ghost predicate Served(s: Sem) {
    Queueable(s, s.pending) && (SomebodyTries(s) || AllWait(s, s.pending))
  }

  // ---------- one pass ----------

  /** A vector of wait-for-zero operations that succeeds changes nothing. */
  lemma {:induction false} IdleExec(v: Vals, ops: seq<SemOp>)
    requires |v.semval| == |v.semadj| && InSet(ops, |v.semval|) && Exec(v, ops).Ok? && !Raises(ops) && !Decreases(ops)
    ensures Exec(v, ops).v == v
    decreases |ops|
  {
    if ops != [] {
      assert ops[0].op == 0;
      assert Shift(v, ops[0]) == v;
      assert forall i :: 0 <= i < |ops[1..]| ==> ops[1..][i] == ops[i + 1];
      IdleExec(v, ops[1..]);
    }
  }

  lemma IdleCommit(s: Sem, q: Pending)
    requires UndosOk(s.undos, |s.semval|) && InSet(q.ops, |s.semval|) && TryOps(s, q.pid, q.ops).Ok?
    requires !Raises(q.ops) && !Decreases(q.ops)
    ensures Commit(s, q.pid, TryOps(s, q.pid, q.ops).v) == s
  {
    IdleExec(Vals(s.semval, AdjOf(s.undos, q.pid, |s.semval|)), q.ops);
  }

  /** No vector that stirs stands behind a sleeper that has not been told to try again. */
  ghost predicate Undisturbed(p: seq<Pending>) {
    forall i, k :: 0 <= i < k < |p| && !p[i].retry ==> !Stirs(p[k])
  }

  ghost predicate KindsKnown(p: seq<Pending>) {
    forall k :: 0 <= k < |p| ==> p[k].decrease == Decreases(p[k].ops)
  }

  lemma {:induction false} UpdateServes(s: Sem, todo: seq<Pending>)
    requires Queueable(s, todo) && Queueable(s, s.pending) && AllWait(s, s.pending)
    requires Undisturbed(s.pending + todo) && KindsKnown(todo)
    ensures Served(Update(s, todo).s)
    decreases |todo|
  {
    hide AllWait, Undisturbed, SomebodyTries, UndosOk, Exec;
    if todo != [] {
      var q, rest := todo[0], todo[1..];
      var kept := s.(pending := s.pending + [q]);
      assert kept.pending + rest == s.pending + todo && todo == [q] + rest;
      var t := TryOps(s, q.pid, q.ops);
      if q.retry || t == Fail(Sleep) {
        KeptWaits(s, q);
        UpdateServes(kept, rest);
      } else if t.Ok? && q.decrease {
        MarkedTries(s, q, rest);
      } else {
        FewerUndisturbed(s.pending, q, rest);
        if t.Ok? {
          SetAdjOk(s.undos, q.pid, t.v.semadj, |s.semval|);
          PassedStillWait(s, todo);
          UpdateServes(Commit(s, q.pid, t.v), rest);
        } else {
          UpdateServes(s, rest);
        }
      }
    }
  }

  lemma KeptWaits(s: Sem, q: Pending)
    requires Queueable(s, s.pending) && AllWait(s, s.pending) && InSet(q.ops, |s.semval|)
    requires q.retry || Waits(s, q)
    ensures var kept := s.(pending := s.pending + [q]); Queueable(kept, kept.pending) && AllWait(kept, kept.pending)
  {
  }

  lemma MarkedTries(s: Sem, q: Pending, rest: seq<Pending>)
    requires Queueable(s, rest) && Queueable(s, s.pending) && InSet(q.ops, |s.semval|) && TryOps(s, q.pid, q.ops).Ok?
    ensures Served(s.(pending := s.pending + [q.(retry := true)] + rest))
  {
    var p := s.pending + [q.(retry := true)] + rest;
    var s' := s.(pending := p);
    assert p[|s.pending|] == q.(retry := true);
    assert TryOps(s', p[|s.pending|].pid, p[|s.pending|].ops) == TryOps(s, q.pid, q.ops);
    assert SomebodyTries(s');
  }

  lemma FewerUndisturbed(a: seq<Pending>, q: Pending, b: seq<Pending>)
    requires Undisturbed(a + ([q] + b))
    ensures Undisturbed(a + b)
  {
    var p, r := a + ([q] + b), a + b;
    forall i | 0 <= i < |r| ensures r[i] == p[if i < |a| then i else i + 1] {}
  }

  /** A vector is performed for the sleeper at the head of todo: who was passed and
      has to wait still has to. */
  lemma PassedStillWait(s: Sem, todo: seq<Pending>)
    requires todo != [] && Queueable(s, todo) && Queueable(s, s.pending) && AllWait(s, s.pending)
    requires Undisturbed(s.pending + todo) && KindsKnown(todo)
    requires var q := todo[0]; !q.retry && !q.decrease && TryOps(s, q.pid, q.ops).Ok?
    ensures var q := todo[0];
            var s' := Commit(s, q.pid, TryOps(s, q.pid, q.ops).v);
            |s'.semval| == |s.semval| && Queueable(s', s'.pending) && AllWait(s', s'.pending)
  {
    var q := todo[0];
    SetAdjOk(s.undos, q.pid, TryOps(s, q.pid, q.ops).v.semadj, |s.semval|);
    if Raises(q.ops) {
      var p := s.pending + todo;
      assert p[|s.pending|] == q && Stirs(q);
      forall i | 0 <= i < |s.pending| ensures s.pending[i].retry { assert p[i] == s.pending[i]; }
    } else {
      IdleCommit(s, q);
    }
  }

  /** After a pass over a queue in which no vector that stirs stands behind a sleeper,
      nobody sleeps in vain. */
  lemma PassServes(s: Sem)
    requires Valid(s) && Undisturbed(s.pending)
    ensures Served(UpdateQueue(s).s)
  {
    assert [] + s.pending == s.pending;
    UpdateServes(s.(pending := []), s.pending);
  }

  // ---------- the vectors that can leave somebody behind ----------

  lemma {:induction false} GrowsOnly(v: Vals, ops: seq<SemOp>, i: nat)
    requires |v.semval| == |v.semadj| && InSet(ops, |v.semval|) && i < |v.semval| && Exec(v, ops).Ok? && !Decreases(ops)
    ensures v.semval[i] <= Exec(v, ops).v.semval[i]
    decreases |ops|
  {
    if ops != [] {
      assert ops[0].op >= 0 && !Decreases(ops[1..]);
      GrowsOnly(Step(v, ops[0]).v, ops[1..], i);
    }
  }

  /** A vector that raises semaphore i and lowers none leaves it above its old value. */
  lemma {:induction false} RaisedExec(v: Vals, ops: seq<SemOp>, k: nat)
    requires |v.semval| == |v.semadj| && InSet(ops, |v.semval|) && Exec(v, ops).Ok? && !Decreases(ops)
    requires k < |ops| && ops[k].op > 0
    ensures var i := ops[k].num; v.semval[i] < Exec(v, ops).v.semval[i] <= SEMVMX
    decreases |ops|
  {
    var v', rest := Step(v, ops[0]).v, ops[1..];
    assert ops[0].op >= 0 && !Decreases(rest);
    if k > 0 {
      RaisedExec(v', rest, k - 1);
    } else {
      GrowsOnly(v', rest, ops[0].num);
      ExecAtMost(v', rest, ops[0].num);
    }
  }

  /** With q1 and q2 asleep in this order, a pass leaves somebody asleep in vain. */
  ghost predicate LeavesBehind(s: Sem, q1: Pending, q2: Pending) {
    var s' := s.(pending := [q1, q2]);
    Valid(s') && !Served(UpdateQueue(s').s)
  }

  /** The sleeper that needs one more of semaphore i than there is. */
  function Needy(s: Sem, pid: nat, i: nat): Pending
    requires i < |s.semval|
  {
    Pending(pid, [SemOp(i, -(s.semval[i] + 1), false, false)], true, false)
  }

  lemma NeedyTry(s: Sem, s0: Sem, pid: nat, i: nat)
    requires UndosOk(s.undos, |s.semval|) && i < |s.semval| == |s0.semval|
    requires NonNegative(s0.semval) && s.semval[i] <= SEMVMX
    ensures TryOps(s, pid, Needy(s0, pid, i).ops).Ok? <==> s0.semval[i] < s.semval[i]
    ensures TryOps(s, pid, Needy(s0, pid, i).ops) == Fail(Sleep) <==> s.semval[i] <= s0.semval[i]
  {
    OneStep(Vals(s.semval, AdjOf(s.undos, pid, |s.semval|)), Needy(s0, pid, i).ops[0]);
  }

  /** The pass over [needy, q2]: the needy one is passed, q2 is performed behind it. */
  lemma NeedyPass(s: Sem, q1: Pending, q2: Pending)
    requires UndosOk(s.undos, |s.semval|) && s.pending == [] && InSet(q1.ops, |s.semval|) && InSet(q2.ops, |s.semval|)
    requires !q1.retry && TryOps(s, q1.pid, q1.ops) == Fail(Sleep)
    requires !q2.retry && !q2.decrease && TryOps(s, q2.pid, q2.ops).Ok?
    ensures Update(s, [q1, q2]).s == Commit(s, q2.pid, TryOps(s, q2.pid, q2.ops).v).(pending := [q1])
  {
    var v := TryOps(s, q2.pid, q2.ops).v;
    var kept := s.(pending := [q1]);
    SetAdjOk(s.undos, q2.pid, v.semadj, |s.semval|);
    assert s.pending + [q1] == [q1] && [q1, q2][1..] == [q2] && [q2][1..] == [];
    assert TryOps(kept, q2.pid, q2.ops) == TryOps(s, q2.pid, q2.ops);
    assert Update(Commit(kept, q2.pid, v), []).s == Commit(kept, q2.pid, v);
    assert Update(kept, [q2]).s == Commit(kept, q2.pid, v);
  }

  lemma RaisingLeavesBehind(s: Sem, q: Pending, k: nat)
    requires Inv(s) && s.pending == [] && !q.retry && !q.decrease && q.decrease == Decreases(q.ops)
    requires OpsOk(s.undos, q.pid, q.ops, |s.semval|) && TryOps(s, q.pid, q.ops).Ok?
    requires k < |q.ops| && q.ops[k].op > 0 && AtMostMaximum(s.semval)
    ensures LeavesBehind(s, Needy(s, q.pid + 1, q.ops[k].num), q)
  {
    var i := q.ops[k].num;
    var q1 := Needy(s, q.pid + 1, i);
    var v := TryOps(s, q.pid, q.ops).v;
    RaisedExec(Vals(s.semval, AdjOf(s.undos, q.pid, |s.semval|)), q.ops, k);
    NeedyTry(s, s, q1.pid, i);
    NeedyPass(s, q1, q);
    SetAdjOk(s.undos, q.pid, v.semadj, |s.semval|);
    NeedyTry(Commit(s, q.pid, v), s, q1.pid, i);
    var r := Update(s, [q1, q]).s;
    assert q1.ops[0].op < 0;
    assert TryOps(r, q1.pid, q1.ops) == TryOps(Commit(s, q.pid, v), q1.pid, q1.ops);
    assert !Served(r) by {
      assert r.pending[0] == q1 && !q1.retry && !Waits(r, r.pending[0]);
    }
  }

  /** A vector that can be performed for its sleeper, which lowers nothing, can leave an
      earlier sleeper behind if and only if it raises something. */
  lemma LeavesBehindIff(s: Sem, q: Pending)
    requires Inv(s) && AtMostMaximum(s.semval) && s.pending == [] && !q.retry && !q.decrease && !Decreases(q.ops)
    requires OpsOk(s.undos, q.pid, q.ops, |s.semval|) && TryOps(s, q.pid, q.ops).Ok?
    ensures (exists q1 :: LeavesBehind(s, q1, q)) <==> Raises(q.ops)
  {
    if Raises(q.ops) {
      var k :| 0 <= k < |q.ops| && q.ops[k].op > 0;
      RaisingLeavesBehind(s, q, k);
    } else {
      forall q1 | Valid(s.(pending := [q1, q])) ensures Served(UpdateQueue(s.(pending := [q1, q])).s) {
        PassServes(s.(pending := [q1, q]));
      }
    }
  }

  // ---------- runs ----------

  /** Whoever raises also lowers, so that update_queue never performs it for a
      sleeper; and whoever has been told to try again lowers. */
  ghost predicate Calm(p: seq<Pending>) {
    forall i :: 0 <= i < |p| ==> (Raises(p[i].ops) || p[i].retry) ==> p[i].decrease
  }

  lemma {:induction false} UpdateCalm(s: Sem, todo: seq<Pending>)
    requires Queueable(s, todo) && Calm(s.pending) && Calm(todo)
    ensures Calm(Update(s, todo).s.pending)
    decreases |todo|
  {
    if todo != [] {
      var q, rest := todo[0], todo[1..];
      var t := TryOps(s, q.pid, q.ops);
      if q.retry || t == Fail(Sleep) {
        UpdateCalm(s.(pending := s.pending + [q]), rest);
      } else if !(t.Ok? && q.decrease) {
        if t.Ok? {
          SetAdjOk(s.undos, q.pid, t.v.semadj, |s.semval|);
          UpdateCalm(Commit(s, q.pid, t.v), rest);
        } else {
          UpdateCalm(s, rest);
        }
      }
    }
  }

  /** Nobody sleeps in vain, and no vector asleep could change that by itself. */
  ghost predicate Attended(s: Sem) {
    Valid(s) && Calm(s.pending) && Served(s)
  }

  lemma PassAttends(s: Sem)
    requires Valid(s) && Calm(s.pending)
    ensures Calm(UpdateQueue(s).s.pending) && Served(UpdateQueue(s).s)
  {
    hide Served;
    CalmUndisturbed(s.pending);
    PassServes(s);
    UpdateCalm(s.(pending := []), s.pending);
  }

  lemma CalmUndisturbed(p: seq<Pending>)
    requires Calm(p)
    ensures Undisturbed(p)
  {
  }

  lemma FollowAttends(s: Sem, ops: seq<SemOp>, log: seq<Effect>)
    requires Valid(s) && Calm(s.pending) && (Alters(ops) || Served(s))
    ensures Calm(Follow(s, ops, log).s.pending) && Served(Follow(s, ops, log).s)
  {
    hide Valid, Served, Calm;
    if Alters(ops) { PassAttends(s); }
  }

  lemma AttemptAttends(s: Sem, pid: nat, ops: seq<SemOp>, wait: Sem)
    requires Valid(s) && Calm(s.pending) && InSet(ops, |s.semval|) && (Alters(ops) || Served(s))
    requires TryOps(s, pid, ops) == Fail(Sleep) ==> Calm(wait.pending) && Served(wait)
    ensures Calm(Attempt(s, pid, ops, wait).s.pending) && Served(Attempt(s, pid, ops, wait).s)
  {
    hide Served, Calm;
    var t := TryOps(s, pid, ops);
    if t.Ok? {
      CommitOk(s, pid, t.v);
      if !Alters(ops) { IdleCommit(s, Pending(pid, ops, false, false)); }
      FollowAttends(Commit(s, pid, t.v), ops, [Committed(pid, ops)]);
    } else if t.why != Sleep {
      FollowAttends(s, ops, [Refused(pid, t.why)]);
    }
  }

  /** States in which every vector fares the same. */
  ghost predicate Alike(s: Sem, s': Sem) {
    && s'.semval == s.semval && UndosOk(s.undos, |s.semval|) && UndosOk(s'.undos, |s.semval|)
    && forall p :: AdjOf(s'.undos, p, |s.semval|) == AdjOf(s.undos, p, |s.semval|)
  }

  lemma AlikeTry(s: Sem, s': Sem, pid: nat, ops: seq<SemOp>)
    requires Alike(s, s') && InSet(ops, |s.semval|)
    ensures TryOps(s', pid, ops) == TryOps(s, pid, ops)
  {
  }

  lemma WithUndoAlike(s: Sem, pid: nat, ops: seq<SemOp>)
    requires Valid(s) && InSet(ops, |s.semval|)
    ensures Alike(s, WithUndo(s, pid, ops))
  {
    var r := WithUndo(s, pid, ops);
    if r != s {
      forall p ensures AdjOf(r.undos, p, |s.semval|) == AdjOf(s.undos, p, |s.semval|) {
        assert r.undos[1..] == s.undos;
      }
    }
  }

  /** A queue changes while the values stay: everybody in the new one was in the old one
      or waits, and whoever was about to try is still there. */
  lemma ServedAlike(s: Sem, s': Sem)
    requires Served(s) && Alike(s, s') && Queueable(s', s'.pending)
    requires forall i :: 0 <= i < |s'.pending| ==> s'.pending[i] in s.pending || s'.pending[i].retry || Waits(s', s'.pending[i])
    requires forall i :: 0 <= i < |s.pending| && s.pending[i].retry && TryOps(s, s.pending[i].pid, s.pending[i].ops).Ok? ==>
               s.pending[i] in s'.pending
    ensures Served(s')
  {
    if SomebodyTries(s) {
      var i :| 0 <= i < |s.pending| && s.pending[i].retry && TryOps(s, s.pending[i].pid, s.pending[i].ops).Ok?;
      var k :| 0 <= k < |s'.pending| && s'.pending[k] == s.pending[i];
      AlikeTry(s, s', s.pending[i].pid, s.pending[i].ops);
      assert SomebodyTries(s');
    } else {
      forall i | 0 <= i < |s'.pending| && !s'.pending[i].retry ensures Waits(s', s'.pending[i]) {
        if s'.pending[i] in s.pending {
          var k :| 0 <= k < |s.pending| && s.pending[k] == s'.pending[i];
          assert Waits(s, s.pending[k]);
          AlikeTry(s, s', s.pending[k].pid, s.pending[k].ops);
        }
      }
    }
  }

  predicate MarkedSleeper(s: Sem, pid: nat) {
    exists i :: 0 <= i < |s.pending| && s.pending[i].pid == pid && s.pending[i].retry
  }

  lemma DequeueAttends(s: Sem, pid: nat)
    requires Attended(s) && !MarkedSleeper(s, pid)
    ensures Attended(Dequeue(s, pid))
  {
    var s' := Dequeue(s, pid);
    forall q ensures q in s'.pending <==> q in s.pending && q.pid != pid { FilterMember(s.pending, NotPid(pid), q); }
    forall i | 0 <= i < |s'.pending| ensures s'.pending[i] in s.pending {}
    ServedAlike(s, s');
  }

  lemma DequeueCalm(s: Sem, pid: nat)
    requires Valid(s) && Calm(s.pending)
    ensures Calm(Dequeue(s, pid).pending)
  {
    var p := Dequeue(s, pid).pending;
    forall i | 0 <= i < |p| ensures p[i] in s.pending { FilterMember(s.pending, NotPid(pid), p[i]); }
  }

  /** The two ways in which somebody can come to sleep in vain: a vector that raises
      and lowers nothing goes to sleep, or a process that has been told to try again
      exits without adjustments. */
  ghost predicate Safe(s: Sem, e: Event)
    requires Valid(s)
  {
    match e
    case Semop(pid, ops) => Raises(ops) && !Decreases(ops) && InSet(ops, |s.semval|) ==> TryOps(s, pid, ops) != Fail(Sleep)
    case Exit(pid) => MarkedSleeper(s, pid) ==> IndexOf(s.undos, pid) < |s.undos|
    case _ => true
  }

  lemma SemopAttends(s: Sem, pid: nat, ops: seq<SemOp>)
    requires Attended(s) && Safe(s, Semop(pid, ops)) && !Sleeping(s, pid)
    ensures var r := SemopNext(s, pid, ops).s; Calm(r.pending) && Served(r)
  {
    if ops != [] && |ops| <= SEMOPM && InSet(ops, |s.semval|) {
      var s1 := WithUndo(s, pid, ops);
      WithUndoAlike(s, pid, ops);
      AlikeTry(s, s1, pid, ops);
      ServedAlike(s, s1);
      if TryOps(s1, pid, ops) == Fail(Sleep) { EnqueueAttends(s1, pid, ops); }
      AttemptAttends(s1, pid, ops, Enqueue(s1, pid, ops));
    }
  }

  lemma EnqueueAttends(s: Sem, pid: nat, ops: seq<SemOp>)
    requires Valid(s) && Calm(s.pending) && Served(s) && OpsOk(s.undos, pid, ops, |s.semval|)
    requires TryOps(s, pid, ops) == Fail(Sleep) && (Raises(ops) ==> Decreases(ops))
    ensures var r := Enqueue(s, pid, ops); Calm(r.pending) && Served(r)
  {
    var r := Enqueue(s, pid, ops);
    var q := Pending(pid, ops, Decreases(ops), false);
    forall i | 0 <= i < |r.pending| ensures r.pending[i] == q || r.pending[i] in s.pending {}
    forall i | 0 <= i < |s.pending| ensures s.pending[i] in r.pending {
      assert s.pending[i] == r.pending[if Alters(ops) then i else i + 1];
    }
    assert Alike(s, r);
    assert Waits(r, q);
    ServedAlike(s, r);
  }

  lemma ResumeAttends(s: Sem, pid: nat)
    requires Attended(s)
    ensures var r := ResumeNext(s, pid).s; Calm(r.pending) && Served(r)
  {
    var i := Entry(s.pending, pid);
    if i < |s.pending| && s.pending[i].retry {
      var q := s.pending[i];
      assert OpsOk(s.undos, s.pending[i].pid, s.pending[i].ops, |s.semval|);
      assert q.decrease && Alters(q.ops);
      var wait := s.(pending := s.pending[i := q.(retry := false)]);
      DequeueCalm(s, pid);
      if TryOps(s, pid, q.ops) == Fail(Sleep) { UnmarkAttends(s, i); }
      AttemptAttends(Dequeue(s, pid), pid, q.ops, wait);
    }
  }

  lemma UnmarkAttends(s: Sem, i: nat)
    requires Attended(s) && i < |s.pending| && Waits(s, s.pending[i])
    ensures var r := s.(pending := s.pending[i := s.pending[i].(retry := false)]); Calm(r.pending) && Served(r)
  {
    var q := s.pending[i].(retry := false);
    var r := s.(pending := s.pending[i := q]);
    forall k | 0 <= k < |r.pending| ensures k == i || r.pending[k] == s.pending[k] {}
    assert Waits(r, q);
    forall k | 0 <= k < |s.pending| && k != i ensures s.pending[k] in r.pending { assert r.pending[k] == s.pending[k]; }
    ServedAlike(s, r);
  }

  lemma SignalAttends(s: Sem, pid: nat)
    requires Attended(s)
    ensures var r := SignalNext(s, pid).s; Calm(r.pending) && Served(r)
  {
    var i := Entry(s.pending, pid);
    if i < |s.pending| && !s.pending[i].retry {
      DequeueAttends(s, pid);
      FollowAttends(Dequeue(s, pid), s.pending[i].ops, []);
    }
  }

  lemma SetAttends(s: Sem, e: Event)
    requires Attended(s) && (e.SetVal? || e.SetAll?)
    ensures var r := Next(s, e).s; Calm(r.pending) && Served(r)
  {
    if e.SetVal? {
      if e.num < |s.semval| && 0 <= e.val <= SEMVMX {
        var s1 := s.(semval := s.semval[e.num := e.val], undos := Clear(s.undos, e.num));
        SamePids(s, s1);
        PassAttends(s1);
      }
    } else if |e.vals| == |s.semval| && forall i :: 0 <= i < |e.vals| ==> 0 <= e.vals[i] <= SEMVMX {
      var s1 := s.(semval := e.vals, undos := ClearAll(s.undos, |e.vals|));
      SamePids(s, s1);
      PassAttends(s1);
    }
  }

  lemma ExitAttends(s: Sem, pid: nat)
    requires Attended(s) && Safe(s, Exit(pid))
    ensures var r := ExitNext(s, pid).s; Calm(r.pending) && Served(r)
  {
    var s1 := Dequeue(s, pid);
    var k := IndexOf(s1.undos, pid);
    DequeueCalm(s, pid);
    if k < |s1.undos| {
      ExitOk(s1, Settled(s1, k), k);
      PassAttends(Settled(s1, k));
    } else {
      DequeueAttends(s, pid);
    }
  }

  /** Every event but those two keeps everybody attended. */
  lemma NextAttends(s: Sem, e: Event)
    requires Attended(s) && Inv(s) && Enabled(s, e) && Safe(s, e)
    ensures Attended(Next(s, e).s)
  {
    hide Calm, Served;
    NextBalanced(s, e);
    match e
    case Semop(pid, ops) => SemopAttends(s, pid, ops);
    case Resume(pid) => ResumeAttends(s, pid);
    case Signal(pid) => SignalAttends(s, pid);
    case SetVal(_, _) => SetAttends(s, e);
    case SetAll(_) => SetAttends(s, e);
    case Exit(pid) => ExitAttends(s, pid);
  }

  ghost predicate AllSafe(s: Sem, run: seq<Event>)
    requires IsRun(s, run)
    decreases |run|
  {
    run == [] || (Safe(s, run[0]) && AllSafe(Next(s, run[0]).s, run[1..]))
  }

  /** Over every run without those two events, nobody who has not been told to try again
      could go on unless somebody who has been told will. */
  lemma {:induction false} NobodySleepsInVain(s: Sem, run: seq<Event>)
    requires Attended(s) && Inv(s) && IsRun(s, run) && AllSafe(s, run)
    ensures Served(After(s, run).s)
    decreases |run|
  {
    if run != [] {
      NextAttends(s, run[0]);
      NextBalanced(s, run[0]);
      NobodySleepsInVain(Next(s, run[0]).s, run[1..]);
    }
  }

  // ---------- somebody who does ----------

  const LOWER0 := [SemOp(0, -1, false, false)]
  const LOWER1 := [SemOp(1, -1, false, false)]
  const WAIT1_RAISE0 := [SemOp(1, 0, false, false), SemOp(0, 1, false, false)]

  const FIRST := Pending(1, LOWER0, true, false)
  const SECOND := Pending(2, WAIT1_RAISE0, false, false)

  lemma NoUndo(s: Sem, pid: nat, ops: seq<SemOp>)
    requires Valid(s) && InSet(ops, |s.semval|) && !UsesUndo(ops) && s.undos == []
    ensures WithUndo(s, pid, ops) == s && TryOps(s, pid, ops) == Exec(Vals(s.semval, Zeros(|s.semval|)), ops)
  {
  }

  lemma TwoOps(v: Vals, a: SemOp, b: SemOp)
    requires a.num < |v.semval| == |v.semadj| && b.num < |v.semval|
    ensures Exec(v, [a, b]) == if Step(v, a).Fail? then Step(v, a) else Step(Step(v, a).v, b)
  {
    assert [a, b][1..] == [b];
    if Step(v, a).Ok? { OneStep(Step(v, a).v, b); }
  }

  lemma FirstSleeps()
    ensures SemopNext(Sem([0, 1], [], []), 1, LOWER0).s == Sem([0, 1], [], [FIRST])
  {
    var s := Sem([0, 1], [], []);
    NoUndo(s, 1, LOWER0);
    OneStep(Vals([0, 1], Zeros(2)), LOWER0[0]);
    assert LOWER0[0].op < 0;
  }

  lemma SecondSleeps()
    ensures var s := Sem([0, 1], [], [FIRST]); Valid(s) && SemopNext(s, 2, WAIT1_RAISE0).s == Sem([0, 1], [], [FIRST, SECOND])
  {
    var s := Sem([0, 1], [], [FIRST]);
    assert LOWER0[0].op < 0;
    NoUndo(s, 2, WAIT1_RAISE0);
    TwoOps(Vals([0, 1], Zeros(2)), WAIT1_RAISE0[0], WAIT1_RAISE0[1]);
    assert WAIT1_RAISE0[1].op != 0;
  }

  lemma PassGoesBy()
    ensures UpdateQueue(Sem([0, 0], [], [FIRST, SECOND])).s == Sem([1, 0], [], [FIRST])
  {
    var s := Sem([0, 0], [], []);
    NoUndo(s, 1, LOWER0);
    NoUndo(s, 2, WAIT1_RAISE0);
    OneStep(Vals([0, 0], Zeros(2)), LOWER0[0]);
    TwoOps(Vals([0, 0], Zeros(2)), WAIT1_RAISE0[0], WAIT1_RAISE0[1]);
    assert [0, 0][1 := 0] == [0, 0] && [0, 0][0 := 1] == [1, 0];
    NeedyPass(s, FIRST, SECOND);
  }

  lemma ThirdLowers()
    ensures var s := Sem([0, 1], [], [FIRST, SECOND]); Valid(s) && SemopNext(s, 3, LOWER1).s == Sem([1, 0], [], [FIRST])
  {
    var s := Sem([0, 1], [], [FIRST, SECOND]);
    assert LOWER0[0].op < 0 && LOWER1[0].op < 0;
    NoUndo(s, 3, LOWER1);
    OneStep(Vals([0, 1], Zeros(2)), LOWER1[0]);
    assert [0, 1][1 := 0] == [0, 0];
    CommitOk(s, 3, Vals([0, 0], Zeros(2)));
    PassGoesBy();
  }

  lemma FirstCouldGoOn()
    ensures var r := Sem([1, 0], [], [FIRST]); Valid(r) && TryOps(r, 1, LOWER0).Ok? && !Served(r)
  {
    var r := Sem([1, 0], [], [FIRST]);
    assert LOWER0[0].op < 0;
    NoUndo(r, 1, LOWER0);
    OneStep(Vals([1, 0], Zeros(2)), LOWER0[0]);
    assert !Served(r) by { assert !Waits(r, r.pending[0]); }
  }

  /** Process 1 waits for semaphore 0; process 2 waits for semaphore 1 to be zero and then
      raises semaphore 0; process 3 makes semaphore 1 zero. Process 2 is completed behind
      process 1, which stays asleep next to a semaphore that it could take. */
  lemma LeftAsleep()
    ensures var s, run := Sem([0, 1], [], []), [Semop(1, LOWER0), Semop(2, WAIT1_RAISE0), Semop(3, LOWER1)];
            && Attended(s) && Inv(s) && IsRun(s, run) && After(s, run).s == Sem([1, 0], [], [FIRST])
            && TryOps(After(s, run).s, 1, LOWER0).Ok? && !Served(After(s, run).s)
  {
    hide SemopNext, TryOps, Valid;
    FirstSleeps();
    SecondSleeps();
    ThirdLowers();
    FirstCouldGoOn();
    NobodyThere([0, 1]);
    ThreeEvents(Sem([0, 1], [], []), Semop(1, LOWER0), Semop(2, WAIT1_RAISE0), Semop(3, LOWER1),
                Sem([0, 1], [], [FIRST]), Sem([0, 1], [], [FIRST, SECOND]), Sem([1, 0], [], [FIRST]));
  }

  /** A set on which nobody sleeps. */
  lemma NobodyThere(semval: seq<int>)
    requires NonNegative(semval)
    ensures var s := Sem(semval, [], []); Attended(s) && Inv(s)
  {
  }

  const LOWER := [SemOp(0, -1, false, false)]
  const RAISE := [SemOp(0, 1, false, false)]

  /** A vector of one operation on the only semaphore. */
  lemma OnlyOp(s: Sem, pid: nat, op: SemOp)
    requires Valid(s) && |s.semval| == 1 && s.undos == [] && op.num == 0 && !op.undo
    ensures TryOps(s, pid, [op]) == Step(Vals(s.semval, Zeros(1)), op) && WithUndo(s, pid, [op]) == s
  {
    OneStep(Vals(s.semval, Zeros(1)), op);
  }

  function Waiter(pid: nat, retry: bool): Pending {
    Pending(pid, LOWER, true, retry)
  }

  lemma WaiterSleeps(p: seq<Pending>, pid: nat)
    requires Valid(Sem([0], [], p))
    ensures SemopNext(Sem([0], [], p), pid, LOWER).s == Sem([0], [], p + [Waiter(pid, false)])
  {
    OnlyOp(Sem([0], [], p), pid, LOWER[0]);
    assert LOWER[0].op < 0;
  }

  lemma WaitersValid(v: int, p: seq<Pending>)
    requires forall i :: 0 <= i < |p| ==> p[i].ops == LOWER && p[i].decrease
    requires forall i, j :: 0 <= i < j < |p| ==> p[i].pid != p[j].pid
    ensures Valid(Sem([v], [], p))
  {
    assert LOWER[0].op < 0;
  }

  lemma RaiseMarks()
    ensures var s := Sem([0], [], [Waiter(1, false), Waiter(2, false)]);
            Valid(s) && SemopNext(s, 3, RAISE).s == Sem([1], [], [Waiter(1, true), Waiter(2, false)])
  {
    var p := [Waiter(1, false), Waiter(2, false)];
    var s, s1 := Sem([0], [], p), Sem([1], [], p);
    WaitersValid(0, p);
    WaitersValid(1, p);
    OnlyOp(s, 3, RAISE[0]);
    OnlyOp(s1.(pending := []), 1, LOWER[0]);
    assert [0][0 := 1] == [1] && RAISE[0].op != 0;
    CommitOk(s, 3, Vals([1], Zeros(1)));
    assert UpdateQueue(s1).s == Sem([1], [], [Waiter(1, true), Waiter(2, false)]) by {
      assert p[1..] == [Waiter(2, false)];
      assert [] + [Waiter(1, true)] + p[1..] == [Waiter(1, true), Waiter(2, false)];
    }
  }

  lemma MarkGoes()
    ensures var s := Sem([1], [], [Waiter(1, true), Waiter(2, false)]);
            && Valid(s) && TryOps(s, 1, LOWER).Ok? && ExitNext(s, 1).s == Sem([1], [], [Waiter(2, false)])
            && !Served(ExitNext(s, 1).s)
  {
    var p := [Waiter(1, true), Waiter(2, false)];
    var s, r := Sem([1], [], p), Sem([1], [], [Waiter(2, false)]);
    WaitersValid(1, p);
    WaitersValid(1, [Waiter(2, false)]);
    OnlyOp(s, 1, LOWER[0]);
    OnlyOp(r, 2, LOWER[0]);
    assert Filter(p, NotPid(1)) == [Waiter(2, false)] by {
      assert p[1..] == [Waiter(2, false)] && p[1..][1..] == [];
    }
    assert !Served(r) by { assert !Waits(r, r.pending[0]); }
  }

  lemma WaiterComes(p: seq<Pending>, pid: nat)
    requires Valid(Sem([0], [], p)) && forall i :: 0 <= i < |p| ==> p[i].pid != pid
    ensures var s := Sem([0], [], p);
            Enabled(s, Semop(pid, LOWER)) && Next(s, Semop(pid, LOWER)).s == Sem([0], [], p + [Waiter(pid, false)])
  {
    hide SemopNext, Valid;
    WaiterSleeps(p, pid);
  }

  lemma RaiserComes()
    ensures var s := Sem([0], [], [Waiter(1, false), Waiter(2, false)]);
            && Valid(s) && Enabled(s, Semop(3, RAISE))
            && Next(s, Semop(3, RAISE)).s == Sem([1], [], [Waiter(1, true), Waiter(2, false)])
  {
    hide SemopNext, Valid;
    RaiseMarks();
  }

  lemma MarkReached()
    ensures var s, run := Sem([0], [], []), [Semop(1, LOWER), Semop(2, LOWER), Semop(3, RAISE)];
            IsRun(s, run) && After(s, run).s == Sem([1], [], [Waiter(1, true), Waiter(2, false)])
  {
    hide Next, Valid, IsRun, After, Enabled;
    var w1, w2 := Waiter(1, false), Waiter(2, false);
    WaitersValid(0, []);
    WaitersValid(0, [w1]);
    WaitersValid(1, [Waiter(1, true), w2]);
    WaiterComes([], 1);
    WaiterComes([w1], 2);
    assert [] + [w1] == [w1] && [w1] + [w2] == [w1, w2];
    RaiserComes();
    ThreeEvents(Sem([0], [], []), Semop(1, LOWER), Semop(2, LOWER), Semop(3, RAISE),
                Sem([0], [], [w1]), Sem([0], [], [w1, w2]), Sem([1], [], [Waiter(1, true), w2]));
  }

  /** Two processes wait for one semaphore and a third raises it. The first is told to try
      again and exits instead; the second stays asleep next to a semaphore that it could take. */
  lemma MarkLost()
    ensures var s, run := Sem([0], [], []), [Semop(1, LOWER), Semop(2, LOWER), Semop(3, RAISE)];
            var t := Sem([1], [], [Waiter(1, true), Waiter(2, false)]);
            && Attended(s) && Inv(s) && IsRun(s, run) && After(s, run).s == t
            && Valid(t) && !Served(ExitNext(t, 1).s)
  {
    hide Valid, ExitNext, Served, Attended, Inv, IsRun, After;
    NobodyThere([0]);
    MarkReached();
    MarkGoes();
  }
}
