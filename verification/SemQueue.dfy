/** What one pass of update_queue does, said without its tests. */
module SemQueue {
  import opened Seqs
  import opened Semaphores

  /** All operations of a vector, performed without any test. */
  function ShiftAll(v: Vals, ops: seq<SemOp>): (r: Vals)
    requires |v.semval| == |v.semadj| && InSet(ops, |v.semval|)
    ensures |r.semval| == |r.semadj| == |v.semval|
    decreases |ops|
  {
    if ops == [] then v else ShiftAll(Shift(v, ops[0]), ops[1..])
  }

  /** A vector that succeeds is performed completely. */
  lemma {:induction false} ExecIsShiftAll(v: Vals, ops: seq<SemOp>)
    requires |v.semval| == |v.semadj| && InSet(ops, |v.semval|) && Exec(v, ops).Ok?
    ensures Exec(v, ops).v == ShiftAll(v, ops)
    decreases |ops|
  {
    if ops != [] { ExecIsShiftAll(Shift(v, ops[0]), ops[1..]); }
  }

  /** Perform the committed vectors of a log, in order, on the bare values. */
  ghost function Settle(s: Sem, log: seq<Effect>): Sem
    requires UndosOk(s.undos, |s.semval|)
    decreases |log|
  {
    if log == [] then s
    else if log[0].Committed? && InSet(log[0].ops, |s.semval|) then
      var v := ShiftAll(Vals(s.semval, AdjOf(s.undos, log[0].pid, |s.semval|)), log[0].ops);
      SetAdjOk(s.undos, log[0].pid, v.semadj, |s.semval|);
      Settle(Commit(s, log[0].pid, v), log[1..])
    else Settle(s, log[1..])
  }

  function Unmark(p: seq<Pending>): (r: seq<Pending>)
    ensures |r| == |p| && forall i :: 0 <= i < |p| ==> r[i] == p[i].(retry := false)
  {
    seq(|p|, i requires 0 <= i < |p| => p[i].(retry := false))
  }

  function Marks(p: seq<Pending>): nat {
    if p == [] then 0 else (if p[0].retry then 1 else 0) + Marks(p[1..])
  }

  lemma {:induction false} MarksConcat(a: seq<Pending>, b: seq<Pending>)
    ensures Marks(a + b) == Marks(a) + Marks(b)
  {
    if a == [] { assert a + b == b; } else {
      assert (a + b)[1..] == a[1..] + b;
      MarksConcat(a[1..], b);
    }
  }

  /** The processes whose calls the log completes. */
  function Finished(log: seq<Effect>): set<nat> {
    set i | 0 <= i < |log| && (log[i].Committed? || log[i].Refused?) :: log[i].pid
  }

  function NotFinished(log: seq<Effect>): Pending -> bool {
    (q: Pending) => q.pid !in Finished(log)
  }

  lemma FinishedHead(e: Effect, log: seq<Effect>)
    requires e.Committed? || e.Refused?
    ensures Finished([e] + log) == {e.pid} + Finished(log)
  {
    var l := [e] + log;
    assert l[0] == e;
    forall i | 0 <= i < |log| ensures l[i + 1] == log[i] {}
    forall x | x in Finished(log) ensures x in Finished(l) {
      var i :| 0 <= i < |log| && (log[i].Committed? || log[i].Refused?) && log[i].pid == x;
      assert l[i + 1].pid == x;
    }
  }

  lemma {:induction false} UpdateSettles(s: Sem, todo: seq<Pending>)
    requires Queueable(s, todo)
    ensures var r := Update(s, todo); r.s == Settle(s, r.log).(pending := r.s.pending)
    decreases |todo|
  {
    if todo != [] {
      var q := todo[0];
      var kept := s.(pending := s.pending + [q]);
      var t := TryOps(s, q.pid, q.ops);
      if q.retry || t == Fail(Sleep) {
        UpdateSettles(kept, todo[1..]);
        SettleSame(s, kept, Update(s, todo).log);
      } else if !(t.Ok? && q.decrease) {
        if t.Ok? {
          ExecIsShiftAll(Vals(s.semval, AdjOf(s.undos, q.pid, |s.semval|)), q.ops);
          SetAdjOk(s.undos, q.pid, t.v.semadj, |s.semval|);
          var s' := Commit(s, q.pid, t.v);
          UpdateSettles(s', todo[1..]);
          assert Update(s, todo).log[1..] == Update(s', todo[1..]).log;
        } else {
          UpdateSettles(s, todo[1..]);
          assert Update(s, todo).log[1..] == Update(s, todo[1..]).log;
        }
      }
    }
  }

  /** The queue itself plays no part in settling. */
  lemma {:induction false} SettleSame(a: Sem, b: Sem, log: seq<Effect>)
    requires UndosOk(a.undos, |a.semval|) && b == a.(pending := b.pending)
    ensures Settle(b, log) == Settle(a, log).(pending := b.pending)
    decreases |log|
  {
    if log != [] {
      if log[0].Committed? && InSet(log[0].ops, |a.semval|) {
        var v := ShiftAll(Vals(a.semval, AdjOf(a.undos, log[0].pid, |a.semval|)), log[0].ops);
        SetAdjOk(a.undos, log[0].pid, v.semadj, |a.semval|);
        SettleSame(Commit(a, log[0].pid, v), Commit(b, log[0].pid, v), log[1..]);
      } else {
        SettleSame(a, b, log[1..]);
      }
    }
  }

  ghost predicate Distinct(p: seq<Pending>) {
    forall i, j :: 0 <= i < j < |p| ==> p[i].pid != p[j].pid
  }

  ghost function PidsOf(p: seq<Pending>): set<nat> {
    set i | 0 <= i < |p| :: p[i].pid
  }

  /** Only queued processes are finished, and a finished one did not decrease. */
  lemma {:induction false} UpdateFinishes(s: Sem, todo: seq<Pending>)
    requires Queueable(s, todo)
    ensures Finished(Update(s, todo).log) <= PidsOf(todo)
    ensures forall e :: e in Update(s, todo).log && e.Committed? ==>
              exists i :: 0 <= i < |todo| && todo[i] == Pending(e.pid, e.ops, false, false)
    decreases |todo|
  {
    if todo != [] {
      var q := todo[0];
      var kept := s.(pending := s.pending + [q]);
      var t := TryOps(s, q.pid, q.ops);
      var rest := todo[1..];
      assert PidsOf(rest) + {q.pid} == PidsOf(todo) by {
        forall i | 0 <= i < |rest| ensures rest[i].pid in PidsOf(todo) { assert todo[i + 1] == rest[i]; }
        assert todo[0].pid in PidsOf(todo);
        forall x | x in PidsOf(todo) ensures x in PidsOf(rest) + {q.pid} {
          var i :| 0 <= i < |todo| && todo[i].pid == x;
          if i > 0 { assert rest[i - 1] == todo[i]; }
        }
      }
      if q.retry || t == Fail(Sleep) {
        UpdateFinishes(kept, rest);
      } else if !(t.Ok? && q.decrease) {
        var s' := if t.Ok? then Commit(s, q.pid, t.v) else s;
        if t.Ok? { SetAdjOk(s.undos, q.pid, t.v.semadj, |s.semval|); }
        UpdateFinishes(s', rest);
        var e := if t.Ok? then Committed(q.pid, q.ops) else Refused(q.pid, t.why);
        FinishedHead(e, Update(s', rest).log);
        assert Update(s, todo).log == [e] + Update(s', rest).log;
      }
    }
  }

  lemma UnmarkConcat(a: seq<Pending>, b: seq<Pending>)
    ensures Unmark(a + b) == Unmark(a) + Unmark(b)
  {
  }

  lemma {:induction false} FilterAgree(p: seq<Pending>, f: Pending -> bool, g: Pending -> bool)
    requires forall i :: 0 <= i < |p| ==> f(p[i]) == g(p[i])
    ensures Filter(p, f) == Filter(p, g)
  {
    if p != [] { FilterAgree(p[1..], f, g); }
  }

  ghost predicate Survive(s: Sem, todo: seq<Pending>, r: Out) {
    && Unmark(r.s.pending) == Unmark(s.pending) + Filter(Unmark(todo), NotFinished(r.log))
    && Marks(r.s.pending) <= Marks(s.pending) + Marks(todo) + 1
  }

  lemma SurviveKept(s: Sem, todo: seq<Pending>, r: Out)
    requires todo != [] && Survive(s.(pending := s.pending + [todo[0]]), todo[1..], r) && todo[0].pid !in Finished(r.log)
    ensures Survive(s, todo, r)
  {
    var q, rest := todo[0], todo[1..];
    assert Unmark(todo) == [q.(retry := false)] + Unmark(rest);
    MarksConcat(s.pending, [q]);
    UnmarkConcat(s.pending, [q]);
    assert Unmark([q]) == [q.(retry := false)];
    assert Filter(Unmark(todo), NotFinished(r.log)) == [q.(retry := false)] + Filter(Unmark(rest), NotFinished(r.log));
  }

  lemma SurviveMarked(s: Sem, todo: seq<Pending>, r: Out)
    requires todo != [] && r.log == [] && r.s.pending == s.pending + [todo[0].(retry := true)] + todo[1..]
    ensures Survive(s, todo, r)
  {
    var q, rest := todo[0].(retry := true), todo[1..];
    assert Marks(r.s.pending) <= Marks(s.pending) + Marks(todo) + 1 by {
      MarksConcat(s.pending, [q]);
      MarksConcat(s.pending + [q], rest);
    }
    assert Unmark(r.s.pending) == Unmark(s.pending) + Unmark(todo);
    assert Finished(r.log) == {};
    FilterAll(Unmark(todo), NotFinished(r.log));
  }

  lemma SurviveFinished(s: Sem, s': Sem, todo: seq<Pending>, r: Out, e: Effect)
    requires todo != [] && Distinct(todo) && s'.pending == s.pending
    requires (e.Committed? || e.Refused?) && e.pid == todo[0].pid
    requires Survive(s', todo[1..], r)
    ensures Survive(s, todo, Out(r.s, [e] + r.log))
  {
    var q, rest, log := todo[0], todo[1..], [e] + r.log;
    assert Unmark(todo) == [q.(retry := false)] + Unmark(rest);
    FinishedHead(e, r.log);
    FilterAgree(Unmark(rest), NotFinished(log), NotFinished(r.log));
    assert Filter(Unmark(todo), NotFinished(log)) == Filter(Unmark(rest), NotFinished(log));
  }

  /** The survivors are the entries that were not finished, in their old order,
      and at most one of them is newly marked. */
  lemma {:induction false} UpdateSurvivors(s: Sem, todo: seq<Pending>)
    requires Queueable(s, todo) && Distinct(todo)
    ensures Survive(s, todo, Update(s, todo))
    decreases |todo|
  {
    if todo == [] {
      assert Unmark(todo) == [];
    } else {
      var q, rest := todo[0], todo[1..];
      var t := TryOps(s, q.pid, q.ops);
      if q.retry || t == Fail(Sleep) {
        var kept := s.(pending := s.pending + [q]);
        UpdateSurvivors(kept, rest);
        UpdateFinishes(kept, rest);
        assert q.pid !in PidsOf(rest);
        SurviveKept(s, todo, Update(s, todo));
      } else if t.Ok? && q.decrease {
        SurviveMarked(s, todo, Update(s, todo));
      } else {
        var s' := if t.Ok? then Commit(s, q.pid, t.v) else s;
        if t.Ok? { SetAdjOk(s.undos, q.pid, t.v.semadj, |s.semval|); }
        UpdateSurvivors(s', rest);
        SurviveFinished(s, s', todo, Update(s', rest), if t.Ok? then Committed(q.pid, q.ops) else Refused(q.pid, t.why));
      }
    }
  }

  function IsFinished(log: seq<Effect>): Pending -> bool {
    (q: Pending) => q.pid in Finished(log)
  }

  function Pids(p: seq<Pending>): seq<nat> {
    seq(|p|, i requires 0 <= i < |p| => p[i].pid)
  }

  function LogPids(log: seq<Effect>): seq<nat> {
    if log == [] then [] else (if log[0].Committed? || log[0].Refused? then [log[0].pid] else []) + LogPids(log[1..])
  }

  lemma {:induction false} FilterNone(p: seq<Pending>)
    ensures Filter(p, IsFinished([])) == []
  {
    if p != [] { FilterNone(p[1..]); }
  }

  lemma InOrderFinished(todo: seq<Pending>, log: seq<Effect>, e: Effect)
    requires todo != [] && Distinct(todo) && (e.Committed? || e.Refused?) && e.pid == todo[0].pid
    requires LogPids(log) == Pids(Filter(todo[1..], IsFinished(log)))
    ensures LogPids([e] + log) == Pids(Filter(todo, IsFinished([e] + log)))
  {
    var rest, f := todo[1..], IsFinished([e] + log);
    FinishedHead(e, log);
    FilterAgree(rest, f, IsFinished(log));
    assert Filter(todo, f) == [todo[0]] + Filter(rest, f);
    assert Pids([todo[0]] + Filter(rest, f)) == [e.pid] + Pids(Filter(rest, f));
    assert ([e] + log)[1..] == log;
  }

  /** Calls are completed in the order of the queue. */
  lemma {:induction false} UpdateInOrder(s: Sem, todo: seq<Pending>)
    requires Queueable(s, todo) && Distinct(todo)
    ensures var log := Update(s, todo).log; LogPids(log) == Pids(Filter(todo, IsFinished(log)))
    decreases |todo|
  {
    if todo != [] {
      var q, rest := todo[0], todo[1..];
      var t := TryOps(s, q.pid, q.ops);
      if q.retry || t == Fail(Sleep) {
        var kept := s.(pending := s.pending + [q]);
        UpdateInOrder(kept, rest);
        UpdateFinishes(kept, rest);
        assert q.pid !in PidsOf(rest);
      } else if t.Ok? && q.decrease {
        FilterNone(todo);
      } else {
        var s' := if t.Ok? then Commit(s, q.pid, t.v) else s;
        if t.Ok? { SetAdjOk(s.undos, q.pid, t.v.semadj, |s.semval|); }
        UpdateInOrder(s', rest);
        InOrderFinished(todo, Update(s', rest).log, if t.Ok? then Committed(q.pid, q.ops) else Refused(q.pid, t.why));
      }
    }
  }

  /** `out` is `base`, but for at most one entry that is now marked: it lowers something and
      can run. Marks that were there stay. */
  ghost predicate MarksOne(base: seq<Pending>, out: seq<Pending>, s: Sem)
    requires UndosOk(s.undos, |s.semval|)
  {
    out == base || exists m :: MarksAt(base, out, s, m)
  }

  ghost predicate MarksAt(base: seq<Pending>, out: seq<Pending>, s: Sem, m: nat)
    requires UndosOk(s.undos, |s.semval|)
  {
    && m < |base| && !base[m].retry && base[m].decrease && out == base[m := base[m].(retry := true)]
    && InSet(base[m].ops, |s.semval|) && TryOps(s, base[m].pid, base[m].ops).Ok?
  }

  lemma MarkedHere(s: Sem, todo: seq<Pending>)
    requires Queueable(s, todo) && todo != [] && !todo[0].retry && todo[0].decrease && TryOps(s, todo[0].pid, todo[0].ops).Ok?
    ensures var r := s.(pending := s.pending + [todo[0].(retry := true)] + todo[1..]);
            MarksOne(s.pending + Filter(todo, NotFinished([])), r.pending, r)
  {
    var r, base := s.(pending := s.pending + [todo[0].(retry := true)] + todo[1..]), s.pending + todo;
    FilterAll(todo, NotFinished([]));
    assert base[|s.pending|] == todo[0];
    assert TryOps(r, todo[0].pid, todo[0].ops) == TryOps(s, todo[0].pid, todo[0].ops);
    assert MarksAt(base, r.pending, r, |s.pending|);
  }

  lemma {:induction false} UpdateMarks(s: Sem, todo: seq<Pending>)
    requires Queueable(s, todo) && Distinct(todo)
    ensures var r := Update(s, todo);
            UndosOk(r.s.undos, |r.s.semval|) && MarksOne(s.pending + Filter(todo, NotFinished(r.log)), r.s.pending, r.s)
    decreases |todo|
  {
    hide MarksOne, UndosOk, Exec;
    if todo == [] {
      assert s.pending + [] == s.pending;
      NoNewMark(s);
    } else {
      var q, rest := todo[0], todo[1..];
      var t := TryOps(s, q.pid, q.ops);
      var log := Update(s, todo).log;
      if q.retry || t == Fail(Sleep) {
        var kept := s.(pending := s.pending + [q]);
        UpdateMarks(kept, rest);
        UpdateFinishes(kept, rest);
        assert q.pid !in PidsOf(rest);
        assert s.pending + [q] + Filter(rest, NotFinished(log)) == s.pending + Filter(todo, NotFinished(log));
      } else if t.Ok? && q.decrease {
        MarkedHere(s, todo);
      } else {
        var s' := if t.Ok? then Commit(s, q.pid, t.v) else s;
        if t.Ok? { SetAdjOk(s.undos, q.pid, t.v.semadj, |s.semval|); }
        UpdateMarks(s', rest);
        FinishedLeaves(todo, Update(s', rest).log, if t.Ok? then Committed(q.pid, q.ops) else Refused(q.pid, t.why));
      }
    }
  }

  lemma NoNewMark(s: Sem)
    requires UndosOk(s.undos, |s.semval|)
    ensures MarksOne(s.pending, s.pending, s)
  {
  }

  lemma FinishedLeaves(todo: seq<Pending>, log: seq<Effect>, e: Effect)
    requires todo != [] && Distinct(todo) && (e.Committed? || e.Refused?) && e.pid == todo[0].pid
    ensures Filter(todo, NotFinished([e] + log)) == Filter(todo[1..], NotFinished(log))
  {
    FinishedHead(e, log);
    FilterAgree(todo[1..], NotFinished([e] + log), NotFinished(log));
  }

  /** One pass of update_queue. */
  lemma UpdateQueueSpec(s: Sem)
    requires Valid(s)
    ensures var r := UpdateQueue(s);
            && r.s == Settle(s, r.log).(pending := r.s.pending)
            && Unmark(r.s.pending) == Filter(Unmark(s.pending), NotFinished(r.log))
            && UndosOk(r.s.undos, |r.s.semval|)
            && MarksOne(Filter(s.pending, NotFinished(r.log)), r.s.pending, r.s)
            && LogPids(r.log) == Pids(Filter(s.pending, IsFinished(r.log)))
            && Marks(r.s.pending) <= Marks(s.pending) + 1
            && (forall e :: e in r.log && e.Committed? ==> Pending(e.pid, e.ops, false, false) in s.pending)
  {
    var s0 := s.(pending := []);
    UpdateSettles(s0, s.pending);
    UpdateSurvivors(s0, s.pending);
    UpdateInOrder(s0, s.pending);
    UpdateMarks(s0, s.pending);
    assert [] + Filter(s.pending, NotFinished(UpdateQueue(s).log)) == Filter(s.pending, NotFinished(UpdateQueue(s).log));
    UpdateFinishes(s0, s.pending);
    SettleSame(s0, s, UpdateQueue(s).log);
    assert Unmark([]) == [];
  }
}
