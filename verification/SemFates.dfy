/** One pass of update_queue, sleeper by sleeper: what becomes of each is what its vector
    answers at the moment when the pass comes to it. */
module SemFates {
  import opened Semaphores
  import opened SemQueue

  /** After the first k effects of the pass the sleeper q, number i of `todo`, is tried. */
  ghost predicate Fate(s: Sem, todo: seq<Pending>, i: nat, r: Out, k: nat)
    requires UndosOk(s.undos, |s.semval|) && i < |todo| && k <= |r.log|
  {
    var q, m := todo[i], Settle(s, r.log[..k]);
    && UndosOk(m.undos, |m.semval|) && InSet(q.ops, |m.semval|)
    && match TryOps(m, q.pid, q.ops)
       case Ok(_) =>
         if q.decrease then q.(retry := true) in r.s.pending else k < |r.log| && r.log[k] == Committed(q.pid, q.ops)
       case Fail(why) =>
         if why == Sleep then q in r.s.pending else k < |r.log| && r.log[k] == Refused(q.pid, why)
  }

  /** An earlier sleeper has been told to try again, which ends the pass. */
  ghost predicate EndedBefore(todo: seq<Pending>, i: nat, r: Out)
    requires i < |todo|
  {
    exists j :: 0 <= j < i && !todo[j].retry && todo[j].decrease && todo[j].(retry := true) in r.s.pending
  }

  /** The fate of a sleeper in what is left of the pass is its fate in the pass. */
  lemma FateLater(s: Sem, s1: Sem, todo: seq<Pending>, i: nat, r1: Out, r: Out, k: nat, head: seq<Effect>)
    requires UndosOk(s.undos, |s.semval|) && UndosOk(s1.undos, |s1.semval|)
    requires 0 < i < |todo| && k <= |r1.log| && r == Out(r1.s, head + r1.log)
    requires var a, b := Settle(s, head + r1.log[..k]), Settle(s1, r1.log[..k]); a.semval == b.semval && a.undos == b.undos
    requires Fate(s1, todo[1..], i - 1, r1, k)
    ensures Fate(s, todo, i, r, |head| + k)
  {
    assert r.log[..|head| + k] == head + r1.log[..k];
    assert todo[1..][i - 1] == todo[i];
  }

  /** The sleeper that the pass is at. */
  lemma FirstFate(s: Sem, todo: seq<Pending>)
    requires Queueable(s, todo) && todo != []
    ensures var r := Update(s, todo);
            if todo[0].retry then todo[0] in r.s.pending else Fate(s, todo, 0, r, 0)
  {
    var q, rest, r := todo[0], todo[1..], Update(s, todo);
    var t := TryOps(s, q.pid, q.ops);
    assert r.log[..0] == [] && Settle(s, []) == s;
    if q.retry || t == Fail(Sleep) {
      PendingStays(s.(pending := s.pending + [q]), rest, q);
    } else if t.Ok? && !q.decrease {
      SetAdjOk(s.undos, q.pid, t.v.semadj, |s.semval|);
    }
  }

  lemma {:induction false} UpdateFates(s: Sem, todo: seq<Pending>, i: nat) returns (k: nat)
    requires Queueable(s, todo) && i < |todo|
    ensures var r := Update(s, todo);
            && k <= |r.log|
            && (todo[i].retry ==> todo[i] in r.s.pending)
            && (!todo[i].retry ==> EndedBefore(todo, i, r) || Fate(s, todo, i, r, k))
    decreases |todo|
  {
    hide Fate, EndedBefore, Exec, ShiftAll, Settle, UndosOk, SetAdj;
    var q, rest, r := todo[0], todo[1..], Update(s, todo);
    if i == 0 {
      k := 0;
      FirstFate(s, todo);
    } else {
      assert rest[i - 1] == todo[i];
      var t := TryOps(s, q.pid, q.ops);
      if q.retry || t == Fail(Sleep) {
        var kept := s.(pending := s.pending + [q]);
        k := UpdateFates(kept, rest, i - 1);
        SettleSame(s, kept, r.log[..k]);
        assert [] + r.log == r.log && [] + r.log[..k] == r.log[..k];
        Later(s, kept, todo, i, r, r, k, []);
      } else if t.Ok? && q.decrease {
        k := 0;
        MarkedEnds(s, todo, i);
      } else if t.Ok? {
        SetAdjOk(s.undos, q.pid, t.v.semadj, |s.semval|);
        var s1, e := Commit(s, q.pid, t.v), Committed(q.pid, q.ops);
        var m := UpdateFates(s1, rest, i - 1);
        var r1 := Update(s1, rest);
        SettledFirst(s, q, r1.log[..m]);
        Later(s, s1, todo, i, r1, r, m, [e]);
        k := m + 1;
      } else {
        var r1, e := Update(s, rest), Refused(q.pid, t.why);
        var m := UpdateFates(s, rest, i - 1);
        SettleSkips(s, e, r1.log[..m]);
        Later(s, s, todo, i, r1, r, m, [e]);
        k := m + 1;
      }
    }
  }

  lemma MarkedEnds(s: Sem, todo: seq<Pending>, i: nat)
    requires Queueable(s, todo) && 0 < i < |todo| && !todo[0].retry && todo[0].decrease
    requires TryOps(s, todo[0].pid, todo[0].ops).Ok?
    ensures EndedBefore(todo, i, Update(s, todo)) && todo[i] in Update(s, todo).s.pending
  {
    assert todo[i] == todo[1..][i - 1];
    assert todo[0].(retry := true) in Update(s, todo).s.pending;
  }

  lemma SettleSkips(s: Sem, e: Effect, log: seq<Effect>)
    requires UndosOk(s.undos, |s.semval|) && !e.Committed?
    ensures Settle(s, [e] + log) == Settle(s, log)
  {
    assert ([e] + log)[1..] == log;
  }

  lemma SettledFirst(s: Sem, q: Pending, log: seq<Effect>)
    requires UndosOk(s.undos, |s.semval|) && InSet(q.ops, |s.semval|) && TryOps(s, q.pid, q.ops).Ok?
    ensures var s1 := Commit(s, q.pid, TryOps(s, q.pid, q.ops).v);
            UndosOk(s1.undos, |s1.semval|) && Settle(s, [Committed(q.pid, q.ops)] + log) == Settle(s1, log)
  {
    var v, t := Vals(s.semval, AdjOf(s.undos, q.pid, |s.semval|)), TryOps(s, q.pid, q.ops);
    SetAdjOk(s.undos, q.pid, t.v.semadj, |s.semval|);
    ExecIsShiftAll(v, q.ops);
    assert ([Committed(q.pid, q.ops)] + log)[1..] == log;
  }

  lemma Later(s: Sem, s1: Sem, todo: seq<Pending>, i: nat, r1: Out, r: Out, k: nat, head: seq<Effect>)
    requires UndosOk(s.undos, |s.semval|) && UndosOk(s1.undos, |s1.semval|)
    requires 0 < i < |todo| && k <= |r1.log| && r == Out(r1.s, head + r1.log)
    requires var a, b := Settle(s, head + r1.log[..k]), Settle(s1, r1.log[..k]); a.semval == b.semval && a.undos == b.undos
    requires !todo[i].retry ==> EndedBefore(todo[1..], i - 1, r1) || Fate(s1, todo[1..], i - 1, r1, k)
    ensures !todo[i].retry ==> EndedBefore(todo, i, r) || Fate(s, todo, i, r, |head| + k)
  {
    if !todo[i].retry {
      if EndedBefore(todo[1..], i - 1, r1) {
        var j :| 0 <= j < i - 1 && !todo[1..][j].retry && todo[1..][j].decrease && todo[1..][j].(retry := true) in r1.s.pending;
        assert todo[j + 1] == todo[1..][j];
      } else {
        FateLater(s, s1, todo, i, r1, r, k, head);
      }
    }
  }

  /** Whoever has been passed stays. */
  lemma {:induction false} PendingStays(s: Sem, todo: seq<Pending>, q: Pending)
    requires Queueable(s, todo) && q in s.pending
    ensures q in Update(s, todo).s.pending
    decreases |todo|
  {
    if todo != [] {
      var t := TryOps(s, todo[0].pid, todo[0].ops);
      if todo[0].retry || t == Fail(Sleep) {
        PendingStays(s.(pending := s.pending + [todo[0]]), todo[1..], q);
      } else if t.Ok? && !todo[0].decrease {
        SetAdjOk(s.undos, todo[0].pid, t.v.semadj, |s.semval|);
        PendingStays(Commit(s, todo[0].pid, t.v), todo[1..], q);
      } else if t.Fail? {
        PendingStays(s, todo[1..], q);
      }
    }
  }

  /** In one pass of update_queue a sleeper that has been told to try again is passed, and of the
      others each, unless the pass has ended before it, is tried: it stays if it has to wait; it
      is told to try again if it could go on and lowers something; otherwise it is out, with its
      vector performed or with the answer that it would get. */
  lemma PassDecides(s: Sem, i: nat) returns (k: nat)
    requires Valid(s) && i < |s.pending|
    ensures var r := UpdateQueue(s);
            && k <= |r.log|
            && (s.pending[i].retry ==> s.pending[i] in r.s.pending)
            && (!s.pending[i].retry ==> EndedBefore(s.pending, i, r) || Fate(s, s.pending, i, r, k))
  {
    var bare := s.(pending := []);
    k := UpdateFates(bare, s.pending, i);
    var r := UpdateQueue(s);
    SettleSame(s, bare, r.log[..k]);
  }
}
