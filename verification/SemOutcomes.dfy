/** What each semaphore call does to values, adjustments and sleepers, apart from the pass of
    update_queue that follows it. */
module SemOutcomes {
  import opened Seqs
  import opened Semaphores
  import opened SemLedger
  import opened SemQueue
  import opened SemAnswers

  /** The adjustment of process p to semaphore n; 0 without a sem_undo. */
  function AdjAt(s: Sem, p: nat, n: nat): int
    requires UndosOk(s.undos, |s.semval|) && n < |s.semval|
  {
    AdjOf(s.undos, p, |s.semval|)[n]
  }

  /** A set with the same sleepers and as many semaphores. */
  ghost predicate Beside(s: Sem, base: Sem) {
    Valid(s) && Valid(base) && |base.semval| == |s.semval| && base.pending == s.pending
  }

  /** Nothing but perhaps an empty sem_undo has been added. */
  ghost predicate AsBefore(s: Sem, base: Sem) {
    Beside(s, base) && base.semval == s.semval &&
    forall p, n :: 0 <= n < |s.semval| ==> AdjAt(base, p, n) == AdjAt(s, p, n)
  }

  /** The vector has been performed for the process. */
  ghost predicate Performed(s: Sem, pid: nat, ops: seq<SemOp>, base: Sem) {
    Beside(s, base) &&
    forall n :: 0 <= n < |s.semval| ==>
      && base.semval[n] == s.semval[n] + Sum(ops, |ops|, n)
      && forall p :: AdjAt(base, p, n) == AdjAt(s, p, n) - if p == pid then UndoSum(ops, |ops|, n) else 0
  }

  predicate Changes(ops: seq<SemOp>) {
    exists i :: 0 <= i < |ops| && ops[i].op != 0
  }

  predicate Lowers(ops: seq<SemOp>) {
    exists i :: 0 <= i < |ops| && ops[i].op < 0
  }

  predicate Acceptable(s: Sem, ops: seq<SemOp>) {
    1 <= |ops| <= 32 && forall i :: 0 <= i < |ops| ==> ops[i].num < |s.semval|
  }

  /** After the call itself comes a pass of update_queue if the vector can change anything. */
  ghost predicate Then(base: Sem, ops: seq<SemOp>, s': Sem) {
    Valid(base) && s' == if Changes(ops) then UpdateQueue(base).s else base
  }

  lemma WithUndoAsBefore(s: Sem, pid: nat, ops: seq<SemOp>)
    requires Valid(s) && InSet(ops, |s.semval|)
    ensures AsBefore(s, WithUndo(s, pid, ops))
  {
    var r := WithUndo(s, pid, ops);
    if r != s {
      forall p, n | 0 <= n < |s.semval| ensures AdjAt(r, p, n) == AdjAt(s, p, n) {
        assert r.undos[1..] == s.undos;
        if p != pid { assert IndexOf(r.undos, p) == 1 + IndexOf(s.undos, p); }
      }
    }
  }

  lemma {:induction false} NoUndoNoSum(ops: seq<SemOp>, k: nat, n: nat)
    requires k <= |ops| && !UsesUndo(ops)
    ensures UndoSum(ops, k, n) == 0
  {
    if k > 0 { NoUndoNoSum(ops, k - 1, n); }
  }

  lemma CommitPerforms(s: Sem, pid: nat, ops: seq<SemOp>)
    requires Valid(s) && OpsOk(s.undos, pid, ops, |s.semval|) && TryOps(s, pid, ops).Ok?
    ensures Performed(s, pid, ops, Commit(s, pid, TryOps(s, pid, ops).v))
  {
    var v, t := Vals(s.semval, AdjOf(s.undos, pid, |s.semval|)), TryOps(s, pid, ops).v;
    CommitOk(s, pid, t);
    var base := Commit(s, pid, t);
    SucceedsIff(v, ops);
    ExecIs(v, ops);
    forall n, p | 0 <= n < |s.semval|
      ensures AdjAt(base, p, n) == AdjAt(s, p, n) - if p == pid then UndoSum(ops, |ops|, n) else 0
    {
      assert IndexOf(base.undos, p) == IndexOf(s.undos, p);
      if IndexOf(s.undos, pid) == |s.undos| { NoUndoNoSum(ops, |ops|, n); }
    }
  }

  lemma PerformedFrom(s: Sem, s1: Sem, pid: nat, ops: seq<SemOp>, base: Sem)
    requires AsBefore(s, s1) && Performed(s1, pid, ops, base)
    ensures Performed(s, pid, ops, base)
  {
    forall n, p | 0 <= n < |s.semval|
      ensures AdjAt(base, p, n) == AdjAt(s, p, n) - if p == pid then UndoSum(ops, |ops|, n) else 0
    {
      assert base.semval[n] == s1.semval[n] + Sum(ops, |ops|, n);
      assert AdjAt(s1, p, n) == AdjAt(s, p, n);
    }
  }

  lemma NotSleeping(s: Sem, pid: nat, ops: seq<SemOp>, s': Sem)
    requires Valid(s) && !Sleeping(s, pid) && Then(s, ops, s')
    ensures !Sleeping(s', pid)
  {
    if Changes(ops) {
      UpdateFrom(s);
      forall i | 0 <= i < |s'.pending| ensures s'.pending[i].pid != pid {
        assert s'.pending[i] in s'.pending;
        var p :| p in s.pending && p.pid == s'.pending[i].pid && p.ops == s'.pending[i].ops;
      }
    }
  }

  /** What semop answers: the values of the set and the adjustments of the process decide. */
  function AnswerTo(s: Sem, pid: nat, ops: seq<SemOp>): Trial
    requires Valid(s) && InSet(ops, |s.semval|)
  {
    Exec(Vals(s.semval, AdjOf(s.undos, pid, |s.semval|)), ops)
  }

  lemma SameAnswer(s: Sem, s1: Sem, pid: nat, ops: seq<SemOp>)
    requires AsBefore(s, s1) && InSet(ops, |s.semval|)
    ensures TryOps(s1, pid, ops) == AnswerTo(s, pid, ops)
  {
    var a, b := AdjOf(s.undos, pid, |s.semval|), AdjOf(s1.undos, pid, |s.semval|);
    forall n | 0 <= n < |s.semval| ensures a[n] == b[n] { assert AdjAt(s1, pid, n) == AdjAt(s, pid, n); }
    assert |a| == |b| == |s.semval|;
    assert a == b;
  }

  /** semop. Calls that it does not accept change nothing. A vector that succeeds is performed; one
      that is refused is not; then follows the pass. One that has to wait is queued unmarked,
      behind all others if it changes anything and else before them, and nothing else happens. */
  lemma SemopMeans(s: Sem, pid: nat, ops: seq<SemOp>)
    requires Valid(s) && !Sleeping(s, pid)
    ensures !Acceptable(s, ops) ==> SemopNext(s, pid, ops).s == s
    ensures Acceptable(s, ops) ==>
              var t, s' := AnswerTo(s, pid, ops), SemopNext(s, pid, ops).s;
              && (t.Ok? ==> exists base :: Performed(s, pid, ops, base) && Then(base, ops, s'))
              && (t.Fail? && t.why != Sleep ==> exists base :: AsBefore(s, base) && Then(base, ops, s'))
              && (Sleeping(s', pid) <==> t == Fail(Sleep))
              && (t == Fail(Sleep) ==>
                    var q := Pending(pid, ops, Lowers(ops), false);
                    && s'.pending == (if Changes(ops) then s.pending + [q] else [q] + s.pending)
                    && AsBefore(s, s'.(pending := s.pending)))
  {
    if Acceptable(s, ops) {
      var s1 := WithUndo(s, pid, ops);
      WithUndoAsBefore(s, pid, ops);
      SameAnswer(s, s1, pid, ops);
      var t, s' := AnswerTo(s, pid, ops), SemopNext(s, pid, ops).s;
      hide Exec, UpdateQueue, Performed, AsBefore;
      if t.Ok? {
        CommitPerforms(s1, pid, ops);
        var base := Commit(s1, pid, t.v);
        PerformedFrom(s, s1, pid, ops, base);
        CommitOk(s1, pid, t.v);
        assert Then(base, ops, s');
        NotSleeping(base, pid, ops, s');
      } else if t.why != Sleep {
        assert Then(s1, ops, s');
        NotSleeping(s1, pid, ops, s');
      } else {
        assert s'.(pending := s.pending) == s1;
        assert s'.pending[if Changes(ops) then |s.pending| else 0].pid == pid;
      }
    }
  }

  /** A process that was told to try again: it is out, or asleep unmarked because it still has to
      wait. One that was not told so is left alone. */
  lemma ResumeMeans(s: Sem, pid: nat)
    requires Valid(s)
    ensures (forall q :: q in s.pending && q.pid == pid ==> !q.retry) ==> ResumeNext(s, pid).s == s
    ensures forall q :: q in s.pending && q.pid == pid && q.retry ==>
              InSet(q.ops, |s.semval|) &&
              var t, s' := AnswerTo(s, pid, q.ops), ResumeNext(s, pid).s;
              && (Sleeping(s', pid) <==> t == Fail(Sleep))
              && (t == Fail(Sleep) ==> exists i :: 0 <= i < |s.pending| && s.pending[i] == q &&
                                          s' == s.(pending := s.pending[i := q.(retry := false)]))
              && (t.Ok? ==> exists base :: Performed(Dequeue(s, pid), pid, q.ops, base) && Then(base, q.ops, s'))
              && (t.Fail? && t.why != Sleep ==> Then(Dequeue(s, pid), q.ops, s'))
  {
    var i := Entry(s.pending, pid);
    if i < |s.pending| {
      assert s.pending[i] in s.pending;
      forall q | q in s.pending && q.pid == pid ensures q == s.pending[i] {
        var k :| 0 <= k < |s.pending| && s.pending[k] == q;
      }
      if s.pending[i].retry { RetryMeans(s, pid, i); }
    }
  }

  lemma RetryMeans(s: Sem, pid: nat, i: nat)
    requires Valid(s) && i == Entry(s.pending, pid) && i < |s.pending| && s.pending[i].retry
    ensures var q := s.pending[i];
            InSet(q.ops, |s.semval|) &&
            var t, s' := AnswerTo(s, pid, q.ops), ResumeNext(s, pid).s;
            && (Sleeping(s', pid) <==> t == Fail(Sleep))
            && (t == Fail(Sleep) ==> s' == s.(pending := s.pending[i := q.(retry := false)]))
            && (t.Ok? ==> exists base :: Performed(Dequeue(s, pid), pid, q.ops, base) && Then(base, q.ops, s'))
            && (t.Fail? && t.why != Sleep ==> Then(Dequeue(s, pid), q.ops, s'))
  {
    var q, d := s.pending[i], Dequeue(s, pid);
    assert OpsOk(s.undos, s.pending[i].pid, s.pending[i].ops, |s.semval|);
    var t, s' := AnswerTo(s, pid, q.ops), ResumeNext(s, pid).s;
    hide Exec, UpdateQueue, Performed;
    if t.Ok? {
      CommitPerforms(d, pid, q.ops);
      var base := Commit(d, pid, t.v);
      CommitOk(d, pid, t.v);
      assert Then(base, q.ops, s');
      NotSleeping(base, pid, q.ops, s');
    } else if t.why != Sleep {
      assert Then(d, q.ops, s');
      NotSleeping(d, pid, q.ops, s');
    } else {
      assert s'.pending[i].pid == pid;
    }
  }

  /** An interrupted sleeper is out, and the pass follows; one that was told to try again is not
      interrupted. */
  lemma SignalMeans(s: Sem, pid: nat)
    requires Valid(s)
    ensures (!Sleeping(s, pid) || exists q :: q in s.pending && q.pid == pid && q.retry) ==> SignalNext(s, pid).s == s
    ensures forall q :: q in s.pending && q.pid == pid && !q.retry ==>
              Then(Dequeue(s, pid), q.ops, SignalNext(s, pid).s) && !Sleeping(SignalNext(s, pid).s, pid)
  {
    var i := Entry(s.pending, pid);
    if i < |s.pending| {
      forall q | q in s.pending && q.pid == pid ensures q == s.pending[i] {
        var k :| 0 <= k < |s.pending| && s.pending[k] == q;
      }
      if !s.pending[i].retry { NotSleeping(Dequeue(s, pid), pid, s.pending[i].ops, SignalNext(s, pid).s); }
    }
  }

  /** One value is set and all adjustments to it are cleared. */
  ghost predicate ValueSet(s: Sem, num: nat, val: int, base: Sem) {
    Beside(s, base) &&
    forall n :: 0 <= n < |s.semval| ==>
      && base.semval[n] == (if n == num then val else s.semval[n])
      && forall p :: AdjAt(base, p, n) == if n == num then 0 else AdjAt(s, p, n)
  }

  lemma {:induction false} ClearIndex(undos: seq<Undo>, num: nat, p: nat)
    ensures IndexOf(Clear(undos, num), p) == IndexOf(undos, p)
  {
    if undos != [] { ClearIndex(undos[1..], num, p); }
  }

  lemma {:induction false} ClearIs(undos: seq<Undo>, num: nat, k: nat)
    requires k < |undos|
    ensures Clear(undos, num)[k].adj == if num < |undos[k].adj| then undos[k].adj[num := 0] else undos[k].adj
  {
    if k > 0 { ClearIs(undos[1..], num, k - 1); }
  }

  /** SETVAL: a legal value is set, with a pass; anything else changes nothing. */
  lemma SetValMeans(s: Sem, num: nat, val: int)
    requires Valid(s)
    ensures num < |s.semval| && 0 <= val <= 32767 ==>
              exists base :: ValueSet(s, num, val, base) && SetValNext(s, num, val).s == UpdateQueue(base).s
    ensures !(num < |s.semval| && 0 <= val <= 32767) ==> SetValNext(s, num, val).s == s
  {
    if num < |s.semval| && 0 <= val <= 32767 {
      var base := s.(semval := s.semval[num := val], undos := Clear(s.undos, num));
      SamePids(s, base);
      forall n, p | 0 <= n < |s.semval| ensures AdjAt(base, p, n) == if n == num then 0 else AdjAt(s, p, n) {
        ClearIndex(s.undos, num, p);
        if IndexOf(s.undos, p) < |s.undos| { ClearIs(s.undos, num, IndexOf(s.undos, p)); }
      }
      assert ValueSet(s, num, val, base);
    }
  }

  /** All values are set and all adjustments cleared. */
  ghost predicate AllSet(s: Sem, vals: seq<int>, base: Sem) {
    Beside(s, base) && base.semval == vals && forall p, n :: 0 <= n < |vals| ==> AdjAt(base, p, n) == 0
  }

  /** SETALL: values that are all legal are set, with a pass; otherwise nothing changes. */
  lemma SetAllMeans(s: Sem, vals: seq<int>)
    requires Valid(s) && |vals| == |s.semval|
    ensures (forall i :: 0 <= i < |vals| ==> 0 <= vals[i] <= 32767) ==>
              exists base :: AllSet(s, vals, base) && SetAllNext(s, vals).s == UpdateQueue(base).s
    ensures !(forall i :: 0 <= i < |vals| ==> 0 <= vals[i] <= 32767) ==> SetAllNext(s, vals).s == s
  {
    if forall i :: 0 <= i < |vals| ==> 0 <= vals[i] <= 32767 {
      var base := s.(semval := vals, undos := ClearAll(s.undos, |vals|));
      SamePids(s, base);
      assert AllSet(s, vals, base);
    }
  }

  /** The process is out of the queue, its adjustments are made, none of the values below zero,
      and it has none left; nobody else's have changed. */
  ghost predicate Exited(s: Sem, pid: nat, base: Sem) {
    && Valid(s) && Valid(base) && |base.semval| == |s.semval|
    && (forall q :: q in base.pending <==> q in s.pending && q.pid != pid)
    && forall n :: 0 <= n < |s.semval| ==>
         && base.semval[n] == (if s.semval[n] + AdjAt(s, pid, n) < 0 then 0 else s.semval[n] + AdjAt(s, pid, n))
         && forall p :: AdjAt(base, p, n) == if p == pid then 0 else AdjAt(s, p, n)
  }

  lemma RemovedIndex(undos: seq<Undo>, n: nat, k: nat, p: nat)
    requires UndosOk(undos, n) && k < |undos|
    ensures AdjOf(undos[..k] + undos[k + 1..], p, n) == if p == undos[k].pid then Zeros(n) else AdjOf(undos, p, n)
  {
    var r := undos[..k] + undos[k + 1..];
    var i, j := IndexOf(r, p), IndexOf(undos, p);
    if i < |r| { assert r[i] == undos[if i < k then i else i + 1]; }
    if j < |undos| && j != k { assert undos[j] == r[if j < k then j else j - 1]; }
  }

  lemma NothingOwed(s: Sem, pid: nat, base: Sem)
    requires Valid(s) && Valid(base) && NonNegative(s.semval) && IndexOf(s.undos, pid) == |s.undos|
    requires base.semval == s.semval && base.undos == s.undos
    requires forall q :: q in base.pending <==> q in s.pending && q.pid != pid
    ensures Exited(s, pid, base)
  {
  }

  lemma ExitedIs(s: Sem, pid: nat, k: nat, base: Sem)
    requires Valid(s) && Valid(base) && k < |s.undos| && k == IndexOf(s.undos, pid)
    requires base.semval == Adjusted(s.semval, s.undos[k].adj) && base.undos == s.undos[..k] + s.undos[k+1..]
    requires forall q :: q in base.pending <==> q in s.pending && q.pid != pid
    ensures Exited(s, pid, base)
  {
    hide Valid;
    ValidUndos(s);
    ValidUndos(base);
    forall n, p | 0 <= n < |s.semval| ensures AdjAt(base, p, n) == if p == pid then 0 else AdjAt(s, p, n) {
      RemovedIndex(s.undos, |s.semval|, k, p);
    }
  }

  lemma ValidUndos(s: Sem)
    requires Valid(s)
    ensures UndosOk(s.undos, |s.semval|)
  {
  }

  /** sem_exit: with a pass if the process had a sem_undo. */
  lemma ExitMeans(s: Sem, pid: nat)
    requires Valid(s) && NonNegative(s.semval)
    ensures exists base :: Exited(s, pid, base) &&
              ExitNext(s, pid).s == if exists u :: u in s.undos && u.pid == pid then UpdateQueue(base).s else base
  {
    hide UpdateQueue, Exited;
    var s1 := Dequeue(s, pid);
    forall q ensures q in s1.pending <==> q in s.pending && q.pid != pid { FilterMember(s.pending, NotPid(pid), q); }
    var k := IndexOf(s.undos, pid);
    if k == |s.undos| {
      NothingOwed(s, pid, s1);
      forall u | u in s.undos ensures u.pid != pid { var j :| 0 <= j < |s.undos| && s.undos[j] == u; }
    } else {
      var base := s1.(semval := Adjusted(s1.semval, s1.undos[k].adj), undos := s1.undos[..k] + s1.undos[k+1..]);
      ExitOk(s1, base, k);
      ExitedIs(s, pid, k, base);
      assert s.undos[k] in s.undos;
    }
  }

  // ---------- the order of the queue ----------

  /** Those who wait for zero and change nothing stand before all others. */
  ghost predicate WatchersFirst(p: seq<Pending>) {
    forall i, j :: 0 <= i < j < |p| && !Changes(p[j].ops) ==> !Changes(p[i].ops)
  }

  lemma FilterWatchers(p: seq<Pending>, f: Pending -> bool)
    requires WatchersFirst(p)
    ensures WatchersFirst(Filter(p, f))
  {
    var r := Filter(p, f);
    forall i, j | 0 <= i < j < |r| && !Changes(r[j].ops) ensures !Changes(r[i].ops) { SourceOrder(p, f, i, j); }
  }

  lemma UpdateWatchers(s: Sem)
    requires Valid(s) && WatchersFirst(s.pending)
    ensures WatchersFirst(UpdateQueue(s).s.pending)
  {
    UpdateQueueSpec(s);
    var r := UpdateQueue(s);
    FilterWatchers(s.pending, NotFinished(r.log));
    var base := Filter(s.pending, NotFinished(r.log));
    assert |base| == |r.s.pending| && forall i :: 0 <= i < |base| ==> base[i].ops == r.s.pending[i].ops;
  }

  lemma ThenWatchers(base: Sem, ops: seq<SemOp>, s': Sem)
    requires Then(base, ops, s') && WatchersFirst(base.pending)
    ensures WatchersFirst(s'.pending)
  {
    if Changes(ops) { UpdateWatchers(base); }
  }

  lemma NextWatchers(s: Sem, e: Event)
    requires Inv(s) && Enabled(s, e) && WatchersFirst(s.pending)
    ensures WatchersFirst(Next(s, e).s.pending)
  {
    hide WatchersFirst, UpdateQueue, Performed, AsBefore;
    match e
    case Semop(pid, ops) => SemopWatchers(s, pid, ops);
    case Resume(pid) => ResumeWatchers(s, pid);
    case Signal(pid) =>
      SignalMeans(s, pid);
      FilterWatchers(s.pending, NotPid(pid));
      if Next(s, e).s != s {
        var i := Entry(s.pending, pid);
        ThenWatchers(Dequeue(s, pid), s.pending[i].ops, Next(s, e).s);
      }
    case SetVal(num, val) =>
      SetValMeans(s, num, val);
      if num < |s.semval| && 0 <= val <= 32767 {
        var base :| ValueSet(s, num, val, base) && SetValNext(s, num, val).s == UpdateQueue(base).s;
        UpdateWatchers(base);
      }
    case SetAll(vals) =>
      if |vals| == |s.semval| {
        SetAllMeans(s, vals);
        if forall i :: 0 <= i < |vals| ==> 0 <= vals[i] <= 32767 {
          var base :| AllSet(s, vals, base) && SetAllNext(s, vals).s == UpdateQueue(base).s;
          UpdateWatchers(base);
        }
      }
    case Exit(pid) => ExitWatchers(s, pid);
  }

  lemma SemopWatchers(s: Sem, pid: nat, ops: seq<SemOp>)
    requires Valid(s) && !Sleeping(s, pid) && WatchersFirst(s.pending)
    ensures WatchersFirst(SemopNext(s, pid, ops).s.pending)
  {
    SemopMeans(s, pid, ops);
    hide UpdateQueue, WatchersFirst, Performed, AsBefore, Then, Exec, SemopNext;
    if Acceptable(s, ops) {
      var t, s' := AnswerTo(s, pid, ops), SemopNext(s, pid, ops).s;
      if t.Ok? {
        var base :| Performed(s, pid, ops, base) && Then(base, ops, s');
        SameQueue(s, pid, ops, base);
        ThenWatchers(base, ops, s');
      } else if t.why != Sleep {
        var base :| AsBefore(s, base) && Then(base, ops, s');
        SameQueue(s, pid, ops, base);
        ThenWatchers(base, ops, s');
      } else {
        EnqueueWatchers(s.pending, Pending(pid, ops, Lowers(ops), false));
      }
    }
  }

  lemma SameQueue(s: Sem, pid: nat, ops: seq<SemOp>, base: Sem)
    requires Performed(s, pid, ops, base) || AsBefore(s, base)
    ensures base.pending == s.pending
  {
  }

  lemma EnqueueWatchers(p: seq<Pending>, q: Pending)
    requires WatchersFirst(p)
    ensures WatchersFirst(if Changes(q.ops) then p + [q] else [q] + p)
  {
  }

  lemma ResumeWatchers(s: Sem, pid: nat)
    requires Valid(s) && WatchersFirst(s.pending)
    ensures WatchersFirst(ResumeNext(s, pid).s.pending)
  {
    hide UpdateQueue;
    var i := Entry(s.pending, pid);
    if i < |s.pending| && s.pending[i].retry {
      RetryMeans(s, pid, i);
      FilterWatchers(s.pending, NotPid(pid));
      var q := s.pending[i];
      var t, s' := AnswerTo(s, pid, q.ops), ResumeNext(s, pid).s;
      if t.Ok? {
        var base :| Performed(Dequeue(s, pid), pid, q.ops, base) && Then(base, q.ops, s');
        ThenWatchers(base, q.ops, s');
      } else if t.why != Sleep {
        ThenWatchers(Dequeue(s, pid), q.ops, s');
      }
    }
  }

  lemma ExitWatchers(s: Sem, pid: nat)
    requires Valid(s) && WatchersFirst(s.pending)
    ensures WatchersFirst(ExitNext(s, pid).s.pending)
  {
    hide UpdateQueue, WatchersFirst;
    var s1 := Dequeue(s, pid);
    FilterWatchers(s.pending, NotPid(pid));
    var i := IndexOf(s1.undos, pid);
    if i < |s1.undos| {
      var s2 := s1.(semval := Adjusted(s1.semval, s1.undos[i].adj), undos := s1.undos[..i] + s1.undos[i+1..]);
      ExitOk(s1, s2, i);
      UpdateWatchers(s2);
    }
  }

  /** Over every run the queue has that order. */
  lemma {:induction false} QueueInOrder(s: Sem, run: seq<Event>)
    requires Inv(s) && IsRun(s, run) && WatchersFirst(s.pending)
    ensures WatchersFirst(After(s, run).s.pending)
    decreases |run|
  {
    hide Next, WatchersFirst, Inv;
    if run != [] {
      NextWatchers(s, run[0]);
      NextBalanced(s, run[0]);
      BalancedInv(s, run[0]);
      QueueInOrder(Next(s, run[0]).s, run[1..]);
    }
  }

  lemma BalancedInv(s: Sem, e: Event)
    requires Inv(s) && Enabled(s, e)
    ensures Inv(Next(s, e).s)
  {
    NextBalanced(s, e);
  }
}
