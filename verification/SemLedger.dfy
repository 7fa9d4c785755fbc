/** Over every run of a semaphore set, a value plus all adjustments still owed
    to it changes only by operations without SEM_UNDO, by SETVAL and SETALL, and
    by the raise to zero at exit; and no value is ever negative. */
module SemLedger {
  import opened Semaphores

  /** What the operations without SEM_UNDO add to semaphore i. */
  function Plain(ops: seq<SemOp>, i: nat): int {
    if ops == [] then 0
    else (if ops[0].num == i && !ops[0].undo then ops[0].op else 0) + Plain(ops[1..], i)
  }

  /** The adjustments to semaphore i that all processes together will make at exit. */
  function Owed(undos: seq<Undo>, i: nat): int {
    if undos == [] then 0
    else (if i < |undos[0].adj| then undos[0].adj[i] else 0) + Owed(undos[1..], i)
  }

  function Total(s: Sem, i: nat): int
    requires i < |s.semval|
  {
    s.semval[i] + Owed(s.undos, i)
  }

  function Post(x: int, e: Effect, i: nat): int {
    match e
    case Committed(_, ops) => x + Plain(ops, i)
    case Refused(_, _) => x
    case Reset(num, val) => if num == i then val else x
    case Raised(num, amount) => if num == i then x + amount else x
  }

  /** The balance of semaphore i after the effects in `log`. */
  function Replay(x: int, log: seq<Effect>, i: nat): int
    decreases |log|
  {
    if log == [] then x else Replay(Post(x, log[0], i), log[1..], i)
  }

  lemma {:induction false} ReplayConcat(x: int, a: seq<Effect>, b: seq<Effect>, i: nat)
    ensures Replay(x, a + b, i) == Replay(Replay(x, a, i), b, i)
    decreases |a|
  {
    if a == [] {
      assert a + b == b;
    } else {
      assert (a + b)[1..] == a[1..] + b;
      ReplayConcat(Post(x, a[0], i), a[1..], b, i);
    }
  }

  ghost predicate NonNegative(semval: seq<int>) {
    forall i :: 0 <= i < |semval| ==> semval[i] >= 0
  }

  ghost predicate InRange(adj: seq<int>) {
    forall i :: 0 <= i < |adj| ==> AdjInRange(adj[i])
  }

  ghost predicate AllInRange(undos: seq<Undo>) {
    forall i :: 0 <= i < |undos| ==> InRange(undos[i].adj)
  }

  ghost predicate Inv(s: Sem) {
    Valid(s) && NonNegative(s.semval) && AllInRange(s.undos)
  }

  // ---------- one vector ----------

  lemma {:induction false} ExecBalance(v: Vals, ops: seq<SemOp>, i: nat)
    requires |v.semval| == |v.semadj| && InSet(ops, |v.semval|) && i < |v.semval| && Exec(v, ops).Ok?
    ensures var r := Exec(v, ops).v; r.semval[i] + r.semadj[i] == v.semval[i] + v.semadj[i] + Plain(ops, i)
    decreases |ops|
  {
    if ops != [] {
      ExecBalance(Step(v, ops[0]).v, ops[1..], i);
    }
  }

  lemma {:induction false} ExecKeeps(v: Vals, ops: seq<SemOp>)
    requires |v.semval| == |v.semadj| && InSet(ops, |v.semval|) && Exec(v, ops).Ok?
    ensures NonNegative(v.semval) ==> NonNegative(Exec(v, ops).v.semval)
    ensures InRange(v.semadj) ==> InRange(Exec(v, ops).v.semadj)
    ensures !UsesUndo(ops) ==> Exec(v, ops).v.semadj == v.semadj
    decreases |ops|
  {
    if ops != [] {
      var w := Step(v, ops[0]).v;
      assert !UsesUndo(ops) ==> !ops[0].undo && !UsesUndo(ops[1..]);
      ExecKeeps(w, ops[1..]);
    }
  }

  lemma {:induction false} OwedReplaced(undos: seq<Undo>, k: nat, u: Undo, i: nat)
    requires k < |undos| && i < |undos[k].adj| && i < |u.adj|
    ensures Owed(undos[k := u], i) == Owed(undos, i) - undos[k].adj[i] + u.adj[i]
  {
    if k > 0 {
      assert undos[k := u][1..] == undos[1..][k - 1 := u];
      OwedReplaced(undos[1..], k - 1, u, i);
    } else {
      assert undos[k := u][1..] == undos[1..];
    }
  }

  lemma CommitBalance(s: Sem, pid: nat, ops: seq<SemOp>, i: nat)
    requires Valid(s) && OpsOk(s.undos, pid, ops, |s.semval|) && i < |s.semval| && TryOps(s, pid, ops).Ok?
    ensures Total(Commit(s, pid, TryOps(s, pid, ops).v), i) == Total(s, i) + Plain(ops, i)
  {
    var v := Vals(s.semval, AdjOf(s.undos, pid, |s.semval|));
    var r := TryOps(s, pid, ops).v;
    ExecBalance(v, ops, i);
    ExecKeeps(v, ops);
    var k := IndexOf(s.undos, pid);
    if k < |s.undos| {
      OwedReplaced(s.undos, k, Undo(pid, r.semadj), i);
    }
  }

  lemma CommitInv(s: Sem, pid: nat, ops: seq<SemOp>)
    requires Inv(s) && OpsOk(s.undos, pid, ops, |s.semval|) && TryOps(s, pid, ops).Ok?
    ensures Inv(Commit(s, pid, TryOps(s, pid, ops).v)) && |Commit(s, pid, TryOps(s, pid, ops).v).semval| == |s.semval|
  {
    var v := Vals(s.semval, AdjOf(s.undos, pid, |s.semval|));
    assert InRange(v.semadj);
    ExecKeeps(v, ops);
    CommitOk(s, pid, TryOps(s, pid, ops).v);
  }

  // ---------- update_queue ----------

  /** The whole set while update_queue stands before `todo`. */
  function Whole(s: Sem, todo: seq<Pending>): Sem {
    s.(pending := s.pending + todo)
  }

  lemma WholeOps(s: Sem, todo: seq<Pending>)
    requires Inv(Whole(s, todo)) && todo != []
    ensures OpsOk(s.undos, todo[0].pid, todo[0].ops, |s.semval|)
    ensures forall i :: 0 <= i < |todo| ==> InSet(todo[i].ops, |s.semval|)
  {
    var p := Whole(s, todo).pending;
    forall i | 0 <= i < |todo| ensures OpsOk(s.undos, todo[i].pid, todo[i].ops, |s.semval|) {
      assert p[|s.pending| + i] == todo[i];
    }
  }

  lemma DropOne(s: Sem, a: seq<Pending>, q: Pending, b: seq<Pending>)
    requires Inv(s) && s.pending == a + [q] + b
    ensures Inv(s.(pending := a + b)) && !Sleeping(s.(pending := a + b), q.pid)
  {
    var p := a + b;
    forall i | 0 <= i < |p| ensures p[i] == s.pending[if i < |a| then i else i + 1] {}
    assert s.pending[|a|] == q;
  }

  lemma MarkOne(s: Sem, i: nat, retry: bool)
    requires Inv(s) && i < |s.pending|
    ensures Inv(s.(pending := s.pending[i := s.pending[i].(retry := retry)]))
  {
  }

  lemma {:induction false} UpdateInv(s: Sem, todo: seq<Pending>)
    requires Inv(Whole(s, todo)) && Queueable(s, todo)
    ensures Inv(Update(s, todo).s) && |Update(s, todo).s.semval| == |s.semval|
    decreases |todo|
  {
    if todo == [] {
      assert Whole(s, todo) == s;
    } else {
      var q := todo[0];
      WholeOps(s, todo);
      var kept := s.(pending := s.pending + [q]);
      assert Whole(kept, todo[1..]) == Whole(s, todo);
      var t := TryOps(s, q.pid, q.ops);
      if q.retry || t == Fail(Sleep) {
        UpdateInv(kept, todo[1..]);
      } else if t.Ok? && q.decrease {
        MarkOne(Whole(s, todo), |s.pending|, true);
        assert Whole(s, todo).pending[|s.pending| := q.(retry := true)] == s.pending + [q.(retry := true)] + todo[1..];
      } else {
        assert Whole(s, todo).pending == s.pending + [q] + todo[1..];
        DropOne(Whole(s, todo), s.pending, q, todo[1..]);
        if t.Ok? {
          assert TryOps(Whole(s, todo[1..]), q.pid, q.ops) == t;
          CommitInv(Whole(s, todo[1..]), q.pid, q.ops);
          var s' := Commit(s, q.pid, t.v);
          assert Whole(s', todo[1..]) == Commit(Whole(s, todo[1..]), q.pid, t.v);
          UpdateInv(s', todo[1..]);
        } else {
          UpdateInv(s, todo[1..]);
        }
      }
    }
  }

  lemma {:induction false} UpdateBalance(s: Sem, todo: seq<Pending>, i: nat)
    requires Inv(Whole(s, todo)) && Queueable(s, todo) && i < |s.semval|
    ensures i < |Update(s, todo).s.semval|
    ensures Total(Update(s, todo).s, i) == Replay(Total(s, i), Update(s, todo).log, i)
    decreases |todo|
  {
    hide Inv, Replay, Owed, Exec;
    UpdateInv(s, todo);
    ReplayNone(Total(s, i), i);
    if todo != [] {
      var q := todo[0];
      WholeOps(s, todo);
      var kept := s.(pending := s.pending + [q]);
      var t := TryOps(s, q.pid, q.ops);
      if q.retry || t == Fail(Sleep) {
        assert Whole(kept, todo[1..]) == Whole(s, todo);
        UpdateBalance(kept, todo[1..], i);
      } else if !(t.Ok? && q.decrease) {
        assert Whole(s, todo).pending == s.pending + [q] + todo[1..];
        DropOne(Whole(s, todo), s.pending, q, todo[1..]);
        if t.Ok? {
          CommitWhole(s, todo[1..], q, i);
          var s' := Commit(s, q.pid, t.v);
          UpdateBalance(s', todo[1..], i);
          LogHead(Committed(q.pid, q.ops), Update(s', todo[1..]).log, Total(s, i), i);
        } else {
          UpdateBalance(s, todo[1..], i);
          LogHead(Refused(q.pid, t.why), Update(s, todo[1..]).log, Total(s, i), i);
        }
      }
    }
  }

  lemma ReplayNone(x: int, i: nat)
    ensures Replay(x, [], i) == x
  {
  }

  /** A commit in the middle of update_queue. */
  lemma CommitWhole(s: Sem, todo: seq<Pending>, q: Pending, i: nat)
    requires Inv(Whole(s, todo)) && OpsOk(s.undos, q.pid, q.ops, |s.semval|) && i < |s.semval| && TryOps(s, q.pid, q.ops).Ok?
    ensures var s' := Commit(s, q.pid, TryOps(s, q.pid, q.ops).v);
            Inv(Whole(s', todo)) && |s'.semval| == |s.semval| && Total(s', i) == Total(s, i) + Plain(q.ops, i)
  {
    var w := Whole(s, todo);
    assert TryOps(w, q.pid, q.ops) == TryOps(s, q.pid, q.ops);
    CommitInv(w, q.pid, q.ops);
    CommitBalance(w, q.pid, q.ops, i);
    var s' := Commit(s, q.pid, TryOps(s, q.pid, q.ops).v);
    assert Whole(s', todo) == Commit(w, q.pid, TryOps(s, q.pid, q.ops).v);
  }

  lemma LogHead(e: Effect, log: seq<Effect>, x: int, i: nat)
    ensures Replay(x, [e] + log, i) == Replay(Post(x, e, i), log, i)
  {
    assert ([e] + log)[1..] == log;
  }

  /** The state, the values' signs and the books after an event. */
  ghost predicate Balanced(s: Sem, r: Out) {
    && Inv(r.s) && |r.s.semval| == |s.semval|
    && (forall i :: 0 <= i < |s.semval| ==> Total(r.s, i) == Replay(Total(s, i), r.log, i))
  }

  /** update_queue after a change that `log` accounts for. */
  lemma QueueBalanced(s: Sem, s1: Sem, log: seq<Effect>)
    requires Inv(s1) && |s1.semval| == |s.semval|
    requires forall i :: 0 <= i < |s.semval| ==> Total(s1, i) == Replay(Total(s, i), log, i)
    ensures Balanced(s, Out(UpdateQueue(s1).s, log + UpdateQueue(s1).log))
  {
    hide Replay, Owed, Update;
    var s0 := s1.(pending := []);
    assert Whole(s0, s1.pending) == s1;
    UpdateInv(s0, s1.pending);
    forall i | 0 <= i < |s.semval|
      ensures Total(UpdateQueue(s1).s, i) == Replay(Total(s, i), log + UpdateQueue(s1).log, i)
    {
      UpdateBalance(s0, s1.pending, i);
      ReplayConcat(Total(s, i), log, UpdateQueue(s1).log, i);
    }
  }

  lemma FollowBalanced(s: Sem, s1: Sem, ops: seq<SemOp>, log: seq<Effect>)
    requires Inv(s1) && |s1.semval| == |s.semval|
    requires forall i :: 0 <= i < |s.semval| ==> Total(s1, i) == Replay(Total(s, i), log, i)
    ensures Balanced(s, Follow(s1, ops, log))
  {
    if Alters(ops) { QueueBalanced(s, s1, log); }
  }

  /** `s` and `s1` have the same books. */
  ghost predicate SameBooks(s: Sem, s1: Sem) {
    |s1.semval| == |s.semval| && forall i :: 0 <= i < |s.semval| ==> Total(s1, i) == Total(s, i)
  }

  lemma AttemptBalanced(s: Sem, s1: Sem, pid: nat, ops: seq<SemOp>, wait: Sem)
    requires Inv(s1) && OpsOk(s1.undos, pid, ops, |s1.semval|) && SameBooks(s, s1)
    requires Inv(wait) && SameBooks(s, wait)
    ensures Balanced(s, Attempt(s1, pid, ops, wait))
  {
    var t := TryOps(s1, pid, ops);
    if t.Ok? {
      CommitInv(s1, pid, ops);
      var s2 := Commit(s1, pid, t.v);
      forall i | 0 <= i < |s.semval| ensures Total(s2, i) == Replay(Total(s, i), [Committed(pid, ops)], i) {
        CommitBalance(s1, pid, ops, i);
        assert Total(s2, i) == Post(Total(s, i), Committed(pid, ops), i);
      }
      FollowBalanced(s, s2, ops, [Committed(pid, ops)]);
    } else if t.why != Sleep {
      forall i | 0 <= i < |s.semval| ensures Total(s1, i) == Replay(Total(s, i), [Refused(pid, t.why)], i) {}
      FollowBalanced(s, s1, ops, [Refused(pid, t.why)]);
    }
  }

  lemma EnqueueInv(s: Sem, pid: nat, ops: seq<SemOp>)
    requires Inv(s) && !Sleeping(s, pid) && OpsOk(s.undos, pid, ops, |s.semval|)
    ensures Inv(Enqueue(s, pid, ops)) && SameBooks(s, Enqueue(s, pid, ops))
  {
  }

  lemma WithUndoBooks(s: Sem, pid: nat, ops: seq<SemOp>)
    requires Inv(s) && InSet(ops, |s.semval|)
    ensures Inv(WithUndo(s, pid, ops)) && SameBooks(s, WithUndo(s, pid, ops))
  {
    var r := WithUndo(s, pid, ops);
    forall i | 0 <= i < |s.semval| ensures Total(r, i) == Total(s, i) {
      if r != s {
        assert r.undos[1..] == s.undos;
      }
    }
  }

  lemma SemopBalanced(s: Sem, pid: nat, ops: seq<SemOp>)
    requires Inv(s) && !Sleeping(s, pid)
    ensures Balanced(s, SemopNext(s, pid, ops))
  {
    if ops != [] && |ops| <= SEMOPM && InSet(ops, |s.semval|) {
      var s1 := WithUndo(s, pid, ops);
      WithUndoBooks(s, pid, ops);
      EnqueueInv(s1, pid, ops);
      AttemptBalanced(s, s1, pid, ops, Enqueue(s1, pid, ops));
    }
  }

  lemma ResumeBalanced(s: Sem, pid: nat)
    requires Inv(s)
    ensures Balanced(s, ResumeNext(s, pid))
  {
    var i := Entry(s.pending, pid);
    if i < |s.pending| && s.pending[i].retry {
      var q := s.pending[i];
      assert OpsOk(s.undos, s.pending[i].pid, s.pending[i].ops, |s.semval|);
      MarkOne(s, i, false);
      AttemptBalanced(s, Dequeue(s, pid), pid, q.ops, s.(pending := s.pending[i := q.(retry := false)]));
    }
  }

  lemma SignalBalanced(s: Sem, pid: nat)
    requires Inv(s)
    ensures Balanced(s, SignalNext(s, pid))
  {
    var i := Entry(s.pending, pid);
    if i < |s.pending| && !s.pending[i].retry {
      FollowBalanced(s, Dequeue(s, pid), s.pending[i].ops, []);
    }
  }

  /** A log with one entry per semaphore: only the entry of semaphore i counts for it. */
  lemma {:induction false} ReplayEach(x: int, log: seq<Effect>, base: nat, i: nat)
    requires forall k :: 0 <= k < |log| ==> (log[k].Reset? && log[k].num == base + k) || (log[k].Raised? && log[k].num == base + k)
    ensures Replay(x, log, i) == if base <= i < base + |log| then Post(x, log[i - base], i) else x
    decreases |log|
  {
    if log != [] {
      ReplayEach(Post(x, log[0], i), log[1..], base + 1, i);
    }
  }

  lemma {:induction false} ClearedOwed(undos: seq<Undo>, num: nat, i: nat)
    ensures Owed(Clear(undos, num), i) == if i == num then 0 else Owed(undos, i)
    ensures AllInRange(undos) ==> AllInRange(Clear(undos, num))
  {
    if undos != [] {
      assert AllInRange(undos) ==> InRange(undos[0].adj) && AllInRange(undos[1..]);
      ClearedOwed(undos[1..], num, i);
      assert Clear(undos, num)[1..] == Clear(undos[1..], num);
    }
  }

  lemma SetValBalanced(s: Sem, num: nat, val: int)
    requires Inv(s)
    ensures Balanced(s, SetValNext(s, num, val))
  {
    if num < |s.semval| && 0 <= val <= SEMVMX {
      var s1 := s.(semval := s.semval[num := val], undos := Clear(s.undos, num));
      SamePids(s, s1);
      ClearedOwed(s.undos, num, num);
      forall i | 0 <= i < |s.semval| ensures Total(s1, i) == Replay(Total(s, i), [Reset(num, val)], i) {
        ClearedOwed(s.undos, num, i);
        LogHead(Reset(num, val), [], Total(s, i), i);
        assert [Reset(num, val)] + [] == [Reset(num, val)];
      }
      QueueBalanced(s, s1, [Reset(num, val)]);
    }
  }

  lemma {:induction false} ZerosOwed(undos: seq<Undo>, i: nat)
    requires forall k :: 0 <= k < |undos| ==> i < |undos[k].adj| ==> undos[k].adj[i] == 0
    ensures Owed(undos, i) == 0
  {
    if undos != [] { ZerosOwed(undos[1..], i); }
  }

  lemma SetAllBalanced(s: Sem, vals: seq<int>)
    requires Inv(s)
    ensures Balanced(s, SetAllNext(s, vals))
  {
    if |vals| == |s.semval| && forall i :: 0 <= i < |vals| ==> 0 <= vals[i] <= SEMVMX {
      var s1 := s.(semval := vals, undos := ClearAll(s.undos, |vals|));
      var log := seq(|vals|, i requires 0 <= i < |vals| => Reset(i, vals[i]));
      SamePids(s, s1);
      forall i | 0 <= i < |s.semval| ensures Total(s1, i) == Replay(Total(s, i), log, i) {
        ZerosOwed(s1.undos, i);
        ReplayEach(Total(s, i), log, 0, i);
      }
      QueueBalanced(s, s1, log);
    }
  }

  lemma {:induction false} OwedRemoved(undos: seq<Undo>, k: nat, i: nat)
    requires k < |undos| && i < |undos[k].adj|
    ensures Owed(undos[..k] + undos[k+1..], i) == Owed(undos, i) - undos[k].adj[i]
  {
    var r := undos[..k] + undos[k+1..];
    if k > 0 {
      assert r[1..] == undos[1..][..k-1] + undos[1..][k..];
      OwedRemoved(undos[1..], k - 1, i);
    } else {
      assert r == undos[1..];
    }
  }

  lemma FewerInRange(undos: seq<Undo>, u: nat)
    requires u < |undos| && AllInRange(undos)
    ensures AllInRange(undos[..u] + undos[u+1..])
  {
    var r := undos[..u] + undos[u+1..];
    forall k | 0 <= k < |r| ensures InRange(r[k].adj) {
      assert r[k] == undos[if k < u then k else k + 1];
    }
  }

  /** The set after the adjustments of the sem_undo at index k have been made. */
  function Settled(s: Sem, k: nat): Sem
    requires k < |s.undos| && |s.undos[k].adj| == |s.semval|
  {
    s.(semval := Adjusted(s.semval, s.undos[k].adj), undos := s.undos[..k] + s.undos[k+1..])
  }

  lemma SettledInv(s: Sem, k: nat)
    requires Inv(s) && k < |s.undos| && !Sleeping(s, s.undos[k].pid)
    ensures Inv(Settled(s, k))
  {
    ExitOk(s, Settled(s, k), k);
    FewerInRange(s.undos, k);
  }

  lemma SettledTotal(s: Sem, k: nat, i: nat)
    requires Inv(s) && k < |s.undos| && i < |s.semval|
    ensures Total(Settled(s, k), i) == Replay(Total(s, i), Shortfall(s.semval, s.undos[k].adj), i)
  {
    OwedRemoved(s.undos, k, i);
    ReplayEach(Total(s, i), Shortfall(s.semval, s.undos[k].adj), 0, i);
  }

  lemma ExitBalanced(s: Sem, pid: nat)
    requires Inv(s)
    ensures Balanced(s, ExitNext(s, pid))
  {
    hide Shortfall;
    var s1 := Dequeue(s, pid);
    var k := IndexOf(s1.undos, pid);
    if k < |s1.undos| {
      SettledInv(s1, k);
      var log := Shortfall(s1.semval, s1.undos[k].adj);
      forall i | 0 <= i < |s.semval| ensures Total(Settled(s1, k), i) == Replay(Total(s, i), log, i) {
        SettledTotal(s1, k, i);
      }
      QueueBalanced(s, Settled(s1, k), log);
    }
  }

  lemma NextBalanced(s: Sem, e: Event)
    requires Inv(s) && Enabled(s, e)
    ensures Balanced(s, Next(s, e))
  {
    match e
    case Semop(pid, ops) => SemopBalanced(s, pid, ops);
    case Resume(pid) => ResumeBalanced(s, pid);
    case Signal(pid) => SignalBalanced(s, pid);
    case SetVal(num, val) => SetValBalanced(s, num, val);
    case SetAll(vals) => SetAllBalanced(s, vals);
    case Exit(pid) => ExitBalanced(s, pid);
  }

  // ---------- runs ----------

  ghost predicate IsRun(s: Sem, run: seq<Event>)
    decreases |run|
  {
    Valid(s) && (run == [] || (Enabled(s, run[0]) && IsRun(Next(s, run[0]).s, run[1..])))
  }

  ghost function After(s: Sem, run: seq<Event>): Out
    requires IsRun(s, run)
    decreases |run|
  {
    if run == [] then Out(s, [])
    else
      var r := Next(s, run[0]);
      var rest := After(r.s, run[1..]);
      Out(rest.s, r.log + rest.log)
  }

  /** Every run keeps every value non-negative, every adjustment in range and the books exact. */
  lemma {:induction false} RunBalanced(s: Sem, run: seq<Event>)
    requires Inv(s) && IsRun(s, run)
    ensures Balanced(s, After(s, run))
    decreases |run|
  {
    if run != [] {
      var r := Next(s, run[0]);
      NextBalanced(s, run[0]);
      RunBalanced(r.s, run[1..]);
      var rest := After(r.s, run[1..]);
      forall i | 0 <= i < |s.semval| ensures Total(rest.s, i) == Replay(Total(s, i), r.log + rest.log, i) {
        ReplayConcat(Total(s, i), r.log, rest.log, i);
      }
    }
  }
}
