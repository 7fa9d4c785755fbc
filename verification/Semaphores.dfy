/** System V semaphore sets: operation vectors, undo accounting and the queue of
    sleeping operations, as values. */
module Semaphores {
  import opened Seqs

  const SEMVMX: int := 32767
  const SEMAEM: int := SEMVMX

  datatype SemOp = SemOp(num: nat, op: int, undo: bool, nowait: bool)

  /** What a call returns: 0, 1 (go to sleep), -EAGAIN, -ERANGE, -EINVAL, -E2BIG, -EFBIG or -EINTR. */
  datatype Result = Done | Sleep | Again | Range | Invalid | TooMany | NoSuchSem | Interrupted

  /** The values of a set and one process's adjustments to it. */
  datatype Vals = Vals(semval: seq<int>, semadj: seq<int>)

  datatype Trial = Ok(v: Vals) | Fail(why: Result)

  predicate InSet(ops: seq<SemOp>, n: nat) {
    forall i :: 0 <= i < |ops| ==> ops[i].num < n
  }

  /** One operation, performed without any test. */
  function Shift(v: Vals, op: SemOp): Vals
    requires op.num < |v.semval| == |v.semadj|
  {
    Vals(v.semval[op.num := v.semval[op.num] + op.op],
         if op.undo then v.semadj[op.num := v.semadj[op.num] - op.op] else v.semadj)
  }

  /** What the reverse loop does for one operation. */
  function Unshift(v: Vals, op: SemOp): Vals
    requires op.num < |v.semval| == |v.semadj|
  {
    Vals(v.semval[op.num := v.semval[op.num] - op.op],
         if op.undo then v.semadj[op.num := v.semadj[op.num] + op.op] else v.semadj)
  }

  predicate AdjInRange(a: int) {
    -SEMAEM - 1 <= a <= SEMAEM
  }

  function Stall(op: SemOp): Result {
    if op.nowait then Again else Sleep
  }

  /** One operation with its tests, in the order in which they are made. */
  function Step(v: Vals, op: SemOp): Trial
    requires op.num < |v.semval| == |v.semadj|
  {
    if op.op == 0 && v.semval[op.num] != 0 then Fail(Stall(op))
    else if op.undo && !AdjInRange(v.semadj[op.num] - op.op) then Fail(Range)
    else if v.semval[op.num] + op.op < 0 then Fail(Stall(op))
    else if v.semval[op.num] + op.op > SEMVMX then Fail(Range)
    else Ok(Shift(v, op))
  }

  /** A vector from left to right: all of it, or the first failure. */
  function Exec(v: Vals, ops: seq<SemOp>): (t: Trial)
    requires |v.semval| == |v.semadj| && InSet(ops, |v.semval|)
    ensures t.Ok? ==> |t.v.semval| == |t.v.semadj| == |v.semval|
    ensures t.Fail? ==> t.why != Done
    decreases |ops|
  {
    if ops == [] then Ok(v)
    else
      match Step(v, ops[0])
      case Fail(why) => Fail(why)
      case Ok(v') => Exec(v', ops[1..])
  }

  // ---------- the set ----------

  /** A struct sem_undo on the set's list. */
  datatype Undo = Undo(pid: nat, adj: seq<int>)

  /** A struct sem_queue: `decrease` is its field alter, `retry` says status == 1. */
  datatype Pending = Pending(pid: nat, ops: seq<SemOp>, decrease: bool, retry: bool)

  datatype Sem = Sem(semval: seq<int>, undos: seq<Undo>, pending: seq<Pending>)

  /** What happened to the set in one step. */
  datatype Effect =
    | Committed(pid: nat, ops: seq<SemOp>)
    | Refused(pid: nat, why: Result)
    | Reset(num: nat, val: int)
    | Raised(num: nat, amount: nat)

  function IndexOf(undos: seq<Undo>, pid: nat): (i: nat)
    ensures i <= |undos|
    ensures i < |undos| ==> undos[i].pid == pid
    ensures forall k :: 0 <= k < i ==> undos[k].pid != pid
  {
    if undos == [] || undos[0].pid == pid then 0 else 1 + IndexOf(undos[1..], pid)
  }

  function Zeros(n: nat): (r: seq<int>)
    ensures |r| == n && forall i :: 0 <= i < n ==> r[i] == 0
  {
    seq(n, i => 0)
  }

  function AdjOf(undos: seq<Undo>, pid: nat, n: nat): seq<int> {
    var i := IndexOf(undos, pid);
    if i < |undos| then undos[i].adj else Zeros(n)
  }

  function SetAdj(undos: seq<Undo>, pid: nat, adj: seq<int>): seq<Undo> {
    var i := IndexOf(undos, pid);
    if i < |undos| then undos[i := Undo(pid, adj)] else undos
  }

  /** Every sem_undo has one adjustment per semaphore, and there is one per process. */
  ghost predicate UndosOk(undos: seq<Undo>, n: nat) {
    && (forall i :: 0 <= i < |undos| ==> |undos[i].adj| == n)
    && (forall i, j :: 0 <= i < j < |undos| ==> undos[i].pid != undos[j].pid)
  }

  predicate UsesUndo(ops: seq<SemOp>) {
    exists i :: 0 <= i < |ops| && ops[i].undo
  }

  predicate Alters(ops: seq<SemOp>) {
    exists i :: 0 <= i < |ops| && ops[i].op != 0
  }

  predicate Decreases(ops: seq<SemOp>) {
    exists i :: 0 <= i < |ops| && ops[i].op < 0
  }

  /** A vector that a process may have in hand. */
  ghost predicate OpsOk(undos: seq<Undo>, pid: nat, ops: seq<SemOp>, n: nat) {
    InSet(ops, n) && (UsesUndo(ops) ==> IndexOf(undos, pid) < |undos|)
  }

  ghost predicate Valid(s: Sem) {
    && UndosOk(s.undos, |s.semval|)
    && (forall i :: 0 <= i < |s.pending| ==>
          OpsOk(s.undos, s.pending[i].pid, s.pending[i].ops, |s.semval|) && s.pending[i].decrease == Decreases(s.pending[i].ops))
    && (forall i, j :: 0 <= i < j < |s.pending| ==> s.pending[i].pid != s.pending[j].pid)
  }

  function TryOps(s: Sem, pid: nat, ops: seq<SemOp>): Trial
    requires UndosOk(s.undos, |s.semval|) && InSet(ops, |s.semval|)
  {
    Exec(Vals(s.semval, AdjOf(s.undos, pid, |s.semval|)), ops)
  }

  /** Carry out a vector that has been found to succeed. */
  function Commit(s: Sem, pid: nat, v: Vals): Sem {
    s.(semval := v.semval, undos := SetAdj(s.undos, pid, v.semadj))
  }

  datatype Out = Out(s: Sem, log: seq<Effect>)

  ghost predicate Queueable(s: Sem, todo: seq<Pending>) {
    UndosOk(s.undos, |s.semval|) && forall i :: 0 <= i < |todo| ==> InSet(todo[i].ops, |s.semval|)
  }

  lemma SetAdjOk(undos: seq<Undo>, pid: nat, adj: seq<int>, n: nat)
    requires UndosOk(undos, n) && |adj| == n
    ensures UndosOk(SetAdj(undos, pid, adj), n)
    ensures forall p :: IndexOf(SetAdj(undos, pid, adj), p) == IndexOf(undos, p)
  {
    forall p ensures IndexOf(SetAdj(undos, pid, adj), p) == IndexOf(undos, p) {
      var u := SetAdj(undos, pid, adj);
      var i, j := IndexOf(u, p), IndexOf(undos, p);
      assert |u| == |undos| && forall k :: 0 <= k < |u| ==> u[k].pid == undos[k].pid;
      assert j < |undos| ==> u[j].pid == p;
      assert i < |undos| ==> undos[i].pid == p;
    }
  }

  /** update_queue from one entry on; s.pending holds the entries passed so far. */
  function Update(s: Sem, todo: seq<Pending>): Out
    requires Queueable(s, todo)
    decreases |todo|
  {
    if todo == [] then Out(s, [])
    else
      var q := todo[0];
      if q.retry then Update(s.(pending := s.pending + [q]), todo[1..])
      else
        var t := TryOps(s, q.pid, q.ops);
        if t == Fail(Sleep) then Update(s.(pending := s.pending + [q]), todo[1..])
        else if t.Ok? && q.decrease then
          Out(s.(pending := s.pending + [q.(retry := true)] + todo[1..]), [])
        else if t.Ok? then
          SetAdjOk(s.undos, q.pid, t.v.semadj, |s.semval|);
          var r := Update(Commit(s, q.pid, t.v), todo[1..]);
          Out(r.s, [Committed(q.pid, q.ops)] + r.log)
        else
          var r := Update(s, todo[1..]);
          Out(r.s, [Refused(q.pid, t.why)] + r.log)
  }

  function UpdateQueue(s: Sem): Out
    requires Queueable(s, s.pending)
  {
    Update(s.(pending := []), s.pending)
  }

  // ---------- the system calls ----------

  datatype Event =
    | Semop(pid: nat, ops: seq<SemOp>)
    | Resume(pid: nat)
    | Signal(pid: nat)
    | SetVal(num: nat, val: int)
    | SetAll(vals: seq<int>)
    | Exit(pid: nat)

  const SEMOPM: nat := 32

  predicate Sleeping(s: Sem, pid: nat) {
    exists i :: 0 <= i < |s.pending| && s.pending[i].pid == pid
  }

  predicate Enabled(s: Sem, e: Event) {
    e.Semop? ==> !Sleeping(s, e.pid)
  }

  function NotPid(pid: nat): Pending -> bool {
    (q: Pending) => q.pid != pid
  }

  lemma ValidSame(s: Sem, s': Sem, f: Pending -> bool)
    requires Valid(s) && |s'.semval| == |s.semval| && UndosOk(s'.undos, |s'.semval|)
    requires forall i :: 0 <= i < |s'.pending| ==>
               s'.pending[i] in s.pending &&
                   (IndexOf(s.undos, s'.pending[i].pid) < |s.undos| ==> IndexOf(s'.undos, s'.pending[i].pid) < |s'.undos|)
    requires s'.pending == s.pending || s'.pending == Filter(s.pending, f)
    ensures Valid(s') && Queueable(s', s'.pending)
  {
    forall i | 0 <= i < |s'.pending|
      ensures OpsOk(s'.undos, s'.pending[i].pid, s'.pending[i].ops, |s'.semval|) && s'.pending[i].decrease == Decreases(s'.pending[i].ops)
    {
      var k :| 0 <= k < |s.pending| && s.pending[k] == s'.pending[i];
    }
    if s'.pending != s.pending {
      forall i, j | 0 <= i < j < |s'.pending| ensures s'.pending[i].pid != s'.pending[j].pid {
        SourceOrder(s.pending, f, i, j);
      }
    }
  }

  function Dequeue(s: Sem, pid: nat): (r: Sem)
    requires Valid(s)
    ensures Valid(r) && !Sleeping(r, pid)
  {
    var r := s.(pending := Filter(s.pending, NotPid(pid)));
    assert Valid(r) && !Sleeping(r, pid) by {
      forall i | 0 <= i < |r.pending| ensures r.pending[i] in s.pending && r.pending[i].pid != pid {
        FilterMember(s.pending, NotPid(pid), r.pending[i]);
      }
      ValidSame(s, r, NotPid(pid));
    }
    r
  }

  function Entry(pending: seq<Pending>, pid: nat): (i: nat)
    ensures i <= |pending|
    ensures i < |pending| ==> pending[i].pid == pid
    ensures forall k :: 0 <= k < i ==> pending[k].pid != pid
  {
    if pending == [] || pending[0].pid == pid then 0 else 1 + Entry(pending[1..], pid)
  }

  /** sys_semop makes sure that there is a sem_undo before it needs one. */
  function WithUndo(s: Sem, pid: nat, ops: seq<SemOp>): (r: Sem)
    requires Valid(s) && InSet(ops, |s.semval|)
    ensures Valid(r) && OpsOk(r.undos, pid, ops, |s.semval|)
    ensures r.semval == s.semval && r.pending == s.pending
  {
    if UsesUndo(ops) && IndexOf(s.undos, pid) == |s.undos| then
      var r := s.(undos := [Undo(pid, Zeros(|s.semval|))] + s.undos);
      assert Valid(r) by {
        forall p | IndexOf(s.undos, p) < |s.undos| ensures IndexOf(r.undos, p) < |r.undos| {
          assert r.undos[1 + IndexOf(s.undos, p)].pid == p;
        }
        ValidSame(s, r, NotPid(pid));
      }
      r
    else s
  }

  lemma CommitOk(s: Sem, pid: nat, v: Vals)
    requires Valid(s) && |v.semval| == |v.semadj| == |s.semval|
    ensures Valid(Commit(s, pid, v)) && forall p :: IndexOf(Commit(s, pid, v).undos, p) == IndexOf(s.undos, p)
  {
    SetAdjOk(s.undos, pid, v.semadj, |s.semval|);
    ValidSame(s, Commit(s, pid, v), NotPid(pid));
  }

  /** The label `update` of sys_semop. */
  function Follow(s: Sem, ops: seq<SemOp>, log: seq<Effect>): Out
    requires Valid(s)
  {
    if Alters(ops) then
      var r := UpdateQueue(s);
      Out(r.s, log + r.log)
    else Out(s, log)
  }

  function Enqueue(s: Sem, pid: nat, ops: seq<SemOp>): Sem {
    var q := Pending(pid, ops, Decreases(ops), false);
    s.(pending := if Alters(ops) then s.pending + [q] else [q] + s.pending)
  }

  /** Try a vector; if it neither succeeds nor fails for good, `wait` is the new state. */
  function Attempt(s: Sem, pid: nat, ops: seq<SemOp>, wait: Sem): Out
    requires Valid(s) && InSet(ops, |s.semval|)
  {
    match TryOps(s, pid, ops)
    case Ok(v) =>
      CommitOk(s, pid, v);
      Follow(Commit(s, pid, v), ops, [Committed(pid, ops)])
    case Fail(why) =>
      if why == Sleep then Out(wait, []) else Follow(s, ops, [Refused(pid, why)])
  }

  function SemopNext(s: Sem, pid: nat, ops: seq<SemOp>): Out
    requires Valid(s)
  {
    if ops == [] || |ops| > SEMOPM || !InSet(ops, |s.semval|) then Out(s, [])
    else
      var s1 := WithUndo(s, pid, ops);
      Attempt(s1, pid, ops, Enqueue(s1, pid, ops))
  }

  /** A process that update_queue woke with status 1 tries again. */
  function ResumeNext(s: Sem, pid: nat): Out
    requires Valid(s)
  {
    var i := Entry(s.pending, pid);
    if i == |s.pending| || !s.pending[i].retry then Out(s, [])
    else
      var q := s.pending[i];
      assert OpsOk(s.undos, s.pending[i].pid, s.pending[i].ops, |s.semval|);
      Attempt(Dequeue(s, pid), pid, q.ops, s.(pending := s.pending[i := q.(retry := false)]))
  }

  function SignalNext(s: Sem, pid: nat): Out
    requires Valid(s)
  {
    var i := Entry(s.pending, pid);
    if i == |s.pending| || s.pending[i].retry then Out(s, [])
    else Follow(Dequeue(s, pid), s.pending[i].ops, [])
  }

  /** The adjustment of one semaphore cleared in every sem_undo of the set. */
  function Clear(undos: seq<Undo>, num: nat): (r: seq<Undo>)
    ensures |r| == |undos| && forall i :: 0 <= i < |undos| ==> r[i].pid == undos[i].pid && |r[i].adj| == |undos[i].adj|
  {
    if undos == [] then []
    else
      var u := undos[0];
      [if num < |u.adj| then u.(adj := u.adj[num := 0]) else u] + Clear(undos[1..], num)
  }

  lemma SamePids(s: Sem, s': Sem)
    requires Valid(s) && |s'.semval| == |s.semval| && s'.pending == s.pending
    requires |s'.undos| == |s.undos| && forall i :: 0 <= i < |s.undos| ==>
        s'.undos[i].pid == s.undos[i].pid && |s'.undos[i].adj| == |s.undos[i].adj|
    ensures Valid(s')
  {
    forall p ensures IndexOf(s'.undos, p) < |s'.undos| <==> IndexOf(s.undos, p) < |s.undos| {}
    ValidSame(s, s', NotPid(0));
  }

  function SetValNext(s: Sem, num: nat, val: int): Out
    requires Valid(s)
  {
    if num >= |s.semval| || val > SEMVMX || val < 0 then Out(s, [])
    else
      var s1 := s.(semval := s.semval[num := val], undos := Clear(s.undos, num));
      SamePids(s, s1);
      var r := UpdateQueue(s1);
      Out(r.s, [Reset(num, val)] + r.log)
  }

  function ClearAll(undos: seq<Undo>, n: nat): (r: seq<Undo>)
    ensures |r| == |undos| && forall i :: 0 <= i < |undos| ==> r[i] == Undo(undos[i].pid, Zeros(n))
  {
    seq(|undos|, i requires 0 <= i < |undos| => Undo(undos[i].pid, Zeros(n)))
  }

  function SetAllNext(s: Sem, vals: seq<int>): Out
    requires Valid(s)
  {
    if |vals| != |s.semval| || exists i :: 0 <= i < |vals| && !(0 <= vals[i] <= SEMVMX) then Out(s, [])
    else
      var s1 := s.(semval := vals, undos := ClearAll(s.undos, |vals|));
      SamePids(s, s1);
      var r := UpdateQueue(s1);
      Out(r.s, seq(|vals|, i requires 0 <= i < |vals| => Reset(i, vals[i])) + r.log)
  }

  /** The values with a process's adjustments added, and zero where the sum is negative. */
  function Adjusted(semval: seq<int>, adj: seq<int>): (r: seq<int>)
    requires |semval| == |adj|
    ensures |r| == |semval|
  {
    seq(|semval|, i requires 0 <= i < |semval| => if semval[i] + adj[i] < 0 then 0 else semval[i] + adj[i])
  }

  function Shortfall(semval: seq<int>, adj: seq<int>): (r: seq<Effect>)
    requires |semval| == |adj|
  {
    seq(|semval|, i requires 0 <= i < |semval| => Raised(i, if semval[i] + adj[i] < 0 then -(semval[i] + adj[i]) else 0))
  }

  function ExitNext(s: Sem, pid: nat): Out
    requires Valid(s)
  {
    var s1 := Dequeue(s, pid);
    var i := IndexOf(s1.undos, pid);
    if i == |s1.undos| then Out(s1, [])
    else
      var adj := s1.undos[i].adj;
      var s2 := s1.(semval := Adjusted(s1.semval, adj), undos := s1.undos[..i] + s1.undos[i+1..]);
      ExitOk(s1, s2, i);
      var r := UpdateQueue(s2);
      Out(r.s, Shortfall(s1.semval, adj) + r.log)
  }

  lemma ExitOk(s: Sem, s': Sem, i: nat)
    requires Valid(s) && i < |s.undos| && !Sleeping(s, s.undos[i].pid)
    requires |s'.semval| == |s.semval| && s'.pending == s.pending && s'.undos == s.undos[..i] + s.undos[i+1..]
    ensures Valid(s')
  {
    forall k | 0 <= k < |s'.pending| && IndexOf(s.undos, s'.pending[k].pid) < |s.undos|
      ensures IndexOf(s'.undos, s'.pending[k].pid) < |s'.undos|
    {
      var j := IndexOf(s.undos, s'.pending[k].pid);
      assert s.undos[j] == s'.undos[if j < i then j else j - 1];
    }
    ValidSame(s, s', NotPid(0));
  }

  function Next(s: Sem, e: Event): Out
    requires Valid(s)
  {
    match e
    case Semop(pid, ops) => SemopNext(s, pid, ops)
    case Resume(pid) => ResumeNext(s, pid)
    case Signal(pid) => SignalNext(s, pid)
    case SetVal(num, val) => SetValNext(s, num, val)
    case SetAll(vals) => SetAllNext(s, vals)
    case Exit(pid) => ExitNext(s, pid)
  }
}
