/** The semaphore calls as they run, changing the set in place. */
module SemArrays {
  import opened Seqs
  import opened Semaphores
  import opened SemLedger
  import opened SemPids

  /** The first k operations, performed without tests. */
  ghost function Prefix(v: Vals, ops: seq<SemOp>, k: nat): (r: Vals)
    requires |v.semval| == |v.semadj| && InSet(ops, |v.semval|) && k <= |ops|
    ensures |r.semval| == |r.semadj| == |v.semval|
  {
    if k == 0 then v else Shift(Prefix(v, ops, k - 1), ops[k - 1])
  }

  /** The reverse loop takes back exactly what the forward loop did. */
  lemma UnshiftShift(v: Vals, op: SemOp)
    requires op.num < |v.semval| == |v.semadj|
    ensures Unshift(Shift(v, op), op) == v
  {
    var w := Unshift(Shift(v, op), op);
    assert w.semval == v.semval && w.semadj == v.semadj;
  }

  lemma {:induction false} PrefixSame(v: Vals, a: seq<SemOp>, b: seq<SemOp>, k: nat)
    requires |v.semval| == |v.semadj| && InSet(a, |v.semval|) && InSet(b, |v.semval|) && k <= |a| && k <= |b|
    requires a[..k] == b[..k]
    ensures Prefix(v, a, k) == Prefix(v, b, k)
  {
    if k > 0 {
      assert a[..k-1] == a[..k][..k-1] && b[..k-1] == b[..k][..k-1];
      assert a[k-1] == a[..k][k-1] && b[k-1] == b[..k][k-1];
      PrefixSame(v, a, b, k - 1);
    }
  }

  lemma ExecNext(v: Vals, ops: seq<SemOp>, k: nat)
    requires |v.semval| == |v.semadj| && InSet(ops, |v.semval|) && k < |ops|
    requires Exec(v, ops) == Exec(Prefix(v, ops, k), ops[k..])
    ensures match Step(Prefix(v, ops, k), ops[k])
            case Ok(w) => w == Prefix(v, ops, k + 1) && Exec(v, ops) == Exec(w, ops[k+1..])
            case Fail(why) => Exec(v, ops) == Fail(why)
  {
    assert ops[k..][1..] == ops[k+1..] && ops[k..][0] == ops[k];
  }

  lemma ExecEnds(v: Vals, ops: seq<SemOp>)
    requires |v.semval| == |v.semadj| && InSet(ops, |v.semval|)
    ensures Exec(v, ops) == Exec(Prefix(v, ops, 0), ops[0..])
    ensures Exec(Prefix(v, ops, |ops|), ops[|ops|..]) == Ok(Prefix(v, ops, |ops|))
  {
    assert ops[0..] == ops && ops[|ops|..] == [];
  }

  /** The set with only the first i queue entries. */
  ghost function Passed(s: Sem, i: nat): Sem
    requires i <= |s.pending|
  {
    s.(pending := s.pending[..i])
  }

  /** Entry i of the queue has been visited: the pass has ended, or what is left of it leads
      to the same end. */
  ghost predicate Visited(was: Sem, now: Sem, i: nat, stop: bool, stay: bool)
    requires i < |was.pending|
  {
    && Queueable(Passed(was, i), was.pending[i..])
    && var goal := Update(Passed(was, i), was.pending[i..]).s;
       if stop then now == goal
       else
         var j := if stay then i + 1 else i;
         && j <= |now.pending| && |now.pending| - j < |was.pending| - i
         && Queueable(Passed(now, j), now.pending[j..]) && Update(Passed(now, j), now.pending[j..]).s == goal
  }

  lemma SplitAt(p: seq<Pending>, i: nat)
    requires i < |p|
    ensures p[..i] + p[i..] == p && p[i..] == [p[i]] + p[i+1..] && p[i..][1..] == p[i+1..]
    ensures p[..i+1] == p[..i] + [p[i]] && p == p[..i] + [p[i]] + p[i+1..]
    ensures forall q :: p[i := q] == p[..i] + [q] + p[i+1..]
    ensures (p[..i] + p[i+1..])[..i] == p[..i] && (p[..i] + p[i+1..])[i..] == p[i+1..]
  {
  }

  lemma {:induction false} ClearAt(undos: seq<Undo>, num: nat, k: nat)
    requires k < |undos| && num < |undos[k].adj|
    ensures Clear(undos, num)[k] == undos[k].(adj := undos[k].adj[num := 0])
  {
    if k > 0 { ClearAt(undos[1..], num, k - 1); }
  }

  class SemSet {
    const base: array<int>
    var undos: seq<Undo>
    var sempid: Pids
    var pending: seq<Pending>

    ghost function View(): Sem
      reads this, base
    {
      Sem(base[..], undos, pending)
    }

    constructor (n: nat)
      ensures fresh(base) && View() == Sem(Zeros(n), [], [])
    {
      base := new int[n](i => 0);
      undos, pending, sempid := [], [], map[];
      new;
      assert base[..] == Zeros(n);
    }

    /** The values and the adjustments of the sem_undo at index u, if there is one. */
    ghost function Here(u: nat): Vals
      reads this, base
    {
      Vals(base[..], if u < |undos| then undos[u].adj else Zeros(base.Length))
    }

    /** The body of the forward loop for one operation: the tests between the
        updates. `flag` is SEM_UNDO as it is left in the operation. */
    method DoOp(op: SemOp, u: nat, pid: nat) returns (result: Result, flag: bool)
      requires UndosOk(undos, base.Length) && op.num < base.Length && (op.undo ==> u < |undos|)
      modifies this`undos, this`sempid, base
      ensures |undos| == |old(undos)| && forall k :: 0 <= k < |undos| && k != u ==> undos[k] == old(undos[k])
      ensures u < |undos| ==> undos[u].pid == old(undos[u].pid)
      ensures UndosOk(undos, base.Length)
      ensures (result == Done ==> flag == op.undo) && (flag ==> op.undo)
      ensures match Step(old(Here(u)), op)
              case Ok(w) => result == Done
              case Fail(why) => result == why
      ensures Here(u) == Shift(old(Here(u)), op.(undo := flag))
      ensures Pushed(old(sempid), sempid, pid, old(Here(u)), op)
    {
      result, flag := Done, op.undo;
      if op.op == 0 && base[op.num] != 0 {
        result := Stall(op);
        assert base[..][op.num := base[op.num] + 0] == base[..];
        assert flag ==> undos[u].adj[op.num := undos[u].adj[op.num] - 0] == undos[u].adj;
        return;
      }
      sempid := sempid[op.num := Push(At(sempid, op.num), pid)];
      base[op.num] := base[op.num] + op.op;
      assert base[..] == old(base[..])[op.num := old(base[op.num]) + op.op];
      if op.undo {
        var undo := undos[u].adj[op.num] - op.op;
        if undo < -SEMAEM - 1 || undo > SEMAEM {
          return Range, false;
        }
        undos := undos[u := undos[u].(adj := undos[u].adj[op.num := undo])];
      }
      if base[op.num] < 0 {
        result := Stall(op);
      } else if base[op.num] > SEMVMX {
        result := Range;
      }
    }

    /** The forward loop: where it stops, and the vector with the flags it leaves. */
    method Forward(sops: seq<SemOp>, u: nat, pid: nat) returns (result: Result, k: int, ops: seq<SemOp>)
      requires UndosOk(undos, base.Length) && InSet(sops, base.Length) && (UsesUndo(sops) ==> u < |undos|)
      modifies this`undos, this`sempid, base
      ensures |undos| == |old(undos)| && forall j :: 0 <= j < |undos| && j != u ==> undos[j] == old(undos[j])
      ensures u < |undos| ==> undos[u].pid == old(undos[u].pid)
      ensures UndosOk(undos, base.Length)
      ensures var t := Exec(old(Here(u)), sops); result == (if t.Ok? then Done else t.why) && (t.Ok? ==> Here(u) == t.v)
      ensures InSet(ops, base.Length) && |ops| == |sops| && 0 <= k <= |ops| && (k == |ops| <==> result == Done)
      ensures forall j :: 0 <= j < |ops| && ops[j].undo ==> u < |undos|
      ensures Here(u) == Prefix(old(Here(u)), ops, if k < |ops| then k + 1 else k)
      ensures ForthDone(old(sempid), sempid, pid, old(Here(u)), sops)
      ensures CountDone(old(Here(u)), sops, ops, if k < |ops| then k + 1 else k)
    {
      hide Exec, Step, Shift, Pushed, ForthFrom, ForthDone, CountFrom, CountDone;
      ghost var v, was := Here(u), sempid;
      ExecEnds(v, sops);
      PidsBegin(was, pid, v, sops);
      ops, k, result := sops, 0, Done;
      while k < |ops|
        invariant 0 <= k <= |ops| && ops == sops && result == Done
        invariant |undos| == |old(undos)| && forall j :: 0 <= j < |undos| && j != u ==> undos[j] == old(undos[j])
        invariant u < |undos| ==> undos[u].pid == old(undos[u].pid)
        invariant UndosOk(undos, base.Length)
        invariant Here(u) == Prefix(v, ops, k)
        invariant Exec(v, ops) == Exec(Prefix(v, ops, k), ops[k..])
        invariant ForthFrom(was, sempid, pid, v, ops, k, Prefix(v, ops, k)) && CountFrom(v, ops, k, Prefix(v, ops, k))
      {
        ExecNext(v, ops, k);
        assert sops[k].undo ==> UsesUndo(sops);
        var flag;
        ghost var now := sempid;
        result, flag := DoOp(ops[k], u, pid);
        PidsStep(was, now, sempid, pid, v, ops, k, Prefix(v, ops, k));
        if result != Done {
          ops := ops[k := ops[k].(undo := flag)];
          PrefixSame(v, sops, ops, k);
          CountAnyFlags(v, sops, ops, k + 1);
          return;
        }
        k := k + 1;
      }
      PidsEnd(was, sempid, pid, v, ops, Prefix(v, ops, k));
    }

    /** try_atomic_semop. `u` is the process's sem_undo. */
    method TryAtomicSemop(sops: seq<SemOp>, u: nat, pid: nat, doUndo: bool) returns (result: Result)
      requires UndosOk(undos, base.Length) && InSet(sops, base.Length) && (UsesUndo(sops) ==> u < |undos|)
      modifies this`undos, this`sempid, base
      ensures |undos| == |old(undos)| && forall k :: 0 <= k < |undos| && k != u ==> undos[k] == old(undos[k])
      ensures u < |undos| ==> undos[u].pid == old(undos[u].pid)
      ensures var t := Exec(old(Here(u)), sops);
              && result == (if t.Ok? then Done else t.why)
              && Here(u) == (if t.Ok? && !doUndo then t.v else old(Here(u)))
              && (if t.Ok? && !doUndo then ForthDone(old(sempid), sempid, pid, old(Here(u)), sops)
                  else Restored(old(sempid), sempid, pid, old(Here(u)), sops))
    {
      hide ForthDone, CountDone, BackDone, Restored;
      var k, ops;
      result, k, ops := Forward(sops, u, pid);
      if result == Done {
        if !doUndo { return; }
        k := k - 1;
      }
      ghost var mid := sempid;
      RollBack(ops, k, u, old(Here(u)));
      ThereAndBack(old(sempid), mid, sempid, pid, old(Here(u)), sops, ops, k + 1);
    }

    /** The reverse loop, from operation `last` down. */
    method RollBack(ops: seq<SemOp>, last: int, u: nat, ghost v: Vals)
      requires UndosOk(undos, base.Length) && InSet(ops, base.Length) && -1 <= last < |ops|
      requires |v.semval| == |v.semadj| == base.Length && Here(u) == Prefix(v, ops, last + 1)
      requires forall k :: 0 <= k <= last && ops[k].undo ==> u < |undos|
      modifies this`undos, this`sempid, base
      ensures |undos| == |old(undos)| && forall k :: 0 <= k < |undos| && k != u ==> undos[k] == old(undos[k])
      ensures u < |undos| ==> undos[u].pid == old(undos[u].pid)
      ensures Here(u) == v
      ensures BackDone(old(sempid), sempid, ops, last + 1)
    {
      hide BackFrom, BackDone;
      var k := last;
      BackBegins(sempid, ops, last + 1);
      while k >= 0
        invariant -1 <= k <= last
        invariant |undos| == |old(undos)| && forall j :: 0 <= j < |undos| && j != u ==> undos[j] == old(undos[j])
        invariant u < |undos| ==> undos[u].pid == old(undos[u].pid) && |undos[u].adj| == base.Length
        invariant Here(u) == Prefix(v, ops, k + 1)
        invariant BackFrom(old(sempid), sempid, ops, k + 1, last + 1)
      {
        var op := ops[k];
        BackStep(old(sempid), sempid, ops, k, last + 1);
        UnshiftShift(Prefix(v, ops, k), op);
        base[op.num] := base[op.num] - op.op;
        sempid := sempid[op.num := Pop(At(sempid, op.num))];
        if op.undo {
          undos := undos[u := undos[u].(adj := undos[u].adj[op.num := undos[u].adj[op.num] + op.op])];
        }
        assert Here(u) == Unshift(Prefix(v, ops, k + 1), op);
        k := k - 1;
      }
      BackEnds(old(sempid), sempid, ops, last + 1);
    }

    method FindUndo(pid: nat) returns (u: nat)
      ensures u == IndexOf(undos, pid)
    {
      u := 0;
      while u < |undos| && undos[u].pid != pid
        invariant u <= |undos| && forall k :: 0 <= k < u ==> undos[k].pid != pid
      {
        u := u + 1;
      }
    }

    /** One entry of the queue is tried on behalf of its process. */
    method TryFor(pid: nat, ops: seq<SemOp>, doUndo: bool) returns (result: Result)
      requires Valid(View()) && OpsOk(undos, pid, ops, base.Length)
      modifies this`undos, this`sempid, base
      ensures var t := TryOps(old(View()), pid, ops);
              && result == (if t.Ok? then Done else t.why)
              && View() == (if t.Ok? && !doUndo then Commit(old(View()), pid, t.v) else old(View()))
    {
      var u := FindUndo(pid);
      ghost var t := TryOps(View(), pid, ops);
      assert Here(u) == Vals(base[..], AdjOf(undos, pid, base.Length));
      result := TryAtomicSemop(ops, u, pid, doUndo);
      if t.Ok? && !doUndo {
        assert undos == SetAdj(old(undos), pid, t.v.semadj);
      } else {
        assert undos == old(undos);
      }
    }

    /** The body of update_queue's loop: does the pass end here, and if not, does the entry stay? */
    method VisitEntry(i: nat) returns (stop: bool, stay: bool)
      requires Inv(View()) && i < |pending|
      modifies this, base
      ensures Inv(View())
      ensures pending == if stop then old(pending)[i := old(pending)[i].(retry := true)]
                         else if stay then old(pending) else old(pending)[..i] + old(pending)[i+1..]
      ensures Visited(old(View()), View(), i, stop, stay)
    {
      stop, stay := false, true;
      var q := pending[i];
      ghost var s, todo := Passed(View(), i), pending[i..];
      SplitAt(pending, i);
      assert View() == Whole(s, todo);
      WholeOps(s, todo);
      if q.retry { return; }
      assert TryOps(View(), q.pid, q.ops) == TryOps(s, q.pid, q.ops);
      if TryOps(s, q.pid, q.ops).Ok? { CommitInv(View(), q.pid, q.ops); }
      var error := TryFor(q.pid, q.ops, q.decrease);
      if error == Done && q.decrease {
        MarkOne(View(), i, true);
        pending := pending[i := q.(retry := true)];
        stop := true;
      } else if error != Sleep {
        DropOne(View(), pending[..i], q, pending[i+1..]);
        pending := pending[..i] + pending[i+1..];
        stay := false;
      }
    }

    /** update_queue. */
    method UpdateQueue()
      requires Inv(View())
      modifies this, base
      ensures View() == Semaphores.UpdateQueue(old(View())).s && Inv(View())
    {
      ghost var goal := Semaphores.UpdateQueue(View()).s;
      var i := 0;
      assert pending[..0] == [] && pending[0..] == pending;
      while i < |pending|
        invariant 0 <= i <= |pending| && Inv(View())
        invariant Queueable(Passed(View(), i), pending[i..])
        invariant Update(Passed(View(), i), pending[i..]).s == goal
        decreases |pending| - i
      {
        var stop, stay := VisitEntry(i);
        if stop { return; }
        if stay { i := i + 1; }
      }
      assert pending[..i] == pending && pending[i..] == [];
    }

    /** The scan of the vector at the head of sys_semop. */
    method Inspect(sops: seq<SemOp>) returns (inSet: bool, undos: bool, decrease: bool, alter: bool)
      ensures inSet == InSet(sops, base.Length)
      ensures inSet ==> undos == UsesUndo(sops) && decrease == Decreases(sops) && alter == Alters(sops)
    {
      inSet, undos, decrease, alter := true, false, false, false;
      for k := 0 to |sops|
        invariant inSet && forall i :: 0 <= i < k ==> sops[i].num < base.Length
        invariant undos <==> exists i :: 0 <= i < k && sops[i].undo
        invariant decrease <==> exists i :: 0 <= i < k && sops[i].op < 0
        invariant alter <==> exists i :: 0 <= i < k && sops[i].op > 0
      {
        if sops[k].num >= base.Length { inSet := false; return; }
        undos := undos || sops[k].undo;
        decrease := decrease || sops[k].op < 0;
        alter := alter || sops[k].op > 0;
      }
      alter := alter || decrease;
      assert Alters(sops) ==> exists i :: 0 <= i < |sops| && (sops[i].op < 0 || sops[i].op > 0);
    }

    /** sys_semop up to the point where it sleeps or returns. */
    method SysSemop(pid: nat, sops: seq<SemOp>) returns (result: Result)
      requires Inv(View()) && !Sleeping(View(), pid)
      modifies this, base
      ensures View() == SemopNext(old(View()), pid, sops).s && Inv(View())
      ensures if sops == [] then result == Invalid
              else if |sops| > SEMOPM then result == TooMany
              else if !InSet(sops, base.Length) then result == NoSuchSem
              else var t := TryOps(WithUndo(old(View()), pid, sops), pid, sops); result == (if t.Ok? then Done else t.why)
    {
      SemopBalanced(View(), pid, sops);
      if sops == [] { return Invalid; }
      if |sops| > SEMOPM { return TooMany; }
      var inSet, uses, decrease, alter := Inspect(sops);
      if !inSet { return NoSuchSem; }
      WithUndoBooks(View(), pid, sops);
      if uses {
        var u := FindUndo(pid);
        if u == |undos| { undos := [Undo(pid, Zeros(base.Length))] + undos; }
      }
      ghost var s1 := View();
      assert s1 == WithUndo(old(View()), pid, sops);
      if TryOps(s1, pid, sops).Ok? { CommitInv(s1, pid, sops); }
      result := TryFor(pid, sops, false);
      if result != Sleep {
        if alter { UpdateQueue(); }
      } else if alter {
        pending := pending + [Pending(pid, sops, decrease, false)];
      } else {
        pending := [Pending(pid, sops, decrease, false)] + pending;
      }
    }

    /** sys_semop after schedule() returns: retry if update_queue asked for it,
        otherwise the sleep was interrupted. */
    method AfterSleep(pid: nat) returns (result: Result)
      requires Inv(View()) && Entry(pending, pid) < |pending|
      modifies this, base
      ensures var q := old(pending)[Entry(old(pending), pid)];
              if q.retry then
                var t := TryOps(old(View()), pid, q.ops);
                View() == ResumeNext(old(View()), pid).s && result == (if t.Ok? then Done else t.why)
              else
                View() == SignalNext(old(View()), pid).s && result == Interrupted
      ensures Inv(View())
    {
      ResumeBalanced(View(), pid);
      SignalBalanced(View(), pid);
      var i := 0;
      while pending[i].pid != pid
        invariant 0 <= i <= Entry(pending, pid)
        decreases |pending| - i
      {
        i := i + 1;
      }
      var q := pending[i];
      assert OpsOk(undos, pending[i].pid, pending[i].ops, base.Length);
      var inSet, uses, decrease, alter := Inspect(q.ops);
      if q.retry {
        ghost var s1 := Dequeue(View(), pid);
        assert TryOps(s1, pid, q.ops) == TryOps(View(), pid, q.ops);
        if TryOps(s1, pid, q.ops).Ok? { CommitInv(View(), pid, q.ops); CommitInv(s1, pid, q.ops); }
        result := TryFor(pid, q.ops, false);
        if result == Sleep {
          pending := pending[i := q.(retry := false)];
          return;
        }
      } else {
        result := Interrupted;
      }
      ghost var s2 := View();
      RemovePending(pid);
      assert View() == Dequeue(s2, pid);
      if alter { UpdateQueue(); }
    }

    /** Clear the adjustment of one semaphore in every sem_undo of the set. */
    method ClearUndos(num: nat)
      requires UndosOk(undos, base.Length) && num < base.Length
      modifies this`undos
      ensures undos == Clear(old(undos), num)
    {
      ghost var all := undos;
      for k := 0 to |undos|
        invariant |undos| == |all|
        invariant forall j :: 0 <= j < k ==> undos[j] == Clear(all, num)[j]
        invariant forall j :: k <= j < |all| ==> undos[j] == all[j]
      {
        ClearAt(all, num, k);
        undos := undos[k := undos[k].(adj := undos[k].adj[num := 0])];
      }
    }

    /** SETVAL. */
    method SetVal(pid: nat, num: nat, val: int) returns (result: Result)
      requires Inv(View())
      modifies this, base
      ensures View() == SetValNext(old(View()), num, val).s && Inv(View())
      ensures result == (if num >= base.Length then Invalid else if 0 <= val <= SEMVMX then Done else Range)
    {
      SetValBalanced(View(), num, val);
      if num >= base.Length { return Invalid; }
      if val > SEMVMX || val < 0 { return Range; }
      ghost var s := View();
      ClearUndos(num);
      base[num] := val;
      sempid := sempid[num := pid];
      assert base[..] == s.semval[num := val];
      SamePids(s, View());
      ClearedOwed(s.undos, num, num);
      UpdateQueue();
      result := Done;
    }

    /** SETALL. */
    method SetAll(vals: seq<int>) returns (result: Result)
      requires Inv(View()) && |vals| == base.Length
      modifies this, base
      ensures View() == SetAllNext(old(View()), vals).s && Inv(View())
      ensures result == (if exists i :: 0 <= i < |vals| && !(0 <= vals[i] <= SEMVMX) then Range else Done)
    {
      SetAllBalanced(View(), vals);
      for i := 0 to |vals|
        invariant forall k :: 0 <= k < i ==> 0 <= vals[k] <= SEMVMX
        invariant View() == old(View())
      {
        if vals[i] < 0 || vals[i] > SEMVMX { return Range; }
      }
      ghost var s := View();
      for i := 0 to |vals|
        invariant undos == s.undos && pending == s.pending
        invariant forall k :: 0 <= k < i ==> base[k] == vals[k]
      {
        base[i] := vals[i];
      }
      assert base[..] == vals;
      for k := 0 to |undos|
        invariant |undos| == |s.undos| && pending == s.pending && base[..] == vals
        invariant forall j :: 0 <= j < k ==> undos[j] == Undo(s.undos[j].pid, Zeros(|vals|))
        invariant forall j :: k <= j < |undos| ==> undos[j] == s.undos[j]
      {
        var adj := undos[k].adj;
        for i := 0 to |vals|
          invariant |adj| == |vals| && forall j :: 0 <= j < i ==> adj[j] == 0
        {
          adj := adj[i := 0];
        }
        assert adj == Zeros(|vals|);
        undos := undos[k := undos[k].(adj := adj)];
      }
      assert undos == ClearAll(s.undos, |vals|);
      SamePids(s, View());
      UpdateQueue();
      result := Done;
    }

    /** The loop of sem_exit: apply an undo record, no value below zero. */
    method Adjust(pid: nat, adj: seq<int>)
      requires |adj| == base.Length
      modifies this`sempid, base
      ensures base[..] == Adjusted(old(base[..]), adj) && forall k :: 0 <= k < base.Length ==> At(sempid, k) == pid
    {
      var i := 0;
      while i < base.Length
        invariant 0 <= i <= base.Length
        invariant forall k :: 0 <= k < i ==> base[k] == Adjusted(old(base[..]), adj)[k] && At(sempid, k) == pid
        invariant forall k :: i <= k < base.Length ==> base[k] == old(base[k])
      {
        base[i] := base[i] + adj[i];
        if base[i] < 0 { base[i] := 0; }
        sempid := sempid[i := pid];
        i := i + 1;
      }
    }

    /** sem_exit for one set. */
    method SemExit(pid: nat)
      requires Inv(View())
      modifies this, base
      ensures View() == ExitNext(old(View()), pid).s && Inv(View())
    {
      hide Filter;
      ExitBalanced(View(), pid);
      RemovePending(pid);
      ghost var s1 := View();
      assert s1 == Dequeue(old(View()), pid);
      var u := FindUndo(pid);
      if u == |undos| { return; }
      var adj := undos[u].adj;
      undos := undos[..u] + undos[u+1..];
      Adjust(pid, adj);
      ExitOk(s1, View(), u);
      FewerInRange(s1.undos, u);
      UpdateQueue();
    }

    method RemovePending(pid: nat)
      requires Valid(View())
      modifies this`pending
      ensures pending == Filter(old(pending), NotPid(pid))
    {
      var i := 0;
      while i < |pending|
        invariant 0 <= i <= |pending|
        invariant forall k :: 0 <= k < i ==> pending[k].pid != pid
        invariant Filter(pending, NotPid(pid)) == Filter(old(pending), NotPid(pid))
        decreases |pending| - i
      {
        if pending[i].pid == pid {
          FilterRemove(pending, i, NotPid(pid));
          pending := pending[..i] + pending[i+1..];
        } else {
          i := i + 1;
        }
      }
      FilterAll(pending, NotPid(pid));
    }
  }
}
