/** posix_lock_file, posix_locks_deadlock and locks_remove_posix as they run:
    loops that rewrite the lock list and the blocked list in place. */
module LockTables {
  import opened Options
  import opened RecordLocks
  import opened LockEffects
  import opened Chains
  import opened Seqs
  import opened LockSystem
  import opened LockRuns
  import opened LockAnswers
  import opened LockMeaning

  /** The local variables of posix_lock_file: the list, the place of `before` in it,
      the caller's range, the entry that the caller has become, and `added`, `left`
      and `right`. */
  datatype Cursor = Cursor(locks: seq<FileLock>, i: nat, start: int, end: int, at: Option<nat>, added: bool,
                           left: Option<nat>, right: bool)

  /** The loop variables as the abstract scan. */
  ghost function ScanOf(c: Cursor, woken: set<nat>): Scan
    requires c.i <= |c.locks|
  {
    Scan(c.locks[..c.i], c.locks[c.i..], c.start, c.end, c.at, c.added, c.left, c.right, woken)
  }

  class LockTable {
    var files: map<nat, seq<FileLock>>
    var blocked: seq<Waiter>
    var nextId: nat

    ghost function View(): State
      reads this
    {
      State(files, blocked, nextId)
    }

    constructor ()
      ensures View() == Init
    {
      files, blocked, nextId := map[], [], 0;
    }

    /** locks_wake_up_blocks(blocker, 0): take the oldest waiter off the list until none is left. */
    method WakeUpBlocks(ino: nat, id: nat)
      modifies this`blocked
      ensures blocked == Wake(old(blocked), ino, {id})
    {
      ghost var f := Unwoken(ino, {id});
      var i := |blocked|;
      while i > 0
        invariant 0 <= i <= |blocked|
        invariant forall k :: i <= k < |blocked| ==> f(blocked[k])
        invariant Filter(blocked, f) == Filter(old(blocked), f)
      {
        i := i - 1;
        if blocked[i].ino == ino && blocked[i].blocker == id {
          FilterRemove(blocked, i, f);
          blocked := blocked[..i] + blocked[i+1..];
        }
      }
      FilterAll(blocked, f);
    }

    /** The lock that would stop the request, if any. */
    method FindConflict(locks: seq<FileLock>, req: Request) returns (r: Option<FileLock>)
      ensures r == FirstConflict(locks, req)
    {
      var i := 0;
      while i < |locks|
        invariant 0 <= i <= |locks|
        invariant FirstConflict(locks[i..], req) == FirstConflict(locks, req)
      {
        if Stops(locks[i], req) { return Some(locks[i]); }
        i := i + 1;
      }
      r := None;
    }

    /** posix_locks_deadlock: follow the waits-for chain from the blocker's owner. */
    method DeadlockCheck(caller: Owner, blocker: Owner) returns (deadlock: bool)
      requires Inv(View())
      ensures deadlock <==> Reaches(Edges(files, blocked), blocker, caller)
    {
      ghost var g := Edges(files, blocked);
      ghost var n: nat := 0;
      var o := blocker;
      while true
        invariant Chain(g, blocker, n) == Some(o)
        invariant forall m: nat :: m < n ==> Chain(g, blocker, m) != Some(caller)
        decreases |g| - n
      {
        ChainBound(g, blocker, n);
        if o == caller { return true; }
        var next := NextOwner(o);
        if next.None? {
          NothingBeyond(g, blocker, n, caller);
          return false;
        }
        ChainAdd(g, blocker, n, 1);
        assert Chain(g, o, 1) == Chain(g, g[o], 0);
        o := next.value;
        n := n + 1;
        ChainBound(g, blocker, n);
      }
    }

    /** The search of blocked_list for a request of `o`: whose lock is it on? */
    method NextOwner(o: Owner) returns (r: Option<Owner>)
      requires Inv(View())
      ensures r == (if o in Edges(files, blocked) then Some(Edges(files, blocked)[o]) else None)
    {
      var i := 0;
      while i < |blocked|
        invariant 0 <= i <= |blocked|
        invariant forall k :: 0 <= k < i ==> blocked[k].req.owner != o
      {
        if blocked[i].req.owner == o {
          var w := blocked[i];
          SleeperEdge(View(), i);
          return Some(Find(files[w.ino], w.blocker).value.owner);
        }
        i := i + 1;
      }
      AwakeHasNoEdge(View(), o);
      r := None;
    }
  
    /** Wake the waiters of one more lock. */
    method Notify(ino: nat, id: nat, ghost before: seq<Waiter>, ghost woken: set<nat>)
      requires blocked == Wake(before, ino, woken)
      modifies this`blocked
      ensures blocked == Wake(before, ino, woken + {id})
    {
      WakeUpBlocks(ino, id);
      FilterTwice(before, Unwoken(ino, woken), Unwoken(ino, {id}), Unwoken(ino, woken + {id}));
    }

    /** locks_delete_lock: unlink the i-th lock and wake its waiters. */
    method DeleteLock(ino: nat, locks: seq<FileLock>, i: nat, ghost before: seq<Waiter>, ghost woken: set<nat>)
        returns (rest: seq<FileLock>)
      requires i < |locks| && blocked == Wake(before, ino, woken)
      modifies this`blocked
      ensures i <= |rest| && rest[..i] == locks[..i] && rest[i..] == locks[i..][1..]
      ensures blocked == Wake(before, ino, woken + {locks[i].id})
    {
      Notify(ino, locks[i].id, before, woken);
      DeleteView(locks, i);
      rest := locks[..i] + locks[i+1..];
    }

    /** The loop body for a lock of the caller's own kind; `stop` is a break. */
    method VisitSameKind(ino: nat, c: Cursor, ghost before: seq<Waiter>, ghost woken: set<nat>)
      returns (c': Cursor, stop: bool, ghost woken': set<nat>)
      requires c.i < |c.locks| && ScanOf(c, woken).Valid() && !c.right && blocked == Wake(before, ino, woken)
      modifies this`blocked
      ensures c'.i <= |c'.locks|
                && VisitSame(ScanOf(c, woken)) == (if stop then Stop(ScanOf(c', woken')) else Continue(ScanOf(c', woken')))
      ensures blocked == Wake(before, ino, woken')
    {
      var fl := c.locks[c.i];
      c', stop, woken' := c, false, woken;
      PassView(c.locks, c.i, fl);
      if fl.end < c.start - 1 {
        c' := c.(i := c.i + 1);
      } else if fl.start > Succ(c.end) {
        stop := true;
      } else {
        var start, end := Min(fl.start, c.start), Max(fl.end, c.end);
        if c.added {
          var locks := c.locks;
          if c.at.Some? {
            AliasView(locks, c.i, c.at.value, locks[c.at.value].(start := start, end := end));
            locks := locks[c.at.value := locks[c.at.value].(start := start, end := end)];
          }
          locks := DeleteLock(ino, locks, c.i, before, woken);
          woken' := woken + {fl.id};
          c' := c.(start := start, end := end, locks := locks);
        } else {
          PassView(c.locks, c.i, fl.(start := start, end := end));
          c' := c.(start := start, end := end, locks := c.locks[c.i := fl.(start := start, end := end)],
                   at := Some(c.i), added := true, i := c.i + 1);
        }
      }
    }

    /** The loop body for a lock of another kind. */
    method VisitOtherKind(ino: nat, kind: LockKind, c: Cursor, ghost before: seq<Waiter>, ghost woken: set<nat>)
      returns (c': Cursor, stop: bool, ghost woken': set<nat>)
      requires c.i < |c.locks| && ScanOf(c, woken).Valid() && !c.right && blocked == Wake(before, ino, woken)
      modifies this`blocked
      ensures c'.i <= |c'.locks|
                && VisitOther(ScanOf(c, woken), kind) == (if stop then Stop(ScanOf(c', woken')) else Continue(ScanOf(c', woken')))
      ensures blocked == Wake(before, ino, woken')
    {
      var fl := c.locks[c.i];
      c', stop, woken' := c, false, woken;
      PassView(c.locks, c.i, fl);
      if fl.end < c.start {
        c' := c.(i := c.i + 1);
      } else if fl.start > c.end {
        stop := true;
      } else {
        c' := c'.(added := c.added || kind == Unlock);
        if fl.start < c.start { c' := c'.(left := Some(c.i)); }
        if fl.end > c.end {
          c', stop := c'.(right := true), true;
        } else if fl.start < c.start {
          c' := c'.(i := c.i + 1);
        } else if c'.added {
          var locks := DeleteLock(ino, c.locks, c.i, before, woken);
          woken' := woken + {fl.id};
          c' := c'.(locks := locks);
        } else {
          Notify(ino, fl.id, before, woken);
          woken' := woken + {fl.id};
          PassView(c.locks, c.i, fl.(start := c.start, end := c.end, kind := kind));
          c' := c'.(locks := c.locks[c.i := fl.(start := c.start, end := c.end, kind := kind)],
                    at := Some(c.i), added := true, i := c.i + 1);
        }
      }
    }

    /** The loop over the caller's own locks, from the first one on. */
    method ScanLocks(ino: nat, all: seq<FileLock>, first: nat, req: Request) returns (c: Cursor, ghost woken: set<nat>)
      requires first == Skip(all, req.owner)
      modifies this`blocked
      ensures c.i <= |c.locks| && ScanOf(c, woken) == ScanOwn(Start(all, req), req.owner, req.kind)
      ensures blocked == Wake(old(blocked), ino, woken)
    {
      c, woken := Cursor(all, first, req.start, req.end, None, false, None, false), {};
      FilterAll(blocked, Unwoken(ino, {}));
      ghost var goal := ScanOwn(Start(all, req), req.owner, req.kind);
      while c.i < |c.locks| && c.locks[c.i].owner == req.owner
        invariant c.i <= |c.locks| && !c.right && ScanOf(c, woken).Valid()
        invariant ScanOwn(ScanOf(c, woken), req.owner, req.kind) == goal
        invariant blocked == Wake(old(blocked), ino, woken)
        decreases |c.locks| - c.i
      {
        ghost var s := ScanOf(c, woken);
        VisitValid(s, req.kind);
        var stop;
        if c.locks[c.i].kind == req.kind {
          c, stop, woken := VisitSameKind(ino, c, old(blocked), woken);
        } else {
          c, stop, woken := VisitOtherKind(ino, req.kind, c, old(blocked), woken);
        }
        if stop { return; }
      }
    }

    /** Trim the remnants of locks that stick out on either side of the caller. */
    method TrimLocks(ino: nat, c: Cursor, ghost before: seq<Waiter>, ghost woken: set<nat>)
      returns (locks: seq<FileLock>, ghost woken': set<nat>)
      requires c.i <= |c.locks| && ScanOf(c, woken).Valid() && (c.left.Some? ==> c.left.value < c.i)
      requires blocked == Wake(before, ino, woken)
      modifies this`blocked
      ensures var t := TrimLeft(TrimRight(ScanOf(c, woken)));
              |locks| == |c.locks| && locks[..c.i] == t.done && locks[c.i..] == t.todo && woken' == t.woken
      ensures blocked == Wake(before, ino, woken')
    {
      locks, woken' := c.locks, woken;
      if c.right {
        Notify(ino, locks[c.i].id, before, woken');
        woken' := woken' + {locks[c.i].id};
        HeadView(locks, c.i, locks[c.i].(start := c.end + 1));
        locks := locks[c.i := locks[c.i].(start := c.end + 1)];
      }
      if c.left.Some? {
        var l := c.left.value;
        Notify(ino, locks[l].id, before, woken');
        woken' := woken' + {locks[l].id};
        AliasView(locks, c.i, l, locks[l].(end := c.start - 1));
        locks := locks[l := locks[l].(end := c.start - 1)];
      }
    }

    /** After the loop: split, trim and insert. */
    method FinishLocks(ino: nat, req: Request, id: nat, c: Cursor, ghost woken: set<nat>, ghost before: seq<Waiter>)
      returns (locks: seq<FileLock>)
      requires c.i <= |c.locks| && ScanOf(c, woken).Valid() && blocked == Wake(before, ino, woken)
      modifies this`blocked
      ensures locks == Finish(ScanOf(c, woken), req, id).locks && blocked == Wake(before, ino, Finish(ScanOf(c, woken), req, id).woken)
    {
      hide Wake, Filter, Finish, TrimLeft, TrimRight;
      ghost var s := ScanOf(c, woken);
      FinishTrims(s, req, id);
      if !c.added && req.kind == Unlock {
        assert c.locks == s.done + s.todo;
        return c.locks;
      }
      var c1 := c;
      if c.left == Some(c.i) {
        var copy := c.locks[c.i].(id := id + 1);
        InsertView(c.locks, c.i, copy);
        c1 := c.(locks := c.locks[..c.i] + [copy] + c.locks[c.i..], i := c.i + 1);
      }
      assert ScanOf(c1, woken) == Halved(s, id);
      ghost var woken';
      locks, woken' := TrimLocks(ino, c1, before, woken);
      assert locks == locks[..c1.i] + [] + locks[c1.i..];
      if !c.added {
        locks := locks[..c1.i] + [FileLock(id, req.owner, req.kind, c.start, c.end)] + locks[c1.i..];
      }
    }

    /** The part of posix_lock_file after the request has been granted. */
    method ApplyLock(ino: nat, req: Request)
      modifies this
      ensures View() == Grant(old(View()), ino, req)
    {
      var all := if ino in files then files[ino] else [];
      var first := 0;
      while first < |all| && all[first].owner != req.owner
        invariant first <= |all| && Skip(all, req.owner) == first + Skip(all[first..], req.owner)
      {
        first := first + 1;
      }
      var c, woken := ScanLocks(ino, all, first, req);
      var locks := FinishLocks(ino, req, nextId, c, woken, old(blocked));
      nextId := nextId + 2;
      files := files[ino := locks];
    }

    /** posix_lock_file up to the point where it sleeps or returns. */
    method PosixLockFile(ino: nat, req: Request, wait: bool) returns (reply: Reply)
      requires Inv(View()) && Enabled(View(), SetLock(ino, req, wait))
      modifies this
      ensures reply == Decide(old(View()), SetLock(ino, req, wait))
      ensures View() == LockSystem.Next(old(View()), SetLock(ino, req, wait)) && Inv(View())
      ensures AllWellFormed(old(View())) ==>
                var hindered := Hindered(Table(old(View())), ino, req);
                (reply == Granted <==> !hindered) && (reply == Again <==> hindered && !wait)
    {
      hide Table, Hindered, AllWellFormed;
      InvNext(View(), SetLock(ino, req, wait));
      if AllWellFormed(View()) { AnswerIs(View(), ino, req, wait); }
      if req.kind != Unlock {
        var c := FindConflict(if ino in files then files[ino] else [], req);
        if c.Some? {
          if !wait { return Again; }
          var deadlock := DeadlockCheck(req.owner, c.value.owner);
          if deadlock { return Deadlock; }
          blocked := [Waiter(ino, req, c.value.id)] + blocked;
          return Sleeping;
        }
      }
      ApplyLock(ino, req);
      reply := Granted;
    }

    /** locks_remove_posix: delete the owner's locks, restarting at the head after each. */
    method RemovePosix(ino: nat, owner: nat)
      modifies this
      ensures View() == CloseFile(old(View()), ino, owner)
    {
      var locks := if ino in files then files[ino] else [];
      ghost var all := locks;
      ghost var woken: set<nat> := {};
      FilterAll(blocked, Unwoken(ino, {}));
      var i := 0;
      while i < |locks|
        invariant 0 <= i <= |locks| && files == old(files) && nextId == old(nextId)
        invariant forall k :: 0 <= k < i ==> NotOf(owner)(locks[k])
        invariant Filter(locks, NotOf(owner)) == Filter(all, NotOf(owner))
        invariant woken + Closed(locks, owner) == Closed(all, owner)
        invariant blocked == Wake(old(blocked), ino, woken)
        decreases |locks|, |locks| - i
      {
        if locks[i].owner.files == owner {
          Notify(ino, locks[i].id, old(blocked), woken);
          FilterRemove(locks, i, NotOf(owner));
          ClosedRemove(locks, i, owner);
          woken := woken + {locks[i].id};
          locks := locks[..i] + locks[i+1..];
          i := 0;
        } else {
          i := i + 1;
        }
      }
      FilterAll(locks, NotOf(owner));
      assert Closed(locks, owner) == {};
      files := files[ino := locks];
    }

    /** posix_test_lock, for F_GETLK. */
    method PosixTestLock(ino: nat, req: Request) returns (r: Option<FileLock>)
      requires Inv(View()) && req.kind != Unlock
      ensures r == FirstConflict(Locks(View(), ino), req)
    {
      hide Inv, Acyclic, FirstConflict, NoUnlocks;
      InvNoUnlocks(View(), ino);
      var locks := if ino in files then files[ino] else [];
      var i := 0;
      while i < |locks|
        invariant 0 <= i <= |locks|
        invariant TestLock(locks[i..], req) == TestLock(locks, req)
      {
        var l := locks[i];
        if l.owner != req.owner && Overlap(l.start, l.end, req.start, req.end) && KindsConflict(l.kind, req.kind) {
          break;
        }
        i := i + 1;
      }
      TestLockAgrees(locks, req);
      r := if i < |locks| then Some(locks[i]) else None;
    }
  }

  lemma PassView(locks: seq<FileLock>, i: nat, fl: FileLock)
    requires i < |locks|
    ensures locks[i := fl][..i+1] == locks[..i] + [fl] && locks[i := fl][i+1..] == locks[i..][1..]
    ensures locks[i..][0] == locks[i] && locks[i := locks[i]] == locks
  {
  }

  lemma AliasView(locks: seq<FileLock>, i: nat, at: nat, fl: FileLock)
    requires at < i <= |locks|
    ensures locks[at := fl][..i] == locks[..i][at := fl] && locks[at := fl][i..] == locks[i..]
  {
  }

  lemma HeadView(locks: seq<FileLock>, i: nat, fl: FileLock)
    requires i < |locks|
    ensures locks[i := fl][..i] == locks[..i] && locks[i := fl][i..] == locks[i..][0 := fl]
  {
  }

  /** The scan after the copy of the last lock for its left remnant, when it needs one. */
  function Halved(s: Scan, id: nat): Scan
    requires s.Valid()
  {
    if s.left == Some(|s.done|) then s.(done := s.done + [s.todo[0].(id := id + 1)]) else s
  }

  lemma FinishTrims(s: Scan, req: Request, id: nat)
    requires s.Valid()
    ensures !s.added && req.kind == Unlock ==> Finish(s, req, id) == Outcome(s.done + s.todo, s.woken)
    ensures Halved(s, id).Valid() && (Halved(s, id).left.Some? ==> Halved(s, id).left.value < |Halved(s, id).done|)
    ensures s.added || req.kind != Unlock ==>
              var t := TrimLeft(TrimRight(Halved(s, id)));
              Finish(s, req, id) ==
                Outcome(t.done + (if s.added then [] else [FileLock(id, req.owner, req.kind, s.start, s.end)]) + t.todo, t.woken)
  {
  }

  lemma InvNoUnlocks(s: State, ino: nat)
    requires Inv(s)
    ensures NoUnlocks(Locks(s, ino))
  {
  }

  lemma InsertView(locks: seq<FileLock>, i: nat, fl: FileLock)
    requires i <= |locks|
    ensures (locks[..i] + [fl] + locks[i..])[..i+1] == locks[..i] + [fl] && (locks[..i] + [fl] + locks[i..])[i+1..] == locks[i..]
  {
  }

  lemma ClosedRemove(locks: seq<FileLock>, i: nat, files: nat)
    requires i < |locks| && locks[i].owner.files == files
    ensures {locks[i].id} + Closed(locks[..i] + locks[i+1..], files) == Closed(locks, files)
  {
    var r := locks[..i] + locks[i+1..];
    forall k | 0 <= k < |locks| && k != i ensures locks[k] == r[if k < i then k else k - 1] {}
    forall x | x in Closed(locks, files) ensures x in {locks[i].id} + Closed(r, files) {
      var k :| 0 <= k < |locks| && locks[k].owner.files == files && locks[k].id == x;
      if k != i {
        var m := if k < i then k else k - 1;
        assert r[m] == locks[k];
      }
    }
  }

  lemma DeleteView(locks: seq<FileLock>, i: nat)
    requires i < |locks|
    ensures (locks[..i] + locks[i+1..])[..i] == locks[..i] && (locks[..i] + locks[i+1..])[i..] == locks[i..][1..]
  {
  }
}
