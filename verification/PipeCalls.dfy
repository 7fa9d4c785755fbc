/** pipe_read and pipe_write as they run on the ring. A task's part of a call, from the
    call or from waking up to the next sleep or the return, is one method. */
module PipeCalls {
  import opened Options
  import opened Bytes
  import opened Rings
  import opened PipeRing
  import opened PipeRuns

  /** Of `all` bytes, `reach` can be copied: then, and only then, the copy faults, and not later
      than there. */
  predicate Stopped(stop: Option<nat>, all: nat, reach: nat) {
    (stop.Some? <==> reach < all) && (stop.Some? ==> stop.value <= reach)
  }

  class Pipe {
    const ring: Ring
    var readers: nat
    var writers: nat
    var waitingWriters: int
    var calls: seq<Call>
    ghost var accepted: seq<PipeRuns.Entry>
    ghost var taken: seq<PipeRuns.Entry>

    ghost function View(): State
      requires ring.Valid()
      reads this, ring, ring.base
    {
      State(ring.Contents(), readers, writers, waitingWriters, calls, accepted, taken)
    }

    ghost predicate Valid()
      reads this, ring, ring.base
    {
      ring.Valid() && Inv(View())
    }

    constructor ()
      ensures Valid() && fresh(ring) && fresh(ring.base) && View() == Empty
    {
      ring := new Ring();
      readers, writers, waitingWriters, calls, accepted, taken := 1, 1, 0, [], [], [];
    }

    /** PIPE_LEN is what was accepted and not yet read, and the ring holds just that. */
    lemma LengthIsExact()
      requires Valid()
      ensures |accepted| == |taken| + ring.len && Plain(taken) + ring.Contents() == Plain(accepted)
    {
    }

    /** A call takes its new state; PIPE_WAITING_WRITERS counts the writers asleep. */
    method SetCall(c: nat, x: Call)
      requires ring.Valid() && c < |calls|
      modifies this`calls, this`waitingWriters
      ensures View() == PipeRuns.SetCall(old(View()), c, x)
    {
      if calls[c].Writer? && calls[c].status == Asleep { waitingWriters := waitingWriters - 1; }
      if x.Writer? && x.status == Asleep { waitingWriters := waitingWriters + 1; }
      calls := calls[c := x];
    }

    method Finish(c: nat, status: Status)
      requires ring.Valid() && c < |calls|
      modifies this`calls, this`waitingWriters
      ensures View() == PipeRuns.Finish(old(View()), c, status)
    {
      SetCall(c, calls[c].(status := status));
    }

    /** Nothing to read: return or sleep. */
    method AwaitData(c: nat)
      requires ring.Valid() && c < |calls| && calls[c].Reader?
      modifies this`calls, this`waitingWriters
      ensures View() == PipeRuns.AwaitData(old(View()), c)
    {
      if writers == 0 {
        Finish(c, Done);
      } else if calls[c].nonblock {
        Finish(c, Again);
      } else {
        Finish(c, Asleep);
      }
    }

    /** The copy loop of pipe_read. */
    method Transfer(c: nat, reach: nat) returns (stop: Option<nat>)
      requires ring.Valid() && c < |calls| && calls[c].Reader?
      modifies this, ring
      ensures ring.Valid() && Stopped(stop, Readable(old(View()), c), reach)
      ensures View() == PipeRuns.Transfer(old(View()), c, Moved(Readable(old(View()), c), stop))
      ensures c < |calls| && calls[c].Reader? && (stop.Some? <==> calls[c].status == Fault)
      ensures stop.None? && calls[c].want > 0 ==> ring.len == 0
    {
      hide Window, Tag;
      ghost var s := View();
      var x := calls[c];
      var out, fault := ring.Take(x.want, reach);
      ghost var n := |out|;
      stop := if fault then Some(|out|) else None;
      assert out == s.q[..n] && ring.Contents() == s.q[n..];
      SetCall(c, x.(want := x.want - |out|, got := x.got + out, status := if fault then Fault else Done));
      taken := taken + Tag(c, out);
    }

    /** From the copy loop of pipe_read to the sleep or the return; the ring is empty where
        the BUG check stands. */
    method ReadLoop(c: nat, reach: nat) returns (stop: Option<nat>)
      requires ring.Valid() && c < |calls| && calls[c].Reader?
      modifies this, ring
      ensures ring.Valid() && Stopped(stop, Readable(old(View()), c), reach)
      ensures View() == PipeRuns.ReadLoop(old(View()), c, stop)
    {
      hide Window, PipeRuns.Transfer, PipeRuns.AwaitData, PipeRuns.Finish;
      stop := Transfer(c, reach);
      if stop.Some? { return; }
      if calls[c].want > 0 && waitingWriters > 0 && !calls[c].nonblock {
        assert ring.len == 0;
        AwaitData(c);
      } else {
        Finish(c, Done);
      }
    }

    /** The copy loop of pipe_write. */
    method CopyIn(c: nat, reach: nat) returns (stop: Option<nat>)
      requires ring.Valid() && c < |calls| && calls[c].Writer? && calls[c].written <= |calls[c].data|
      modifies this, ring, ring.base
      ensures ring.Valid() && Stopped(stop, Writable(old(View()), c), reach)
      ensures View() == Push(old(View()), c, Moved(Writable(old(View()), c), stop))
      ensures c < |calls| && calls[c].Writer? && calls[c].written <= |calls[c].data| && (stop.Some? <==> calls[c].status == Fault)
    {
      hide Window, Tag;
      var x := calls[c];
      var n, fault := ring.Put(x.data[x.written..], reach);
      stop := if fault then Some(n) else None;
      assert x.data[x.written..][..n] == x.data[x.written..x.written + n];
      SetCall(c, x.(written := x.written + n, admitted := true, status := if fault then Fault else Done));
      accepted := accepted + Tag(c, x.data[x.written..x.written + n]);
    }

    /** From the copy loop of pipe_write to the sleep or the return. */
    method WriteLoop(c: nat, reach: nat) returns (stop: Option<nat>)
      requires ring.Valid() && c < |calls| && calls[c].Writer? && calls[c].written <= |calls[c].data|
      modifies this, ring, ring.base
      ensures ring.Valid() && Stopped(stop, Writable(old(View()), c), reach)
      ensures View() == PipeRuns.WriteLoop(old(View()), c, stop)
    {
      hide Window, PipeRuns.Push, PipeRuns.Finish;
      stop := CopyIn(c, reach);
      if stop.Some? { return; }
      if calls[c].written == |calls[c].data| || calls[c].nonblock {
        Finish(c, Done);
      } else {
        Finish(c, Asleep);
      }
    }

    /** pipe_read up to its first sleep or its return. `reach` bytes of the caller's buffer are
        there; `stop` says whether and where the copy faulted. */
    method PipeRead(count: nat, nonblock: bool, reach: nat) returns (c: nat, stop: Option<nat>)
      requires Valid()
      modifies this, ring
      ensures Valid() && c == |old(calls)| && View() == Next(old(View()), StartRead(count, nonblock, stop))
      ensures stop.Some? <==> reach < Min(count, old(ring.len))
    {
      c, stop := |calls|, None;
      InvNext(View(), StartRead(count, nonblock, None));
      ghost var s := View();
      calls := calls + [Reader(count, [], nonblock, Done)];
      if count > 0 {
        if ring.len == 0 { AwaitData(c); } else { stop := ReadLoop(c, reach); }
      }
      InvNext(s, StartRead(count, nonblock, stop));
    }

    /** pipe_write up to its first sleep or its return. */
    method PipeWrite(data: seq<Byte>, nonblock: bool, reach: nat) returns (c: nat, stop: Option<nat>)
      requires Valid()
      modifies this, ring, ring.base
      ensures Valid() && c == |old(calls)| && View() == Next(old(View()), StartWrite(data, nonblock, stop))
      ensures stop.Some? ==> stop.value <= reach < |data|
    {
      c, stop := |calls|, None;
      ghost var s := View();
      InvNext(s, StartWrite(data, nonblock, None));
      var x := Writer(data, 0, false, nonblock, Done);
      calls := calls + [x];
      if data == [] { return; }
      var free := if |data| <= PIPE_BUF then |data| else 1;
      if readers == 0 {
        Finish(c, BrokenPipe);
      } else if PIPE_SIZE - ring.len < free {
        Finish(c, if nonblock then Again else Asleep);
      } else {
        stop := WriteLoop(c, reach);
      }
      InvNext(s, StartWrite(data, nonblock, stop));
    }

    /** A reader wakes up in pipe_wait. */
    method WakeReader(c: nat, signal: bool, reach: nat) returns (stop: Option<nat>)
      requires Valid() && c < |calls| && calls[c].Reader? && calls[c].status == Asleep
      modifies this, ring
      ensures Valid() && View() == Next(old(View()), Resume(c, signal, stop))
      ensures stop.Some? ==> stop.value <= reach
    {
      stop := None;
      ghost var s := View();
      InvNext(s, Resume(c, signal, None));
      if signal {
        Finish(c, Interrupted);
      } else if ring.len != 0 {
        stop := ReadLoop(c, reach);
      } else if writers == 0 {
        Finish(c, Done);
      }
      InvNext(s, Resume(c, signal, stop));
    }

    /** A writer wakes up in pipe_wait. */
    method WakeWriter(c: nat, signal: bool, reach: nat) returns (stop: Option<nat>)
      requires Valid() && c < |calls| && calls[c].Writer? && calls[c].status == Asleep
      modifies this, ring, ring.base
      ensures Valid() && View() == Next(old(View()), Resume(c, signal, stop))
      ensures stop.Some? ==> stop.value <= reach
    {
      stop := None;
      ghost var s := View();
      InvNext(s, Resume(c, signal, None));
      InvCall(s, c);
      var x := calls[c];
      var free := if x.admitted || |x.data| > PIPE_BUF then 1 else |x.data|;
      if signal {
        Finish(c, Interrupted);
      } else if readers == 0 {
        Finish(c, BrokenPipe);
      } else if PIPE_SIZE - ring.len >= free {
        stop := WriteLoop(c, reach);
      }
      InvNext(s, Resume(c, signal, stop));
    }

    /** Other tasks open and close the two ends. */
    method SetEnds(r: nat, w: nat)
      requires Valid()
      modifies this`readers, this`writers
      ensures Valid() && View() == Next(old(View()), Ends(r, w))
    {
      InvNext(View(), Ends(r, w));
      readers, writers := r, w;
    }
  }
}
