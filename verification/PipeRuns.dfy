/** A pipe shared by any number of readers and writers. Each event is what one
    task does while it holds the pipe semaphore: from the call, or from waking up
    in pipe_wait, to the next sleep or the return. */
module PipeRuns {
  import opened Options
  import opened Bytes
  import opened PipeRing

  datatype Status = Asleep | Done | Again | Interrupted | BrokenPipe | Fault

  /** A call of pipe_read or pipe_write. `want` is what a reader still asks for and
      `got` what it has; `data` is the whole write and `written` how much of it is
      in. `admitted`: the writer has passed the first wait. */
  datatype Call =
    | Reader(want: nat, got: seq<Byte>, nonblock: bool, status: Status)
    | Writer(data: seq<Byte>, written: nat, admitted: bool, nonblock: bool, status: Status)

  /** A byte and the call that moved it. */
  datatype Entry = Entry(call: nat, byte: Byte)

  /** `q` is the contents of the ring, `waiting` PIPE_WAITING_WRITERS; `accepted`
      and `taken` record everything that went in and came out. */
  datatype State = State(q: seq<Byte>, readers: nat, writers: nat, waiting: int, calls: seq<Call>,
                         accepted: seq<Entry>, taken: seq<Entry>)

  /** `stop` is the number of bytes after which the copy from or to the caller faults. */
  datatype Event =
    | StartRead(count: nat, nonblock: bool, stop: Option<nat>)
    | StartWrite(data: seq<Byte>, nonblock: bool, stop: Option<nat>)
    | Resume(call: nat, signal: bool, stop: Option<nat>)
    | Ends(readers: nat, writers: nat)

  const Empty := State([], 1, 1, 0, [], [], [])

  function Tag(c: nat, b: seq<Byte>): (r: seq<Entry>)
    ensures |r| == |b| && forall i :: 0 <= i < |b| ==> r[i] == Entry(c, b[i])
  {
    seq(|b|, i requires 0 <= i < |b| => Entry(c, b[i]))
  }

  function Plain(log: seq<Entry>): (r: seq<Byte>)
    ensures |r| == |log| && forall i :: 0 <= i < |log| ==> r[i] == log[i].byte
  {
    seq(|log|, i requires 0 <= i < |log| => log[i].byte)
  }

  /** The bytes that one call moved, in order. */
  function Of(log: seq<Entry>, c: nat): seq<Byte> {
    if log == [] then []
    else if log[|log| - 1].call == c then Of(log[..|log| - 1], c) + [log[|log| - 1].byte]
    else Of(log[..|log| - 1], c)
  }

  function Sleeper(c: Call): int {
    if c.Writer? && c.status == Asleep then 1 else 0
  }

  function SetCall(s: State, c: nat, x: Call): State
    requires c < |s.calls|
  {
    s.(calls := s.calls[c := x], waiting := s.waiting - Sleeper(s.calls[c]) + Sleeper(x))
  }

  function Finish(s: State, c: nat, status: Status): State
    requires c < |s.calls|
  {
    SetCall(s, c, s.calls[c].(status := status))
  }

  /** How many of the bytes that are to be copied are moved. */
  function Moved(all: nat, stop: Option<nat>): (n: nat)
    ensures n <= all
  {
    if stop.Some? && stop.value < all then stop.value else all
  }

  // ---------- pipe_read ----------

  /** do_more_read: nothing to read, so return or sleep. */
  function AwaitData(s: State, c: nat): State
    requires c < |s.calls| && s.calls[c].Reader?
  {
    if s.writers == 0 then Finish(s, c, Done)
    else if s.calls[c].nonblock then Finish(s, c, Again)
    else Finish(s, c, Asleep)
  }

  /** What there is to copy: what is in the ring, up to what is wanted. */
  function Readable(s: State, c: nat): nat
    requires c < |s.calls| && s.calls[c].Reader?
  {
    Min(s.calls[c].want, |s.q|)
  }

  /** The copy loop, of which n bytes get through. */
  function Transfer(s: State, c: nat, n: nat): State
    requires c < |s.calls| && s.calls[c].Reader? && n <= Readable(s, c)
  {
    var x := s.calls[c];
    var status := if n < Readable(s, c) then Fault else Done;
    SetCall(s, c, x.(want := x.want - n, got := x.got + s.q[..n], status := status))
      .(q := s.q[n..], taken := s.taken + Tag(c, s.q[..n]))
  }

  /** The copy loop, and back to sleep if writers are waiting and more is wanted. */
  function ReadLoop(s: State, c: nat, stop: Option<nat>): State
    requires c < |s.calls| && s.calls[c].Reader?
  {
    var s1 := Transfer(s, c, Moved(Readable(s, c), stop));
    if s1.calls[c].status == Fault then s1
    else if s1.calls[c].want > 0 && s1.waiting > 0 && !s1.calls[c].nonblock then AwaitData(s1, c)
    else Finish(s1, c, Done)
  }

  // ---------- pipe_write ----------

  /** The free space that a write waits for: all of it, if it has to be atomic. */
  function Needed(x: Call): nat
    requires x.Writer?
  {
    if x.admitted then 1 else if |x.data| <= PIPE_BUF then |x.data| else 1
  }

  function Free(s: State): int { PIPE_SIZE - |s.q| }

  /** What there is to copy: what is left of the write, up to a full ring. */
  function Writable(s: State, c: nat): nat
    requires c < |s.calls| && s.calls[c].Writer? && s.calls[c].written <= |s.calls[c].data| && |s.q| <= PIPE_SIZE
  {
    Min(|s.calls[c].data| - s.calls[c].written, Free(s))
  }

  /** The copy loop, of which n bytes get through. */
  function Push(s: State, c: nat, n: nat): State
    requires c < |s.calls| && s.calls[c].Writer? && s.calls[c].written <= |s.calls[c].data| && |s.q| <= PIPE_SIZE
    requires n <= Writable(s, c)
  {
    var x := s.calls[c];
    var piece := x.data[x.written..x.written + n];
    var status := if n < Writable(s, c) then Fault else Done;
    SetCall(s, c, x.(written := x.written + n, admitted := true, status := status))
      .(q := s.q + piece, accepted := s.accepted + Tag(c, piece))
  }

  function WriteLoop(s: State, c: nat, stop: Option<nat>): State
    requires c < |s.calls| && s.calls[c].Writer? && s.calls[c].written <= |s.calls[c].data| && |s.q| <= PIPE_SIZE
  {
    var s1 := Push(s, c, Moved(Writable(s, c), stop));
    if s1.calls[c].status == Fault then s1
    else if s1.calls[c].written == |s1.calls[c].data| || s1.calls[c].nonblock then Finish(s1, c, Done)
    else Finish(s1, c, Asleep)
  }

  // ---------- events ----------

  predicate Enabled(s: State, e: Event) {
    e.Resume? ==> e.call < |s.calls| && s.calls[e.call].status == Asleep
  }

  function BeginRead(s: State, count: nat, nonblock: bool, stop: Option<nat>): State {
    var c := |s.calls|;
    var s1 := s.(calls := s.calls + [Reader(count, [], nonblock, Done)]);
    if count == 0 then s1
    else if s.q == [] then AwaitData(s1, c)
    else ReadLoop(s1, c, stop)
  }

  function BeginWrite(s: State, data: seq<Byte>, nonblock: bool, stop: Option<nat>): State
    requires |s.q| <= PIPE_SIZE
  {
    var c := |s.calls|;
    var x := Writer(data, 0, false, nonblock, Done);
    var s1 := s.(calls := s.calls + [x]);
    if data == [] then s1
    else if s.readers == 0 then Finish(s1, c, BrokenPipe)
    else if Free(s) < Needed(x) then Finish(s1, c, if nonblock then Again else Asleep)
    else WriteLoop(s1, c, stop)
  }

  function ResumeRead(s: State, c: nat, signal: bool, stop: Option<nat>): State
    requires c < |s.calls| && s.calls[c].Reader?
  {
    if signal then Finish(s, c, Interrupted)
    else if s.q == [] then (if s.writers == 0 then Finish(s, c, Done) else s)
    else ReadLoop(s, c, stop)
  }

  function ResumeWrite(s: State, c: nat, signal: bool, stop: Option<nat>): State
    requires c < |s.calls| && s.calls[c].Writer? && s.calls[c].written <= |s.calls[c].data| && |s.q| <= PIPE_SIZE
  {
    if signal then Finish(s, c, Interrupted)
    else if s.readers == 0 then Finish(s, c, BrokenPipe)
    else if Free(s) < Needed(s.calls[c]) then s
    else WriteLoop(s, c, stop)
  }

  function Next(s: State, e: Event): State
    requires Inv(s) && Enabled(s, e)
  {
    match e
    case StartRead(count, nonblock, stop) => BeginRead(s, count, nonblock, stop)
    case StartWrite(data, nonblock, stop) => BeginWrite(s, data, nonblock, stop)
    case Resume(c, signal, stop) =>
      assert CallOk(s, c);
      if s.calls[c].Reader? then ResumeRead(s, c, signal, stop) else ResumeWrite(s, c, signal, stop)
    case Ends(r, w) => s.(readers := r, writers := w)
  }

  // ---------- what holds in every state ----------

  /** All of `data` stands together at one place of the log. */
  ghost predicate Together(log: seq<Entry>, c: nat, data: seq<Byte>) {
    exists i: nat :: TogetherAt(log, c, data, i)
  }

  predicate TogetherAt(log: seq<Entry>, c: nat, data: seq<Byte>, i: nat) {
    i + |data| <= |log| && log[i..i + |data|] == Tag(c, data)
  }

  predicate Atomic(x: Call) {
    x.Writer? && |x.data| <= PIPE_BUF
  }

  /** What a call has moved, and that a short write is in one piece, which is all of it unless
      the copy faulted. */
  ghost predicate CallOk(s: State, c: nat)
    requires c < |s.calls|
  {
    var x := s.calls[c];
    if x.Reader? then
      && Of(s.taken, c) == x.got && Of(s.accepted, c) == []
      && (x.status == Asleep ==> x.want > 0)
    else
      && x.written <= |x.data| && Of(s.accepted, c) == x.data[..x.written] && Of(s.taken, c) == []
      && (!x.admitted ==> x.written == 0) && (x.status == Asleep ==> x.written < |x.data|)
      && (Atomic(x) && x.written > 0 ==> Together(s.accepted, c, x.data[..x.written]))
      && (Atomic(x) && x.admitted && x.status != Fault ==> x.written == |x.data|)
  }

  ghost predicate NoStrangers(s: State) {
    forall c: nat :: c >= |s.calls| ==> Of(s.accepted, c) == [] && Of(s.taken, c) == []
  }

  function Sleepers(calls: seq<Call>): int {
    if calls == [] then 0 else Sleepers(calls[..|calls| - 1]) + Sleeper(calls[|calls| - 1])
  }

  ghost predicate Inv(s: State) {
    && Plain(s.taken) + s.q == Plain(s.accepted) && |s.q| <= PIPE_SIZE
    && (forall c :: 0 <= c < |s.calls| ==> CallOk(s, c))
    && NoStrangers(s) && s.waiting == Sleepers(s.calls)
  }

  // ---------- logs ----------

  lemma TagLast(log: seq<Entry>, c: nat, b: seq<Byte>)
    requires b != []
    ensures log + Tag(c, b) == log + Tag(c, b[..|b| - 1]) + [Entry(c, b[|b| - 1])]
  {
  }

  lemma OfOne(log: seq<Entry>, e: Entry, d: nat)
    ensures Of(log + [e], d) == if e.call == d then Of(log, d) + [e.byte] else Of(log, d)
  {
    assert (log + [e])[..|log + [e]| - 1] == log;
  }

  lemma {:induction false} OfAppend(log: seq<Entry>, c: nat, b: seq<Byte>, d: nat)
    ensures Of(log + Tag(c, b), d) == if c == d then Of(log, d) + b else Of(log, d)
    decreases |b|
  {
    hide Of, Tag;
    if b == [] {
      assert log + Tag(c, b) == log;
      assert Of(log, d) + b == Of(log, d);
    } else {
      var b0, last := b[..|b| - 1], b[|b| - 1];
      OfAppend(log, c, b0, d);
      TagLast(log, c, b);
      OfOne(log + Tag(c, b0), Entry(c, last), d);
      if c == d { assert Of(log, d) + b0 + [last] == Of(log, d) + b; }
    }
  }

  lemma PlainAppend(log: seq<Entry>, c: nat, b: seq<Byte>)
    ensures Plain(log + Tag(c, b)) == Plain(log) + b
  {
  }

  lemma TogetherMore(log: seq<Entry>, c: nat, data: seq<Byte>, more: seq<Entry>)
    requires Together(log, c, data)
    ensures Together(log + more, c, data)
  {
    var i: nat :| TogetherAt(log, c, data, i);
    assert (log + more)[i..i + |data|] == log[i..i + |data|];
    assert TogetherAt(log + more, c, data, i);
  }

  lemma TogetherNew(log: seq<Entry>, c: nat, data: seq<Byte>)
    ensures Together(log + Tag(c, data), c, data)
  {
    assert TogetherAt(log + Tag(c, data), c, data, |log|);
  }

  lemma {:induction false} SleepersUpdate(calls: seq<Call>, c: nat, x: Call)
    requires c < |calls|
    ensures Sleepers(calls[c := x]) == Sleepers(calls) - Sleeper(calls[c]) + Sleeper(x)
  {
    var n := |calls| - 1;
    if c == n {
      assert calls[c := x][..n] == calls[..n];
    } else {
      SleepersUpdate(calls[..n], c, x);
      assert calls[c := x][..n] == calls[..n][c := x];
    }
  }

  // ---------- every event keeps it ----------

  /** Changing only the status of a call. */
  lemma InvFinish(s: State, c: nat, status: Status)
    requires Inv(s) && c < |s.calls| && s.calls[c].status != Fault
    requires status == Asleep ==> if s.calls[c].Reader? then s.calls[c].want > 0 else s.calls[c].written < |s.calls[c].data|
    ensures Inv(Finish(s, c, status))
  {
    var s' := Finish(s, c, status);
    SleepersUpdate(s.calls, c, s.calls[c].(status := status));
    forall d | 0 <= d < |s'.calls| ensures CallOk(s', d) { assert CallOk(s, d); }
    assert NoStrangers(s');
  }

  /** A call is added that has done nothing yet. */
  lemma InvNew(s: State, x: Call)
    requires Inv(s) && x.status == Done && (if x.Reader? then x.got == [] else x.written == 0 && !x.admitted)
    ensures Inv(s.(calls := s.calls + [x]))
  {
    var s' := s.(calls := s.calls + [x]);
    assert s'.calls[..|s.calls|] == s.calls;
    assert Of(s.accepted, |s.calls|) == [] && Of(s.taken, |s.calls|) == [];
    forall d | 0 <= d < |s'.calls| ensures CallOk(s', d) {
      if d < |s.calls| { assert CallOk(s, d); }
    }
    assert NoStrangers(s');
  }

  lemma InvTransfer(s: State, c: nat, n: nat)
    requires Inv(s) && c < |s.calls| && s.calls[c].Reader? && n <= Readable(s, c)
    ensures var s' := Transfer(s, c, n); Inv(s') && (s'.calls[c].want > 0 && s'.calls[c].status != Fault ==> s'.q == [])
  {
    var s', b := Transfer(s, c, n), s.q[..n];
    PlainAppend(s.taken, c, b);
    assert (Plain(s.taken) + b) + s.q[n..] == Plain(s.taken) + s.q;
    SleepersUpdate(s.calls, c, s'.calls[c]);
    forall d | 0 <= d < |s'.calls| ensures CallOk(s', d) {
      assert CallOk(s, d);
      OfAppend(s.taken, c, b, d);
    }
    forall d: nat | d >= |s'.calls| ensures Of(s'.accepted, d) == [] && Of(s'.taken, d) == [] {
      OfAppend(s.taken, c, b, d);
    }
  }

  lemma InvReadLoop(s: State, c: nat, stop: Option<nat>)
    requires Inv(s) && c < |s.calls| && s.calls[c].Reader?
    ensures Inv(ReadLoop(s, c, stop))
  {
    var n := Moved(Readable(s, c), stop);
    InvTransfer(s, c, n);
    var s1 := Transfer(s, c, n);
    if s1.calls[c].status != Fault {
      if s1.calls[c].want > 0 { InvFinish(s1, c, Asleep); }
      InvFinish(s1, c, Done);
      InvFinish(s1, c, Again);
    }
  }

  /** The next n bytes of a write, behind the ones that are in. */
  lemma OfPiece(log: seq<Entry>, c: nat, data: seq<Byte>, w: nat, n: nat)
    requires w + n <= |data| && Of(log, c) == data[..w]
    ensures Of(log + Tag(c, data[w..w + n]), c) == data[..w + n]
    ensures w == 0 ==> Together(log + Tag(c, data[w..w + n]), c, data[..w + n])
  {
    hide Of, Tag, Together;
    OfAppend(log, c, data[w..w + n], c);
    assert data[..w] + data[w..w + n] == data[..w + n];
    if w == 0 {
      assert data[w..w + n] == data[..w + n];
      TogetherNew(log, c, data[..w + n]);
    }
  }

  /** A short write finds room for all of it. */
  ghost predicate Fits(s: State, c: nat)
    requires c < |s.calls|
  {
    var x := s.calls[c];
    x.Writer? && x.written <= |x.data| && (Atomic(x) ==> x.written == 0 && Free(s) >= |x.data|)
  }

  lemma PushCall(s: State, c: nat, n: nat)
    requires |s.q| <= PIPE_SIZE && c < |s.calls| && CallOk(s, c) && Fits(s, c) && n <= Writable(s, c)
    ensures CallOk(Push(s, c, n), c)
  {
    hide Of, Together;
    var x := s.calls[c];
    OfPiece(s.accepted, c, x.data, x.written, n);
  }

  /** The bytes that a push moves. */
  function Piece(s: State, c: nat, n: nat): seq<Byte>
    requires |s.q| <= PIPE_SIZE && c < |s.calls| && s.calls[c].Writer? && s.calls[c].written <= |s.calls[c].data|
    requires n <= Writable(s, c)
  {
    s.calls[c].data[s.calls[c].written..s.calls[c].written + n]
  }

  lemma PushOthers(s: State, c: nat, n: nat, d: nat)
    requires |s.q| <= PIPE_SIZE && c < |s.calls| && d < |s.calls| && d != c && CallOk(s, d) && Fits(s, c) && n <= Writable(s, c)
    ensures CallOk(Push(s, c, n), d)
  {
    hide Of, Together;
    var y, b := s.calls[d], Piece(s, c, n);
    OfAppend(s.accepted, c, b, d);
    if Atomic(y) && y.written > 0 { TogetherMore(s.accepted, d, y.data[..y.written], Tag(c, b)); }
  }

  lemma PushStream(s: State, c: nat, n: nat)
    requires Inv(s) && c < |s.calls| && Fits(s, c) && n <= Writable(s, c)
    ensures var s' := Push(s, c, n);
            && Plain(s'.taken) + s'.q == Plain(s'.accepted) && |s'.q| <= PIPE_SIZE
            && s'.accepted == s.accepted + Tag(c, Piece(s, c, n)) && s'.taken == s.taken
  {
    var b := Piece(s, c, n);
    PlainAppend(s.accepted, c, b);
    assert Plain(s.taken) + (s.q + b) == (Plain(s.taken) + s.q) + b;
  }

  lemma PushStrangers(s: State, c: nat, n: nat)
    requires Inv(s) && c < |s.calls| && Fits(s, c) && n <= Writable(s, c)
    ensures NoStrangers(Push(s, c, n))
  {
    PushStream(s, c, n);
    var s' := Push(s, c, n);
    forall d: nat | d >= |s'.calls| ensures Of(s'.accepted, d) == [] && Of(s'.taken, d) == [] {
      OfAppend(s.accepted, c, Piece(s, c, n), d);
    }
  }

  lemma InvPush(s: State, c: nat, n: nat)
    requires Inv(s) && c < |s.calls| && Fits(s, c) && n <= Writable(s, c)
    ensures Inv(Push(s, c, n))
  {
    var s' := Push(s, c, n);
    PushStream(s, c, n);
    PushStrangers(s, c, n);
    SleepersUpdate(s.calls, c, s'.calls[c]);
    forall d | 0 <= d < |s'.calls| ensures CallOk(s', d) {
      assert CallOk(s, d);
      if d == c { PushCall(s, c, n); } else { PushOthers(s, c, n, d); }
    }
  }

  lemma InvWriteLoop(s: State, c: nat, stop: Option<nat>)
    requires Inv(s) && c < |s.calls| && Fits(s, c)
    ensures Inv(WriteLoop(s, c, stop))
  {
    var n := Moved(Writable(s, c), stop);
    InvPush(s, c, n);
    var s1 := Push(s, c, n);
    assert CallOk(s1, c);
    if s1.calls[c].status != Fault {
      if s1.calls[c].written < |s1.calls[c].data| { InvFinish(s1, c, Asleep); }
      InvFinish(s1, c, Done);
    }
  }

  lemma InvBeginRead(s: State, count: nat, nonblock: bool, stop: Option<nat>)
    requires Inv(s)
    ensures Inv(BeginRead(s, count, nonblock, stop))
  {
    var c, x := |s.calls|, Reader(count, [], nonblock, Done);
    InvNew(s, x);
    hide Inv, ReadLoop, Finish;
    var s1 := s.(calls := s.calls + [x]);
    InvReadLoop(s1, c, stop);
    if count > 0 { InvFinish(s1, c, Asleep); }
    InvFinish(s1, c, Done);
    InvFinish(s1, c, Again);
  }

  lemma InvBeginWrite(s: State, data: seq<Byte>, nonblock: bool, stop: Option<nat>)
    requires Inv(s)
    ensures Inv(BeginWrite(s, data, nonblock, stop))
  {
    var c, x := |s.calls|, Writer(data, 0, false, nonblock, Done);
    InvNew(s, x);
    InvBound(s);
    hide Inv, WriteLoop, Finish;
    var s1 := s.(calls := s.calls + [x]);
    if data != [] {
      if s.readers == 0 {
        InvFinish(s1, c, BrokenPipe);
      } else if Free(s) < Needed(x) {
        InvFinish(s1, c, if nonblock then Again else Asleep);
      } else {
        InvWriteLoop(s1, c, stop);
      }
    }
  }

  lemma InvResume(s: State, c: nat, signal: bool, stop: Option<nat>)
    requires Inv(s) && Enabled(s, Resume(c, signal, stop))
    ensures Inv(Next(s, Resume(c, signal, stop)))
  {
    assert CallOk(s, c) && |s.q| <= PIPE_SIZE;
    hide Inv, ReadLoop, WriteLoop, Finish;
    InvFinish(s, c, Interrupted);
    if s.calls[c].Reader? {
      InvFinish(s, c, Done);
      InvReadLoop(s, c, stop);
    } else {
      InvFinish(s, c, BrokenPipe);
      if Free(s) >= Needed(s.calls[c]) { InvWriteLoop(s, c, stop); }
    }
  }

  lemma InvNext(s: State, e: Event)
    requires Inv(s) && Enabled(s, e)
    ensures Inv(Next(s, e))
  {
    match e
    case StartRead(count, nonblock, stop) => InvBeginRead(s, count, nonblock, stop);
    case StartWrite(data, nonblock, stop) => InvBeginWrite(s, data, nonblock, stop);
    case Resume(c, signal, stop) => InvResume(s, c, signal, stop);
    case Ends(r, w) =>
      var s' := Next(s, e);
      forall d | 0 <= d < |s'.calls| ensures CallOk(s', d) { assert CallOk(s, d); }
  }

  // ---------- whole runs ----------

  ghost predicate IsRun(s: State, run: seq<Event>)
    requires Inv(s)
    decreases |run|
  {
    run == [] || (Enabled(s, run[0]) && (InvNext(s, run[0]); IsRun(Next(s, run[0]), run[1..])))
  }

  ghost function After(s: State, run: seq<Event>): (s': State)
    requires Inv(s) && IsRun(s, run)
    ensures Inv(s')
    decreases |run|
  {
    if run == [] then s else InvNext(s, run[0]); After(Next(s, run[0]), run[1..])
  }

  /** Over every run: what was read is a prefix of what was written, the rest is in
      the ring and never more than it holds. */
  lemma BytesComeOutInOrder(run: seq<Event>)
    requires IsRun(Empty, run)
    ensures var s := After(Empty, run);
            && Plain(s.taken) + s.q == Plain(s.accepted) && Plain(s.taken) <= Plain(s.accepted)
            && |s.accepted| == |s.taken| + |s.q| && |s.q| <= PIPE_SIZE
  {
    var s := After(Empty, run);
    assert |Plain(s.taken) + s.q| == |Plain(s.accepted)|;
  }

  /** Over every run: each writer's bytes are in the pipe's history in order, up to
      the count it reports; a write of at most PIPE_BUF bytes is there not at all or in one
      piece, and whole unless the copy faulted; each reader got what its entries say. */
  lemma CallsAreHonoured(run: seq<Event>, c: nat)
    requires IsRun(Empty, run) && c < |After(Empty, run).calls|
    ensures var s := After(Empty, run);
            var x := s.calls[c];
            && (x.Reader? ==> Of(s.taken, c) == x.got)
            && (x.Writer? ==> x.written <= |x.data| && Of(s.accepted, c) == x.data[..x.written])
            && (Atomic(x) && x.written > 0 ==> Together(s.accepted, c, x.data[..x.written]))
            && (Atomic(x) && x.status != Fault ==> x.written == 0 || (x.written == |x.data| && Together(s.accepted, c, x.data)))
  {
    var x := After(Empty, run).calls[c];
    assert CallOk(After(Empty, run), c);
    if Atomic(x) && x.written == |x.data| { assert x.data[..x.written] == x.data; }
  }

  /** y is a later state of the call x: what was moved stays moved, a reader gets in
      all what it asked for and no more, and a call that has returned is left alone. */
  predicate GoesOn(x: Call, y: Call) {
    && (x.Reader? ==> y.Reader? && x.got <= y.got && y.want + |y.got| == x.want + |x.got|)
    && (x.Writer? ==> y.Writer? && y.data == x.data && x.written <= y.written)
    && y.nonblock == x.nonblock && (x.status != Asleep ==> y == x)
  }

  lemma ReadLoopCalls(s: State, c: nat, stop: Option<nat>)
    requires c < |s.calls| && s.calls[c].Reader?
    ensures var x, y := s.calls[c], ReadLoop(s, c, stop).calls;
            |y| == |s.calls| && (forall d :: 0 <= d < |y| && d != c ==> y[d] == s.calls[d]) &&
            y[c].Reader? && x.got <= y[c].got && y[c].want + |y[c].got| == x.want + |x.got| && y[c].nonblock == x.nonblock
  {
  }

  lemma WriteLoopCalls(s: State, c: nat, stop: Option<nat>)
    requires c < |s.calls| && s.calls[c].Writer? && s.calls[c].written <= |s.calls[c].data| && |s.q| <= PIPE_SIZE
    ensures var x, y := s.calls[c], WriteLoop(s, c, stop).calls;
            |y| == |s.calls| && (forall d :: 0 <= d < |y| && d != c ==> y[d] == s.calls[d]) &&
            y[c].Writer? && y[c].data == x.data && x.written <= y[c].written && y[c].nonblock == x.nonblock
  {
  }

  lemma NextGoesOn(s: State, e: Event, c: nat)
    requires Inv(s) && Enabled(s, e) && c < |s.calls|
    ensures c < |Next(s, e).calls| && GoesOn(s.calls[c], Next(s, e).calls[c])
  {
    hide Inv, CallOk, ReadLoop, WriteLoop;
    InvBound(s);
    match e
    case StartRead(count, nonblock, stop) =>
      ReadLoopCalls(s.(calls := s.calls + [Reader(count, [], nonblock, Done)]), |s.calls|, stop);
    case StartWrite(data, nonblock, stop) =>
      WriteLoopCalls(s.(calls := s.calls + [Writer(data, 0, false, nonblock, Done)]), |s.calls|, stop);
    case Resume(d, signal, stop) =>
      InvCall(s, d);
      if s.calls[d].Reader? { ReadLoopCalls(s, d, stop); } else { WriteLoopCalls(s, d, stop); }
    case Ends(r, w) =>
  }

  lemma InvBound(s: State)
    requires Inv(s)
    ensures |s.q| <= PIPE_SIZE
  {
  }

  lemma InvCall(s: State, c: nat)
    requires Inv(s) && c < |s.calls|
    ensures CallOk(s, c) && (s.calls[c].Writer? ==> s.calls[c].written <= |s.calls[c].data|)
  {
  }

  /** The call that an event starts asks for what the event says. */
  lemma NewCall(s: State, e: Event)
    requires Inv(s) && (e.StartRead? || e.StartWrite?)
    ensures |Next(s, e).calls| == |s.calls| + 1
    ensures var x := Next(s, e).calls[|s.calls|];
            if e.StartRead? then x.Reader? && x.want + |x.got| == e.count && x.nonblock == e.nonblock
            else x.Writer? && x.data == e.data && x.nonblock == e.nonblock
  {
    hide Inv, CallOk, ReadLoop, WriteLoop;
    InvBound(s);
    match e
    case StartRead(count, nonblock, stop) =>
      ReadLoopCalls(s.(calls := s.calls + [Reader(count, [], nonblock, Done)]), |s.calls|, stop);
    case StartWrite(data, nonblock, stop) =>
      WriteLoopCalls(s.(calls := s.calls + [Writer(data, 0, false, nonblock, Done)]), |s.calls|, stop);
  }

  /** Over every run from every state. */
  lemma {:induction false} RunGoesOn(s: State, run: seq<Event>, c: nat)
    requires Inv(s) && IsRun(s, run) && c < |s.calls|
    ensures c < |After(s, run).calls| && GoesOn(s.calls[c], After(s, run).calls[c])
    decreases |run|
  {
    if run != [] {
      InvNext(s, run[0]);
      NextGoesOn(s, run[0], c);
      RunGoesOn(Next(s, run[0]), run[1..], c);
    }
  }

  /** A read of a positive count that ends without an error and with no data has
      met the end of file: the ring was empty and there was no writer. */
  lemma EmptyReadMeansNoWriters(s: State, e: Event, c: nat)
    requires Inv(s) && Enabled(s, e)
    requires if e.Resume? then c == e.call && s.calls[c].Reader? && s.calls[c].got == []
        else e.StartRead? && e.count > 0 && c == |s.calls|
    ensures var x := Next(s, e).calls[c];
            x.status == Done && x.got == [] ==> s.q == [] && s.writers == 0
  {
    if e.Resume? { assert CallOk(s, c); }
  }

  /** A reader that wants more after the copy loop has emptied the ring, so the check that
      stands before the way back never fires; and it sleeps only behind an empty ring. */
  lemma WantsMoreOnlyOnEmpty(s: State, c: nat, stop: Option<nat>)
    requires Inv(s) && c < |s.calls| && s.calls[c].Reader?
    ensures var s1 := Transfer(s, c, Moved(Readable(s, c), stop));
            s1.calls[c].want > 0 && s1.calls[c].status != Fault ==> s1.q == []
    ensures ReadLoop(s, c, stop).calls[c].status == Asleep ==> ReadLoop(s, c, stop).q == []
  {
    InvTransfer(s, c, Moved(Readable(s, c), stop));
  }

  /** A short write that is admitted is in whole if and only if its copy does not fault. */
  lemma ShortWriteWholeIff(s: State, data: seq<Byte>, nonblock: bool, stop: Option<nat>)
    requires Inv(s) && 0 < |data| <= PIPE_BUF && s.readers > 0 && |data| <= Free(s)
    ensures var x := Next(s, StartWrite(data, nonblock, stop)).calls[|s.calls|];
            && (x.written == |data| <==> !(stop.Some? && stop.value < |data|))
            && (x.written < |data| ==> x.status == Fault && x.written == stop.value)
  {
  }
}
