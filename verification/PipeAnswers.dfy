/** When pipe calls sleep, return and fail, and that a blocking write comes back only when all
    of it is in. */
module PipeAnswers {
  import opened Options
  import opened Bytes
  import opened PipeRuns

  /** Only blocking calls sleep, and a blocking write that has returned without an error is in. */
  predicate Settled(x: Call) {
    && (x.status == Asleep ==> !x.nonblock)
    && (x.Writer? && x.status == Done && !x.nonblock ==> x.written == |x.data|)
  }

  ghost predicate AllSettled(s: State) {
    forall c :: 0 <= c < |s.calls| ==> Settled(s.calls[c])
  }

  /** The call that an event is about. */
  predicate Concerns(s: State, e: Event, c: nat) {
    match e
    case StartRead(_, _, _) => c == |s.calls|
    case StartWrite(_, _, _) => c == |s.calls|
    case Resume(d, _, _) => c == d
    case Ends(_, _) => false
  }

  /** Too little room for a write: a short one waits for all of it, and at its first try only. */
  predicate NoRoom(s: State, x: Call)
    requires x.Writer?
  {
    if |x.data| <= 4096 && !x.admitted then 4096 - |s.q| < |x.data| else |s.q| >= 4096
  }

  /** What there is to copy. */
  function ToCopy(s: State, x: Call): int {
    if x.Reader? then (if x.want < |s.q| then x.want else |s.q|)
    else if |x.data| - x.written < 4096 - |s.q| then |x.data| - x.written else 4096 - |s.q|
  }

  /** The call as it is when the event begins. */
  function Before(s: State, e: Event, c: nat): Call
    requires Concerns(s, e, c) && (e.Resume? ==> c < |s.calls|)
  {
    match e
    case StartRead(count, nonblock, _) => Reader(count, [], nonblock, Done)
    case StartWrite(data, nonblock, _) => Writer(data, 0, false, nonblock, Done)
    case Resume(_, _, _) => s.calls[c]
  }

  predicate Signalled(e: Event) { e.Resume? && e.signal }

  /** There is anything left to do. */
  predicate Unfinished(x: Call) {
    if x.Reader? then x.want > 0 else x.written < |x.data|
  }

  /** The call gets as far as its copy loop. */
  predicate Copies(s: State, e: Event, x: Call) {
    && !Signalled(e) && Unfinished(x)
    && (if x.Reader? then |s.q| > 0 else s.readers > 0 && !NoRoom(s, x))
  }

  predicate Faults(s: State, e: Event, x: Call) {
    Copies(s, e, x) && !e.Ends? && e.stop.Some? && e.stop.value < ToCopy(s, x)
  }

  function Moves(all: int, stop: Option<nat>): int {
    if stop.Some? && stop.value < all then stop.value else all
  }

  /** The other calls and the ends are left alone. */
  ghost predicate OnlyCall(s: State, s': State, c: nat) {
    && s'.readers == s.readers && s'.writers == s.writers && |s'.calls| == |s.calls|
    && forall d :: 0 <= d < |s.calls| && d != c ==> s'.calls[d] == s.calls[d]
  }

  lemma ReadLoopIs(s: State, c: nat, stop: Option<nat>)
    requires c < |s.calls| && s.calls[c].Reader?
    ensures var x, s', n := s.calls[c], ReadLoop(s, c, stop), Moves(ToCopy(s, s.calls[c]), stop);
            && 0 <= n <= |s.q| && n <= x.want && OnlyCall(s, s', c) && s'.q == s.q[n..] && s'.waiting == s.waiting
            && s'.calls[c] == Reader(x.want - n, x.got + s.q[..n], x.nonblock,
                                     if n < ToCopy(s, x) then Fault
                                     else if x.want > n && s.waiting > 0 && !x.nonblock && s.writers > 0 then Asleep else Done)
  {
  }

  lemma WriteLoopIs(s: State, c: nat, stop: Option<nat>)
    requires c < |s.calls| && s.calls[c].Writer? && s.calls[c].written <= |s.calls[c].data| && |s.q| <= 4096
    ensures var x, s', n := s.calls[c], WriteLoop(s, c, stop), Moves(ToCopy(s, s.calls[c]), stop);
            && 0 <= n <= |x.data| - x.written && OnlyCall(s, s', c) && s'.q == s.q + x.data[x.written..x.written + n]
            && s'.calls[c] == Writer(x.data, x.written + n, true, x.nonblock,
                                     if n < ToCopy(s, x) then Fault
                                     else if x.written + n < |x.data| && !x.nonblock then Asleep else Done)
  {
  }

  /** What a call has moved when its event is over: all there is to copy, or as far as the copy got. */
  lemma MovesWhatItCan(s: State, e: Event, c: nat)
    requires Inv(s) && Enabled(s, e) && Concerns(s, e, c)
    ensures var x, s' := Before(s, e, c), Next(s, e);
            var n := if !Copies(s, e, x) then 0 else if Faults(s, e, x) then e.stop.value else ToCopy(s, x);
            && c < |s'.calls|
            && if x.Reader? then
                 0 <= n <= |s.q| && s'.calls[c].Reader? && s'.calls[c].got == x.got + s.q[..n] && s'.q == s.q[n..]
               else
                 s'.calls[c].Writer? && s'.calls[c].written == x.written + n && 0 <= x.written <= x.written + n <= |x.data| &&
                 s'.q == s.q + x.data[x.written..x.written + n]
  {
    NextIs(s, e, c);
    var x := Before(s, e, c);
    hide Next, Inv;
    assert s.q[0..] == s.q;
    if x.Writer? {
      assert x.data[x.written..x.written] == [] && s.q + [] == s.q;
    } else {
      assert s.q[..0] == [] && x.got + [] == x.got;
    }
  }

  /** A reader after its event, and the ring. */
  ghost predicate ReaderIs(s: State, e: Event, x: Call, s': State, y: Call)
    requires x.Reader? && !e.Ends?
  {
    var n := Moves(ToCopy(s, x), e.stop);
    if Copies(s, e, x) then
      && 0 <= n <= |s.q| && n <= x.want && s'.q == s.q[n..]
      && y == Reader(x.want - n, x.got + s.q[..n], x.nonblock,
                     if n < ToCopy(s, x) then Fault
                     else if x.want > n && s'.waiting > 0 && !x.nonblock && s.writers > 0 then Asleep else Done)
    else
      && s'.q == s.q
      && y == Reader(x.want, x.got, x.nonblock,
                     if Signalled(e) then Interrupted
                     else if !Unfinished(x) || s.writers == 0 then Done
                     else if x.nonblock && !e.Resume? then Again else Asleep)
  }

  /** A writer after its event, and the ring. */
  ghost predicate WriterIs(s: State, e: Event, x: Call, s': State, y: Call)
    requires x.Writer? && !e.Ends?
  {
    var n := Moves(ToCopy(s, x), e.stop);
    if Copies(s, e, x) then
      && 0 <= n <= |x.data| - x.written && s'.q == s.q + x.data[x.written..x.written + n]
      && y == Writer(x.data, x.written + n, true, x.nonblock,
                     if n < ToCopy(s, x) then Fault
                     else if x.written + n < |x.data| && !x.nonblock then Asleep else Done)
    else
      && s'.q == s.q
      && y == Writer(x.data, x.written, x.admitted, x.nonblock,
                     if Signalled(e) then Interrupted
                     else if !Unfinished(x) then Done
                     else if s.readers == 0 then BrokenPipe
                     else if x.nonblock && !e.Resume? then Again else Asleep)
  }

  /** The other calls are left alone. */
  ghost predicate Alone(s: State, c: nat, s': State) {
    c < |s'.calls| && forall d :: 0 <= d < |s'.calls| && d != c ==> d < |s.calls| && s'.calls[d] == s.calls[d]
  }

  lemma StartReadIs(s: State, count: nat, nonblock: bool, stop: Option<nat>)
    ensures var e, x, c := StartRead(count, nonblock, stop), Reader(count, [], nonblock, Done), |s.calls|;
            var s' := BeginRead(s, count, nonblock, stop);
            Alone(s, c, s') && ReaderIs(s, e, x, s', s'.calls[c])
  {
    var s1 := s.(calls := s.calls + [Reader(count, [], nonblock, Done)]);
    ReadLoopIs(s1, |s.calls|, stop);
    hide ReadLoop;
  }

  lemma StartWriteIs(s: State, data: seq<Byte>, nonblock: bool, stop: Option<nat>)
    requires |s.q| <= 4096
    ensures var e, x, c := StartWrite(data, nonblock, stop), Writer(data, 0, false, nonblock, Done), |s.calls|;
            var s' := BeginWrite(s, data, nonblock, stop);
            Alone(s, c, s') && WriterIs(s, e, x, s', s'.calls[c])
  {
    var s1 := s.(calls := s.calls + [Writer(data, 0, false, nonblock, Done)]);
    WriteLoopIs(s1, |s.calls|, stop);
    hide WriteLoop;
  }

  lemma ResumeReadIs(s: State, c: nat, signal: bool, stop: Option<nat>)
    requires c < |s.calls| && s.calls[c].Reader? && s.calls[c].status == Asleep && s.calls[c].want > 0
    ensures var e, s' := Resume(c, signal, stop), ResumeRead(s, c, signal, stop);
            Alone(s, c, s') && ReaderIs(s, e, s.calls[c], s', s'.calls[c])
  {
    ReadLoopIs(s, c, stop);
    hide ReadLoop;
  }

  lemma ResumeWriteIs(s: State, c: nat, signal: bool, stop: Option<nat>)
    requires c < |s.calls| && s.calls[c].Writer? && s.calls[c].status == Asleep && s.calls[c].written < |s.calls[c].data|
    requires |s.q| <= 4096
    ensures var e, s' := Resume(c, signal, stop), ResumeWrite(s, c, signal, stop);
            Alone(s, c, s') && WriterIs(s, e, s.calls[c], s', s'.calls[c])
  {
    WriteLoopIs(s, c, stop);
    hide WriteLoop;
  }

  /** Every event in one piece. */
  lemma NextIs(s: State, e: Event, c: nat)
    requires Inv(s) && Enabled(s, e) && Concerns(s, e, c)
    ensures var x, s' := Before(s, e, c), Next(s, e);
            && Alone(s, c, s') && |s.q| <= 4096
            && (x.Writer? ==> x.written <= |x.data|) && (e.Resume? ==> Unfinished(x))
            && (if x.Reader? then ReaderIs(s, e, x, s', s'.calls[c]) else WriterIs(s, e, x, s', s'.calls[c]))
  {
    InvBound(s);
    if e.Resume? { InvCall(s, c); }
    hide Inv, BeginRead, BeginWrite, ResumeRead, ResumeWrite, ReaderIs, WriterIs;
    match e
    case StartRead(count, nonblock, stop) => StartReadIs(s, count, nonblock, stop);
    case StartWrite(data, nonblock, stop) => StartWriteIs(s, data, nonblock, stop);
    case Resume(_, signal, stop) =>
      if s.calls[c].Reader? { ResumeReadIs(s, c, signal, stop); } else { ResumeWriteIs(s, c, signal, stop); }
  }

  /** Every status has its cause, and no other. */
  lemma StatusIff(s: State, e: Event, c: nat)
    requires Inv(s) && AllSettled(s) && Enabled(s, e) && Concerns(s, e, c)
    ensures var x, s' := Before(s, e, c), Next(s, e);
            c < |s'.calls| &&
            var y := s'.calls[c];
            && (y.status == Interrupted <==> Signalled(e))
            && (y.status == BrokenPipe <==> x.Writer? && !Signalled(e) && Unfinished(x) && s.readers == 0)
            && (y.status == Fault <==> Faults(s, e, x))
            && (y.status == Again <==> x.nonblock && Unfinished(x) &&
                                       (if x.Reader? then s.q == [] && s.writers > 0 else s.readers > 0 && NoRoom(s, x)))
            && (y.status == Asleep <==> !x.nonblock && !Signalled(e) && !Faults(s, e, x) && Unfinished(y) &&
                                        (if x.Reader? then s'.q == [] && s.writers > 0 && (s.q == [] || s'.waiting > 0)
                                         else s.readers > 0))
  {
    NextIs(s, e, c);
    hide Next, Inv;
    if e.Resume? { assert Settled(s.calls[c]); }
  }

  lemma NextSettled(s: State, e: Event)
    requires Inv(s) && AllSettled(s) && Enabled(s, e)
    ensures AllSettled(Next(s, e))
  {
    if !e.Ends? {
      var c := if e.Resume? then e.call else |s.calls|;
      NextIs(s, e, c);
      hide Inv, Next;
      forall d | 0 <= d < |Next(s, e).calls| ensures Settled(Next(s, e).calls[d]) {
        if d < |s.calls| { assert Settled(s.calls[d]); }
      }
    }
  }

  /** Over every run: only blocking calls sleep, and a blocking write that returns without an
      error has written everything. */
  lemma {:induction false} BlockingWritesAreWhole(s: State, run: seq<Event>)
    requires Inv(s) && AllSettled(s) && IsRun(s, run)
    ensures AllSettled(After(s, run))
    decreases |run|
  {
    hide Next, AllSettled;
    if run != [] {
      InvNext(s, run[0]);
      NextSettled(s, run[0]);
      BlockingWritesAreWhole(Next(s, run[0]), run[1..]);
    }
  }

  /** So from an empty pipe. */
  lemma BlockingWriteIsWhole(run: seq<Event>, c: nat)
    requires IsRun(Empty, run) && c < |After(Empty, run).calls|
    ensures var x := After(Empty, run).calls[c];
            x.Writer? && x.status == Done && !x.nonblock ==> x.written == |x.data| && Of(After(Empty, run).accepted, c) == x.data
  {
    BlockingWritesAreWhole(Empty, run);
    CallsAreHonoured(run, c);
    var x := After(Empty, run).calls[c];
    assert Settled(x);
    if x.Writer? && x.written == |x.data| { assert x.data[..x.written] == x.data; }
  }
}
