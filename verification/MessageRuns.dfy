/** Message queues over whole runs: nothing is lost, duplicated or overtaken. */
module MessageRuns {
  import opened Options
  import opened Seqs
  import opened MessageQueues

  // ---------- the choice of msgrcv ----------

  /** No older message of the same type is passed over; for LessEqual none of a
      smaller type either; otherwise nothing that matches is. */
  lemma {:induction false} BestIsOldest(ms: seq<Msg>, mtype: int, mode: Mode)
    requires Best(ms, mtype, mode).Some?
    ensures var i := Best(ms, mtype, mode).value;
            && (forall k :: 0 <= k < i ==> ms[k].mtype != ms[i].mtype)
            && (mode == LessEqual ==> forall k :: 0 <= k < |ms| ==> ms[i].mtype <= ms[k].mtype || !TestMsg(ms[k], mtype, mode))
            && (mode != LessEqual ==> forall k :: 0 <= k < i ==> !TestMsg(ms[k], mtype, mode))
  {
    var rest := Best(ms[1..], mtype, mode);
    if rest.Some? { BestIsOldest(ms[1..], mtype, mode); }
    var i := Best(ms, mtype, mode).value;
    forall k | 0 <= k < |ms| ensures
        && (k < i ==> ms[k].mtype != ms[i].mtype)
        && (mode == LessEqual ==> ms[i].mtype <= ms[k].mtype || !TestMsg(ms[k], mtype, mode))
        && (mode != LessEqual && k < i ==> !TestMsg(ms[k], mtype, mode))
    {
      if k > 0 { assert ms[k] == ms[1..][k - 1]; }
      if i > 0 { assert ms[i] == ms[1..][i - 1]; }
    }
  }

  // ---------- hand-off ----------

  function Wants(m: Msg): Receiver -> bool { (r: Receiver) => Matches(r, m) }

  function Ignores(m: Msg): Receiver -> bool { (r: Receiver) => !Matches(r, m) }

  /** The place of the first receiver that can take the message. */
  function TakerAt(rs: seq<Receiver>, m: Msg): (n: nat)
    ensures n <= |rs|
    ensures forall k :: 0 <= k < n ==> !(Matches(rs[k], m) && !TooBig(rs[k], m))
    ensures n < |rs| ==> Matches(rs[n], m) && !TooBig(rs[n], m)
  {
    if rs == [] || (Matches(rs[0], m) && !TooBig(rs[0], m)) then 0 else 1 + TakerAt(rs[1..], m)
  }

  /** pipelined_send: the first receiver that can take the message takes it; of those in
      front of it exactly the ones that do not match stay, in order; those behind it stay. */
  lemma {:induction false} PipelineIs(rs: seq<Receiver>, m: Msg)
    ensures var h, n := Pipeline(rs, m), TakerAt(rs, m);
            && h.receivers == Filter(rs[..n], Ignores(m)) + (if n < |rs| then rs[n+1..] else [])
            && h.taker == if n < |rs| then Some(rs[n].task) else None
  {
    hide TooBig, Matches;
    if rs != [] {
      var n := TakerAt(rs, m);
      PipelineIs(rs[1..], m);
      if n > 0 {
        assert rs[..n][1..] == rs[1..][..n - 1];
        assert n < |rs| ==> rs[1..][n..] == rs[n+1..];
      } else {
        assert rs[..n] == [];
        assert [] + rs[1..] == rs[1..];
      }
    }
  }

  /** Who is left waiting was waiting, and everybody who does not match is; if nobody took
      the message, nobody left wants it; a taker was waiting for it and had room. */
  lemma PipelineSpec(rs: seq<Receiver>, m: Msg)
    ensures var h := Pipeline(rs, m);
            && (forall r :: r in h.receivers ==> r in rs)
            && (forall r :: r in rs && !Matches(r, m) ==> r in h.receivers)
            && (h.taker.None? ==> forall r :: r in h.receivers ==> !Matches(r, m))
            && (h.taker.Some? ==> exists r :: r in rs && r.task == h.taker.value && Matches(r, m) && !TooBig(r, m))
  {
    var h, n := Pipeline(rs, m), TakerAt(rs, m);
    PipelineIs(rs, m);
    forall r ensures r in Filter(rs[..n], Ignores(m)) <==> r in rs[..n] && !Matches(r, m) {
      FilterMember(rs[..n], Ignores(m), r);
    }
    if n < |rs| {
      assert rs == rs[..n] + [rs[n]] + rs[n+1..];
      assert rs[n] in rs;
    } else {
      assert rs[..n] == rs;
    }
  }

  lemma NobodyMissedSubset(q: Queue, rs: seq<Receiver>, ms: seq<Msg>)
    requires NobodyMissed(q) && (forall r :: r in rs ==> r in q.receivers) && (forall m :: m in ms ==> m in q.messages)
    ensures NobodyMissed(q.(receivers := rs, messages := ms))
  {
    forall i, j | 0 <= i < |rs| && 0 <= j < |ms| ensures !Matches(rs[i], ms[j]) {
      assert rs[i] in q.receivers && ms[j] in q.messages;
      var k :| 0 <= k < |q.receivers| && q.receivers[k] == rs[i];
      var l :| 0 <= l < |q.messages| && q.messages[l] == ms[j];
      assert !Matches(q.receivers[k], q.messages[l]);
    }
  }

  /** Matching looks at the type only, so a waiting match means that type is not queued. */
  lemma WantedTypeNotQueued(q: Queue, r: Receiver, m: Msg)
    requires NobodyMissed(q) && r in q.receivers && Matches(r, m)
    ensures Filter(q.messages, OfType(m.mtype)) == []
  {
    if Filter(q.messages, OfType(m.mtype)) != [] {
      var x := Filter(q.messages, OfType(m.mtype))[0];
      FilterMember(q.messages, OfType(m.mtype), x);
    }
  }

  lemma ContentsAppend(ds: seq<Delivery>, d: Delivery)
    ensures Contents(ds + [d]) == Contents(ds) + [d.msg]
  {
  }

  lemma FilterOne(m: Msg, t: int)
    ensures Filter([m], OfType(t)) == if m.mtype == t then [m] else []
  {
  }

  lemma {:induction false} BytesConcat(a: seq<Msg>, b: seq<Msg>)
    ensures Bytes(a + b) == Bytes(a) + Bytes(b)
  {
    if a == [] { assert a + b == b; } else {
      assert (a + b)[1..] == a[1..] + b;
      BytesConcat(a[1..], b);
    }
  }

  lemma FifoHandedOver(q: Queue, m: Msg, d: Delivery)
    requires FifoPerType(q) && d.msg == m && Filter(q.messages, OfType(m.mtype)) == []
    ensures FifoPerType(q.(sent := q.sent + [m], taken := q.taken + [d]))
  {
    forall t ensures Filter(Contents(q.taken + [d]), OfType(t)) + Filter(q.messages, OfType(t)) == Filter(q.sent + [m], OfType(t)) {
      ContentsAppend(q.taken, d);
      FilterConcat(Contents(q.taken), [m], OfType(t));
      FilterConcat(q.sent, [m], OfType(t));
      FilterOne(m, t);
      assert Filter(Contents(q.taken), OfType(t)) + Filter(q.messages, OfType(t)) == Filter(q.sent, OfType(t));
    }
  }

  lemma FifoQueued(q: Queue, m: Msg)
    requires FifoPerType(q)
    ensures FifoPerType(q.(sent := q.sent + [m], messages := q.messages + [m]))
  {
    forall t ensures Filter(Contents(q.taken), OfType(t)) + Filter(q.messages + [m], OfType(t)) == Filter(q.sent + [m], OfType(t)) {
      FilterConcat(q.messages, [m], OfType(t));
      FilterConcat(q.sent, [m], OfType(t));
      assert Filter(Contents(q.taken), OfType(t)) + Filter(q.messages, OfType(t)) == Filter(q.sent, OfType(t));
    }
  }

  /** Taking out the oldest message of its type. */
  lemma FilterWithout(ms: seq<Msg>, i: nat, t: int)
    requires i < |ms| && forall k :: 0 <= k < i ==> ms[k].mtype != ms[i].mtype
    ensures var r := ms[..i] + ms[i+1..];
            Filter(ms, OfType(t)) == (if ms[i].mtype == t then [ms[i]] else []) + Filter(r, OfType(t))
  {
    var a, m, b := ms[..i], ms[i], ms[i+1..];
    assert ms == a + ([m] + b);
    FilterConcat(a, [m] + b, OfType(t));
    FilterConcat([m], b, OfType(t));
    FilterConcat(a, b, OfType(t));
    FilterOne(m, t);
    if m.mtype == t { NoneOfType(a, t); }
  }

  lemma {:induction false} NoneOfType(a: seq<Msg>, t: int)
    requires forall k :: 0 <= k < |a| ==> a[k].mtype != t
    ensures Filter(a, OfType(t)) == []
  {
    if a != [] { NoneOfType(a[1..], t); }
  }

  lemma FifoTaken(q: Queue, i: nat, d: Delivery)
    requires FifoPerType(q) && i < |q.messages| && d.msg == q.messages[i]
    requires forall k :: 0 <= k < i ==> q.messages[k].mtype != q.messages[i].mtype
    ensures FifoPerType(q.(messages := q.messages[..i] + q.messages[i+1..], taken := q.taken + [d]))
  {
    var r := q.messages[..i] + q.messages[i+1..];
    forall t ensures Filter(Contents(q.taken + [d]), OfType(t)) + Filter(r, OfType(t)) == Filter(q.sent, OfType(t)) {
      ContentsAppend(q.taken, d);
      FilterConcat(Contents(q.taken), [d.msg], OfType(t));
      FilterOne(d.msg, t);
      FilterWithout(q.messages, i, t);
      assert Filter(Contents(q.taken), OfType(t)) + Filter(q.messages, OfType(t)) == Filter(q.sent, OfType(t));
    }
  }

  // ---------- the steps ----------

  lemma SendInv(q: Queue, task: nat, m: Msg, nowait: bool)
    requires Inv(q)
    ensures Inv(SendNext(q, task, m, nowait))
  {
    if m.size <= MSGMAX && m.mtype >= 1 && Fits(q, m.size) {
      var h := Pipeline(q.receivers, m);
      PipelineSpec(q.receivers, m);
      if h.taker.Some? {
        var r :| r in q.receivers && r.task == h.taker.value && Matches(r, m) && !TooBig(r, m);
        HandedOverInv(q, m, h.receivers, r);
      } else {
        QueuedInv(q, m, h.receivers);
      }
    }
  }

  lemma HandedOverInv(q: Queue, m: Msg, rs: seq<Receiver>, r: Receiver)
    requires Inv(q) && r in q.receivers && Matches(r, m) && forall x :: x in rs ==> x in q.receivers
    ensures Inv(q.(receivers := rs, sent := q.sent + [m], taken := q.taken + [Delivery(r.task, m)]))
  {
    var d := Delivery(r.task, m);
    var q' := q.(receivers := rs, sent := q.sent + [m], taken := q.taken + [d]);
    assert NobodyMissed(q') by { NobodyMissedSubset(q, rs, q.messages); }
    WantedTypeNotQueued(q, r, m);
    FifoHandedOver(q, m, d);
    hide FifoPerType, NobodyMissed, Filter;
    assert FifoPerType(q') by { FifoOnly(q.(sent := q.sent + [m], taken := q.taken + [d]), q'); }
    ContentsAppend(q.taken, d);
  }

  lemma FifoOnly(q: Queue, q': Queue)
    requires FifoPerType(q) && q'.sent == q.sent && q'.taken == q.taken && q'.messages == q.messages
    ensures FifoPerType(q')
  {
  }

  lemma QueuedInv(q: Queue, m: Msg, rs: seq<Receiver>)
    requires Inv(q) && m.mtype >= 1 && (forall x :: x in rs ==> x in q.receivers && !Matches(x, m))
    ensures Inv(q.(receivers := rs, sent := q.sent + [m], messages := q.messages + [m], cbytes := q.cbytes + m.size, qnum := q.qnum + 1))
  {
    var q' := q.(receivers := rs, sent := q.sent + [m], messages := q.messages + [m], cbytes := q.cbytes + m.size, qnum := q.qnum + 1);
    assert NobodyMissed(q') by { NobodyMissedMore(q, rs, m); }
    FifoQueued(q, m);
    hide FifoPerType, NobodyMissed;
    assert FifoPerType(q') by { FifoOnly(q.(sent := q.sent + [m], messages := q.messages + [m]), q'); }
    BytesConcat(q.messages, [m]);
  }

  lemma NobodyMissedMore(q: Queue, rs: seq<Receiver>, m: Msg)
    requires NobodyMissed(q) && (forall x :: x in rs ==> x in q.receivers && !Matches(x, m))
    ensures forall i, j :: 0 <= i < |rs| && 0 <= j < |q.messages + [m]| ==> !Matches(rs[i], (q.messages + [m])[j])
  {
    NobodyMissedSubset(q, rs, q.messages);
    var q1 := q.(receivers := rs);
    forall i, j | 0 <= i < |rs| && 0 <= j < |q.messages + [m]| ensures !Matches(rs[i], (q.messages + [m])[j]) {
      assert rs[i] in rs;
      if j < |q.messages| { assert !Matches(q1.receivers[i], q1.messages[j]); }
    }
  }

  function Take(q: Queue, i: nat, task: nat): Queue
    requires i < |q.messages|
  {
    q.(messages := q.messages[..i] + q.messages[i+1..], cbytes := q.cbytes - q.messages[i].size, qnum := q.qnum - 1,
       senders := WakeSenders(q.senders), taken := q.taken + [Delivery(task, q.messages[i])])
  }

  lemma BytesWithout(ms: seq<Msg>, i: nat)
    requires i < |ms|
    ensures Bytes(ms[..i] + ms[i+1..]) == Bytes(ms) - ms[i].size
    ensures multiset(ms) == multiset{ms[i]} + multiset(ms[..i] + ms[i+1..])
  {
    hide Bytes;
    var a, m, b := ms[..i], ms[i], ms[i+1..];
    assert ms == a + ([m] + b);
    BytesInsert(a, m, b);
  }

  lemma BytesInsert(a: seq<Msg>, m: Msg, b: seq<Msg>)
    ensures Bytes(a + ([m] + b)) == Bytes(a + b) + m.size
    ensures multiset(a + ([m] + b)) == multiset{m} + multiset(a + b)
  {
    BytesConcat(a, [m] + b);
    BytesConcat([m], b);
    BytesConcat(a, b);
  }

  lemma TakeInv(q: Queue, i: nat, task: nat)
    requires Inv(q) && i < |q.messages| && forall k :: 0 <= k < i ==> q.messages[k].mtype != q.messages[i].mtype
    ensures Inv(Take(q, i, task))
  {
    var r, d, q' := q.messages[..i] + q.messages[i+1..], Delivery(task, q.messages[i]), Take(q, i, task);
    FifoTaken(q, i, d);
    assert FifoPerType(q');
    assert NobodyMissed(q') by { NobodyMissedSubset(q, q.receivers, r); }
    ContentsAppend(q.taken, d);
    BytesWithout(q.messages, i);
    assert multiset(q'.sent) == multiset(Contents(q'.taken)) + multiset(q'.messages);
  }

  lemma ReceiveInv(q: Queue, task: nat, mtype: int, mode: Mode, size: nat, noerror: bool, nowait: bool)
    requires Inv(q)
    ensures Inv(ReceiveNext(q, task, mtype, mode, size, noerror, nowait))
  {
    hide Inv;
    var b := Best(q.messages, mtype, mode);
    if b.Some? {
      BestIsOldest(q.messages, mtype, mode);
      TakeInv(q, b.value, task);
    } else {
      SleepInv(q, Receiver(task, mode, mtype, size, noerror));
    }
  }

  /** A receiver goes to sleep when no queued message is for it. */
  lemma SleepInv(q: Queue, r: Receiver)
    requires Inv(q) && forall i :: 0 <= i < |q.messages| ==> !Matches(r, q.messages[i])
    ensures Inv(q.(receivers := q.receivers + [r]))
  {
    hide Filter;
    var q' := q.(receivers := q.receivers + [r]);
    FifoOnly(q, q');
  }

  lemma NextInv(q: Queue, e: Event)
    requires Inv(q)
    ensures Inv(Next(q, e))
  {
    match e
    case Send(task, m, nowait) => SendInv(q, task, m, nowait);
    case SenderRuns(task) =>
      forall s ensures s in Filter(q.senders, OtherSender(task)) ==> s in q.senders {
        FilterMember(q.senders, OtherSender(task), s);
      }
      var ss := Filter(q.senders, OtherSender(task));
      forall i | 0 <= i < |ss| && !ss[i].woken ensures !Fits(q, ss[i].msg.size) {
        assert ss[i] in q.senders;
      }
    case Receive(task, msgtyp, except, size, noerror, nowait) =>
      var (mode, mtype) := ConvertMode(msgtyp, except);
      ReceiveInv(q, task, mtype, mode, size, noerror, nowait);
    case ReceiverRuns(task) =>
      forall r ensures r in Filter(q.receivers, OtherReceiver(task)) ==> r in q.receivers {
        FilterMember(q.receivers, OtherReceiver(task), r);
      }
      NobodyMissedSubset(q, Filter(q.receivers, OtherReceiver(task)), q.messages);
    case SetLimit(qbytes) =>
  }

  /** In every state of every run: no sleeping receiver is missing a queued message,
      no unwoken sender could go on, the counters are exact, every accepted message
      is either queued or was taken once, and per type in the order sent. */
  lemma {:induction false} RunInv(q: Queue, run: seq<Event>)
    requires Inv(q)
    ensures Inv(After(q, run))
    decreases |run|
  {
    if run != [] {
      NextInv(q, run[0]);
      RunInv(Next(q, run[0]), run[1..]);
    }
  }

  lemma InitInv()
    ensures Inv(Init)
  {
    assert Contents([]) == [];
  }

  // ---------- what becomes of a receiver that goes to sleep ----------

  /** All who went to sleep, and those who were handed a message, told that it is too
      big, or left on their own. */
  datatype Ledger = Ledger(slept: multiset<Receiver>, handed: multiset<Receiver>, refused: multiset<Receiver>, left: multiset<Receiver>)

  function Is(task: nat): Receiver -> bool { (r: Receiver) => r.task == task }

  function Book(b: Ledger, q: Queue, e: Event): Ledger {
    match e
    case Send(_, m, _) =>
      if m.size > MSGMAX || m.mtype < 1 || !Fits(q, m.size) then b
      else
        var n := TakerAt(q.receivers, m);
        b.(handed := b.handed + if n < |q.receivers| then multiset{q.receivers[n]} else multiset{},
           refused := b.refused + multiset(Filter(q.receivers[..n], Wants(m))))
    case Receive(task, msgtyp, except, size, noerror, nowait) =>
      var (mode, mtype) := ConvertMode(msgtyp, except);
      if Best(q.messages, mtype, mode).None? && !nowait then
        b.(slept := b.slept + multiset{Receiver(task, mode, mtype, size, noerror)})
      else b
    case ReceiverRuns(task) => b.(left := b.left + multiset(Filter(q.receivers, Is(task))))
    case SetLimit(_) => b.(left := b.left + multiset(q.receivers))
    case SenderRuns(_) => b
  }

  ghost function BookAll(b: Ledger, q: Queue, run: seq<Event>): Ledger
    decreases |run|
  {
    if run == [] then b else BookAll(Book(b, q, run[0]), Next(q, run[0]), run[1..])
  }

  ghost predicate Accounted(b: Ledger, q: Queue) {
    b.slept == multiset(q.receivers) + b.handed + b.refused + b.left
  }

  /** Splitting a sequence by a test loses nothing. */
  lemma {:induction false} FilterSplits<T>(s: seq<T>, f: T -> bool, g: T -> bool)
    requires forall x :: x in s ==> f(x) != g(x)
    ensures multiset(s) == multiset(Filter(s, f)) + multiset(Filter(s, g))
  {
    if s != [] {
      assert s == [s[0]] + s[1..];
      FilterSplits(s[1..], f, g);
    }
  }

  lemma PipelineAccounts(rs: seq<Receiver>, m: Msg)
    ensures var n := TakerAt(rs, m);
            multiset(rs) == multiset(Pipeline(rs, m).receivers) + multiset(Filter(rs[..n], Wants(m)))
                            + if n < |rs| then multiset{rs[n]} else multiset{}
  {
    hide Filter, Pipeline;
    var n := TakerAt(rs, m);
    PipelineIs(rs, m);
    FilterSplits(rs[..n], Ignores(m), Wants(m));
    if n < |rs| {
      Around(rs, n);
      Behind(Filter(rs[..n], Ignores(m)), rs[n+1..]);
    } else {
      assert rs[..n] == rs;
      assert Filter(rs[..n], Ignores(m)) + [] == Filter(rs[..n], Ignores(m));
    }
  }

  lemma Around<T>(s: seq<T>, n: nat)
    requires n < |s|
    ensures multiset(s) == multiset(s[..n]) + multiset{s[n]} + multiset(s[n+1..])
  {
    assert s == s[..n] + [s[n]] + s[n+1..];
  }

  lemma Behind<T>(a: seq<T>, b: seq<T>)
    ensures multiset(a + b) == multiset(a) + multiset(b)
  {
  }

  /** r of the listed become r', h are handed a message, f are refused and l leave. */
  lemma Moved(b: Ledger, r: multiset<Receiver>, r': multiset<Receiver>,
      h: multiset<Receiver>, f: multiset<Receiver>, l: multiset<Receiver>)
    requires b.slept == r + b.handed + b.refused + b.left && r == r' + f + h + l
    ensures b.slept == r' + (b.handed + h) + (b.refused + f) + (b.left + l)
  {
  }

  lemma NextAccounts(b: Ledger, q: Queue, e: Event)
    requires Accounted(b, q)
    ensures Accounted(Book(b, q, e), Next(q, e))
  {
    hide Filter, Pipeline, Best, ConvertMode, Accounted;
    match e
    case Send(task, m, nowait) => SendAccounts(b, q, task, m, nowait);
    case Receive(task, msgtyp, except, size, noerror, nowait) =>
      var (mode, mtype) := ConvertMode(msgtyp, except);
      if Best(q.messages, mtype, mode).None? && !nowait {
        SleepAccounts(b, q, Receiver(task, mode, mtype, size, noerror));
      } else {
        SameReceivers(b, q, Next(q, e));
      }
    case ReceiverRuns(task) => LeaveAccounts(b, q, task);
    case SenderRuns(_) => SameReceivers(b, q, Next(q, e));
    case SetLimit(_) => AllLeave(b, q, Next(q, e));
  }

  lemma AllLeave(b: Ledger, q: Queue, q': Queue)
    requires Accounted(b, q) && q'.receivers == []
    ensures Accounted(b.(left := b.left + multiset(q.receivers)), q')
  {
    assert multiset(q'.receivers) == multiset{};
  }

  lemma SameReceivers(b: Ledger, q: Queue, q': Queue)
    requires Accounted(b, q) && q'.receivers == q.receivers
    ensures Accounted(b, q')
  {
  }

  lemma SleepAccounts(b: Ledger, q: Queue, r: Receiver)
    requires Accounted(b, q)
    ensures Accounted(b.(slept := b.slept + multiset{r}), q.(receivers := q.receivers + [r]))
  {
    Behind(q.receivers, [r]);
  }

  lemma LeaveAccounts(b: Ledger, q: Queue, task: nat)
    requires Accounted(b, q)
    ensures Accounted(Book(b, q, ReceiverRuns(task)), q.(receivers := Filter(q.receivers, OtherReceiver(task))))
  {
    hide Filter;
    var stay, go := multiset(Filter(q.receivers, OtherReceiver(task))), multiset(Filter(q.receivers, Is(task)));
    FilterSplits(q.receivers, OtherReceiver(task), Is(task));
    Moved(b, multiset(q.receivers), stay, multiset{}, multiset{}, go);
  }

  lemma SendAccounts(b: Ledger, q: Queue, task: nat, m: Msg, nowait: bool)
    requires Accounted(b, q)
    ensures Accounted(Book(b, q, Send(task, m, nowait)), SendNext(q, task, m, nowait))
  {
    hide Filter, Pipeline;
    var rs, n := q.receivers, TakerAt(q.receivers, m);
    var h := if n < |rs| then multiset{rs[n]} else multiset{};
    PipelineAccounts(rs, m);
    Moved(b, multiset(rs), multiset(Pipeline(rs, m).receivers), h, multiset(Filter(rs[..n], Wants(m))), multiset{});
  }

  /** Over every run: a receiver that went to sleep is listed, was handed a message, was told
      that a message is too big, or left on its own, and each just once. */
  lemma {:induction false} ReceiversAccounted(b: Ledger, q: Queue, run: seq<Event>)
    requires Accounted(b, q)
    ensures Accounted(BookAll(b, q, run), After(q, run))
    decreases |run|
  {
    if run != [] {
      NextAccounts(b, q, run[0]);
      ReceiversAccounted(Book(b, q, run[0]), Next(q, run[0]), run[1..]);
    }
  }
}
