/** The room test of msgsnd comes before it looks for a receiver, and msgrcv does not look at
    sleeping senders: both can sleep although one has what the other waits for. */
module MessageMeetings {
  import opened Options
  import opened Seqs
  import opened MessageQueues
  import opened MessageRuns

  /** The receiver would take the message, and nobody has told the sender to try again. */
  predicate Together(s: Sender, r: Receiver) {
    !s.woken && Matches(r, s.msg) && !TooBig(r, s.msg)
  }

  ghost predicate Meet(q: Queue) {
    exists s, r :: s in q.senders && r in q.receivers && Together(s, r)
  }

  /** A sender goes to sleep for want of room although a listed receiver would take its message
      without any, or a receiver goes to sleep although a sleeping sender has one for it. */
  ghost predicate MeetsBy(q: Queue, e: Event) {
    match e
    case Send(task, m, nowait) =>
      && m.size <= MSGMAX && m.mtype >= 1 && !Fits(q, m.size) && !nowait
      && exists r :: r in q.receivers && Together(Sender(task, m, false), r)
    case Receive(task, msgtyp, except, size, noerror, nowait) =>
      var (mode, mtype) := ConvertMode(msgtyp, except);
      && Best(q.messages, mtype, mode).None? && !nowait
      && exists s :: s in q.senders && Together(s, Receiver(task, mode, mtype, size, noerror))
    case _ => false
  }

  lemma FewerMeet(q: Queue, q': Queue)
    requires !Meet(q)
    requires forall s :: s in q'.senders ==> s.woken || s in q.senders
    requires forall r :: r in q'.receivers ==> r in q.receivers
    ensures !Meet(q')
  {
  }

  lemma AllWoken(q: Queue)
    requires forall s :: s in q.senders ==> s.woken
    ensures !Meet(q)
  {
  }

  lemma WokenAll(senders: seq<Sender>)
    ensures forall s :: s in WakeSenders(senders) ==> s.woken
  {
  }

  lemma SendMeetIff(q: Queue, task: nat, m: Msg, nowait: bool)
    requires !Meet(q)
    ensures Meet(SendNext(q, task, m, nowait)) <==> MeetsBy(q, Send(task, m, nowait))
  {
    var q' := SendNext(q, task, m, nowait);
    if m.size <= MSGMAX && m.mtype >= 1 && !Fits(q, m.size) && !nowait {
      var x := Sender(task, m, false);
      assert forall s :: s in q'.senders <==> s in q.senders || s == x;
    } else {
      PipelineSpec(q.receivers, m);
      FewerMeet(q, q');
    }
  }

  lemma ReceiveMeetIff(q: Queue, e: Event)
    requires !Meet(q) && e.Receive?
    ensures Meet(Next(q, e)) <==> MeetsBy(q, e)
  {
    var q' := Next(q, e);
    var (mode, mtype) := ConvertMode(e.msgtyp, e.except);
    if Best(q.messages, mtype, mode).Some? {
      WokenAll(q.senders);
      FewerMeet(q, q');
    } else if !e.nowait {
      var x := Receiver(e.task, mode, mtype, e.size, e.noerror);
      assert forall r :: r in q'.receivers <==> r in q.receivers || r == x;
    }
  }

  /** An event brings it about if and only if it is one of those two. */
  lemma NextMeetIff(q: Queue, e: Event)
    requires !Meet(q)
    ensures Meet(Next(q, e)) <==> MeetsBy(q, e)
  {
    hide Meet;
    match e
    case Send(task, m, nowait) => SendMeetIff(q, task, m, nowait);
    case Receive(_, _, _, _, _, _) => ReceiveMeetIff(q, e);
    case SenderRuns(task) =>
      forall s ensures s in Next(q, e).senders ==> s in q.senders { FilterMember(q.senders, OtherSender(task), s); }
      FewerMeet(q, Next(q, e));
    case ReceiverRuns(task) =>
      forall r ensures r in Next(q, e).receivers ==> r in q.receivers { FilterMember(q.receivers, OtherReceiver(task), r); }
      FewerMeet(q, Next(q, e));
    case SetLimit(_) =>
      WokenAll(q.senders);
      AllWoken(Next(q, e));
  }

  ghost predicate NeverMeet(q: Queue, run: seq<Event>)
    decreases |run|
  {
    !Meet(q) && (run == [] || NeverMeet(Next(q, run[0]), run[1..]))
  }

  ghost predicate NoneMeets(q: Queue, run: seq<Event>)
    decreases |run|
  {
    run == [] || (!MeetsBy(q, run[0]) && NoneMeets(Next(q, run[0]), run[1..]))
  }

  /** Over every run: no sender and receiver ever sleep next to each other like that if and
      only if no call goes to sleep like that. */
  lemma {:induction false} RunMeetIff(q: Queue, run: seq<Event>)
    requires !Meet(q)
    ensures NeverMeet(q, run) <==> NoneMeets(q, run)
    decreases |run|
  {
    hide Meet, MeetsBy, Next;
    if run != [] {
      NextMeetIff(q, run[0]);
      if !Meet(Next(q, run[0])) { RunMeetIff(Next(q, run[0]), run[1..]); }
    }
  }

  // ---------- a run of either kind ----------

  const FULL: seq<Event> := [Send(1, Msg(0, 1, MSGMAX), false), Send(1, Msg(1, 1, MSGMAX), false)]
  const OFFER := Send(2, Msg(2, 2, 1), false)
  const WISH := Receive(3, 2, false, 1, false, false)

  /** A queue that is full of messages of type 1; one task wants type 2 and one has it. */
  lemma FullButWanted()
    ensures Meet(After(Init, [WISH] + FULL + [OFFER]))
    ensures Meet(After(Init, FULL + [OFFER] + [WISH]))
  {
    WishFirst();
    OfferFirst();
  }

  lemma WishFirst()
    ensures Meet(After(Init, [WISH] + FULL + [OFFER]))
  {
    var r := Receiver(3, Equal, 2, 1, false);
    var run := [WISH] + FULL + [OFFER];
    FourEvents(Init, WISH, FULL[0], FULL[1], OFFER);
    assert run == [WISH, FULL[0], FULL[1], OFFER];
    var q1 := Next(Init, WISH);
    assert q1.receivers == [r];
    var q2 := Next(q1, FULL[0]);
    assert Pipeline([r], Msg(0, 1, MSGMAX)) == Handoff([r], None) by { NotForIt(r, Msg(0, 1, MSGMAX)); }
    var q3 := Next(q2, FULL[1]);
    assert Pipeline([r], Msg(1, 1, MSGMAX)) == Handoff([r], None) by { NotForIt(r, Msg(1, 1, MSGMAX)); }
    var q4 := Next(q3, OFFER);
    assert q3.cbytes == 2 * MSGMAX && q4.senders == [Sender(2, Msg(2, 2, 1), false)] && q4.receivers == [r];
    assert After(Init, run) == q4;
    assert Together(q4.senders[0], q4.receivers[0]);
  }

  lemma FourEvents(q: Queue, a: Event, b: Event, c: Event, d: Event)
    ensures After(q, [a, b, c, d]) == Next(Next(Next(Next(q, a), b), c), d)
  {
    hide Next;
    assert [a, b, c, d][1..] == [b, c, d] && [b, c, d][1..] == [c, d] && [c, d][1..] == [d] && [d][1..] == [];
    var q3 := Next(Next(Next(q, a), b), c);
    assert After(q3, [d]) == After(Next(q3, d), []);
    assert After(q, [a, b, c, d]) == After(Next(q, a), [b, c, d]);
  }

  lemma NotForIt(r: Receiver, m: Msg)
    requires !Matches(r, m)
    ensures Pipeline([r], m) == Handoff([r], None)
  {
    assert [r][1..] == [];
    assert Pipeline([], m) == Handoff([], None);
  }

  lemma OfferFirst()
    ensures Meet(After(Init, FULL + [OFFER] + [WISH]))
  {
    var run := FULL + [OFFER] + [WISH];
    FourEvents(Init, FULL[0], FULL[1], OFFER, WISH);
    assert run == [FULL[0], FULL[1], OFFER, WISH];
    var q1 := Next(Init, FULL[0]);
    var q2 := Next(q1, FULL[1]);
    assert q2.messages == [Msg(0, 1, MSGMAX), Msg(1, 1, MSGMAX)] && q2.receivers == [] && q2.cbytes == 2 * MSGMAX;
    var q3 := Next(q2, OFFER);
    assert q3.senders == [Sender(2, Msg(2, 2, 1), false)];
    var q4 := Next(q3, WISH);
    assert q4.receivers == [Receiver(3, Equal, 2, 1, false)];
    assert After(Init, run) == q4;
    assert Together(q4.senders[0], q4.receivers[0]);
  }
}
