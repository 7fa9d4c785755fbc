/** Which message msgrcv takes and who gets the message of msgsnd, in terms of the arguments
    of the calls alone. */
module MessageAnswers {
  import opened Options
  import opened MessageQueues
  import opened MessageRuns
  import opened Seqs

  /** The messages that msgrcv asks for: any, one type, all but one type, or all up to a type. */
  predicate Asks(msgtyp: int, except: bool, m: Msg) {
    if msgtyp == 0 then true
    else if msgtyp < 0 then m.mtype <= -msgtyp
    else if except then m.mtype != msgtyp
    else m.mtype == msgtyp
  }

  /** The oldest of them, or for a negative type the oldest of the least type. */
  predicate Chosen(ms: seq<Msg>, msgtyp: int, except: bool, i: nat) {
    && i < |ms| && Asks(msgtyp, except, ms[i])
    && forall j :: 0 <= j < |ms| && Asks(msgtyp, except, ms[j]) ==>
         if msgtyp < 0 then ms[i].mtype < ms[j].mtype || (ms[i].mtype == ms[j].mtype && i <= j) else i <= j
  }

  lemma ModeAsks(msgtyp: int, except: bool, m: Msg)
    ensures var (mode, mtype) := ConvertMode(msgtyp, except); TestMsg(m, mtype, mode) <==> Asks(msgtyp, except, m)
  {
  }

  /** The message found is the one chosen, and none is found exactly if none is asked for. */
  lemma BestIsChosen(ms: seq<Msg>, msgtyp: int, except: bool)
    ensures var (mode, mtype) := ConvertMode(msgtyp, except);
            var b := Best(ms, mtype, mode);
            && (b.Some? ==> Chosen(ms, msgtyp, except, b.value))
            && (b.None? <==> forall i :: 0 <= i < |ms| ==> !Asks(msgtyp, except, ms[i]))
  {
    var (mode, mtype) := ConvertMode(msgtyp, except);
    forall m ensures TestMsg(m, mtype, mode) <==> Asks(msgtyp, except, m) { ModeAsks(msgtyp, except, m); }
    if Best(ms, mtype, mode).Some? { BestIsOldest(ms, mtype, mode); }
  }

  lemma ChosenOnce(ms: seq<Msg>, msgtyp: int, except: bool, i: nat, j: nat)
    requires Chosen(ms, msgtyp, except, i) && Chosen(ms, msgtyp, except, j)
    ensures i == j
  {
  }

  /** The chosen message has been taken, and all sleeping senders are told to try again. */
  ghost predicate TookAt(q: Queue, q': Queue, task: nat, i: nat)
    requires i < |q.messages|
  {
    && q' == q.(messages := q.messages[..i] + q.messages[i + 1..], cbytes := q.cbytes - q.messages[i].size, qnum := q.qnum - 1,
                senders := q'.senders, taken := q.taken + [Delivery(task, q.messages[i])])
    && |q'.senders| == |q.senders|
    && forall k :: 0 <= k < |q.senders| ==> q'.senders[k] == Sender(q.senders[k].task, q.senders[k].msg, true)
  }

  /** msgrcv: the chosen message is taken, unless it is too long for the caller, who then gets
      nothing; without one the caller is refused or listed, and a listed caller matches just the
      messages that it asks for. */
  lemma ReceiveMeans(q: Queue, task: nat, msgtyp: int, except: bool, size: nat, noerror: bool, nowait: bool)
    ensures var q' := Next(q, Receive(task, msgtyp, except, size, noerror, nowait));
            && (forall i: nat :: Chosen(q.messages, msgtyp, except, i) ==>
                  if size < q.messages[i].size && !noerror then q' == q else TookAt(q, q', task, i))
            && ((forall i :: 0 <= i < |q.messages| ==> !Asks(msgtyp, except, q.messages[i])) ==>
                  if nowait then q' == q
                  else exists r :: Listed(r, task, msgtyp, except, size, noerror) && q' == q.(receivers := q.receivers + [r]))
  {
    hide TestMsg, Best, ConvertMode;
    BestIsChosen(q.messages, msgtyp, except);
    var (mode, mtype) := ConvertMode(msgtyp, except);
    var b := Best(q.messages, mtype, mode);
    forall i: nat | Chosen(q.messages, msgtyp, except, i) ensures b == Some(i) {
      ChosenOnce(q.messages, msgtyp, except, i, b.value);
    }
    if b.None? && !nowait {
      var r := Receiver(task, mode, mtype, size, noerror);
      forall m ensures Matches(r, m) <==> Asks(msgtyp, except, m) { ModeAsks(msgtyp, except, m); }
      assert Listed(r, task, msgtyp, except, size, noerror);
    }
  }

  /** A receiver with these arguments. */
  ghost predicate Listed(r: Receiver, task: nat, msgtyp: int, except: bool, size: nat, noerror: bool) {
    r.task == task && r.size == size && r.noerror == noerror && forall m :: Matches(r, m) <==> Asks(msgtyp, except, m)
  }

  /** msgctl sets the limit, and all who sleep try again; a task that stops waiting leaves its list. */
  lemma OthersMean(q: Queue, qbytes: nat, task: nat)
    ensures var q' := Next(q, SetLimit(qbytes));
            && q' == q.(qbytes := qbytes, receivers := [], senders := q'.senders) && |q'.senders| == |q.senders|
            && forall k :: 0 <= k < |q.senders| ==> q'.senders[k] == Sender(q.senders[k].task, q.senders[k].msg, true)
    ensures var q' := Next(q, SenderRuns(task));
            q' == q.(senders := q'.senders) && forall s :: s in q'.senders <==> s in q.senders && s.task != task
    ensures var q' := Next(q, ReceiverRuns(task));
            q' == q.(receivers := q'.receivers) && forall r :: r in q'.receivers <==> r in q.receivers && r.task != task
  {
    forall s ensures s in Filter(q.senders, OtherSender(task)) <==> s in q.senders && s.task != task {
      FilterMember(q.senders, OtherSender(task), s);
    }
    forall r ensures r in Filter(q.receivers, OtherReceiver(task)) <==> r in q.receivers && r.task != task {
      FilterMember(q.receivers, OtherReceiver(task), r);
    }
  }

  predicate CanTake(r: Receiver, m: Msg) {
    Matches(r, m) && (r.noerror || m.size <= r.size)
  }

  predicate FirstTaker(rs: seq<Receiver>, m: Msg, n: nat) {
    n < |rs| && CanTake(rs[n], m) && forall k :: 0 <= k < n ==> !CanTake(rs[k], m)
  }

  /** msgsnd: a message that is too long or has no type is refused; one for which there is no room
      is refused or waits; otherwise the first listed receiver that can take it gets it, and
      without one it is queued last. */
  lemma SendMeans(q: Queue, task: nat, m: Msg, nowait: bool)
    requires Inv(q)
    ensures var q', room := Next(q, Send(task, m, nowait)), Bytes(q.messages) + m.size <= q.qbytes && |q.messages| + 1 <= q.qbytes;
            if m.size > 8192 || m.mtype < 1 then q' == q
            else if !room then q' == if nowait then q else q.(senders := q.senders + [Sender(task, m, false)])
            else
              && q'.sent == q.sent + [m] && q'.senders == q.senders && q'.qbytes == q.qbytes
              && (forall n: nat :: FirstTaker(q.receivers, m, n) ==>
                    q'.messages == q.messages && q'.taken == q.taken + [Delivery(q.receivers[n].task, m)])
              && ((forall r :: r in q.receivers ==> !CanTake(r, m)) ==>
                    q'.messages == q.messages + [m] && q'.taken == q.taken)
  {
    PipelineIs(q.receivers, m);
    var n := TakerAt(q.receivers, m);
    forall k: nat | FirstTaker(q.receivers, m, k) ensures k == n {}
    if n < |q.receivers| { assert q.receivers[n] in q.receivers; }
  }
}
