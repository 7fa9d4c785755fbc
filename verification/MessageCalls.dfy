/** msgsnd and msgrcv as they run, on the queue's lists and counters. */
module MessageCalls {
  import opened Options
  import opened MessageQueues
  import opened MessageAnswers

  datatype SendReply = Sent | SendAgain | SendAsleep | SendInvalid
  datatype RecvReply = Got(msg: Msg, copied: nat) | NoMsg | TooLarge | RecvAsleep

  /** The scan of msgrcv once a LessEqual candidate of type t has been found. */
  lemma {:induction false} BestTightened(ms: seq<Msg>, mtype: int, t: int)
    requires t <= mtype
    ensures var a, b := Best(ms, mtype, LessEqual), Best(ms, t - 1, LessEqual);
            (b.Some? ==> a == b) && (b.None? && a.Some? ==> ms[a.value].mtype >= t)
  {
    if ms != [] { BestTightened(ms[1..], mtype, t); }
  }

  /** The search has looked at the first i messages; `goal` is what it should find. */
  ghost predicate Searching(ms: seq<Msg>, goal: Option<nat>, msgtyp: int, mode: Mode, i: nat, typ: int, found: Option<nat>)
    requires i <= |ms|
  {
    && (found.Some? ==> mode == LessEqual)
    && (found.None? ==> typ == msgtyp)
    && var b := Best(ms[i..], typ, mode);
       goal == if b.Some? then Some(i + b.value) else found
  }

  lemma SearchStep(ms: seq<Msg>, goal: Option<nat>, msgtyp: int, mode: Mode, i: nat, typ: int, found: Option<nat>)
    requires i < |ms| && Searching(ms, goal, msgtyp, mode, i, typ, found)
    requires forall k :: 0 <= k < |ms| ==> ms[k].mtype >= 1
    ensures if !TestMsg(ms[i], typ, mode) then Searching(ms, goal, msgtyp, mode, i + 1, typ, found)
            else if mode == LessEqual && ms[i].mtype != 1 then Searching(ms, goal, msgtyp, mode, i + 1, ms[i].mtype - 1, Some(i))
            else goal == Some(i)
  {
    hide Best;
    assert ms[i..][0] == ms[i] && ms[i..][1..] == ms[i+1..];
    BestHead(ms[i..], typ, mode);
    if ms[i].mtype == 1 { TypesAtLeastOne(ms[i+1..]); }
  }

  /** What the first message settles about the choice. */
  lemma BestHead(s: seq<Msg>, typ: int, mode: Mode)
    requires s != []
    ensures var b := Best(s[1..], if mode == LessEqual && TestMsg(s[0], typ, mode) then s[0].mtype - 1 else typ, mode);
            Best(s, typ, mode) ==
              if TestMsg(s[0], typ, mode) && (mode != LessEqual || b.None?) then Some(0)
              else if b.Some? then Some(b.value + 1) else None
  {
    if mode == LessEqual && TestMsg(s[0], typ, mode) {
      BestTightened(s[1..], typ, s[0].mtype);
    }
  }

  class MsgQueue {
    var messages: seq<Msg>
    var receivers: seq<Receiver>
    var senders: seq<Sender>
    var cbytes: int
    var qnum: int
    var qbytes: nat
    ghost var sent: seq<Msg>
    ghost var taken: seq<Delivery>

    ghost function View(): Queue
      reads this
    {
      Queue(messages, receivers, senders, cbytes, qnum, qbytes, sent, taken)
    }

    constructor ()
      ensures View() == Init
    {
      messages, receivers, senders, cbytes, qnum, qbytes := [], [], [], 0, 0, MSGMNB;
      sent, taken := [], [];
    }

    /** pipelined_send: walk the receivers, unlinking the ones that match. */
    method PipelinedSend(m: Msg) returns (taker: Option<nat>)
      modifies this`receivers
      ensures Handoff(receivers, taker) == Pipeline(old(receivers), m)
    {
      var i := 0;
      ghost var all := receivers;
      while i < |receivers|
        invariant 0 <= i <= |receivers|
        invariant var h := Pipeline(receivers[i..], m); Pipeline(all, m) == Handoff(receivers[..i] + h.receivers, h.taker)
        decreases |receivers| - i
      {
        var r := receivers[i];
        ghost var was := receivers;
        assert was[i..][0] == r && was[i..][1..] == was[i+1..];
        if Matches(r, m) {
          receivers := receivers[..i] + receivers[i+1..];
          assert receivers[..i] == was[..i] && receivers[i..] == was[i+1..];
          if !TooBig(r, m) {
            assert receivers == was[..i] + was[i+1..];
            return Some(r.task);
          }
        } else {
          i := i + 1;
          assert was[..i] == was[..i-1] + [r];
        }
      }
      assert receivers[..i] + [] == receivers;
      taker := None;
    }

    /** sys_msgsnd up to the point where it sleeps or returns. */
    method MsgSnd(task: nat, m: Msg, nowait: bool) returns (reply: SendReply)
      modifies this
      ensures View() == SendNext(old(View()), task, m, nowait)
      ensures reply == if m.size > MSGMAX || m.mtype < 1 then SendInvalid
                       else if Fits(old(View()), m.size) then Sent
                       else if nowait then SendAgain
                       else SendAsleep
    {
      if m.size > MSGMAX || m.mtype < 1 { return SendInvalid; }
      if m.size + cbytes > qbytes || 1 + qnum > qbytes {
        if nowait { return SendAgain; }
        senders := senders + [Sender(task, m, false)];
        return SendAsleep;
      }
      var taker := PipelinedSend(m);
      sent := sent + [m];
      if taker.Some? {
        taken := taken + [Delivery(taker.value, m)];
      } else {
        messages := messages + [m];
        cbytes := cbytes + m.size;
        qnum := qnum + 1;
      }
      reply := Sent;
    }

    /** The search loop of sys_msgrcv, which lowers the type as it finds better messages. */
    method FindMsg(msgtyp: int, mode: Mode) returns (found: Option<nat>)
      requires forall i :: 0 <= i < |messages| ==> messages[i].mtype >= 1
      ensures found == Best(messages, msgtyp, mode)
    {
      var ms := messages;
      var typ, i := msgtyp, 0;
      found := None;
      assert ms[0..] == ms;
      while i < |ms|
        invariant 0 <= i <= |ms| && Searching(ms, Best(ms, msgtyp, mode), msgtyp, mode, i, typ, found)
      {
        SearchStep(ms, Best(ms, msgtyp, mode), msgtyp, mode, i, typ, found);
        if TestMsg(ms[i], typ, mode) {
          found := Some(i);
          if mode == LessEqual && ms[i].mtype != 1 {
            typ := ms[i].mtype - 1;
          } else {
            break;
          }
        }
        i := i + 1;
      }
    }

    /** sys_msgrcv up to the point where it sleeps or returns. */
    method MsgRcv(task: nat, msgtyp: int, except: bool, size: nat, noerror: bool, nowait: bool) returns (reply: RecvReply)
      requires forall i :: 0 <= i < |messages| ==> messages[i].mtype >= 1
      modifies this
      ensures View() == MessageQueues.Next(old(View()), Receive(task, msgtyp, except, size, noerror, nowait))
      ensures var (mode, mtype) := ConvertMode(msgtyp, except);
              var b := Best(old(messages), mtype, mode);
              reply == if b.None? then (if nowait then NoMsg else RecvAsleep)
                       else if size < old(messages)[b.value].size && !noerror then TooLarge
                       else
                         var m := old(messages)[b.value];
                         Got(m, if size > m.size then m.size else size)
      ensures forall i: nat :: Chosen(old(messages), msgtyp, except, i) ==>
                var m := old(messages)[i];
                reply == if size < m.size && !noerror then TooLarge else Got(m, if size > m.size then m.size else size)
      ensures (forall i :: 0 <= i < |old(messages)| ==> !Asks(msgtyp, except, old(messages)[i])) ==>
                reply == if nowait then NoMsg else RecvAsleep
    {
      hide Best, ConvertMode, Chosen, Asks;
      ReplyIs(messages, msgtyp, except);
      var (mode, mtype) := ConvertMode(msgtyp, except);
      var found := FindMsg(mtype, mode);
      if found.Some? {
        var i, m := found.value, messages[found.value];
        if size < m.size && !noerror { return TooLarge; }
        messages := messages[..i] + messages[i+1..];
        qnum := qnum - 1;
        cbytes := cbytes - m.size;
        senders := WakeSenders(senders);
        taken := taken + [Delivery(task, m)];
        return Got(m, if size > m.size then m.size else size);
      }
      if nowait { return NoMsg; }
      receivers := receivers + [Receiver(task, mode, mtype, size, noerror)];
      reply := RecvAsleep;
    }
  }

  lemma ReplyIs(ms: seq<Msg>, msgtyp: int, except: bool)
    ensures var (mode, mtype) := ConvertMode(msgtyp, except);
            && (forall i: nat :: Chosen(ms, msgtyp, except, i) ==> i < |ms| && Best(ms, mtype, mode) == Some(i))
            && ((forall i :: 0 <= i < |ms| ==> !Asks(msgtyp, except, ms[i])) ==> Best(ms, mtype, mode).None?)
  {
    BestIsChosen(ms, msgtyp, except);
    var (mode, mtype) := ConvertMode(msgtyp, except);
    forall i: nat | Chosen(ms, msgtyp, except, i) ensures Best(ms, mtype, mode) == Some(i) {
      ChosenOnce(ms, msgtyp, except, i, Best(ms, mtype, mode).value);
    }
  }

  /** Types start at 1, so nothing is below a message of type 1. */
  lemma {:induction false} TypesAtLeastOne(ms: seq<Msg>)
    requires forall i :: 0 <= i < |ms| ==> ms[i].mtype >= 1
    ensures Best(ms, 0, LessEqual).None?
  {
    if ms != [] { TypesAtLeastOne(ms[1..]); }
  }
}
