/** System V message queues: senders hand messages straight to sleeping
    receivers, and queue them only when nobody waits for them. */
module MessageQueues {
  import opened Options
  import opened Seqs

  const MSGMAX: int := 8192

  datatype Msg = Msg(id: nat, mtype: int, size: nat)

  datatype Mode = Any | Equal | NotEqual | LessEqual

  /** A struct msg_receiver asleep on q_receivers. */
  datatype Receiver = Receiver(task: nat, mode: Mode, mtype: int, size: nat, noerror: bool)

  /** A struct msg_sender on q_senders, with the message it has in hand; `woken` once ss_wakeup has passed it. */
  datatype Sender = Sender(task: nat, msg: Msg, woken: bool)

  datatype Delivery = Delivery(task: nat, msg: Msg)

  /** A queue with its history: all messages ever accepted and all ever taken, in order. */
  datatype Queue = Queue(messages: seq<Msg>, receivers: seq<Receiver>, senders: seq<Sender>,
                         cbytes: int, qnum: int, qbytes: nat, sent: seq<Msg>, taken: seq<Delivery>)

  /** testmsg. */
  predicate TestMsg(m: Msg, mtype: int, mode: Mode) {
    match mode
    case Any => true
    case LessEqual => m.mtype <= mtype
    case Equal => m.mtype == mtype
    case NotEqual => m.mtype != mtype
  }

  /** convert_mode: how msgrcv reads its type argument. */
  function ConvertMode(msgtyp: int, except: bool): (Mode, int) {
    if msgtyp == 0 then (Any, 0)
    else if msgtyp < 0 then (LessEqual, -msgtyp)
    else if except then (NotEqual, msgtyp)
    else (Equal, msgtyp)
  }

  /** The message that msgrcv takes: for LessEqual the least type, otherwise the
      first match, and always the oldest among equals. */
  function Best(ms: seq<Msg>, mtype: int, mode: Mode): (r: Option<nat>)
    ensures r.Some? ==> r.value < |ms| && TestMsg(ms[r.value], mtype, mode)
    ensures r.None? ==> forall i :: 0 <= i < |ms| ==> !TestMsg(ms[i], mtype, mode)
  {
    if ms == [] then None
    else
      var rest := Best(ms[1..], mtype, mode);
      if !TestMsg(ms[0], mtype, mode) then (if rest.Some? then Some(rest.value + 1) else None)
      else if mode == LessEqual && rest.Some? && ms[rest.value + 1].mtype < ms[0].mtype then Some(rest.value + 1)
      else Some(0)
  }

  predicate Matches(r: Receiver, m: Msg) {
    TestMsg(m, r.mtype, r.mode)
  }

  predicate TooBig(r: Receiver, m: Msg) {
    !r.noerror && r.size < m.size
  }

  datatype Handoff = Handoff(receivers: seq<Receiver>, taker: Option<nat>)

  /** pipelined_send: the first waiting receiver that matches and has room takes
      the message; matching ones without room before it are sent away. */
  function Pipeline(rs: seq<Receiver>, m: Msg): Handoff {
    if rs == [] then Handoff([], None)
    else if !Matches(rs[0], m) then
      var h := Pipeline(rs[1..], m);
      Handoff([rs[0]] + h.receivers, h.taker)
    else if TooBig(rs[0], m) then Pipeline(rs[1..], m)
    else Handoff(rs[1..], Some(rs[0].task))
  }

  predicate Fits(q: Queue, size: nat) {
    size + q.cbytes <= q.qbytes && 1 + q.qnum <= q.qbytes
  }

  function WakeSenders(senders: seq<Sender>): (r: seq<Sender>)
    ensures |r| == |senders| && forall i :: 0 <= i < |r| ==> r[i].woken
  {
    seq(|senders|, i requires 0 <= i < |senders| => senders[i].(woken := true))
  }

  function OtherSender(task: nat): Sender -> bool { (s: Sender) => s.task != task }

  function OtherReceiver(task: nat): Receiver -> bool { (r: Receiver) => r.task != task }

  datatype Event =
    | Send(task: nat, msg: Msg, nowait: bool)
    | SenderRuns(task: nat)
    | Receive(task: nat, msgtyp: int, except: bool, size: nat, noerror: bool, nowait: bool)
    | ReceiverRuns(task: nat)
    | SetLimit(qbytes: nat)

  /** sys_msgsnd up to the point where it sleeps or returns. */
  function SendNext(q: Queue, task: nat, m: Msg, nowait: bool): Queue {
    if m.size > MSGMAX || m.mtype < 1 then q
    else if !Fits(q, m.size) then
      if nowait then q else q.(senders := q.senders + [Sender(task, m, false)])
    else
      var h := Pipeline(q.receivers, m);
      var q1 := q.(receivers := h.receivers, sent := q.sent + [m]);
      if h.taker.Some? then q1.(taken := q.taken + [Delivery(h.taker.value, m)])
      else q1.(messages := q.messages + [m], cbytes := q.cbytes + m.size, qnum := q.qnum + 1)
  }

  /** sys_msgrcv up to the point where it sleeps or returns. */
  function ReceiveNext(q: Queue, task: nat, mtype: int, mode: Mode, size: nat, noerror: bool, nowait: bool): Queue {
    var b := Best(q.messages, mtype, mode);
    if b.Some? then
      var i, m := b.value, q.messages[b.value];
      if size < m.size && !noerror then q
      else
        q.(messages := q.messages[..i] + q.messages[i+1..], cbytes := q.cbytes - m.size, qnum := q.qnum - 1,
           senders := WakeSenders(q.senders), taken := q.taken + [Delivery(task, m)])
    else if nowait then q
    else q.(receivers := q.receivers + [Receiver(task, mode, mtype, size, noerror)])
  }

  function Next(q: Queue, e: Event): Queue {
    match e
    case Send(task, m, nowait) => SendNext(q, task, m, nowait)
    case SenderRuns(task) => q.(senders := Filter(q.senders, OtherSender(task)))
    case Receive(task, msgtyp, except, size, noerror, nowait) =>
      var (mode, mtype) := ConvertMode(msgtyp, except);
      ReceiveNext(q, task, mtype, mode, size, noerror, nowait)
    case ReceiverRuns(task) => q.(receivers := Filter(q.receivers, OtherReceiver(task)))
    case SetLimit(qbytes) => q.(qbytes := qbytes, receivers := [], senders := WakeSenders(q.senders))
  }

  function After(q: Queue, run: seq<Event>): Queue
    decreases |run|
  {
    if run == [] then q else After(Next(q, run[0]), run[1..])
  }

  const MSGMNB: nat := 16384

  const Init := Queue([], [], [], 0, 0, MSGMNB, [], [])

  // ---------- what every state satisfies ----------

  function Bytes(ms: seq<Msg>): nat {
    if ms == [] then 0 else ms[0].size + Bytes(ms[1..])
  }

  function OfType(t: int): Msg -> bool { (m: Msg) => m.mtype == t }

  function Contents(ds: seq<Delivery>): (r: seq<Msg>)
    ensures |r| == |ds| && forall i :: 0 <= i < |ds| ==> r[i] == ds[i].msg
  {
    seq(|ds|, i requires 0 <= i < |ds| => ds[i].msg)
  }

  /** No receiver sleeps while a message for it is queued. */
  ghost predicate NobodyMissed(q: Queue) {
    forall i, j :: 0 <= i < |q.receivers| && 0 <= j < |q.messages| ==> !Matches(q.receivers[i], q.messages[j])
  }

  /** No sender that has not been woken could proceed. */
  ghost predicate SendersStuck(q: Queue) {
    forall i :: 0 <= i < |q.senders| && !q.senders[i].woken ==> !Fits(q, q.senders[i].msg.size)
  }

  /** For each type, the messages taken and then those queued are those sent, in order. */
  ghost predicate FifoPerType(q: Queue) {
    forall t :: Filter(Contents(q.taken), OfType(t)) + Filter(q.messages, OfType(t)) == Filter(q.sent, OfType(t))
  }

  ghost predicate Inv(q: Queue) {
    && NobodyMissed(q) && SendersStuck(q) && FifoPerType(q)
    && q.qnum == |q.messages| && q.cbytes == Bytes(q.messages)
    && (forall i :: 0 <= i < |q.messages| ==> q.messages[i].mtype >= 1)
    && multiset(q.sent) == multiset(Contents(q.taken)) + multiset(q.messages)
  }
}
