/** One round of sercd's main loop: what select is asked for is decided before the round,
    and some of it is out of date by the time it is used. */
module SercdRounds {
  import opened Bytes
  import opened Telnet
  import opened TelnetRuns
  import opened Sercd
  import opened SercdFrames

  const CPC_BYTES: nat := 8

  /** The longest reply there is: a signature of 254 bytes that are all escaped. */
  const REPLY_BYTES: nat := 514

  /** What select reports in a round, in the order of main: bytes from the device, numbers of
      bytes written to the device and to the network, bytes from the network. */
  datatype Round = Round(data: seq<Byte>, toDev: nat, toNet: nat, input: seq<Input>)

  /** Select is asked about device input when an escaped byte fits and input is not suspended. */
  predicate DeviceSelected(l: Loop) {
    l.s.x.line.inputFlow && Room(l.toNet) >= ESC_WRITE_BYTES
  }

  /** Select is asked about network input when a byte's worst case fits. */
  predicate InputSelected(l: Loop) {
    Room(l.toNet) >= REDIRECT_NET_BYTES && Room(l.toDev) >= REDIRECT_DEV_BYTES
  }

  /** Select is asked about the modem state when a one-byte reply fits, port control is on
      and input is not suspended. */
  predicate ModemSelected(l: Loop) {
    l.s.x.line.portControl && l.s.x.line.inputFlow && Room(l.toNet) >= CPC_BYTES
  }

  function FromDeviceBytes(l: Loop, data: seq<Byte>): seq<Byte> {
    EscapedAll(l.s.x.wlast, TRANSMIT_BINARY in l.s.x.opts.isWill, data)
  }

  /** The first three steps can be those of a round. */
  predicate Begins(l: Loop, r: Round) {
    && (r.data != [] ==> DeviceSelected(l)) && Enabled(l, DeviceIn(r.data))
    && r.toDev <= |l.toDev| && r.toNet <= |l.toNet| + |FromDeviceBytes(l, r.data)|
  }

  /** The round up to the network input. */
  function BeforeInput(l: Loop, r: Round): Loop
    requires Begins(l, r)
  {
    DeviceAdds(l, r.data);
    var l1 := FromDevice(l, r.data);
    l1.(devOut := l1.devOut + l1.toDev[..r.toDev], toDev := l1.toDev[r.toDev..],
        netOut := l1.netOut + l1.toNet[..r.toNet], toNet := l1.toNet[r.toNet..])
  }

  lemma BeforeInputIs(l: Loop, r: Round)
    requires Begins(l, r)
    ensures var l' := BeforeInput(l, r);
            && Room(l'.toNet) == Room(l.toNet) - |FromDeviceBytes(l, r.data)| + r.toNet && 0 <= Room(l'.toNet)
            && Room(l'.toDev) == Room(l.toDev) + r.toDev
            && l'.s == l.s.(x := l.s.x.(wlast := LastOf(l.s.x.wlast, r.data)))
            && |FromDeviceBytes(l, r.data)| <= ESC_WRITE_BYTES * READ_BUFFER
  {
    DeviceAdds(l, r.data);
    EscapedSize(l.s.x.wlast, TRANSMIT_BINARY in l.s.x.opts.isWill, r.data);
  }

  // ---------- a round that asks for nothing ----------

  /** The number of bytes that main then asks the network for. */
  function Asked(l: Loop): nat
    requires 0 <= Room(l.toNet) && 0 <= Room(l.toDev)
  {
    Min(Min(READ_BUFFER, Room(l.toNet) / REDIRECT_NET_BYTES), Room(l.toDev) / REDIRECT_DEV_BYTES)
  }

  /** A round that found the network readable asks it for no byte at all, and takes the
      answer for the end of the connection. */
  predicate AsksForNothing(l: Loop, r: Round) {
    InputSelected(l) && Begins(l, r) &&
    var l' := BeforeInput(l, r);
    0 <= Room(l'.toNet) && 0 <= Room(l'.toDev) && Asked(l') == 0
  }

  /** It does so if and only if the device filled more of the network ring than was free
      beyond a byte's worst case and than was written out. */
  lemma AsksForNothingIff(l: Loop, r: Round)
    requires InputSelected(l) && Begins(l, r)
    ensures AsksForNothing(l, r) <==> |FromDeviceBytes(l, r.data)| > Room(l.toNet) - REDIRECT_NET_BYTES + r.toNet
  {
    BeforeInputIs(l, r);
  }

  lemma {:induction false} IacsEscaped(last: Byte, binary: bool, n: nat)
    ensures |EscapedAll(last, binary, Iacs(n))| == 2 * n
    decreases n
  {
    if n > 0 {
      assert Iacs(n)[1..] == Iacs(n - 1);
      IacsEscaped(IAC, binary, n - 1);
    }
  }

  /** What can be told before the round: in some round that begins in this state the network is
      asked for nothing if and only if the device may send and a read from it can use up what
      is free beyond a byte's worst case. */
  lemma MayAskForNothingIff(l: Loop)
    requires InputSelected(l)
    ensures (exists r :: AsksForNothing(l, r)) <==>
            l.s.x.line.inputFlow && Room(l.toNet) < REDIRECT_NET_BYTES + ESC_WRITE_BYTES * READ_BUFFER
  {
    hide EscapedAll;
    if l.s.x.line.inputFlow && Room(l.toNet) < REDIRECT_NET_BYTES + ESC_WRITE_BYTES * READ_BUFFER {
      var n := Min(READ_BUFFER, Room(l.toNet) / ESC_WRITE_BYTES);
      var r := Round(Iacs(n), 0, 0, []);
      IacsEscaped(l.s.x.wlast, TRANSMIT_BINARY in l.s.x.opts.isWill, n);
      AsksForNothingIff(l, r);
    } else {
      forall r ensures !AsksForNothing(l, r) {
        if Begins(l, r) {
          EscapedSize(l.s.x.wlast, TRANSMIT_BINARY in l.s.x.opts.isWill, r.data);
          AsksForNothingIff(l, r);
        }
      }
    }
  }

  /** With just a byte's worst case free, one byte from the device is enough. */
  lemma OneByteTooMany(l: Loop, c: Byte)
    requires l.s.x.line.inputFlow && Room(l.toNet) == REDIRECT_NET_BYTES && Room(l.toDev) >= REDIRECT_DEV_BYTES
    ensures AsksForNothing(l, Round([c], 0, 0, []))
  {
    EscapedSize(l.s.x.wlast, TRANSMIT_BINARY in l.s.x.opts.isWill, [c]);
    AsksForNothingIff(l, Round([c], 0, 0, []));
  }

  // ---------- at most one reply ----------

  lemma ReplySize(x: Session, cmd: seq<Byte>, port: Port)
    requires Ready(cmd) && PortOk(port)
    ensures |Handle(x, cmd, port).1| <= REPLY_BYTES
  {
    AnswerSize(x, cmd, port);
    var r := Answer(x, cmd, port);
    if r.Suboption? { EscapedSize(x.wlast, TRANSMIT_BINARY in x.opts.isWill, r.data); }
  }

  /** How many more bytes a command needs at least. */
  function Need(p: Parser): nat {
    if p.escape == Normal then 3 else if p.escape == Received then 2 else 1
  }

  lemma ByteNeeds(s: Server, c: Byte, port: Port)
    requires ParserOk(s.p) && PortOk(port)
    ensures var r := Redirect(s, c, port);
            && |r.net| <= REPLY_BYTES && |r.dev| <= REDIRECT_DEV_BYTES && ParserOk(r.s.p)
            && (r.net == [] || (Need(s.p) == 1 && Need(r.s.p) == 3))
            && (Need(r.s.p) + 1 >= Need(s.p))
  {
    hide Handle;
    var binary := TRANSMIT_BINARY in s.x.opts.isDo;
    ParseKeeps(s.p, binary, c);
    var (p, a) := Parse(s.p, binary, c);
    if a.Run? { ReplySize(s.x, a.cmd, port); }
  }

  /** Too few bytes for a command draw no reply. */
  lemma {:induction false} NoReply(l: Loop, input: seq<Input>)
    requires REDIRECT_NET_BYTES * |input| <= Room(l.toNet) && REDIRECT_DEV_BYTES * |input| <= Room(l.toDev)
    requires ParserOk(l.s.p) && forall i :: 0 <= i < |input| ==> PortOk(input[i].port)
    requires |input| < Need(l.s.p)
    ensures FromNet(l, input).toNet == l.toNet
    decreases |input|
  {
    hide Redirect;
    if input != [] {
      ByteNeeds(l.s, input[0].byte, input[0].port);
      assert l.toNet + [] == l.toNet;
      NoReply(NetByte(l, input[0].byte, input[0].port), input[1..]);
    }
  }

  /** Three bytes draw one reply at most. */
  lemma {:induction false} OneReply(l: Loop, input: seq<Input>)
    requires REDIRECT_NET_BYTES * |input| <= Room(l.toNet) && REDIRECT_DEV_BYTES * |input| <= Room(l.toDev)
    requires ParserOk(l.s.p) && forall i :: 0 <= i < |input| ==> PortOk(input[i].port)
    requires |input| <= 3
    ensures |FromNet(l, input).toNet| <= |l.toNet| + REPLY_BYTES
    decreases |input|
  {
    hide Redirect;
    if input != [] {
      ByteNeeds(l.s, input[0].byte, input[0].port);
      var r, l1 := Redirect(l.s, input[0].byte, input[0].port), NetByte(l, input[0].byte, input[0].port);
      if r.net == [] { OneReply(l1, input[1..]); } else { NoReply(l1, input[1..]); }
    }
  }

  // ---------- the notice ----------

  /** All steps can be those of a round, up to the notice. */
  ghost predicate RoundOk(l: Loop, r: Round) {
    && ParserOk(l.s.p) && Begins(l, r) && 0 <= Room(l.toDev)
    && (r.input != [] ==> InputSelected(l))
    && Enabled(BeforeInput(l, r), SocketIn(r.input)) && PortsOk(SocketIn(r.input))
  }

  ghost function AfterRound(l: Loop, r: Round): Loop
    requires RoundOk(l, r)
  {
    BeforeInputIs(l, r);
    FromNet(BeforeInput(l, r), r.input)
  }

  /** The state has changed, and at the end of the round the notice does not fit. */
  ghost predicate NoticeOverflows(l: Loop, r: Round, state: Byte) {
    ModemSelected(l) && RoundOk(l, r) && !Enabled(AfterRound(l, r), Notify(state))
  }

  lemma NoticeSize(l: Loop, state: Byte)
    ensures 7 <= |Notice(l, state)| <= CPC_BYTES && (state == IAC ==> |Notice(l, state)| == CPC_BYTES)
  {
    EscapedSize(l.s.x.wlast, TRANSMIT_BINARY in l.s.x.opts.isWill, [state]);
    if state == IAC {
      assert [IAC][1..] == [];
      assert |EscapedAll(l.s.x.wlast, TRANSMIT_BINARY in l.s.x.opts.isWill, [IAC])| == 2;
    }
  }

  /** A read from the device, the longest reply and a notice. */
  const NOTICE_ROOM: nat := ESC_WRITE_BYTES * READ_BUFFER + REPLY_BYTES + CPC_BYTES

  /** With that much room the notice fits at the end of every round. */
  lemma NoticeFits(l: Loop, r: Round, state: Byte)
    requires Room(l.toNet) >= NOTICE_ROOM
    ensures !NoticeOverflows(l, r, state)
  {
    if ModemSelected(l) && RoundOk(l, r) {
      BeforeInputIs(l, r);
      OneReply(BeforeInput(l, r), r.input);
      NoticeSize(AfterRound(l, r), state);
    }
  }

  /** A state with that much room, ready to send its signature when SE comes. */
  function Ripe(room: nat): Loop
    requires room <= CAPACITY
  {
    Loop(Server(Parser(Receiving, Received, Header(COM_PORT_OPTION, 0), IAC),
                Session(Options({COM_PORT_OPTION}, {}, {}, {}), 0, Line(true, false, 0, 0, true))),
         Iacs(CAPACITY - room), [], [], [], [], [], [])
  }

  function LongPort(): Port {
    Port(Iacs(254), [0, 0, 0, 0], 0, 0, 0, (b: Byte) => 0, false)
  }

  lemma SignatureReply(s: Server)
    requires s.p == Ripe(0).s.p && s.x.opts == Ripe(0).s.x.opts
    ensures PortOk(LongPort()) && |Redirect(s, SE, LongPort()).net| == REPLY_BYTES
  {
    var port := LongPort();
    var cmd := Store(Store(Header(COM_PORT_OPTION, 0), IAC), SE);
    assert |cmd| == 6 && cmd[1] == SB && cmd[2] == COM_PORT_OPTION && cmd[3] == 0;
    assert Redirect(s, SE, port).net == Handle(s.x, cmd, port).1;
    IacsEscaped(s.x.wlast, TRANSMIT_BINARY in s.x.opts.isWill, 254);
  }

  lemma SignatureSent(l: Loop)
    requires l.s.p == Ripe(0).s.p && l.s.x.opts == Ripe(0).s.x.opts
    requires REDIRECT_NET_BYTES <= Room(l.toNet) && REDIRECT_DEV_BYTES <= Room(l.toDev)
    ensures var input := [Input(SE, LongPort())];
            PortOk(LongPort()) && Room(FromNet(l, input).toNet) == Room(l.toNet) - REPLY_BYTES
  {
    hide Redirect, LongPort, REPLY_BYTES;
    SignatureReply(l.s);
    var port, input := LongPort(), [Input(SE, LongPort())];
    RedirectBudget(l.s, SE, port);
    assert input[1..] == [];
    assert FromNet(l, input) == FromNet(NetByte(l, SE, port), []);
  }

  lemma RipeIs(room: nat)
    requires CPC_BYTES <= room <= CAPACITY
    ensures var l := Ripe(room);
            && Room(l.toNet) == room && Room(l.toDev) == CAPACITY && ParserOk(l.s.p) && ModemSelected(l) && DeviceSelected(l)
            && l.s.p == Ripe(0).s.p && l.s.x.opts == Ripe(0).s.x.opts
  {
  }

  /** The device fills what there is. */
  lemma DeviceFills(l: Loop, state: Byte) returns (r: Round)
    requires ModemSelected(l) && ParserOk(l.s.p) && 0 <= Room(l.toDev)
    requires Room(l.toNet) < ESC_WRITE_BYTES * READ_BUFFER + CPC_BYTES - 1
    ensures NoticeOverflows(l, r, state)
  {
    hide EscapedAll, Notice;
    var n := Min(READ_BUFFER, Room(l.toNet) / ESC_WRITE_BYTES);
    r := Round(Iacs(n), 0, 0, []);
    IacsEscaped(l.s.x.wlast, TRANSMIT_BINARY in l.s.x.opts.isWill, n);
    BeforeInputIs(l, r);
    assert FromNet(BeforeInput(l, r), []) == BeforeInput(l, r);
    NoticeSize(AfterRound(l, r), state);
  }

  /** The device leaves room for just one reply, and that fills it. */
  lemma ReplyFills(room: nat) returns (r: Round)
    requires ESC_WRITE_BYTES * READ_BUFFER + CPC_BYTES - 1 <= room < NOTICE_ROOM
    ensures NoticeOverflows(Ripe(room), r, IAC)
  {
    hide EscapedAll, Notice, Ripe, LongPort, FromNet, BeforeInput, Iacs;
    RipeIs(room);
    var l, n := Ripe(room), Min(READ_BUFFER, (room - REDIRECT_NET_BYTES) / ESC_WRITE_BYTES);
    r := Round(Iacs(n), 0, 0, [Input(SE, LongPort())]);
    IacsEscaped(l.s.x.wlast, TRANSMIT_BINARY in l.s.x.opts.isWill, n);
    BeforeInputIs(l, r);
    SignatureSent(BeforeInput(l, r));
    NoticeSize(AfterRound(l, r), IAC);
  }

  /** With less, there is a round after which it does not. */
  lemma RoundTooFull(room: nat) returns (r: Round)
    requires CPC_BYTES <= room < NOTICE_ROOM
    ensures Room(Ripe(room).toNet) == room && NoticeOverflows(Ripe(room), r, IAC)
  {
    RipeIs(room);
    hide Ripe, NoticeOverflows;
    if room < ESC_WRITE_BYTES * READ_BUFFER + CPC_BYTES - 1 {
      r := DeviceFills(Ripe(room), IAC);
    } else {
      r := ReplyFills(room);
    }
  }

  /** What the room of the ring tells before the round: the notice fits at the end of every
      round of every state with that much room if and only if a read from the device, a reply
      and a notice fit. Main asks for the notice alone. */
  lemma NoticeFitsIff(room: nat)
    requires CPC_BYTES <= room <= CAPACITY
    ensures (forall l: Loop, r, state :: Room(l.toNet) == room ==> !NoticeOverflows(l, r, state)) <==> room >= NOTICE_ROOM
  {
    if room >= NOTICE_ROOM {
      forall l: Loop, r, state | Room(l.toNet) == room ensures !NoticeOverflows(l, r, state) { NoticeFits(l, r, state); }
    } else {
      var r := RoundTooFull(room);
    }
  }

  /** With just the room for a notice, two bytes from the device leave too little. */
  lemma NoticeTooLate(l: Loop, c: Byte, d: Byte, state: Byte)
    requires ParserOk(l.s.p) && l.s.x.line.portControl && l.s.x.line.inputFlow
    requires Room(l.toNet) == CPC_BYTES && 0 <= Room(l.toDev)
    ensures NoticeOverflows(l, Round([c, d], 0, 0, []), state)
  {
    var r := Round([c, d], 0, 0, []);
    EscapedSize(l.s.x.wlast, TRANSMIT_BINARY in l.s.x.opts.isWill, [c, d]);
    BeforeInputIs(l, r);
    assert FromNet(BeforeInput(l, r), []) == BeforeInput(l, r);
    NoticeSize(AfterRound(l, r), state);
  }
}
