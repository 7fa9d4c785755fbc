/** EscRedirectChar as it runs: the command buffer, the escape states and the two
    rings are updated in place, one byte from the network at a time. */
module SercdCalls {
  import opened Bytes
  import opened Telnet
  import opened TelnetRuns
  import opened Sercd
  import opened SercdConnections

  class Redirector {
    const sockB: Buffer
    const devB: Buffer
    const command: array<Byte>
    var pos: nat
    var escape: Escape
    var sigEscape: Escape
    var last: Byte
    var session: Session

    ghost predicate Apart()
      reads this
    {
      && command.Length == TMP_STR_LEN && sockB != devB
      && sockB.data != devB.data && command != sockB.data && command != devB.data
    }

    ghost function ParserView(): Parser
      requires pos <= command.Length
      reads this, command
    {
      Parser(escape, sigEscape, command[..pos], last)
    }

    ghost predicate Valid()
      reads this, command, sockB, devB
    {
      Apart() && pos <= TMP_STR_LEN && sockB.Valid() && devB.Valid() && ParserOk(ParserView())
    }

    ghost function View(): Server
      requires pos <= command.Length
      reads this, command
    {
      Server(ParserView(), session)
    }

    constructor (x: Session)
      ensures Valid() && fresh(sockB) && fresh(devB) && fresh(command)
      ensures View() == Server(Parser(Normal, Normal, [], 0), x) && sockB.Contents() == [] && devB.Contents() == []
    {
      sockB := new Buffer();
      devB := new Buffer();
      command := new Byte[TMP_STR_LEN];
      pos, escape, sigEscape, last, session := 0, Normal, Normal, 0, x;
      new;
    }

    /** One more byte in IACCommand. */
    method Append(c: Byte)
      requires pos < command.Length
      modifies this`pos, command
      ensures pos == old(pos) + 1 && command[..pos] == old(command[..pos]) + [c]
    {
      command[pos] := c;
      pos := pos + 1;
    }

    /** The same, as long as there is room. */
    method AppendIfRoom(c: Byte)
      requires pos <= command.Length == TMP_STR_LEN
      modifies this`pos, command
      ensures pos <= command.Length && command[..pos] == Store(old(command[..pos]), c)
    {
      if pos < command.Length { Append(c); }
    }

    /** A byte of a signature; does it end the command? */
    method SignatureByte(c: Byte) returns (run: bool)
      requires pos <= command.Length == TMP_STR_LEN
      modifies this`pos, this`sigEscape, this`escape, command
      ensures pos <= command.Length
      ensures var (p, a) := Telnet.SignatureByte(old(ParserView()), c);
              ParserView() == p && a == if run then Run(command[..pos]) else Nothing
    {
      run := false;
      match sigEscape
      case Normal =>
        if c == IAC { sigEscape := Received; } else { AppendIfRoom(c); }
      case _ =>
        if c == IAC {
          AppendIfRoom(c);
          sigEscape := Normal;
        } else {
          AppendIfRoom(IAC);
          AppendIfRoom(c);
          escape, run := Normal, true;
        }
    }

    /** A byte of a command; does it end the command? */
    method CommandByte(c: Byte) returns (run: bool)
      requires pos <= command.Length == TMP_STR_LEN && ParserOk(ParserView()) && escape == Receiving
      modifies this`pos, this`sigEscape, this`escape, command
      ensures pos <= command.Length
      ensures var (p, a) := Telnet.CommandByte(old(ParserView()), c);
              ParserView() == p && a == if run then Run(command[..pos]) else Nothing
    {
      var suboption := command[1] == SB;
      if suboption && pos >= 4 && command[3] == 0 {
        run := SignatureByte(c);
        return;
      }
      var full := if !suboption then 3 else if pos < 4 then 0 else Complete(command[3]);
      Append(c);
      run := pos == full;
      if run { escape := Normal; }
    }

    /** SendTelnetOption. */
    method SendOption(verb: Byte, o: Byte)
      requires sockB.Valid() && sockB.Length() + 3 <= CAPACITY
      modifies sockB, sockB.data
      ensures sockB.Valid() && sockB.Contents() == old(sockB.Contents()) + Render(0, false, Option(verb, o))
    {
      AddBytes(sockB, [IAC, verb, o]);
    }

    /** InitBuffer of both rings, InitTelnetStateMachine and SendTelnetInitialOptions. */
    method NewClient()
      requires Valid()
      modifies this`session, sockB, sockB.data, devB
      ensures Valid() && View() == Fresh(old(View())) && sockB.Contents() == OFFER_BYTES && devB.Contents() == []
    {
      sockB.Reset();
      devB.Reset();
      AddBytes(sockB, [IAC, WILL, TRANSMIT_BINARY, IAC, DO, TRANSMIT_BINARY, IAC, WILL, ECHO]);
      AddBytes(sockB, [IAC, WILL, SUPPRESS_GO_AHEAD, IAC, DO, SUPPRESS_GO_AHEAD, IAC, DO, COM_PORT_OPTION]);
      var sentWill := {TRANSMIT_BINARY, ECHO, SUPPRESS_GO_AHEAD};
      var sentDo := {TRANSMIT_BINARY, SUPPRESS_GO_AHEAD, COM_PORT_OPTION};
      session := session.(opts := Options({}, {}, sentWill, sentDo));
    }

    /** An offer by the client: tnstate follows, and the answer goes out unless it was asked for. */
    method OfferedOption(o: Byte)
      requires Apart() && sockB.Valid() && sockB.Length() + 3 <= CAPACITY
      modifies this`session, sockB, sockB.data
      ensures sockB.Valid() && Answers(old(session), session, WILL, o, old(sockB.Contents()), sockB.Contents())
    {
      var x := session;
      assert sockB.Contents() + [] == sockB.Contents();
      if o == COM_PORT_OPTION { x := x.(line := x.line.(portControl := true)); }
      if Supported(o) {
        if o !in x.opts.sentDo { SendOption(DO, o); }
        x := x.(opts := x.opts.(isDo := x.opts.isDo + {o}));
      } else {
        SendOption(DONT, o);
        x := x.(opts := x.opts.(isDo := x.opts.isDo - {o}));
      }
      session := x.(opts := x.opts.(sentDo := x.opts.sentDo - {o}));
    }

    /** A request by the client. */
    method RequestedOption(o: Byte)
      requires Apart() && sockB.Valid() && sockB.Length() + 3 <= CAPACITY
      modifies this`session, sockB, sockB.data
      ensures sockB.Valid() && Answers(old(session), session, DO, o, old(sockB.Contents()), sockB.Contents())
    {
      var x := session;
      assert sockB.Contents() + [] == sockB.Contents();
      if o == COM_PORT_OPTION { x := x.(line := x.line.(portControl := true)); }
      if Supported(o) {
        if o !in x.opts.sentWill { SendOption(WILL, o); }
        x := x.(opts := x.opts.(isWill := x.opts.isWill + {o}));
      } else {
        SendOption(WONT, o);
        x := x.(opts := x.opts.(isWill := x.opts.isWill - {o}));
      }
      session := x.(opts := x.opts.(sentWill := x.opts.sentWill - {o}));
    }

    /** A refusal by the client, of what we do (DONT) or of what it does (WONT). */
    method RefusedOption(verb: Byte, o: Byte)
      requires Apart() && sockB.Valid() && sockB.Length() + 3 <= CAPACITY && (verb == DONT || verb == WONT)
      modifies this`session, sockB, sockB.data
      ensures sockB.Valid() && Answers(old(session), session, verb, o, old(sockB.Contents()), sockB.Contents())
    {
      var t := session.opts;
      assert sockB.Contents() + [] == sockB.Contents();
      assert o !in t.isWill ==> t.isWill - {o} == t.isWill;
      assert o !in t.isDo ==> t.isDo - {o} == t.isDo;
      if verb == DONT {
        if o in t.isWill {
          SendOption(WONT, o);
          t := t.(isWill := t.isWill - {o});
        }
        t := t.(sentWill := t.sentWill - {o});
      } else {
        if o in t.isDo {
          SendOption(DONT, o);
          t := t.(isDo := t.isDo - {o});
        }
        t := t.(sentDo := t.sentDo - {o});
      }
      session := session.(opts := t);
    }

    /** SendCPCByteCommand, SendBaudRate and SendSignature. */
    method SendReply(kind: Byte, data: seq<Byte>)
      requires Apart() && sockB.Valid() && sockB.Length() + 6 + ESC_WRITE_BYTES * |data| <= CAPACITY
      modifies this`session, sockB, sockB.data
      ensures sockB.Valid() && session == old(session).(wlast := LastOf(old(session).wlast, data))
      ensures sockB.Contents() == old(sockB.Contents()) +
              Render(old(session).wlast, TRANSMIT_BINARY in old(session).opts.isWill, Suboption(kind, data))
    {
      EscapedSize(session.wlast, TRANSMIT_BINARY in session.opts.isWill, data);
      var last := SendSuboption(sockB, session.wlast, TRANSMIT_BINARY in session.opts.isWill, kind, data);
      session := session.(wlast := last);
    }

    /** Flow control, break and modem lines: the state to report. */
    method SetControl(v: Byte, port: Port) returns (report: Byte)
      modifies this`session
      ensures report == Control(old(session).line, v, port)
      ensures session == old(session).(line := LineAfterControl(old(session).line, v))
    {
      if v == 0 || v == 7 || v == 10 || v == 13 {
        report := port.flow(v);
      } else if v == 4 {
        report := if session.line.breakOn then 5 else 6;
      } else if v == 5 {
        session := session.(line := session.line.(breakOn := true));
        report := 5;
      } else if v == 6 {
        session := session.(line := session.line.(breakOn := false));
        report := 6;
      } else if port.cisco && 13 <= v <= 16 {
        report := 0;
      } else {
        report := port.flow(0);
      }
    }

    /** HandleCPCCommand. */
    method HandleCPCCommand(cmd: seq<Byte>, port: Port)
      requires Apart() && sockB.Valid() && |cmd| >= 6 && PortOk(port) && sockB.Length() + REDIRECT_NET_BYTES <= CAPACITY
      modifies this`session, sockB, sockB.data
      ensures sockB.Valid()
      ensures Replies(old(session), session, ComPort(old(session).line, cmd, port), LineAfter(old(session).line, cmd),
                      old(sockB.Contents()), sockB.Contents())
    {
      hide Render;
      var k, v := cmd[3], cmd[4];
      SilentAdds(session, sockB.Contents());
      if k == 0 {
        if |cmd| == 6 { SendReply(100, port.signature); }
      } else if k == 1 {
        SendReply(101, port.speed);
      } else if k == 2 {
        SendReply(102, [port.dataSize]);
      } else if k == 3 {
        SendReply(103, [port.parity]);
      } else if k == 4 {
        SendReply(104, [port.stopSize]);
      } else if k == 5 {
        var report := SetControl(v, port);
        SendReply(105, [report]);
      } else if k == 10 {
        session := session.(line := session.line.(lineMask := v & 16));
        SendReply(110, [v & 16]);
      } else if k == 11 {
        session := session.(line := session.line.(modemMask := v));
        SendReply(111, [v]);
      } else if k == 12 {
        SendReply(112, [v]);
      } else if k == 8 {
        session := session.(line := session.line.(inputFlow := false));
      } else if k == 9 {
        session := session.(line := session.line.(inputFlow := true));
      }
    }

    /** HandleIACCommand. */
    method HandleIACCommand(cmd: seq<Byte>, port: Port)
      requires Apart() && sockB.Valid() && Ready(cmd) && PortOk(port) && sockB.Length() + REDIRECT_NET_BYTES <= CAPACITY
      modifies this`session, sockB, sockB.data
      ensures sockB.Valid()
      ensures var (x, net) := Handle(old(session), cmd, port);
              session == x && sockB.Contents() == old(sockB.Contents()) + net
    {
      hide ComPort, LineAfter, OptionsAfter, Negotiate;
      SilentAdds(session, sockB.Contents());
      HandleIs(session, cmd, port);
      if cmd[1] == SB {
        if cmd[2] in session.opts.isWill || cmd[2] in session.opts.isDo {
          if cmd[2] == COM_PORT_OPTION { HandleCPCCommand(cmd, port); }
        }
      } else if cmd[1] == WILL {
        OfferedOption(cmd[2]);
      } else if cmd[1] == DO {
        RequestedOption(cmd[2]);
      } else if cmd[1] == DONT || cmd[1] == WONT {
        RefusedOption(cmd[1], cmd[2]);
      }
    }

    /** The switch of EscRedirectChar; data goes to the device ring at once. */
    method ParseByte(c: Byte) returns (a: Action)
      requires Valid() && devB.Length() + REDIRECT_DEV_BYTES <= CAPACITY
      modifies this`pos, this`sigEscape, this`escape, command, devB, devB.data
      ensures pos <= TMP_STR_LEN && devB.Valid()
      ensures (ParserView(), a) == Parse(old(ParserView()), TRANSMIT_BINARY in session.opts.isDo, c)
      ensures devB.Contents() == old(devB.Contents()) + if a.Deliver? then [a.byte] else []
    {
      a := Nothing;
      assert devB.Contents() + [] == devB.Contents();
      match escape {
        case Normal =>
          if c == IAC {
            escape := Received;
          } else if TRANSMIT_BINARY in session.opts.isDo || c != 0 || last != CR {
            devB.AddToBuffer(c);
            a := Deliver(c);
          }
        case Received =>
          if c == IAC {
            devB.AddToBuffer(c);
            escape, a := Normal, Deliver(c);
          } else {
            command[0], command[1] := IAC, c;
            pos, escape, sigEscape := 2, Receiving, Normal;
            assert command[..2] == [IAC, c];
          }
        case Receiving =>
          var run := CommandByte(c);
          if run { a := Run(command[..pos]); }
      }
    }

    /** EscRedirectChar. */
    method EscRedirectChar(c: Byte, port: Port)
      requires Valid() && PortOk(port)
      requires sockB.Length() + REDIRECT_NET_BYTES <= CAPACITY && devB.Length() + REDIRECT_DEV_BYTES <= CAPACITY
      modifies this, command, sockB, sockB.data, devB, devB.data
      ensures Valid()
      ensures var r := Redirect(old(View()), c, port);
              && View() == r.s
              && sockB.Contents() == old(sockB.Contents()) + r.net && devB.Contents() == old(devB.Contents()) + r.dev
    {
      ParseKeeps(ParserView(), TRANSMIT_BINARY in session.opts.isDo, c);
      var a := ParseByte(c);
      assert sockB.Contents() + [] == sockB.Contents();
      if a.Run? { HandleIACCommand(a.cmd, port); }
      last := c;
    }
  }

  /** A reply has been written and the session is otherwise x with that line. */
  ghost predicate Replies(x: Session, x': Session, r: Reply, line: Line, before: seq<Byte>, after: seq<Byte>) {
    && x' == x.(line := line, wlast := if r.Suboption? then LastOf(x.wlast, r.data) else x.wlast)
    && after == before + Render(x.wlast, TRANSMIT_BINARY in x.opts.isWill, r)
  }

  /** The COM port option, offered or asked for, turns port control on. */
  function OfferedLine(l: Line, verb: Byte, o: Byte): Line {
    if (verb == WILL || verb == DO) && o == COM_PORT_OPTION then l.(portControl := true) else l
  }

  /** An option has been answered as negotiation asks. */
  ghost predicate Answers(x: Session, x': Session, verb: Byte, o: Byte, before: seq<Byte>, after: seq<Byte>)
    requires verb != SB
  {
    && x' == Session(OptionsAfter(x.opts, [IAC, verb, o]), x.wlast, OfferedLine(x.line, verb, o))
    && after == before + Render(0, false, Negotiate(x.opts, verb, o))
  }

  lemma SilentAdds(x: Session, b: seq<Byte>)
    ensures b + Render(x.wlast, TRANSMIT_BINARY in x.opts.isWill, Silent) == b
  {
  }

  /** What break commands change. */
  function LineAfterControl(l: Line, v: Byte): Line {
    if v == 5 || v == 6 then l.(breakOn := v == 5) else l
  }

  /** HandleIACCommand, case by case. */
  lemma HandleIs(x: Session, cmd: seq<Byte>, port: Port)
    requires Ready(cmd)
    ensures var (x', net) := Handle(x, cmd, port);
            && (IsComPort(x, cmd) ==>
                  var r := ComPort(x.line, cmd, port);
                  && x' == x.(line := LineAfter(x.line, cmd), wlast := if r.Suboption? then LastOf(x.wlast, r.data) else x.wlast)
                  && net == Render(x.wlast, TRANSMIT_BINARY in x.opts.isWill, r))
            && (cmd[1] == WILL || cmd[1] == DO || cmd[1] == DONT || cmd[1] == WONT ==>
                  && x'.opts == OptionsAfter(x.opts, [IAC, cmd[1], cmd[2]]) && x'.wlast == x.wlast
                  && x'.line == OfferedLine(x.line, cmd[1], cmd[2])
                  && net == Render(0, false, Negotiate(x.opts, cmd[1], cmd[2])))
            && (!IsComPort(x, cmd) && cmd[1] != WILL && cmd[1] != DO && cmd[1] != DONT && cmd[1] != WONT ==> x' == x && net == [])
  {
  }

  /** sercd with its two rings, and a record of all that came and went. */
  class Daemon {
    const r: Redirector
    ghost var netIn: seq<Byte>
    ghost var netOut: seq<Byte>
    ghost var devIn: seq<Byte>
    ghost var devOut: seq<Byte>
    ghost var log: seq<Item>

    ghost predicate Valid()
      reads this, r, r.command, r.sockB, r.devB
    {
      r.Valid()
    }

    ghost function View(): Loop
      requires Valid()
      reads this, r, r.command, r.sockB, r.devB, r.sockB.data, r.devB.data
    {
      Loop(r.View(), r.sockB.Contents(), r.devB.Contents(), netIn, netOut, devIn, devOut, log)
    }

    constructor (x: Session)
      ensures Valid() && View() == Begin(Server(Parser(Normal, Normal, [], 0), x))
    {
      r := new Redirector(x);
      netIn, netOut, devIn, devOut, log := [], [], [], [], [];
    }

    /** A new client, after the one before has gone. */
    method Accept()
      requires Valid()
      modifies this, r`session, r.sockB, r.sockB.data, r.devB
      ensures Valid() && View() == Connect(old(View()).s)
    {
      r.NewClient();
      netIn, netOut, devIn, devOut, log := [], [], [], [], OFFERS;
    }

    /** Bytes read from the device go to the network ring. */
    method DeviceInput(data: seq<Byte>)
      requires Valid() && Enabled(View(), DeviceIn(data))
      modifies this, r`session, r.sockB, r.sockB.data
      ensures Valid() && View() == Next(old(View()), DeviceIn(data))
    {
      hide EscapedAll, FromDevice;
      ghost var l := View();
      DeviceAdds(l, data);
      EscapedSize(r.session.wlast, TRANSMIT_BINARY in r.session.opts.isWill, data);
      var last := EscWriteAll(r.sockB, r.session.wlast, TRANSMIT_BINARY in r.session.opts.isWill, data);
      r.session := r.session.(wlast := last);
      devIn, log := devIn + data, FromDevice(l, data).log;
    }

    /** A piece of the device ring is written; the device takes n bytes of it. */
    method DeviceOutput(n: nat) returns (piece: seq<Byte>, taken: nat)
      requires Valid()
      modifies this, r.devB
      ensures Valid() && piece <= old(r.devB.Contents()) && taken <= |piece| && (taken == n || n > |piece|)
      ensures View() == Next(old(View()), DeviceOut(taken))
    {
      piece := r.devB.GetBufferString();
      taken := if n <= |piece| then n else |piece|;
      devOut := devOut + r.devB.Contents()[..taken];
      r.devB.BufferPopBytes(taken);
    }

    /** The same for the network ring. */
    method SocketOutput(n: nat) returns (piece: seq<Byte>, taken: nat)
      requires Valid()
      modifies this, r.sockB
      ensures Valid() && piece <= old(r.sockB.Contents()) && taken <= |piece| && (taken == n || n > |piece|)
      ensures View() == Next(old(View()), SocketOut(taken))
    {
      piece := r.sockB.GetBufferString();
      taken := if n <= |piece| then n else |piece|;
      netOut := netOut + r.sockB.Contents()[..taken];
      r.sockB.BufferPopBytes(taken);
    }

    /** The client is told about a new modem state. */
    method ModemNotice(state: Byte)
      requires Valid() && Enabled(View(), Notify(state))
      modifies this, r`session, r.sockB, r.sockB.data
      ensures Valid() && View() == Next(old(View()), Notify(state))
    {
      ghost var l := View();
      var binary := TRANSMIT_BINARY in r.session.opts.isWill;
      var last := SendSuboption(r.sockB, r.session.wlast, binary, NOTIFY_MODEMSTATE, [state]);
      r.session := r.session.(wlast := last);
      log := Notified(l, state).log;
    }

    /** One byte read from the network. */
    method NetworkByte(c: Byte, port: Port)
      requires Valid() && PortOk(port)
      requires REDIRECT_NET_BYTES <= Room(r.sockB.Contents()) && REDIRECT_DEV_BYTES <= Room(r.devB.Contents())
      modifies this, r, r.command, r.sockB, r.sockB.data, r.devB, r.devB.data
      ensures Valid() && RedirectFits(old(View()), c, port) && View() == NetByte(old(View()), c, port)
    {
      ghost var l := View();
      RedirectBudget(l.s, c, port);
      r.EscRedirectChar(c, port);
      netIn := netIn + [c];
      log := log + [Answered(ReplyOf(l.s, c, port), TRANSMIT_BINARY in l.s.x.opts.isWill)];
    }

    /** Bytes read from the network. */
    method NetworkInput(input: seq<Input>)
      requires Valid() && Enabled(View(), SocketIn(input)) && PortsOk(SocketIn(input))
      modifies this, r, r.command, r.sockB, r.sockB.data, r.devB, r.devB.data
      ensures Valid() && View() == Next(old(View()), SocketIn(input))
    {
      hide Redirect, NetByte;
      ghost var goal := Next(View(), SocketIn(input));
      var i := 0;
      assert input[0..] == input;
      while i < |input|
        invariant 0 <= i <= |input| && Valid()
        invariant REDIRECT_NET_BYTES * (|input| - i) <= Room(View().toNet) && REDIRECT_DEV_BYTES * (|input| - i) <= Room(View().toDev)
        invariant FromNet(View(), input[i..]) == goal
      {
        ghost var l := View();
        FromNetHead(l, input[i..]);
        assert input[i..][1..] == input[i + 1..];
        NetworkByte(input[i].byte, input[i].port);
        i := i + 1;
      }
      assert input[i..] == [];
    }
  }

  ghost predicate RedirectFits(l: Loop, c: Byte, port: Port) {
    && ParserOk(l.s.p)
    && var r := Redirect(l.s, c, port);
       |r.net| <= REDIRECT_NET_BYTES && |r.dev| <= REDIRECT_DEV_BYTES && |r.net| <= Room(l.toNet) && |r.dev| <= Room(l.toDev)
  }

  lemma FromNetHead(l: Loop, input: seq<Input>)
    requires input != [] && REDIRECT_NET_BYTES * |input| <= Room(l.toNet) && REDIRECT_DEV_BYTES * |input| <= Room(l.toDev)
    requires ParserOk(l.s.p) && forall i :: 0 <= i < |input| ==> PortOk(input[i].port)
    ensures RedirectFits(l, input[0].byte, input[0].port)
    ensures var l' := NetByte(l, input[0].byte, input[0].port);
            && ParserOk(l'.s.p)
            && REDIRECT_NET_BYTES * (|input| - 1) <= Room(l'.toNet) && REDIRECT_DEV_BYTES * (|input| - 1) <= Room(l'.toDev)
            && FromNet(l, input) == FromNet(l', input[1..])
  {
    hide Redirect;
    RedirectBudget(l.s, input[0].byte, input[0].port);
  }
}
