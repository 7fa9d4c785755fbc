/** What the other end of the connection makes of sercd's output: a peer that parses as
    sercd does, and the replies that a carriage return spoils. */
module SercdPeer {
  import opened Bytes
  import opened Telnet
  import opened TelnetRuns
  import opened Sercd

  // ---------- data alone ----------

  lemma {:induction false} EscapedMore(last: Byte, binary: bool, data: seq<Byte>, c: Byte)
    ensures EscapedAll(last, binary, data + [c]) == EscapedAll(last, binary, data) + Escaped(LastOf(last, data), binary, c)
    decreases |data|
  {
    if data == [] {
      assert data + [c] == [c] && [c][1..] == [];
      assert Escaped(last, binary, c) + [] == [] + Escaped(last, binary, c);
    } else {
      assert (data + [c])[1..] == data[1..] + [c];
      EscapedMore(data[0], binary, data[1..], c);
      assert LastOf(data[0], data[1..]) == LastOf(last, data);
      Associate(Escaped(last, binary, data[0]), EscapedAll(data[0], binary, data[1..]), Escaped(LastOf(last, data), binary, c));
    }
  }

  /** No reply was sent, and binary mode was never switched. */
  predicate OnlyData(log: seq<Item>, binary: bool) {
    forall i :: 0 <= i < |log| ==> if log[i].Data? then log[i].binary == binary else log[i].reply == Silent
  }

  lemma {:induction false} WireIsEscaped(last: Byte, binary: bool, log: seq<Item>)
    requires OnlyData(log, binary)
    ensures Wire(last, log) == EscapedAll(last, binary, DataOf(log)) && LastAfter(last, log) == LastOf(last, DataOf(log))
  {
    if log != [] {
      var x, front := log[|log| - 1], log[..|log| - 1];
      WireIsEscaped(last, binary, front);
      if x.Data? {
        EscapedMore(last, binary, DataOf(front), x.byte);
      } else {
        assert Wire(last, front) + [] == Wire(last, front) && DataOf(front) + [] == DataOf(front);
      }
    }
  }

  /** Over every run in which no reply goes out and binary mode is not switched: a peer with
      the same setting gets back exactly what the device sent. */
  lemma DeviceComesBack(start: Server, run: seq<Event>, p: Parser, t: Options)
    requires ParserOk(start.p) && IsRun(Begin(start), run)
    requires ParserOk(p) && p.escape == Normal && p.last == start.x.wlast
    requires OnlyData(After(Begin(start), run).log, TRANSMIT_BINARY in t.isDo)
    ensures var l := After(Begin(start), run); Decode(p, t, l.netOut + l.toNet).2 == l.devIn
  {
    var l := After(Begin(start), run);
    NetworkGetsTheLog(start, run);
    WireIsEscaped(start.x.wlast, TRANSMIT_BINARY in t.isDo, l.log);
    EscapingIsUndone(p, t, l.devIn);
  }

  // ---------- an option between two bytes ----------

  lemma OptionRead(p: Parser, t: Options, verb: Byte, o: Byte)
    requires ParserOk(p) && p.escape == Normal && verb != SB && verb != IAC
    ensures var (p', t', data) := Decode(p, t, [IAC, verb, o]);
            && p'.escape == Normal && p'.last == o && p'.cmd == [IAC, verb, o]
            && t' == OptionsAfter(t, [IAC, verb, o]) && data == []
  {
    var p1 := p.(escape := Received, last := IAC);
    var p2 := p1.(escape := Receiving, sigEscape := Normal, cmd := [IAC, verb], last := verb);
    DecodeOne(p, t, IAC);
    DecodeOne(p1, t, verb);
    DecodeOne(p2, t, o);
    DecodeJoin(p1, t, [verb], [o]);
    DecodeJoin(p, t, [IAC], [verb, o]);
    assert [verb] + [o] == [verb, o] && [IAC] + [verb, o] == [IAC, verb, o] && [IAC, verb] + [o] == [IAC, verb, o];
  }

  lemma TwoBytesRead(p: Parser, t: Options, a: Byte, b: Byte)
    requires ParserOk(p) && p.escape == Normal && TRANSMIT_BINARY !in t.isDo && a != IAC && b != IAC && a != CR
    ensures Decode(p, t, [a, b]).2 == (if a == 0 && p.last == CR then [] else [a]) + [b]
  {
    DecodeOne(p, t, a);
    DecodeOne(p.(last := a), t, b);
    DecodeJoin(p, t, [a], [b]);
    assert [a] + [b] == [a, b];
  }

  /** c1 has been sent, then comes an option, then c2. EscWriteChar remembers c1, the peer
      the option: it gets c2 right if and only if both see a carriage return where it
      matters. */
  lemma OptionBetweenIff(p: Parser, t: Options, c1: Byte, verb: Byte, o: Byte, c2: Byte)
    requires ParserOk(p) && p.escape == Normal && p.last == c1 && verb != SB && verb != IAC
    requires TRANSMIT_BINARY !in OptionsAfter(t, [IAC, verb, o]).isDo
    ensures Decode(p, t, [IAC, verb, o] + Escaped(c1, false, c2)).2 == [c2] <==>
            if c1 == CR && c2 != LF && c2 != IAC then o == CR else !(o == CR && c2 == 0)
  {
    var (p', t', none) := Decode(p, t, [IAC, verb, o]);
    OptionRead(p, t, verb, o);
    DecodeJoin(p, t, [IAC, verb, o], Escaped(c1, false, c2));
    var out := Decode(p', t', Escaped(c1, false, c2)).2;
    assert [] + out == out;
    if c2 == IAC {
      DecodeChar(p', t', c2);
    } else if c1 == CR && c2 != LF {
      TwoBytesRead(p', t', 0, c2);
      assert |[0] + [c2]| == 2 && [] + [c2] == [c2];
    } else {
      DecodeOne(p', t', c2);
    }
  }

  // ---------- data and options ----------

  /** Replies are options or nothing. */
  predicate NoSuboptions(log: seq<Item>) {
    forall i :: 0 <= i < |log| && log[i].Answered? ==>
      log[i].reply == Silent || (log[i].reply.Option? && log[i].reply.verb != SB && log[i].reply.verb != IAC)
  }

  function OptionsThen(t: Options, x: Item): Options {
    if x.Answered? && x.reply.Option? && x.reply.verb != SB then OptionsAfter(t, [IAC, x.reply.verb, x.reply.option]) else t
  }

  /** The peer's options after a log. */
  function PeerOptions(t: Options, log: seq<Item>): Options {
    if log == [] then t else OptionsThen(PeerOptions(t, log[..|log| - 1]), log[|log| - 1])
  }

  function ItemData(x: Item): seq<Byte> {
    if x.Data? then [x.byte] else []
  }

  /** The peer reads the item as what it is. */
  ghost predicate ReadBack(p: Parser, t: Options, last: Byte, x: Item)
    requires ParserOk(p)
  {
    var (p', t', data) := Decode(p, t, ItemBytes(last, x));
    p'.escape == Normal && t' == OptionsThen(t, x) && data == ItemData(x)
  }

  /** The Last byte of EscWriteChar and that of the peer agree where it matters: a NUL is
      stuffed if and only if the peer swallows one. */
  predicate Agrees(peer: Byte, t: Options, last: Byte, x: Item) {
    x.Data? && x.byte != IAC ==>
      var swallows := peer == CR && TRANSMIT_BINARY !in t.isDo;
      if x.byte != LF && !x.binary && last == CR then swallows else !(swallows && x.byte == 0)
  }

  lemma DataBackIff(p: Parser, t: Options, last: Byte, x: Item)
    requires ParserOk(p) && p.escape == Normal && x.Data?
    ensures ReadBack(p, t, last, x) <==> Agrees(p.last, t, last, x)
  {
    hide Decode;
    var c := x.byte;
    if c == IAC {
      DecodeChar(p, t, c);
    } else if c != LF && !x.binary && last == CR {
      StuffedBack(p, t, c);
      assert |[0] + [c]| == 2 && [] + [c] == [c];
    } else {
      PlainBack(p, t, c);
    }
  }

  predicate Swallows(p: Parser, t: Options) {
    p.last == CR && TRANSMIT_BINARY !in t.isDo
  }

  lemma PlainBack(p: Parser, t: Options, c: Byte)
    requires ParserOk(p) && p.escape == Normal && c != IAC
    ensures Decode(p, t, [c]) == (p.(last := c), t, if c == 0 && Swallows(p, t) then [] else [c])
  {
    DecodeOne(p, t, c);
  }

  lemma StuffedBack(p: Parser, t: Options, c: Byte)
    requires ParserOk(p) && p.escape == Normal && c != IAC
    ensures Decode(p, t, [0, c]) == (p.(last := c), t, (if Swallows(p, t) then [] else [0]) + [c])
  {
    hide Decode;
    PlainBack(p, t, 0);
    PlainBack(p.(last := 0), t, c);
    DecodeJoin(p, t, [0], [c]);
    assert [0] + [c] == [0, c];
  }

  lemma ReadBackIff(p: Parser, t: Options, last: Byte, x: Item)
    requires ParserOk(p) && p.escape == Normal && NoSuboptions([x])
    ensures ReadBack(p, t, last, x) <==> Agrees(p.last, t, last, x)
  {
    hide Decode, OptionsAfter, Escaped;
    assert [x][0] == x;
    if x.Data? {
      DataBackIff(p, t, last, x);
    } else if x.reply.Option? {
      OptionRead(p, t, x.reply.verb, x.reply.option);
    } else {
      DecodeNothing(p, t);
    }
  }

  lemma {:induction false} DecodeLast(p: Parser, t: Options, bytes: seq<Byte>)
    requires ParserOk(p)
    ensures Decode(p, t, bytes).0.last == LastOf(p.last, bytes)
    decreases |bytes|
  {
    hide Parse, OptionsAfter;
    if bytes != [] {
      var binary := TRANSMIT_BINARY in t.isDo;
      ParseKeeps(p, binary, bytes[0]);
      var (p1, a) := Parse(p, binary, bytes[0]);
      DecodeLast(p1.(last := bytes[0]), if a.Run? then OptionsAfter(t, a.cmd) else t, bytes[1..]);
    }
  }

  /** Every item of the log is read back where it comes. */
  ghost predicate AllBack(p: Parser, t: Options, last: Byte, log: seq<Item>)
    requires ParserOk(p)
  {
    log == [] ||
    var front := log[..|log| - 1];
    AllBack(p, t, last, front) &&
    ReadBack(Decode(p, t, Wire(last, front)).0, PeerOptions(t, front), LastAfter(last, front), log[|log| - 1])
  }

  predicate AllAgree(peer: Byte, t: Options, last: Byte, log: seq<Item>) {
    log == [] ||
    var front := log[..|log| - 1];
    AllAgree(peer, t, last, front) &&
    Agrees(LastOf(peer, Wire(last, front)), PeerOptions(t, front), LastAfter(last, front), log[|log| - 1])
  }

  /** For every log of data and options: the peer reads every item back where it comes if and
      only if the two Last bytes agree at every item; then it gets the data. */
  lemma {:induction false} LogReadIff(p: Parser, t: Options, last: Byte, log: seq<Item>)
    requires ParserOk(p) && p.escape == Normal && NoSuboptions(log)
    ensures AllBack(p, t, last, log) <==> AllAgree(p.last, t, last, log)
    ensures AllBack(p, t, last, log) ==>
              var r := Decode(p, t, Wire(last, log)); r.0.escape == Normal && r.1 == PeerOptions(t, log) && r.2 == DataOf(log)
  {
    hide Decode, ItemBytes, ReadBack, Agrees, OptionsThen, LastAfter;
    if log == [] {
      DecodeNothing(p, t);
    } else {
      var front, x := log[..|log| - 1], log[|log| - 1];
      LogReadIff(p, t, last, front);
      if AllBack(p, t, last, front) {
        var p' := Decode(p, t, Wire(last, front)).0;
        DecodeLast(p, t, Wire(last, front));
        OneItem(log, |log| - 1);
        ReadBackIff(p', PeerOptions(t, front), LastAfter(last, front), x);
        if ReadBack(p', PeerOptions(t, front), LastAfter(last, front), x) {
          BackOnce(p', PeerOptions(t, front), LastAfter(last, front), x);
          DecodeJoin(p, t, Wire(last, front), ItemBytes(LastAfter(last, front), x));
        }
      }
    }
  }

  lemma OneItem(log: seq<Item>, i: nat)
    requires NoSuboptions(log) && i < |log|
    ensures NoSuboptions([log[i]])
  {
  }

  lemma BackOnce(p: Parser, t: Options, last: Byte, x: Item)
    requires ParserOk(p) && ReadBack(p, t, last, x)
    ensures var r := Decode(p, t, ItemBytes(last, x)); r.0.escape == Normal && r.1 == OptionsThen(t, x) && r.2 == ItemData(x)
  {
  }

  /** Over every run without COM port replies in which they agree, the peer gets back what
      the device sent. */
  lemma DeviceComesBackWithOptions(start: Server, run: seq<Event>, p: Parser, t: Options)
    requires ParserOk(start.p) && IsRun(Begin(start), run) && ParserOk(p) && p.escape == Normal
    requires var log := After(Begin(start), run).log; NoSuboptions(log) && AllAgree(p.last, t, start.x.wlast, log)
    ensures var l := After(Begin(start), run); Decode(p, t, l.netOut + l.toNet).2 == l.devIn
  {
    NetworkGetsTheLog(start, run);
    LogReadIff(p, t, start.x.wlast, After(Begin(start), run).log);
  }

  // ---------- a spoilt reply ----------

  /** The server part of a state, with nothing waiting for the device. */
  predicate At(l: Loop, p: Parser, x: Session, toNet: seq<Byte>) {
    l.s == Server(p, x) && l.toNet == toNet && l.toDev == [] && |toNet| <= 2
  }

  /** A byte that neither delivers nor completes anything. */
  lemma QuietByte(l: Loop, p: Parser, x: Session, toNet: seq<Byte>, c: Byte, port: Port)
    requires At(l, p, x, toNet) && ParserOk(p)
    requires Parse(p, TRANSMIT_BINARY in x.opts.isDo, c).1 == Nothing
    ensures At(NetByte(l, c, port), Parse(p, TRANSMIT_BINARY in x.opts.isDo, c).0.(last := c), x, toNet)
    ensures ParserOk(NetByte(l, c, port).s.p)
  {
    ParseKeeps(p, TRANSMIT_BINARY in x.opts.isDo, c);
    assert toNet + [] == toNet;
  }

  /** The parser after the first n bytes of a command in a suboption. */
  predicate Collecting(p: Parser, cmd: seq<Byte>) {
    p.escape == Receiving && p.sigEscape == Normal && p.cmd == cmd && CommandOk(cmd)
  }

  function SetDataSize(v: Byte): seq<Byte> {
    [IAC, SB, COM_PORT_OPTION, 2, v, IAC, SE]
  }

  lemma HeaderRead(l: Loop, p: Parser, x: Session, toNet: seq<Byte>, port: Port)
    requires At(l, p, x, toNet) && ParserOk(p) && p.escape == Normal && PortOk(port)
    ensures var input := [Input(IAC, port), Input(SB, port), Input(COM_PORT_OPTION, port)];
            && Enabled(l, SocketIn(input)) && PortsOk(SocketIn(input))
            && var l' := Next(l, SocketIn(input));
               At(l', l'.s.p, x, toNet) && Collecting(l'.s.p, [IAC, SB, COM_PORT_OPTION])
  {
    var input := [Input(IAC, port), Input(SB, port), Input(COM_PORT_OPTION, port)];
    QuietByte(l, p, x, toNet, IAC, port);
    var l1 := NetByte(l, IAC, port);
    QuietByte(l1, l1.s.p, x, toNet, SB, port);
    var l2 := NetByte(l1, SB, port);
    QuietByte(l2, l2.s.p, x, toNet, COM_PORT_OPTION, port);
    ThreeBytes(l, input[0], input[1], input[2]);
  }

  predicate Fits(l: Loop, a: Input) {
    ParserOk(l.s.p) && var r := Redirect(l.s, a.byte, a.port); |r.net| <= Room(l.toNet) && |r.dev| <= Room(l.toDev)
  }

  lemma OneByte(l: Loop, a: Input)
    requires ParserOk(l.s.p) && PortOk(a.port) && REDIRECT_NET_BYTES <= Room(l.toNet) && REDIRECT_DEV_BYTES <= Room(l.toDev)
    requires Fits(l, a)
    ensures FromNet(l, [a]) == NetByte(l, a.byte, a.port)
  {
    hide Redirect;
    RedirectBudget(l.s, a.byte, a.port);
    assert [a][1..] == [];
    assert FromNet(NetByte(l, a.byte, a.port), []) == NetByte(l, a.byte, a.port);
  }

  lemma ThreeBytes(l: Loop, a: Input, b: Input, c: Input)
    requires ParserOk(l.s.p) && PortOk(a.port) && PortOk(b.port) && PortOk(c.port)
    requires 3 * REDIRECT_NET_BYTES <= Room(l.toNet) && 3 * REDIRECT_DEV_BYTES <= Room(l.toDev)
    requires Fits(l, a)
    requires var l1 := NetByte(l, a.byte, a.port); Fits(l1, b)
    requires var l2 := NetByte(NetByte(l, a.byte, a.port), b.byte, b.port); Fits(l2, c)
    ensures FromNet(l, [a, b, c]) == NetByte(NetByte(NetByte(l, a.byte, a.port), b.byte, b.port), c.byte, c.port)
  {
    hide Redirect;
    RedirectBudget(l.s, a.byte, a.port);
    var l1 := NetByte(l, a.byte, a.port);
    RedirectBudget(l1.s, b.byte, b.port);
    var l2 := NetByte(l1, b.byte, b.port);
    RedirectBudget(l2.s, c.byte, c.port);
    assert [a, b, c][1..] == [b, c] && [b, c][1..] == [c] && [c][1..] == [];
    assert FromNet(l2, [c]) == NetByte(l2, c.byte, c.port);
    assert FromNet(l1, [b, c]) == FromNet(l2, [c]);
  }

  lemma BodyRead(l: Loop, x: Session, toNet: seq<Byte>, v: Byte, port: Port)
    requires At(l, l.s.p, x, toNet) && Collecting(l.s.p, [IAC, SB, COM_PORT_OPTION]) && PortOk(port)
    ensures var input := [Input(2, port), Input(v, port), Input(IAC, port)];
            && Enabled(l, SocketIn(input)) && PortsOk(SocketIn(input))
            && var l' := Next(l, SocketIn(input));
               At(l', l'.s.p, x, toNet) && Collecting(l'.s.p, [IAC, SB, COM_PORT_OPTION, 2, v, IAC])
  {
    var input := [Input(2, port), Input(v, port), Input(IAC, port)];
    QuietByte(l, l.s.p, x, toNet, 2, port);
    var l1 := NetByte(l, 2, port);
    assert l1.s.p.cmd == [IAC, SB, COM_PORT_OPTION, 2];
    QuietByte(l1, l1.s.p, x, toNet, v, port);
    var l2 := NetByte(l1, v, port);
    assert l2.s.p.cmd == [IAC, SB, COM_PORT_OPTION, 2, v];
    QuietByte(l2, l2.s.p, x, toNet, IAC, port);
    ThreeBytes(l, input[0], input[1], input[2]);
  }

  lemma TrailerRead(l: Loop, x: Session, toNet: seq<Byte>, v: Byte, port: Port)
    requires At(l, l.s.p, x, toNet) && Collecting(l.s.p, [IAC, SB, COM_PORT_OPTION, 2, v, IAC]) && PortOk(port)
    requires COM_PORT_OPTION in x.opts.isWill && TRANSMIT_BINARY !in x.opts.isWill && x.wlast == CR
    requires port.dataSize != LF && port.dataSize != IAC
    ensures var e := SocketIn([Input(SE, port)]);
            && Enabled(l, e) && PortsOk(e)
            && Next(l, e).toNet == toNet + [IAC, SB, COM_PORT_OPTION, 102, 0, port.dataSize, IAC, SE]
  {
    var cmd := SetDataSize(v);
    assert l.s.p.cmd + [SE] == cmd;
    assert Parse(l.s.p, TRANSMIT_BINARY in x.opts.isDo, SE).1 == Run(cmd);
    assert Answer(x, cmd, port) == Suboption(102, [port.dataSize]);
    assert [port.dataSize][1..] == [];
    assert EscapedAll(CR, false, [port.dataSize]) == [0, port.dataSize];
    assert [Input(SE, port)][1..] == [];
    RedirectBudget(l.s, SE, port);
    OneByte(l, Input(SE, port));
  }

  /** From any state between commands, with the COM port option on and binary mode off: the
      device sends a carriage return, the client asks for a data size, and the reply goes
      out with a NUL in front of the answer. */
  lemma ReplyAfterCarriageReturn(start: Server, v: Byte, port: Port)
    requires ParserOk(start.p) && start.p.escape == Normal && PortOk(port) && start.x.wlast != CR
    requires COM_PORT_OPTION in start.x.opts.isWill && TRANSMIT_BINARY !in start.x.opts.isWill
    requires port.dataSize != LF && port.dataSize != IAC
    ensures var run := [DeviceIn([CR]), SocketIn([Input(IAC, port), Input(SB, port), Input(COM_PORT_OPTION, port)]),
                        SocketIn([Input(2, port), Input(v, port), Input(IAC, port)]), SocketIn([Input(SE, port)])];
            && IsRun(Begin(start), run)
            && After(Begin(start), run).toNet == [CR] + [IAC, SB, COM_PORT_OPTION, 102, 0, port.dataSize, IAC, SE]
  {
    var a, b := DeviceIn([CR]), SocketIn([Input(IAC, port), Input(SB, port), Input(COM_PORT_OPTION, port)]);
    var c, d := SocketIn([Input(2, port), Input(v, port), Input(IAC, port)]), SocketIn([Input(SE, port)]);
    var l := Begin(start);
    var x := start.x.(wlast := CR);
    assert [CR][1..] == [];
    var l1 := Next(l, a);
    assert [] + [CR] == [CR];
    assert FromDevice(DeviceByte(l, CR), []) == DeviceByte(l, CR);
    assert FromDevice(l, [CR]) == DeviceByte(l, CR);
    HeaderRead(l1, start.p, x, [CR], port);
    var l2 := Next(l1, b);
    BodyRead(l2, x, [CR], v, port);
    var l3 := Next(l2, c);
    TrailerRead(l3, x, [CR], v, port);
    FourEvents(l, a, b, c, d);
  }

  lemma FourEvents(l: Loop, a: Event, b: Event, c: Event, d: Event)
    requires ParserOk(l.s.p) && Enabled(l, a) && PortsOk(a)
    requires var l1 := Next(l, a); ParserOk(l1.s.p) && Enabled(l1, b) && PortsOk(b)
    requires var l2 := Next(Next(l, a), b); ParserOk(l2.s.p) && Enabled(l2, c) && PortsOk(c)
    requires var l3 := Next(Next(Next(l, a), b), c); ParserOk(l3.s.p) && Enabled(l3, d) && PortsOk(d)
    ensures IsRun(l, [a, b, c, d]) && After(l, [a, b, c, d]) == Next(Next(Next(Next(l, a), b), c), d)
  {
    hide Next, Enabled, PortsOk;
    assert [a, b, c, d][1..] == [b, c, d] && [b, c, d][1..] == [c, d] && [c, d][1..] == [d] && [d][1..] == [];
    var l1, l2, l3 := Next(l, a), Next(Next(l, a), b), Next(Next(Next(l, a), b), c);
    assert IsRun(Next(l3, d), []) && IsRun(l3, [d]) && IsRun(l2, [c, d]) && IsRun(l1, [b, c, d]);
    assert After(l3, [d]) == Next(l3, d);
    assert After(l2, [c, d]) == After(l3, [d]);
    assert After(l1, [b, c, d]) == After(l2, [c, d]);
  }

  // ---------- an offer in the middle ----------

  lemma OfferRead(l: Loop, p: Parser, x: Session, toNet: seq<Byte>, port: Port)
    requires At(l, p, x, toNet) && ParserOk(p) && p.escape == Normal && PortOk(port)
    requires ECHO !in x.opts.sentWill
    ensures var e := SocketIn([Input(IAC, port), Input(DO, port), Input(ECHO, port)]);
            && Enabled(l, e) && PortsOk(e) && ParserOk(Next(l, e).s.p)
            && Next(l, e).toNet == toNet + [IAC, WILL, ECHO] && Next(l, e).s.x.wlast == x.wlast
            && Next(l, e).devIn == l.devIn && Next(l, e).netOut == l.netOut
            && Next(l, e).s.x.opts.isWill == x.opts.isWill + {ECHO}
  {
    var input := [Input(IAC, port), Input(DO, port), Input(ECHO, port)];
    QuietByte(l, p, x, toNet, IAC, port);
    var l1 := NetByte(l, IAC, port);
    QuietByte(l1, l1.s.p, x, toNet, DO, port);
    var l2 := NetByte(l1, DO, port);
    assert l2.s.p.cmd + [ECHO] == [IAC, DO, ECHO];
    RedirectBudget(l2.s, ECHO, port);
    ThreeBytes(l, input[0], input[1], input[2]);
  }

  lemma LetterSent(l: Loop, c: Byte)
    requires |l.toNet| <= 4 && l.s.x.wlast == CR && TRANSMIT_BINARY !in l.s.x.opts.isWill && c != LF && c != IAC
    ensures Enabled(l, DeviceIn([c])) && PortsOk(DeviceIn([c]))
    ensures var l' := FromDevice(l, [c]); l'.toNet == l.toNet + [0, c] && l'.devIn == l.devIn + [c] && l'.netOut == l.netOut
  {
    assert [c][1..] == [];
    assert FromDevice(DeviceByte(l, c), []) == DeviceByte(l, c);
    assert FromDevice(l, [c]) == DeviceByte(l, c);
  }

  function OfferRun(port: Port): seq<Event> {
    [DeviceIn([CR]), SocketIn([Input(IAC, port), Input(DO, port), Input(ECHO, port)]), DeviceIn([65])]
  }

  /** The device sends a carriage return, the client asks for echo and gets it offered, the
      device sends a letter: the peer reads a NUL between the two. */
  lemma OfferInARun(start: Server, port: Port)
    requires ParserOk(start.p) && start.p.escape == Normal && PortOk(port) && start.x.wlast != CR
    requires ECHO !in start.x.opts.sentWill && TRANSMIT_BINARY !in start.x.opts.isWill
    ensures IsRun(Begin(start), OfferRun(port))
    ensures var l := After(Begin(start), OfferRun(port));
            l.netOut == [] && l.toNet == [CR, IAC, WILL, ECHO, 0, 65] && l.devIn == [CR, 65]
  {
    var a, b, c := DeviceIn([CR]), SocketIn([Input(IAC, port), Input(DO, port), Input(ECHO, port)]), DeviceIn([65]);
    var l, x := Begin(start), start.x.(wlast := CR);
    assert [CR][1..] == [] && [] + [CR] == [CR];
    assert FromDevice(DeviceByte(l, CR), []) == DeviceByte(l, CR);
    assert FromDevice(l, [CR]) == DeviceByte(l, CR);
    var l1 := Next(l, a);
    OfferRead(l1, start.p, x, [CR], port);
    var l2 := Next(l1, b);
    LetterSent(l2, 65);
    var l3 := Next(l2, c);
    assert [CR] + [IAC, WILL, ECHO] + [0, 65] == [CR, IAC, WILL, ECHO, 0, 65] && [CR] + [65] == [CR, 65];
    ThreeEvents(l, a, b, c);
  }

  lemma ThreeEvents(l: Loop, a: Event, b: Event, c: Event)
    requires ParserOk(l.s.p) && Enabled(l, a) && PortsOk(a)
    requires var l1 := Next(l, a); ParserOk(l1.s.p) && Enabled(l1, b) && PortsOk(b)
    requires var l2 := Next(Next(l, a), b); ParserOk(l2.s.p) && Enabled(l2, c) && PortsOk(c)
    ensures IsRun(l, [a, b, c]) && After(l, [a, b, c]) == Next(Next(Next(l, a), b), c)
  {
    hide Next, Enabled, PortsOk;
    assert [a, b, c][1..] == [b, c] && [b, c][1..] == [c] && [c][1..] == [];
    var l1, l2 := Next(l, a), Next(Next(l, a), b);
    assert IsRun(Next(l2, c), []) && IsRun(l2, [c]) && IsRun(l1, [b, c]);
    assert After(l2, [c]) == Next(l2, c);
    assert After(l1, [b, c]) == After(l2, [c]);
  }

  /** What the peer makes of it, from any state between commands. */
  lemma OfferReadBack(p: Parser, t: Options)
    requires ParserOk(p) && p.escape == Normal && p.last != CR && TRANSMIT_BINARY !in t.isDo
    ensures Decode(p, t, [CR, IAC, WILL, ECHO, 0, 65]).2 == [CR, 0, 65]
  {
    hide Decode;
    PlainBack(p, t, CR);
    var p1 := p.(last := CR);
    OptionRead(p1, t, WILL, ECHO);
    var r := Decode(p1, t, [IAC, WILL, ECHO]);
    StuffedBack(r.0, r.1, 65);
    DecodeJoin(p1, t, [IAC, WILL, ECHO], [0, 65]);
    DecodeJoin(p, t, [CR], [IAC, WILL, ECHO] + [0, 65]);
    assert [CR] + ([IAC, WILL, ECHO] + [0, 65]) == [CR, IAC, WILL, ECHO, 0, 65];
    assert [CR] + ([] + ([0] + [65])) == [CR, 0, 65];
  }
}
