/** Clients one after the other: a new connection starts with empty rings and options of its
    own, but with the parser and both Last bytes as the client before left them. */
module SercdConnections {
  import opened Bytes
  import opened Telnet
  import opened TelnetRuns
  import opened Sercd
  import opened SercdClient
  import opened SercdFrames

  /** InitTelnetStateMachine and SendTelnetInitialOptions: tnstate. */
  const FRESH := Options({}, {}, {TRANSMIT_BINARY, ECHO, SUPPRESS_GO_AHEAD}, {TRANSMIT_BINARY, SUPPRESS_GO_AHEAD, COM_PORT_OPTION})

  const OFFERS: seq<Item> := [
    Answered(Option(WILL, TRANSMIT_BINARY), false), Answered(Option(DO, TRANSMIT_BINARY), false),
    Answered(Option(WILL, ECHO), false), Answered(Option(WILL, SUPPRESS_GO_AHEAD), false),
    Answered(Option(DO, SUPPRESS_GO_AHEAD), false), Answered(Option(DO, COM_PORT_OPTION), false)]

  const OFFER_BYTES: seq<Byte> := [
    IAC, WILL, TRANSMIT_BINARY, IAC, DO, TRANSMIT_BINARY, IAC, WILL, ECHO,
    IAC, WILL, SUPPRESS_GO_AHEAD, IAC, DO, SUPPRESS_GO_AHEAD, IAC, DO, COM_PORT_OPTION]

  /** The server as a new client finds it. */
  function Fresh(s: Server): Server {
    s.(x := s.x.(opts := FRESH))
  }

  function Connect(s: Server): Loop {
    Loop(Fresh(s), OFFER_BYTES, [], [], [], [], [], OFFERS)
  }

  /** Exactly the offers are remembered, and nothing is agreed on yet. */
  lemma OffersAreNoted(o: Byte)
    ensures FRESH.isWill == FRESH.isDo == {}
    ensures o in FRESH.sentWill <==> Answered(Option(WILL, o), false) in OFFERS
    ensures o in FRESH.sentDo <==> Answered(Option(DO, o), false) in OFFERS
  {
    assert OFFERS[0] in OFFERS && OFFERS[1] in OFFERS && OFFERS[2] in OFFERS;
    assert OFFERS[3] in OFFERS && OFFERS[4] in OFFERS && OFFERS[5] in OFFERS;
  }

  lemma OptionsOnWire(last: Byte, log: seq<Item>, bytes: seq<Byte>, verb: Byte, o: Byte)
    requires Wire(last, log) == bytes && LastAfter(last, log) == last && DataOf(log) == []
    ensures var log' := log + [Answered(Option(verb, o), false)];
            Wire(last, log') == bytes + [IAC, verb, o] && LastAfter(last, log') == last && DataOf(log') == []
  {
    WireMore(last, log, Answered(Option(verb, o), false));
  }

  lemma OffersOnWire(last: Byte)
    ensures Wire(last, OFFERS) == OFFER_BYTES && LastAfter(last, OFFERS) == last && DataOf(OFFERS) == []
  {
    hide Wire, LastAfter, DataOf;
    var l0: seq<Item>, b0: seq<Byte> := [], [];
    EmptyLog(last);
    var l1, b1 := l0 + [OFFERS[0]], b0 + [IAC, WILL, TRANSMIT_BINARY];
    OptionsOnWire(last, l0, b0, WILL, TRANSMIT_BINARY);
    var l2, b2 := l1 + [OFFERS[1]], b1 + [IAC, DO, TRANSMIT_BINARY];
    OptionsOnWire(last, l1, b1, DO, TRANSMIT_BINARY);
    var l3, b3 := l2 + [OFFERS[2]], b2 + [IAC, WILL, ECHO];
    OptionsOnWire(last, l2, b2, WILL, ECHO);
    var l4, b4 := l3 + [OFFERS[3]], b3 + [IAC, WILL, SUPPRESS_GO_AHEAD];
    OptionsOnWire(last, l3, b3, WILL, SUPPRESS_GO_AHEAD);
    var l5, b5 := l4 + [OFFERS[4]], b4 + [IAC, DO, SUPPRESS_GO_AHEAD];
    OptionsOnWire(last, l4, b4, DO, SUPPRESS_GO_AHEAD);
    OptionsOnWire(last, l5, b5, DO, COM_PORT_OPTION);
    assert l5 + [OFFERS[5]] == OFFERS && b5 + [IAC, DO, COM_PORT_OPTION] == OFFER_BYTES;
  }

  lemma EmptyLog(last: Byte)
    ensures Wire(last, []) == [] && LastAfter(last, []) == last && DataOf([]) == []
  {
  }

  /** A new connection is the beginning of runs like any other. */
  lemma ConnectInv(s: Server)
    requires ParserOk(s.p)
    ensures Inv(Fresh(s), Connect(s))
  {
    hide Decode, Wire, LastAfter, DataOf;
    DecodeNothing(s.p, FRESH);
    OffersOnWire(s.x.wlast);
    var none: seq<Byte> := [];
    assert none + none == none && none + OFFER_BYTES == OFFER_BYTES;
  }

  // ---------- the first item ----------

  /** In the middle of a command a byte does not reach the device, unless it is a second IAC. */
  lemma MiddleByte(p: Parser, binary: bool, c: Byte)
    requires ParserOk(p) && p.escape != Normal
    ensures var (p', a) := Parse(p, binary, c);
            && (a.Deliver? <==> p.escape == Received && c == IAC)
            && (a.Deliver? ==> a.byte == IAC && p'.escape == Normal)
            && p'.escape != Received
            && (p'.escape == Normal && !a.Deliver? ==> |p'.cmd| >= 3 && (p.cmd[1] == SB || |p'.cmd| == 3) && p'.cmd[1] == p.cmd[1])
  {
  }

  /** Two bytes of which the first is no IAC: at most the second gets through. */
  lemma MiddlePlain(p: Parser, t: Options, a: Byte, rest: seq<Byte>)
    requires ParserOk(p) && p.escape != Normal && a != IAC && |rest| <= 1
    ensures |Decode(p, t, [a] + rest).2| <= |rest| && (Decode(p, t, [a] + rest).2 != [] ==> Decode(p, t, [a] + rest).2 == rest)
  {
    hide Decode, Parse;
    var binary := TRANSMIT_BINARY in t.isDo;
    MiddleByte(p, binary, a);
    DecodeStep(p, t, a, rest);
    var (p1, act) := Parse(p, binary, a);
    var p', t' := p1.(last := a), if act.Run? then OptionsAfter(t, act.cmd) else t;
    if rest == [] {
      DecodeNothing(p', t');
    } else {
      assert rest == [rest[0]];
      LastByte(p', t', rest[0]);
    }
  }

  /** One byte gives that byte or nothing. */
  lemma LastByte(p: Parser, t: Options, c: Byte)
    requires ParserOk(p)
    ensures var (p', _, data) := Decode(p, t, [c]);
            && (data == [] || data == [c]) && p' == Parse(p, TRANSMIT_BINARY in t.isDo, c).0.(last := c)
            && (data == [c] <==> Parse(p, TRANSMIT_BINARY in t.isDo, c).1.Deliver?)
  {
    hide OptionsAfter;
    assert [c] + [] == [c];
    DecodeStep(p, t, c, []);
    var (p1, a) := Parse(p, TRANSMIT_BINARY in t.isDo, c);
    DecodeNothing(p1.(last := c), if a.Run? then OptionsAfter(t, a.cmd) else t);
  }

  /** Bytes that begin with IAC: either it gets through, or it is lost in the command. */
  lemma MiddleIac(p: Parser, t: Options, rest: seq<Byte>)
    requires ParserOk(p) && p.escape != Normal
    ensures var (p1, a) := Parse(p, TRANSMIT_BINARY in t.isDo, IAC);
            var p', t' := p1.(last := IAC), if a.Run? && Ready(a.cmd) then OptionsAfter(t, a.cmd) else t;
            && ParserOk(p') && p'.escape != Received
            && Decode(p, t, [IAC] + rest) ==
               (var r := Decode(p', t', rest); (r.0, r.1, (if p.escape == Received then [IAC] else []) + r.2))
  {
    hide Decode, Parse, OptionsAfter;
    MiddleByte(p, TRANSMIT_BINARY in t.isDo, IAC);
    DecodeStep(p, t, IAC, rest);
    var (p1, a) := Parse(p, TRANSMIT_BINARY in t.isDo, IAC);
    var r := Decode(p1.(last := IAC), if a.Run? then OptionsAfter(t, a.cmd) else t, rest);
    assert [] + r.2 == r.2;
  }

  lemma MiddleDoubled(p: Parser, t: Options)
    requires ParserOk(p) && p.escape != Normal
    ensures var (p', _, data) := Decode(p, t, [IAC, IAC]); !(p'.escape == Normal && data == [IAC])
  {
    hide Decode, OptionsAfter;
    MiddleIac(p, t, [IAC]);
    assert [IAC] + [IAC] == [IAC, IAC];
    var (p1, a) := Parse(p, TRANSMIT_BINARY in t.isDo, IAC);
    LastByte(p1.(last := IAC), if a.Run? && Ready(a.cmd) then OptionsAfter(t, a.cmd) else t, IAC);
  }

  lemma MiddleSignal(p: Parser, t: Options, code: Byte)
    requires ParserOk(p) && p.escape != Normal
    ensures var (p', _, data) := Decode(p, t, [IAC, code]);
            !(p'.escape == Normal && data == [] && p'.cmd == [IAC, code])
  {
    hide Decode, OptionsAfter;
    MiddleIac(p, t, [code]);
    assert [IAC] + [code] == [IAC, code];
    var (p1, a) := Parse(p, TRANSMIT_BINARY in t.isDo, IAC);
    var p', t' := p1.(last := IAC), if a.Run? && Ready(a.cmd) then OptionsAfter(t, a.cmd) else t;
    LastByte(p', t', code);
    if p'.escape == Receiving { MiddleByte(p', TRANSMIT_BINARY in t'.isDo, code); }
  }

  /** Two bytes in a state that is not behind an IAC are not read as the rest of an option. */
  lemma NoOption(p: Parser, t: Options, verb: Byte, o: Byte)
    requires ParserOk(p) && p.escape != Received && p.last == IAC && verb != 0 && verb != SB && verb != IAC
    requires p.escape == Receiving ==> p.cmd[1] == SB
    ensures var (p', _, data) := Decode(p, t, [verb, o]);
            !(p'.escape == Normal && data == [] && p'.cmd == [IAC, verb, o])
  {
    hide Decode, OptionsAfter;
    DecodeStep(p, t, verb, [o]);
    assert [verb] + [o] == [verb, o];
    var (p1, a) := Parse(p, TRANSMIT_BINARY in t.isDo, verb);
    var p', t' := p1.(last := verb), if a.Run? then OptionsAfter(t, a.cmd) else t;
    if p.escape == Receiving {
      MiddleByte(p, TRANSMIT_BINARY in t.isDo, verb);
      LastByte(p', t', o);
      if p'.escape == Receiving { MiddleByte(p', TRANSMIT_BINARY in t'.isDo, o); }
    }
  }

  lemma MiddleOption(p: Parser, t: Options, verb: Byte, o: Byte)
    requires ParserOk(p) && p.escape != Normal && verb != 0 && verb != SB && verb != IAC
    ensures var (p', _, data) := Decode(p, t, [IAC, verb, o]);
            !(p'.escape == Normal && data == [] && p'.cmd == [IAC, verb, o])
  {
    hide Decode, OptionsAfter;
    MiddleIac(p, t, [verb, o]);
    assert [IAC] + [verb, o] == [IAC, verb, o];
    var (p1, a) := Parse(p, TRANSMIT_BINARY in t.isDo, IAC);
    NoOption(p1.(last := IAC), if a.Run? && Ready(a.cmd) then OptionsAfter(t, a.cmd) else t, verb, o);
  }

  /** The first item of a connection, which is no suboption before an option has been agreed on,
      is read right if and only if it is clear and the server is between commands. */
  lemma FirstItemIff(p: Parser, t: Options, x: Sent)
    requires ParserOk(p) && Proper(x) && !x.Command?
    ensures ReadRight(p, t, x) <==> p.escape == Normal && Clear(p.last, t, x)
  {
    hide Decode, OptionsAfter;
    if p.escape == Normal {
      ReadRightIff(p, t, x);
    } else {
      match x
      case Char(c, binary) =>
        if c == IAC {
          MiddleDoubled(p, t);
        } else if c == CR && !binary {
          MiddlePlain(p, t, CR, [0]);
          assert [CR] + [0] == [CR, 0];
        } else {
          MiddlePlain(p, t, c, []);
          assert [c] + [] == [c];
        }
      case NewLine =>
        MiddlePlain(p, t, CR, [LF]);
        assert [CR] + [LF] == [CR, LF];
      case Signal(code) => MiddleSignal(p, t, code);
      case Negotiate(verb, o) => MiddleOption(p, t, verb, o);
    }
  }

  /** For every stream of a new client: every item is read right if and only if every item is
      clear and the client before did not leave in the middle of a command. */
  lemma ConnectionReadIff(s: Server, items: seq<Sent>)
    requires ParserOk(s.p) && AllProper(items) && items != [] && !items[0].Command?
    ensures AllRight(s.p, FRESH, items) <==> s.p.escape == Normal && AllClear(s.p.last, FRESH, items)
  {
    hide ReadRight, Clear, Decode, ClientBytes, OptionsAfter;
    FirstItemIff(s.p, FRESH, items[0]);
    if s.p.escape == Normal { StreamReadIff(s.p, FRESH, items); }
  }

  // ---------- one client after the other ----------

  /** What happens while a client is there, and what it sends. */
  datatype Visit = Visit(run: seq<Event>, items: seq<Sent>)

  /** The clients come one after the other, and each stays until its stream has been read. */
  ghost predicate Visits(s: Server, vs: seq<Visit>)
    decreases |vs|
  {
    vs == [] ||
    (IsRun(Connect(s), vs[0].run) && AllProper(vs[0].items) && ParserOk(s.p) &&
     var l := After(Connect(s), vs[0].run);
     l.netIn == Stream(vs[0].items) && Visits(l.s, vs[1..]))
  }

  ghost predicate AllVisitsClear(s: Server, vs: seq<Visit>)
    requires Visits(s, vs)
    decreases |vs|
  {
    vs == [] ||
    (AllClear(s.p.last, FRESH, vs[0].items) && AllVisitsClear(After(Connect(s), vs[0].run).s, vs[1..]))
  }

  /** The device gets from every client its characters, in order, and no ring overflows. */
  ghost predicate AllServed(s: Server, vs: seq<Visit>)
    requires Visits(s, vs)
    decreases |vs|
  {
    vs == [] ||
    (var l := After(Connect(s), vs[0].run);
     && l.devOut + l.toDev == Chars(vs[0].items) && |l.toNet| <= CAPACITY && |l.toDev| <= CAPACITY
     && AllServed(l.s, vs[1..]))
  }

  lemma VisitServed(s: Server, v: Visit)
    requires ParserOk(s.p) && s.p.escape == Normal && IsRun(Connect(s), v.run) && AllProper(v.items)
    requires After(Connect(s), v.run).netIn == Stream(v.items) && AllClear(s.p.last, FRESH, v.items)
    ensures var l := After(Connect(s), v.run);
            && ParserOk(l.s.p) && l.s.p.escape == Normal && l.devOut + l.toDev == Chars(v.items)
            && |l.toNet| <= CAPACITY && |l.toDev| <= CAPACITY
  {
    hide Decode;
    ConnectInv(s);
    RunInv(Fresh(s), Connect(s), v.run);
    StreamReadIff(s.p, FRESH, v.items);
  }

  /** Over every series of connections and every run of each: if all that the clients send is
      clear, the device gets the characters of every one of them. */
  lemma {:induction false} EveryClientIsServed(s: Server, vs: seq<Visit>)
    requires Visits(s, vs) && s.p.escape == Normal && AllVisitsClear(s, vs)
    ensures AllServed(s, vs)
    decreases |vs|
  {
    if vs != [] {
      VisitServed(s, vs[0]);
      EveryClientIsServed(After(Connect(s), vs[0].run).s, vs[1..]);
    }
  }

  // ---------- a client that leaves too early ----------

  function BytesOf(input: seq<Input>): (r: seq<Byte>)
    ensures |r| == |input|
  {
    if input == [] then [] else [input[0].byte] + BytesOf(input[1..])
  }

  lemma {:induction false} NetInIs(l: Loop, input: seq<Input>)
    requires REDIRECT_NET_BYTES * |input| <= Room(l.toNet) && REDIRECT_DEV_BYTES * |input| <= Room(l.toDev)
    requires ParserOk(l.s.p) && forall i :: 0 <= i < |input| ==> PortOk(input[i].port)
    ensures FromNet(l, input).netIn == l.netIn + BytesOf(input)
    decreases |input|
  {
    hide Redirect;
    if input == [] {
      assert l.netIn + [] == l.netIn;
    } else {
      RedirectBudget(l.s, input[0].byte, input[0].port);
      NetInIs(NetByte(l, input[0].byte, input[0].port), input[1..]);
      Associate(l.netIn, [input[0].byte], BytesOf(input[1..]));
    }
  }

  /** A connection in which the client sends these bytes at once. */
  lemma {:induction false} SentAtOnce(s: Server, input: seq<Input>)
    requires ParserOk(s.p) && |input| <= 3 && forall i :: 0 <= i < |input| ==> PortOk(input[i].port)
    ensures var run := [SocketIn(input)];
            && IsRun(Connect(s), run)
            && var l := After(Connect(s), run);
               && ParserOk(l.s.p) && l.netIn == BytesOf(input)
               && Decode(s.p, FRESH, BytesOf(input)) == (l.s.p, l.s.x.opts, l.devOut + l.toDev)
  {
    hide Decode, FromNet, Redirect;
    var run, l := [SocketIn(input)], Connect(s);
    assert run[1..] == [] && Enabled(l, run[0]);
    ConnectInv(s);
    InvNext(Fresh(s), l, run[0]);
    NetInIs(l, input);
    assert [] + BytesOf(input) == BytesOf(input);
    var l' := Next(l, run[0]);
    assert IsRun(l', run[1..]) && After(l', run[1..]) == l';
  }

  /** One client leaves behind an IAC; of the next one the first two characters are lost. */
  lemma LeftInTheMiddle(s: Server, port: Port, a: Byte, b: Byte)
    requires ParserOk(s.p) && s.p.escape == Normal && PortOk(port) && a != IAC && a != SB
    ensures var run, run' := [SocketIn([Input(IAC, port)])], [SocketIn([Input(a, port), Input(b, port)])];
            && IsRun(Connect(s), run)
            && var s' := After(Connect(s), run).s;
               && s'.p.escape == Received && IsRun(Connect(s'), run')
               && var l := After(Connect(s'), run'); l.netIn == [a, b] && l.devOut + l.toDev == []
  {
    hide Decode, OptionsAfter, IsRun, After, Connect;
    var input, input' := [Input(IAC, port)], [Input(a, port), Input(b, port)];
    assert BytesOf(input) == [IAC] by { assert input[1..] == []; }
    assert BytesOf(input') == [a, b] by { assert input'[1..] == [Input(b, port)] && input'[1..][1..] == []; }
    SentAtOnce(s, input);
    LastByte(s.p, FRESH, IAC);
    var s' := After(Connect(s), [SocketIn(input)]).s;
    SentAtOnce(s', input');
    var p1 := s'.p.(escape := Receiving, sigEscape := Normal, cmd := [IAC, a], last := a);
    DecodeStep(s'.p, FRESH, a, [b]);
    assert [a] + [b] == [a, b];
    LastByte(p1, FRESH, b);
  }
}
