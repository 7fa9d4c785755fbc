/** sercd's Telnet side: escaping towards the network, and the parser that takes
    the network stream apart byte by byte. */
module Telnet {
  import opened Bytes

  const SE: Byte := 240
  const SB: Byte := 250
  const WILL: Byte := 251
  const WONT: Byte := 252
  const DO: Byte := 253
  const DONT: Byte := 254
  const IAC: Byte := 255
  const CR: Byte := 0x0D
  const LF: Byte := 0x0A

  const TRANSMIT_BINARY: Byte := 0
  const ECHO: Byte := 1
  const SUPPRESS_GO_AHEAD: Byte := 3
  const COM_PORT_OPTION: Byte := 44

  /** sizeof(IACCommand). */
  const TMP_STR_LEN: nat := 255

  // ---------- escaping ----------

  /** EscWriteChar: the bytes for c when `last` was written before it. */
  function Escaped(last: Byte, binary: bool, c: Byte): seq<Byte> {
    if c == IAC then [IAC, IAC]
    else if c != LF && !binary && last == CR then [0, c]
    else [c]
  }

  function EscapedAll(last: Byte, binary: bool, data: seq<Byte>): seq<Byte>
    decreases |data|
  {
    if data == [] then [] else Escaped(last, binary, data[0]) + EscapedAll(data[0], binary, data[1..])
  }

  function LastOf(last: Byte, data: seq<Byte>): Byte {
    if data == [] then last else data[|data| - 1]
  }

  // ---------- the parser ----------

  datatype Escape = Normal | Received | Receiving

  /** `cmd` is IACCommand[0..IACPos] and `last` the Last byte of EscRedirectChar. */
  datatype Parser = Parser(escape: Escape, sigEscape: Escape, cmd: seq<Byte>, last: Byte)

  /** What one network byte leads to. */
  datatype Action = Nothing | Deliver(byte: Byte) | Run(cmd: seq<Byte>)

  /** The length at which a suboption command is complete (the signature has none). */
  function Complete(kind: Byte): nat {
    if kind == 1 then 10 else if kind == 8 || kind == 9 then 6 else 7
  }

  /** IACPos stays within IACCommand, and commands are dispatched when complete. */
  predicate ParserOk(p: Parser) {
    && p.sigEscape != Receiving
    && (p.escape == Receiving ==> CommandOk(p.cmd))
  }

  predicate CommandOk(cmd: seq<Byte>) {
    && 2 <= |cmd| <= TMP_STR_LEN
    && (cmd[1] != SB ==> |cmd| == 2)
    && (cmd[1] == SB && |cmd| >= 4 && cmd[3] != 0 ==> |cmd| < Complete(cmd[3]))
  }

  /** A command as HandleIACCommand may expect it. */
  predicate Ready(cmd: seq<Byte>) {
    3 <= |cmd| <= TMP_STR_LEN && (cmd[1] == SB ==> |cmd| >= 6)
  }

  /** One more byte in IACCommand, if there is room. */
  function Store(cmd: seq<Byte>, c: Byte): seq<Byte> {
    if |cmd| < TMP_STR_LEN then cmd + [c] else cmd
  }

  function Finished(p: Parser, cmd: seq<Byte>): (Parser, Action) {
    (p.(cmd := cmd, escape := Normal), Run(cmd))
  }

  /** A byte of a signature, which is escaped once more. */
  function SignatureByte(p: Parser, c: Byte): (Parser, Action) {
    if p.sigEscape == Normal then
      (if c == IAC then p.(sigEscape := Received) else p.(cmd := Store(p.cmd, c)), Nothing)
    else if c == IAC then (p.(cmd := Store(p.cmd, c), sigEscape := Normal), Nothing)
    else Finished(p, Store(Store(p.cmd, IAC), c))
  }

  function CommandByte(p: Parser, c: Byte): (Parser, Action)
    requires ParserOk(p) && p.escape == Receiving
  {
    if p.cmd[1] == SB then
      if |p.cmd| < 4 then (p.(cmd := p.cmd + [c]), Nothing)
      else if p.cmd[3] == 0 then SignatureByte(p, c)
      else if |p.cmd| + 1 == Complete(p.cmd[3]) then Finished(p, p.cmd + [c])
      else (p.(cmd := p.cmd + [c]), Nothing)
    else Finished(p, p.cmd + [c])
  }

  /** The switch of EscRedirectChar. */
  function Parse(p: Parser, binary: bool, c: Byte): (Parser, Action)
    requires ParserOk(p)
  {
    match p.escape
    case Normal =>
      if c == IAC then (p.(escape := Received), Nothing)
      else if !binary && c == 0 && p.last == CR then (p, Nothing)
      else (p, Deliver(c))
    case Received =>
      if c == IAC then (p.(escape := Normal), Deliver(c))
      else (p.(escape := Receiving, sigEscape := Normal, cmd := [IAC, c]), Nothing)
    case Receiving => CommandByte(p, c)
  }

  // ---------- commands ----------

  /** tnstate, as sets of options. */
  datatype Options = Options(isWill: set<Byte>, isDo: set<Byte>, sentWill: set<Byte>, sentDo: set<Byte>)

  predicate Supported(o: Byte) {
    o == COM_PORT_OPTION || o == TRANSMIT_BINARY || o == ECHO || o == SUPPRESS_GO_AHEAD
  }

  /** tnstate after a command. */
  function OptionsAfter(t: Options, cmd: seq<Byte>): Options
    requires Ready(cmd)
  {
    var verb, o := cmd[1], cmd[2];
    if verb == WILL then t.(isDo := if Supported(o) then t.isDo + {o} else t.isDo - {o}, sentDo := t.sentDo - {o})
    else if verb == DO then t.(isWill := if Supported(o) then t.isWill + {o} else t.isWill - {o}, sentWill := t.sentWill - {o})
    else if verb == DONT then t.(isWill := t.isWill - {o}, sentWill := t.sentWill - {o})
    else if verb == WONT then t.(isDo := t.isDo - {o}, sentDo := t.sentDo - {o})
    else t
  }

  datatype Reply = Silent | Option(verb: Byte, option: Byte) | Suboption(kind: Byte, data: seq<Byte>)

  /** The option negotiation part of HandleIACCommand. */
  function Negotiate(t: Options, verb: Byte, o: Byte): Reply {
    if verb == WILL then (if !Supported(o) then Option(DONT, o) else if o in t.sentDo then Silent else Option(DO, o))
    else if verb == DO then (if !Supported(o) then Option(WONT, o) else if o in t.sentWill then Silent else Option(WILL, o))
    else if verb == DONT then (if o in t.isWill then Option(WONT, o) else Silent)
    else if verb == WONT then (if o in t.isDo then Option(DONT, o) else Silent)
    else Silent
  }

  datatype Line = Line(inputFlow: bool, breakOn: bool, lineMask: Byte, modemMask: Byte, portControl: bool)

  /** What the serial port answers: our signature, the speed in network order, the
      settings, and the flow control state by request. */
  datatype Port = Port(signature: seq<Byte>, speed: seq<Byte>, dataSize: Byte, parity: Byte, stopSize: Byte,
                       flow: Byte -> Byte, cisco: bool)

  ghost predicate PortOk(p: Port) {
    |p.signature| <= 254 && |p.speed| == 4
  }

  /** The flow control part of HandleCPCCommand. */
  function Control(l: Line, v: Byte, port: Port): Byte {
    if v == 0 || v == 7 || v == 10 || v == 13 then port.flow(v)
    else if v == 4 then (if l.breakOn then 5 else 6)
    else if v == 5 || v == 6 then v
    else if port.cisco && 13 <= v <= 16 then 0
    else port.flow(0)
  }

  /** HandleCPCCommand: the reply. */
  function ComPort(l: Line, cmd: seq<Byte>, port: Port): Reply
    requires |cmd| >= 6
  {
    var k, v := cmd[3], cmd[4];
    if k == 0 then (if |cmd| == 6 then Suboption(100, port.signature) else Silent)
    else if k == 1 then Suboption(101, port.speed)
    else if k == 2 then Suboption(102, [port.dataSize])
    else if k == 3 then Suboption(103, [port.parity])
    else if k == 4 then Suboption(104, [port.stopSize])
    else if k == 5 then Suboption(105, [Control(l, v, port)])
    else if k == 10 then Suboption(110, [v & 16])
    else if k == 11 then Suboption(111, [v])
    else if k == 12 then Suboption(112, [v])
    else Silent
  }

  /** HandleCPCCommand: the settings it changes. */
  function LineAfter(l: Line, cmd: seq<Byte>): Line
    requires |cmd| >= 6
  {
    var k, v := cmd[3], cmd[4];
    if k == 5 && (v == 5 || v == 6) then l.(breakOn := v == 5)
    else if k == 10 then l.(lineMask := v & 16)
    else if k == 11 then l.(modemMask := v)
    else if k == 8 || k == 9 then l.(inputFlow := k == 9)
    else l
  }

  datatype Session = Session(opts: Options, wlast: Byte, line: Line)

  /** Does HandleIACCommand pass the command on to HandleCPCCommand? */
  predicate IsComPort(x: Session, cmd: seq<Byte>)
    requires Ready(cmd)
  {
    cmd[1] == SB && cmd[2] == COM_PORT_OPTION && (cmd[2] in x.opts.isWill || cmd[2] in x.opts.isDo)
  }

  /** HandleIACCommand: the reply. */
  function Answer(x: Session, cmd: seq<Byte>, port: Port): Reply
    requires Ready(cmd)
  {
    if IsComPort(x, cmd) then ComPort(x.line, cmd, port) else Negotiate(x.opts, cmd[1], cmd[2])
  }

  /** The bytes of a reply: SendTelnetOption, or one of SendSignature, SendBaudRate
      and SendCPCByteCommand. */
  function Render(last: Byte, binary: bool, r: Reply): seq<Byte> {
    match r
    case Silent => []
    case Option(verb, o) => [IAC, verb, o]
    case Suboption(kind, data) => [IAC, SB, COM_PORT_OPTION, kind] + EscapedAll(last, binary, data) + [IAC, SE]
  }

  /** HandleIACCommand: the new state and what goes to the network. */
  function Handle(x: Session, cmd: seq<Byte>, port: Port): (Session, seq<Byte>)
    requires Ready(cmd)
  {
    var r := Answer(x, cmd, port);
    var line := if IsComPort(x, cmd) then LineAfter(x.line, cmd)
                else if (cmd[1] == WILL || cmd[1] == DO) && cmd[2] == COM_PORT_OPTION then x.line.(portControl := true)
                else x.line;
    (Session(OptionsAfter(x.opts, cmd), if r.Suboption? then LastOf(x.wlast, r.data) else x.wlast, line),
     Render(x.wlast, TRANSMIT_BINARY in x.opts.isWill, r))
  }

  // ---------- one byte from the network ----------

  datatype Server = Server(p: Parser, x: Session)

  datatype Step = Step(s: Server, net: seq<Byte>, dev: seq<Byte>)

  /** EscRedirectChar. */
  function Redirect(s: Server, c: Byte, port: Port): Step
    requires ParserOk(s.p)
  {
    var (p, a) := Parse(s.p, TRANSMIT_BINARY in s.x.opts.isDo, c);
    var p' := p.(last := c);
    match a
    case Nothing => Step(Server(p', s.x), [], [])
    case Deliver(b) => Step(Server(p', s.x), [], [b])
    case Run(cmd) =>
      ParseKeeps(s.p, TRANSMIT_BINARY in s.x.opts.isDo, c);
      var (x, net) := Handle(s.x, cmd, port);
      Step(Server(p', x), net, [])
  }

  /** IACPos stays within IACCommand and only complete commands are run. */
  lemma ParseKeeps(p: Parser, binary: bool, c: Byte)
    requires ParserOk(p)
    ensures var (p', a) := Parse(p, binary, c); ParserOk(p') && (a.Run? ==> Ready(a.cmd))
  {
    if p.escape == Receiving { CommandKeeps(p, c); }
  }

  lemma CommandKeeps(p: Parser, c: Byte)
    requires ParserOk(p) && p.escape == Receiving
    ensures var (p', a) := CommandByte(p, c); ParserOk(p') && (a.Run? ==> Ready(a.cmd))
  {
    var cmd := p.cmd + [c];
    assert cmd[1] == p.cmd[1];
    if p.cmd[1] == SB && |p.cmd| >= 4 {
      assert cmd[3] == p.cmd[3];
      if p.cmd[3] == 0 { SignatureKeeps(p, c); }
    }
  }

  lemma SignatureKeeps(p: Parser, c: Byte)
    requires ParserOk(p) && p.escape == Receiving && |p.cmd| >= 4 && p.cmd[1] == SB && p.cmd[3] == 0
    ensures var (p', a) := SignatureByte(p, c); ParserOk(p') && (a.Run? ==> Ready(a.cmd))
  {
  }
}
