/** sercd's main loop: batches of bytes between the serial device, the network and
    the two rings, and the rings themselves. */
module Sercd {
  import opened Bytes
  import opened Rings
  import opened Telnet
  import opened TelnetRuns

  const BUFFER_SIZE: nat := 2048
  const READ_BUFFER: nat := 512

  /** What a ring holds at most: one place tells full from empty. */
  const CAPACITY: nat := BUFFER_SIZE - 1

  function Min(a: nat, b: nat): nat { if a < b then a else b }

  // ---------- the loop ----------

  /** `toNet` and `toDev` are the rings; `netIn` and `devIn` all that was received
      so far, `netOut` and `devOut` all that was sent. `log` holds, in order, the bytes
      from the device and the replies. */
  datatype Loop = Loop(s: Server, toNet: seq<Byte>, toDev: seq<Byte>,
                       netIn: seq<Byte>, netOut: seq<Byte>, devIn: seq<Byte>, devOut: seq<Byte>, log: seq<Item>)

  /** A byte from the network, with what the port would answer at that moment. */
  datatype Input = Input(byte: Byte, port: Port)

  datatype Event =
    | DeviceIn(data: seq<Byte>)
    | DeviceOut(n: nat)
    | SocketOut(n: nat)
    | SocketIn(input: seq<Input>)
    | Notify(state: Byte)

  function Room(b: seq<Byte>): int { CAPACITY - |b| }

  /** AddToBuffer of several bytes; the assertion in it is the precondition here. */
  function Add(b: seq<Byte>, more: seq<Byte>): seq<Byte>
    requires |more| <= Room(b)
  {
    b + more
  }

  const NOTIFY_MODEMSTATE: Byte := 107

  /** The notice of a new modem state, as it would be sent now. */
  function Notice(l: Loop, state: Byte): seq<Byte> {
    Render(l.s.x.wlast, TRANSMIT_BINARY in l.s.x.opts.isWill, Suboption(NOTIFY_MODEMSTATE, [state]))
  }

  /** The batches that main asks for, at the moment it reads or writes. Nothing in main sees to
      it that a notice fits; if it does not, the assertion in AddToBuffer ends the run. */
  predicate Enabled(l: Loop, e: Event) {
    match e
    case DeviceIn(data) => 0 <= Room(l.toNet) && |data| <= Min(READ_BUFFER, Room(l.toNet) / ESC_WRITE_BYTES)
    case DeviceOut(n) => n <= |l.toDev|
    case SocketOut(n) => n <= |l.toNet|
    case SocketIn(input) =>
      && 0 <= Room(l.toNet) && 0 <= Room(l.toDev)
      && |input| <= Min(Min(READ_BUFFER, Room(l.toNet) / REDIRECT_NET_BYTES), Room(l.toDev) / REDIRECT_DEV_BYTES)
    case Notify(state) => |Notice(l, state)| <= Room(l.toNet)
  }

  ghost predicate PortsOk(e: Event) {
    e.SocketIn? ==> forall i :: 0 <= i < |e.input| ==> PortOk(e.input[i].port)
  }

  /** One byte from the device, through EscWriteChar. */
  function DeviceByte(l: Loop, c: Byte): Loop
    requires ESC_WRITE_BYTES <= Room(l.toNet)
  {
    var binary := TRANSMIT_BINARY in l.s.x.opts.isWill;
    l.(toNet := Add(l.toNet, Escaped(l.s.x.wlast, binary, c)), s := l.s.(x := l.s.x.(wlast := c)),
       devIn := l.devIn + [c], log := l.log + [Data(c, binary)])
  }

  function FromDevice(l: Loop, data: seq<Byte>): Loop
    requires ESC_WRITE_BYTES * |data| <= Room(l.toNet)
    decreases |data|
  {
    if data == [] then l else FromDevice(DeviceByte(l, data[0]), data[1..])
  }

  lemma {:induction false} DeviceAdds(l: Loop, data: seq<Byte>)
    requires ESC_WRITE_BYTES * |data| <= Room(l.toNet)
    ensures var l', binary := FromDevice(l, data), TRANSMIT_BINARY in l.s.x.opts.isWill;
            l' == l.(toNet := l.toNet + EscapedAll(l.s.x.wlast, binary, data), devIn := l.devIn + data, log := l'.log,
                     s := l.s.(x := l.s.x.(wlast := LastOf(l.s.x.wlast, data))))
    decreases |data|
  {
    var binary := TRANSMIT_BINARY in l.s.x.opts.isWill;
    if data == [] {
      assert l.toNet + [] == l.toNet && l.devIn + [] == l.devIn;
    } else {
      DeviceAdds(DeviceByte(l, data[0]), data[1..]);
      Associate(l.toNet, Escaped(l.s.x.wlast, binary, data[0]), EscapedAll(data[0], binary, data[1..]));
      Associate(l.devIn, [data[0]], data[1..]);
      assert data == [data[0]] + data[1..];
    }
  }

  /** One byte from the network, through EscRedirectChar. */
  function NetByte(l: Loop, c: Byte, port: Port): Loop
    requires ParserOk(l.s.p)
    requires var r := Redirect(l.s, c, port); |r.net| <= Room(l.toNet) && |r.dev| <= Room(l.toDev)
  {
    var r := Redirect(l.s, c, port);
    l.(s := r.s, toNet := Add(l.toNet, r.net), toDev := Add(l.toDev, r.dev), netIn := l.netIn + [c],
       log := l.log + [Answered(ReplyOf(l.s, c, port), TRANSMIT_BINARY in l.s.x.opts.isWill)])
  }

  ghost function FromNet(l: Loop, input: seq<Input>): Loop
    requires REDIRECT_NET_BYTES * |input| <= Room(l.toNet) && REDIRECT_DEV_BYTES * |input| <= Room(l.toDev)
    requires ParserOk(l.s.p) && forall i :: 0 <= i < |input| ==> PortOk(input[i].port)
    decreases |input|
  {
    if input == [] then l
    else
      RedirectBudget(l.s, input[0].byte, input[0].port);
      FromNet(NetByte(l, input[0].byte, input[0].port), input[1..])
  }

  ghost function Next(l: Loop, e: Event): Loop
    requires Enabled(l, e) && PortsOk(e) && ParserOk(l.s.p)
  {
    match e
    case DeviceIn(data) => FromDevice(l, data)
    case DeviceOut(n) => l.(devOut := l.devOut + l.toDev[..n], toDev := l.toDev[n..])
    case SocketOut(n) => l.(netOut := l.netOut + l.toNet[..n], toNet := l.toNet[n..])
    case SocketIn(input) => FromNet(l, input)
    case Notify(state) => Notified(l, state)
  }

  /** SendCPCByteCommand with the modem state. */
  function Notified(l: Loop, state: Byte): Loop
    requires |Notice(l, state)| <= Room(l.toNet)
  {
    l.(toNet := Add(l.toNet, Notice(l, state)), s := l.s.(x := l.s.x.(wlast := state)),
       log := l.log + [Answered(Suboption(NOTIFY_MODEMSTATE, [state]), TRANSMIT_BINARY in l.s.x.opts.isWill)])
  }

  /** Neither ring is over full; what went or will go to the device is what the parser
      makes of all that came from the network; what went or will go to the network is
      the device's bytes, escaped, and the replies, in order. */
  ghost predicate Inv(start: Server, l: Loop) {
    && ParserOk(start.p) && ParserOk(l.s.p)
    && |l.toNet| <= CAPACITY && |l.toDev| <= CAPACITY
    && Decode(start.p, start.x.opts, l.netIn) == (l.s.p, l.s.x.opts, l.devOut + l.toDev)
    && l.netOut + l.toNet == Wire(start.x.wlast, l.log) && l.s.x.wlast == LastAfter(start.x.wlast, l.log)
    && l.devIn == DataOf(l.log)
  }

  lemma {:induction false} InvFromDevice(start: Server, l: Loop, data: seq<Byte>)
    requires Inv(start, l) && ESC_WRITE_BYTES * |data| <= Room(l.toNet)
    ensures Inv(start, FromDevice(l, data))
    decreases |data|
  {
    hide Inv;
    if data != [] {
      InvDeviceByte(start, l, data[0]);
      InvFromDevice(start, DeviceByte(l, data[0]), data[1..]);
    }
  }

  lemma InvDeviceByte(start: Server, l: Loop, c: Byte)
    requires Inv(start, l) && ESC_WRITE_BYTES <= Room(l.toNet)
    ensures Inv(start, DeviceByte(l, c))
  {
    hide Decode, Wire, LastAfter, DataOf;
    var binary := TRANSMIT_BINARY in l.s.x.opts.isWill;
    WireMore(start.x.wlast, l.log, Data(c, binary));
    Associate(l.netOut, l.toNet, Escaped(l.s.x.wlast, binary, c));
  }

  lemma InvOneByte(start: Server, l: Loop, c: Byte, port: Port)
    requires Inv(start, l) && PortOk(port) && REDIRECT_NET_BYTES <= Room(l.toNet) && REDIRECT_DEV_BYTES <= Room(l.toDev)
    ensures var r := Redirect(l.s, c, port);
            |r.net| <= REDIRECT_NET_BYTES && |r.dev| <= REDIRECT_DEV_BYTES && Inv(start, NetByte(l, c, port))
  {
    hide Decode, Wire, LastAfter, DataOf, Redirect, ReplyOf;
    RedirectBudget(l.s, c, port);
    RedirectDecodes(l.s, c, port);
    DecodeJoin(start.p, start.x.opts, l.netIn, [c]);
    var r := Redirect(l.s, c, port);
    RedirectReplies(l.s, c, port);
    WireMore(start.x.wlast, l.log, Answered(ReplyOf(l.s, c, port), TRANSMIT_BINARY in l.s.x.opts.isWill));
    Associate(l.devOut, l.toDev, r.dev);
    Associate(l.netOut, l.toNet, r.net);
    assert l.devIn + [] == l.devIn;
  }

  lemma {:induction false} InvFromNet(start: Server, l: Loop, input: seq<Input>)
    requires REDIRECT_NET_BYTES * |input| <= Room(l.toNet) && REDIRECT_DEV_BYTES * |input| <= Room(l.toDev)
    requires Inv(start, l) && forall i :: 0 <= i < |input| ==> PortOk(input[i].port)
    ensures Inv(start, FromNet(l, input))
    decreases |input|
  {
    if input != [] {
      var c, port := input[0].byte, input[0].port;
      InvOneByte(start, l, c, port);
      InvFromNet(start, NetByte(l, c, port), input[1..]);
    }
  }

  lemma InvNext(start: Server, l: Loop, e: Event)
    requires Inv(start, l) && Enabled(l, e) && PortsOk(e)
    ensures Inv(start, Next(l, e))
  {
    match e
    case DeviceIn(data) => InvFromDevice(start, l, data);
    case DeviceOut(n) => assert (l.devOut + l.toDev[..n]) + l.toDev[n..] == l.devOut + l.toDev;
    case SocketOut(n) => assert (l.netOut + l.toNet[..n]) + l.toNet[n..] == l.netOut + l.toNet;
    case SocketIn(input) => InvFromNet(start, l, input);
    case Notify(state) => InvNotified(start, l, state);
  }

  lemma InvNotified(start: Server, l: Loop, state: Byte)
    requires Inv(start, l) && |Notice(l, state)| <= Room(l.toNet)
    ensures Inv(start, Notified(l, state))
  {
    hide Decode, Wire, LastAfter, DataOf, Render;
    WireMore(start.x.wlast, l.log, Answered(Suboption(NOTIFY_MODEMSTATE, [state]), TRANSMIT_BINARY in l.s.x.opts.isWill));
    Associate(l.netOut, l.toNet, Notice(l, state));
    assert l.devIn + [] == l.devIn;
  }

  /** A run: every batch is of a size that main would ask for. */
  ghost predicate IsRun(l: Loop, run: seq<Event>)
    decreases |run|
  {
    run == [] ||
    (Enabled(l, run[0]) && PortsOk(run[0]) && ParserOk(l.s.p) && IsRun(Next(l, run[0]), run[1..]))
  }

  ghost function After(l: Loop, run: seq<Event>): Loop
    requires IsRun(l, run)
    decreases |run|
  {
    if run == [] then l else After(Next(l, run[0]), run[1..])
  }

  lemma {:induction false} RunInv(start: Server, l: Loop, run: seq<Event>)
    requires Inv(start, l) && IsRun(l, run)
    ensures Inv(start, After(l, run))
    decreases |run|
  {
    if run != [] {
      InvNext(start, l, run[0]);
      RunInv(start, Next(l, run[0]), run[1..]);
    }
  }

  function Begin(start: Server): Loop {
    Loop(start, [], [], [], [], [], [], [])
  }

  /** Over every run, however the streams are cut into batches: what the network gets is, in
      order, the escaped bytes of the device and the replies. */
  lemma NetworkGetsTheLog(start: Server, run: seq<Event>)
    requires ParserOk(start.p) && IsRun(Begin(start), run)
    ensures var l := After(Begin(start), run);
            && l.netOut + l.toNet == Wire(start.x.wlast, l.log) && l.netOut <= Wire(start.x.wlast, l.log)
            && DataOf(l.log) == l.devIn
  {
    hide Wire, Decode;
    BeginInv(start);
    RunInv(start, Begin(start), run);
  }

  lemma BeginInv(start: Server)
    requires ParserOk(start.p)
    ensures Inv(start, Begin(start))
  {
    var none: seq<Byte> := [];
    assert none + none == none;
  }

  /** Over every run, however the streams are cut into batches: the rings never
      overflow, and the device gets, in order, exactly what the parser makes of the whole
      network stream. SercdClient says when that is what a client sent. */
  lemma DeviceGetsTheStream(start: Server, run: seq<Event>)
    requires ParserOk(start.p) && IsRun(Begin(start), run)
    ensures var l := After(Begin(start), run);
            && |l.toNet| <= CAPACITY && |l.toDev| <= CAPACITY && ParserOk(l.s.p)
            && l.devOut <= Decode(start.p, start.x.opts, l.netIn).2
            && l.devOut + l.toDev == Decode(start.p, start.x.opts, l.netIn).2
  {
    BeginInv(start);
    RunInv(start, Begin(start), run);
  }

  // ---------- the rings ----------

  class Buffer {
    const data: array<Byte>
    var rd: nat
    var wr: nat

    ghost predicate Valid()
      reads this
    {
      data.Length == BUFFER_SIZE && rd < BUFFER_SIZE && wr < BUFFER_SIZE
    }

    /** BufferLength. */
    function Length(): (n: nat)
      requires Valid()
      reads this
      ensures n <= CAPACITY && (n == 0 <==> rd == wr) && wr == Wrap(rd + n, BUFFER_SIZE)
    {
      (wr - rd + BUFFER_SIZE) % BUFFER_SIZE
    }

    ghost function Contents(): (s: seq<Byte>)
      requires Valid()
      reads this, data
      ensures |s| == Length()
    {
      Window(data[..], rd, Length())
    }

    /** InitBuffer. */
    constructor ()
      ensures Valid() && fresh(data) && Contents() == []
    {
      data := new Byte[BUFFER_SIZE];
      rd, wr := 0, 0;
    }

    /** InitBuffer of a ring that has been in use. */
    method Reset()
      requires Valid()
      modifies this`rd, this`wr
      ensures Valid() && Contents() == []
    {
      rd, wr := 0, 0;
    }

    /** AddToBuffer. */
    method AddToBuffer(c: Byte)
      requires Valid() && Length() < CAPACITY
      modifies this`wr, data
      ensures Valid() && Contents() == old(Contents()) + [c]
    {
      hide Window;
      WindowPut(data[..], rd, Length(), [c]);
      ghost var before := data[..];
      data[wr] := c;
      assert data[..] == Write(before, wr, [c]);
      wr := (wr + 1) % BUFFER_SIZE;
    }

    /** GetFromBuffer. */
    method GetFromBuffer() returns (c: Byte)
      requires Valid() && Length() > 0
      modifies this`rd
      ensures Valid() && old(Contents()) == [c] + Contents()
    {
      hide Window;
      WindowTake(data[..], rd, Length(), 1);
      c := data[rd];
      assert data[..][rd..rd + 1] == [c];
      rd := (rd + 1) % BUFFER_SIZE;
    }

    /** GetBufferString: a piece that lies in one stretch. */
    method GetBufferString() returns (piece: seq<Byte>)
      requires Valid()
      ensures piece <= Contents() && (Contents() != [] ==> piece != []) && rd + |piece| <= BUFFER_SIZE
    {
      var len := if rd <= wr then wr - rd else BUFFER_SIZE - rd;
      WindowTake(data[..], rd, Length(), len);
      piece := data[rd..rd + len];
      assert piece == data[..][rd..rd + len];
    }

    /** BufferPopBytes, after n bytes of that piece have been written. */
    method BufferPopBytes(n: nat)
      requires Valid() && n <= Length() && rd + n <= BUFFER_SIZE
      modifies this`rd
      ensures Valid() && Contents() == old(Contents())[n..]
    {
      hide Window;
      WindowTake(data[..], rd, Length(), n);
      rd := (rd + n) % BUFFER_SIZE;
    }
  }

  // ---------- writing to the network ring ----------

  /** EscWriteChar, with its static Last as a parameter and result. */
  method EscWriteChar(b: Buffer, last: Byte, binary: bool, c: Byte) returns (last': Byte)
    requires b.Valid() && b.Length() + |Escaped(last, binary, c)| <= CAPACITY
    modifies b, b.data
    ensures b.Valid() && b.Contents() == old(b.Contents()) + Escaped(last, binary, c) && last' == c
  {
    ghost var before := b.Contents();
    if c == IAC {
      b.AddToBuffer(c);
      assert b.Contents() == before + [IAC];
    } else if c != LF && !binary && last == CR {
      b.AddToBuffer(0);
      assert b.Contents() == before + [0];
    }
    b.AddToBuffer(c);
    last' := c;
  }

  /** SendStr, and the loop over the bytes read from the device. */
  method EscWriteAll(b: Buffer, last: Byte, binary: bool, data: seq<Byte>) returns (last': Byte)
    requires b.Valid() && b.Length() + |EscapedAll(last, binary, data)| <= CAPACITY
    modifies b, b.data
    ensures b.Valid() && b.Contents() == old(b.Contents()) + EscapedAll(last, binary, data) && last' == LastOf(last, data)
  {
    hide Window, EscapedAll;
    last' := last;
    ghost var before := b.Contents();
    var i := 0;
    assert data[0..] == data;
    while i < |data|
      invariant 0 <= i <= |data| && b.Valid() && last' == LastOf(last, data[..i])
      invariant b.Contents() + EscapedAll(last', binary, data[i..]) == before + EscapedAll(last, binary, data)
      invariant b.Length() + |EscapedAll(last', binary, data[i..])| <= CAPACITY
    {
      EscapedFrom(last', binary, data, i);
      ghost var rest := EscapedAll(data[i], binary, data[i + 1..]);
      Associate(b.Contents(), Escaped(last', binary, data[i]), rest);
      last' := EscWriteChar(b, last', binary, data[i]);
      i := i + 1;
    }
    assert data[..i] == data && data[i..] == [];
    EscapedFrom(last', binary, data, i);
    assert b.Contents() + [] == b.Contents();
  }

  lemma EscapedFrom(last: Byte, binary: bool, data: seq<Byte>, i: nat)
    requires i <= |data|
    ensures EscapedAll(last, binary, data[i..]) ==
            if i == |data| then [] else Escaped(last, binary, data[i]) + EscapedAll(data[i], binary, data[i + 1..])
  {
    if i < |data| { assert data[i..][1..] == data[i + 1..]; }
  }

  /** SendSignature, SendBaudRate and SendCPCByteCommand: four bytes, the escaped
      data, two bytes. */
  method SendSuboption(b: Buffer, last: Byte, binary: bool, kind: Byte, data: seq<Byte>) returns (last': Byte)
    requires b.Valid() && b.Length() + |Render(last, binary, Suboption(kind, data))| <= CAPACITY
    modifies b, b.data
    ensures b.Valid() && b.Contents() == old(b.Contents()) + Render(last, binary, Suboption(kind, data)) && last' == LastOf(last, data)
  {
    ghost var before := b.Contents();
    ghost var head, body := [IAC, SB, COM_PORT_OPTION, kind], EscapedAll(last, binary, data);
    AddBytes(b, [IAC, SB, COM_PORT_OPTION, kind]);
    last' := EscWriteAll(b, last, binary, data);
    AddBytes(b, [IAC, SE]);
    Associate(before, head, body);
    Associate(before, head + body, [IAC, SE]);
  }

  /** AddToBuffer, one byte after the other. */
  method AddBytes(b: Buffer, bytes: seq<Byte>)
    requires b.Valid() && b.Length() + |bytes| <= CAPACITY
    modifies b, b.data
    ensures b.Valid() && b.Contents() == old(b.Contents()) + bytes
  {
    ghost var before := b.Contents();
    var i := 0;
    assert before + bytes[..0] == before;
    while i < |bytes|
      invariant 0 <= i <= |bytes| && b.Valid() && b.Contents() == before + bytes[..i]
    {
      assert bytes[..i + 1] == bytes[..i] + [bytes[i]];
      Associate(before, bytes[..i], [bytes[i]]);
      b.AddToBuffer(bytes[i]);
      i := i + 1;
    }
    assert bytes[..i] == bytes;
  }
}
