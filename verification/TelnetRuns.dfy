/** What the codec promises: data survives escaping, replies stay within their
    budget, and the two rings never overflow. */
module TelnetRuns {
  import opened Bytes
  import opened Telnet

  const ESC_WRITE_BYTES: nat := 2
  const REDIRECT_NET_BYTES: nat := 516
  const REDIRECT_DEV_BYTES: nat := 1

  // ---------- budgets ----------

  lemma {:induction false} EscapedSize(last: Byte, binary: bool, data: seq<Byte>)
    ensures |data| <= |EscapedAll(last, binary, data)| <= ESC_WRITE_BYTES * |data|
    decreases |data|
  {
    if data != [] { EscapedSize(data[0], binary, data[1..]); }
  }

  /** No reply is longer than a signature. */
  lemma AnswerSize(x: Session, cmd: seq<Byte>, port: Port)
    requires Ready(cmd) && PortOk(port)
    ensures var r := Answer(x, cmd, port); r.Suboption? ==> |r.data| <= 254
  {
  }

  lemma HandleBudget(x: Session, cmd: seq<Byte>, port: Port)
    requires Ready(cmd) && PortOk(port)
    ensures |Handle(x, cmd, port).1| <= REDIRECT_NET_BYTES
  {
    AnswerSize(x, cmd, port);
    var r := Answer(x, cmd, port);
    if r.Suboption? { EscapedSize(x.wlast, TRANSMIT_BINARY in x.opts.isWill, r.data); }
  }

  /** For every byte: IACPos stays within IACCommand, at most 516 bytes go to the
      network ring and at most one to the device ring. */
  lemma RedirectBudget(s: Server, c: Byte, port: Port)
    requires ParserOk(s.p) && PortOk(port)
    ensures var r := Redirect(s, c, port);
            ParserOk(r.s.p) && |r.net| <= REDIRECT_NET_BYTES && |r.dev| <= REDIRECT_DEV_BYTES
  {
    var binary := TRANSMIT_BINARY in s.x.opts.isDo;
    ParseKeeps(s.p, binary, c);
    var (p, a) := Parse(s.p, binary, c);
    if a.Run? { HandleBudget(s.x, a.cmd, port); }
  }

  // ---------- a whole stream ----------

  /** What the parser hands to the device for a network stream; it depends on the
      options that the stream itself negotiates, and on nothing else. */
  function Decode(p: Parser, t: Options, data: seq<Byte>): (r: (Parser, Options, seq<Byte>))
    requires ParserOk(p)
    ensures ParserOk(r.0)
    decreases |data|
  {
    if data == [] then (p, t, [])
    else
      ParseKeeps(p, TRANSMIT_BINARY in t.isDo, data[0]);
      var (p1, a) := Parse(p, TRANSMIT_BINARY in t.isDo, data[0]);
      var (p2, t2, rest) := Decode(p1.(last := data[0]), if a.Run? then OptionsAfter(t, a.cmd) else t, data[1..]);
      (p2, t2, (if a.Deliver? then [a.byte] else []) + rest)
  }

  lemma {:induction false} DecodeJoin(p: Parser, t: Options, a: seq<Byte>, b: seq<Byte>)
    requires ParserOk(p)
    ensures var (p1, t1, x) := Decode(p, t, a);
            var (p2, t2, y) := Decode(p1, t1, b);
            Decode(p, t, a + b) == (p2, t2, x + y)
    decreases |a|
  {
    hide Parse, OptionsAfter;
    if a == [] {
      assert a + b == b;
      assert [] + Decode(p, t, b).2 == Decode(p, t, b).2;
    } else {
      ParseKeeps(p, TRANSMIT_BINARY in t.isDo, a[0]);
      var (p1, e) := Parse(p, TRANSMIT_BINARY in t.isDo, a[0]);
      var t1 := if e.Run? then OptionsAfter(t, e.cmd) else t;
      DecodeJoin(p1.(last := a[0]), t1, a[1..], b);
      assert (a + b)[1..] == a[1..] + b;
      var out := if e.Deliver? then [e.byte] else [];
      var x := Decode(p1.(last := a[0]), t1, a[1..]);
      var y := Decode(x.0, x.1, b);
      assert out + (x.2 + y.2) == (out + x.2) + y.2;
    }
  }

  /** One step of the server is one step of the decoder. */
  lemma RedirectDecodes(s: Server, c: Byte, port: Port)
    requires ParserOk(s.p)
    ensures var r := Redirect(s, c, port); Decode(s.p, s.x.opts, [c]) == (r.s.p, r.s.x.opts, r.dev)
  {
    var binary := TRANSMIT_BINARY in s.x.opts.isDo;
    ParseKeeps(s.p, binary, c);
    var (p1, a) := Parse(s.p, binary, c);
    var t1 := if a.Run? then OptionsAfter(s.x.opts, a.cmd) else s.x.opts;
    assert [c][1..] == [];
    assert Decode(p1.(last := c), t1, []) == (p1.(last := c), t1, []);
    var out: seq<Byte> := if a.Deliver? then [a.byte] else [];
    assert out + [] == out;
  }

  lemma DecodeOne(p: Parser, t: Options, c: Byte)
    requires ParserOk(p)
    ensures ParserOk(Parse(p, TRANSMIT_BINARY in t.isDo, c).0)
    ensures var (p1, a) := Parse(p, TRANSMIT_BINARY in t.isDo, c);
            !a.Run? ==> Decode(p, t, [c]) == (p1.(last := c), t, if a.Deliver? then [a.byte] else [])
  {
    ParseKeeps(p, TRANSMIT_BINARY in t.isDo, c);
    var (p1, a) := Parse(p, TRANSMIT_BINARY in t.isDo, c);
    assert [c][1..] == [];
    if !a.Run? { assert Decode(p1.(last := c), t, []) == (p1.(last := c), t, []); }
    var out: seq<Byte> := if a.Deliver? then [a.byte] else [];
    assert out + [] == out;
  }

  /** The two bytes or one that stand for c, read back. */
  lemma DecodeChar(p: Parser, t: Options, c: Byte)
    requires ParserOk(p) && p.escape == Normal
    ensures Decode(p, t, Escaped(p.last, TRANSMIT_BINARY in t.isDo, c)) == (p.(last := c), t, [c])
  {
    var e := Escaped(p.last, TRANSMIT_BINARY in t.isDo, c);
    DecodeOne(p, t, e[0]);
    if |e| == 1 {
      assert e == [c];
    } else {
      assert e == [e[0]] + [e[1]];
      var p1 := Parse(p, TRANSMIT_BINARY in t.isDo, e[0]).0.(last := e[0]);
      DecodeOne(p1, t, e[1]);
      DecodeJoin(p, t, [e[0]], [e[1]]);
      assert [] + [c] == [c];
    }
  }

  lemma DecodeNothing(p: Parser, t: Options)
    requires ParserOk(p)
    ensures Decode(p, t, []) == (p, t, [])
  {
  }

  /** For every byte string and either setting of binary mode: what EscWriteChar
      writes, EscRedirectChar reads back, and is in its normal state again. */
  lemma {:induction false} EscapingIsUndone(p: Parser, t: Options, data: seq<Byte>)
    requires ParserOk(p) && p.escape == Normal
    ensures Decode(p, t, EscapedAll(p.last, TRANSMIT_BINARY in t.isDo, data)) == (p.(last := LastOf(p.last, data)), t, data)
    decreases |data|
  {
    hide Parse, OptionsAfter, Escaped, Decode;
    if data == [] {
      DecodeNothing(p, t);
    } else {
      var c, rest, binary := data[0], data[1..], TRANSMIT_BINARY in t.isDo;
      DecodeChar(p, t, c);
      EscapingIsUndone(p.(last := c), t, rest);
      DecodeJoin(p, t, Escaped(p.last, binary, c), EscapedAll(c, binary, rest));
      assert data == [c] + rest;
    }
  }

  // ---------- what goes to the network ----------

  /** A byte from the device or a reply, with the setting of binary mode at that moment. */
  datatype Item = Data(byte: Byte, binary: bool) | Answered(reply: Reply, binary: bool)

  function ItemBytes(last: Byte, x: Item): seq<Byte> {
    match x
    case Data(c, binary) => Escaped(last, binary, c)
    case Answered(r, binary) => Render(last, binary, r)
  }

  /** The Last byte of EscWriteChar after an item: options are sent around it. */
  function ItemLast(last: Byte, x: Item): Byte {
    match x
    case Data(c, _) => c
    case Answered(r, _) => if r.Suboption? then LastOf(last, r.data) else last
  }

  function LastAfter(last: Byte, log: seq<Item>): Byte {
    if log == [] then last else ItemLast(LastAfter(last, log[..|log| - 1]), log[|log| - 1])
  }

  /** All items of a log on the wire, one after the other. */
  function Wire(last: Byte, log: seq<Item>): seq<Byte> {
    if log == [] then []
    else Wire(last, log[..|log| - 1]) + ItemBytes(LastAfter(last, log[..|log| - 1]), log[|log| - 1])
  }

  function DataOf(log: seq<Item>): seq<Byte> {
    if log == [] then []
    else DataOf(log[..|log| - 1]) + if log[|log| - 1].Data? then [log[|log| - 1].byte] else []
  }

  lemma WireMore(last: Byte, log: seq<Item>, x: Item)
    ensures Wire(last, log + [x]) == Wire(last, log) + ItemBytes(LastAfter(last, log), x)
    ensures LastAfter(last, log + [x]) == ItemLast(LastAfter(last, log), x)
    ensures DataOf(log + [x]) == DataOf(log) + if x.Data? then [x.byte] else []
  {
    assert (log + [x])[..|log + [x]| - 1] == log;
  }

  /** The reply that a byte from the network draws. */
  function ReplyOf(s: Server, c: Byte, port: Port): Reply
    requires ParserOk(s.p)
  {
    var binary := TRANSMIT_BINARY in s.x.opts.isDo;
    ParseKeeps(s.p, binary, c);
    var (_, a) := Parse(s.p, binary, c);
    if a.Run? then Answer(s.x, a.cmd, port) else Silent
  }

  lemma RedirectReplies(s: Server, c: Byte, port: Port)
    requires ParserOk(s.p)
    ensures var r, x := Redirect(s, c, port), Answered(ReplyOf(s, c, port), TRANSMIT_BINARY in s.x.opts.isWill);
            r.net == ItemBytes(s.x.wlast, x) && r.s.x.wlast == ItemLast(s.x.wlast, x)
  {
    ParseKeeps(s.p, TRANSMIT_BINARY in s.x.opts.isDo, c);
  }

  // ---------- replies ----------

  /** IAC doubled, nothing else: the escaping of RFC 2217 inside a suboption. */
  function Doubled(v: Byte): seq<Byte> {
    if v == IAC then [IAC, IAC] else [v]
  }

  function DoubledAll(data: seq<Byte>): seq<Byte> {
    if data == [] then [] else Doubled(data[0]) + DoubledAll(data[1..])
  }

  /** The byte written before data[i]. */
  function Before(last: Byte, data: seq<Byte>, i: nat): Byte
    requires i < |data|
  {
    if i == 0 then last else data[i - 1]
  }

  /** Some byte of data follows a carriage return and is neither a line feed nor IAC. */
  predicate Stuffs(last: Byte, data: seq<Byte>) {
    exists i :: 0 <= i < |data| && Before(last, data, i) == CR && data[i] != LF && data[i] != IAC
  }

  lemma StuffsHead(last: Byte, data: seq<Byte>)
    requires data != []
    ensures Stuffs(last, data) <==> (last == CR && data[0] != LF && data[0] != IAC) || Stuffs(data[0], data[1..])
  {
    var rest := data[1..];
    forall i | 0 <= i < |rest| ensures Before(data[0], rest, i) == Before(last, data, i + 1) && rest[i] == data[i + 1] {}
    if Stuffs(last, data) {
      var i :| 0 <= i < |data| && Before(last, data, i) == CR && data[i] != LF && data[i] != IAC;
      if i > 0 { assert Before(data[0], rest, i - 1) == CR && rest[i - 1] != LF && rest[i - 1] != IAC; }
    }
    if Stuffs(data[0], rest) {
      var i :| 0 <= i < |rest| && Before(data[0], rest, i) == CR && rest[i] != LF && rest[i] != IAC;
      assert Before(last, data, i + 1) == CR;
    }
    if last == CR && data[0] != LF && data[0] != IAC { assert Before(last, data, 0) == CR; }
  }

  lemma {:induction false} EscapedNoShorter(last: Byte, binary: bool, data: seq<Byte>)
    ensures |DoubledAll(data)| <= |EscapedAll(last, binary, data)|
    decreases |data|
  {
    if data != [] { EscapedNoShorter(data[0], binary, data[1..]); }
  }

  lemma SameFront(a: seq<Byte>, x: seq<Byte>, y: seq<Byte>)
    ensures a + x == a + y <==> x == y
  {
    if a + x == a + y {
      assert x == (a + x)[|a|..] && y == (a + y)[|a|..];
    }
  }

  lemma SameBack(x: seq<Byte>, y: seq<Byte>, b: seq<Byte>)
    ensures x + b == y + b <==> x == y
  {
    if x + b == y + b {
      assert |x| == |y|;
      assert x == (x + b)[..|x|] && y == (y + b)[..|y|];
    }
  }

  /** EscWriteChar doubles IAC and does nothing else exactly when binary mode is on or no
      byte asks for a NUL. */
  lemma {:induction false} EscapedIsDoubledIff(last: Byte, binary: bool, data: seq<Byte>)
    ensures EscapedAll(last, binary, data) == DoubledAll(data) <==> binary || !Stuffs(last, data)
    decreases |data|
  {
    if data != [] {
      var c, rest := data[0], data[1..];
      StuffsHead(last, data);
      EscapedIsDoubledIff(c, binary, rest);
      EscapedNoShorter(c, binary, rest);
      SameFront(Doubled(c), EscapedAll(c, binary, rest), DoubledAll(rest));
    }
  }

  /** A reply with any data is the proper COM port suboption for it if and only if binary
      mode is on or no byte of the data, other than a line feed or IAC, follows a carriage
      return; the byte written before the reply counts as the one before its data. */
  lemma ReplyIsFramedIff(last: Byte, binary: bool, kind: Byte, data: seq<Byte>)
    ensures Render(last, binary, Suboption(kind, data)) == [IAC, SB, COM_PORT_OPTION, kind] + DoubledAll(data) + [IAC, SE]
      <==> binary || !Stuffs(last, data)
  {
    var head, x, y := [IAC, SB, COM_PORT_OPTION, kind], EscapedAll(last, binary, data), DoubledAll(data);
    EscapedIsDoubledIff(last, binary, data);
    SameFront(head, x, y);
    SameBack(head + x, head + y, [IAC, SE]);
  }
}
