/** One suboption in the parser: it collects a fixed number of bytes by the kind of the
    command, and only in a signature does it know about doubled IACs. */
module SercdFrames {
  import opened Bytes
  import opened Telnet
  import opened TelnetRuns

  function Front(o: Byte): seq<Byte> {
    [IAC, SB, o]
  }

  function Header(o: Byte, kind: Byte): seq<Byte> {
    [IAC, SB, o, kind]
  }

  /** Parameters and trailer as they go over the wire, and as they are meant. */
  function OnWire(d: seq<Byte>): seq<Byte> { DoubledAll(d) + [IAC, SE] }

  function Meant(d: seq<Byte>): seq<Byte> { d + [IAC, SE] }

  /** A suboption on the wire: IAC is doubled among the parameters. */
  function Frame(o: Byte, d: seq<Byte>): seq<Byte> {
    Front(o) + OnWire(d)
  }

  /** What has to arrive in IACCommand, as far as there is room. */
  function Arrived(o: Byte, d: seq<Byte>): seq<Byte> {
    Cut(Front(o) + Meant(d))
  }

  function Cut(s: seq<Byte>): seq<Byte> {
    if |s| <= TMP_STR_LEN then s else s[..TMP_STR_LEN]
  }

  /** The parser in the middle of a suboption. */
  ghost predicate Inside(p: Parser, cmd: seq<Byte>) {
    p.escape == Receiving && p.sigEscape == Normal && p.cmd == cmd && CommandOk(cmd) && cmd[1] == SB
  }

  /** One byte at a time. */
  lemma DecodeStep(p: Parser, t: Options, c: Byte, rest: seq<Byte>)
    requires ParserOk(p)
    ensures var (p1, a) := Parse(p, TRANSMIT_BINARY in t.isDo, c);
            && ParserOk(p1.(last := c))
            && (a == Nothing ==> Decode(p, t, [c] + rest) == Decode(p1.(last := c), t, rest))
            && (a.Deliver? ==> var r := Decode(p1.(last := c), t, rest); Decode(p, t, [c] + rest) == (r.0, r.1, [a.byte] + r.2))
            && (a.Run? ==> Ready(a.cmd) && Decode(p, t, [c] + rest) == Decode(p1.(last := c), OptionsAfter(t, a.cmd), rest))
  {
    hide Parse, OptionsAfter;
    ParseKeeps(p, TRANSMIT_BINARY in t.isDo, c);
    assert ([c] + rest)[1..] == rest;
    var (p1, a) := Parse(p, TRANSMIT_BINARY in t.isDo, c);
    var r := Decode(p1.(last := c), if a.Run? then OptionsAfter(t, a.cmd) else t, rest);
    assert [] + r.2 == r.2;
  }

  lemma FrontIn(p: Parser, t: Options, o: Byte, rest: seq<Byte>)
    requires ParserOk(p) && p.escape == Normal
    ensures var p' := Parser(Receiving, Normal, Front(o), o);
            Inside(p', Front(o)) && ParserOk(p') && Decode(p, t, Front(o) + rest) == Decode(p', t, rest)
  {
    hide Decode;
    var p1 := p.(escape := Received, last := IAC);
    var p2 := Parser(Receiving, Normal, [IAC, SB], SB);
    assert [IAC, SB] + [o] == Front(o);
    DecodeStep(p, t, IAC, [SB, o] + rest);
    DecodeStep(p1, t, SB, [o] + rest);
    DecodeStep(p2, t, o, rest);
    assert [IAC] + ([SB, o] + rest) == Front(o) + rest && [SB] + ([o] + rest) == [SB, o] + rest;
  }

  lemma HeaderIn(p: Parser, t: Options, o: Byte, kind: Byte, rest: seq<Byte>)
    requires ParserOk(p) && p.escape == Normal
    ensures var p' := Parser(Receiving, Normal, Header(o, kind), kind);
            Inside(p', Header(o, kind)) && ParserOk(p') && Decode(p, t, Header(o, kind) + rest) == Decode(p', t, rest)
  {
    hide Decode;
    assert Front(o) + [kind] == Header(o, kind) && Header(o, kind) + rest == Front(o) + ([kind] + rest);
    FrontIn(p, t, o, [kind] + rest);
    DecodeStep(Parser(Receiving, Normal, Front(o), o), t, kind, rest);
  }

  /** Parameters are collected as they come, up to the length of the command. */
  lemma {:induction false} Collected(p: Parser, t: Options, cmd: seq<Byte>, u: seq<Byte>, rest: seq<Byte>)
    requires ParserOk(p) && Inside(p, cmd) && |cmd| >= 4 && cmd[3] != 0 && |cmd| + |u| < Complete(cmd[3])
    ensures var p' := p.(cmd := cmd + u, last := LastOf(p.last, u));
            Inside(p', cmd + u) && ParserOk(p') && Decode(p, t, u + rest) == Decode(p', t, rest)
    decreases |u|
  {
    hide Decode;
    if u == [] {
      assert cmd + u == cmd && u + rest == rest;
    } else {
      var p1 := p.(cmd := cmd + [u[0]], last := u[0]);
      assert u + rest == [u[0]] + (u[1..] + rest) && cmd + u == cmd + [u[0]] + u[1..];
      DecodeStep(p, t, u[0], u[1..] + rest);
      assert (cmd + [u[0]])[1] == SB && (cmd + [u[0]])[3] == cmd[3];
      Collected(p1, t, cmd + [u[0]], u[1..], rest);
    }
  }

  /** The command is dispatched as soon as that many bytes have come, whatever they are. */
  lemma Dispatched(p: Parser, t: Options, o: Byte, kind: Byte, u: seq<Byte>, rest: seq<Byte>)
    requires ParserOk(p) && p.escape == Normal && kind != 0 && |u| == Complete(kind) - 4
    ensures var p' := Parser(Normal, Normal, Header(o, kind) + u, u[|u| - 1]);
            ParserOk(p') && Decode(p, t, Header(o, kind) + u + rest) == Decode(p', t, rest)
  {
    hide Decode;
    var head, front, c := Header(o, kind), u[..|u| - 1], u[|u| - 1];
    assert head + u + rest == head + (front + ([c] + rest));
    HeaderIn(p, t, o, kind, front + ([c] + rest));
    var p1 := Parser(Receiving, Normal, head, kind);
    Collected(p1, t, head, front, [c] + rest);
    var p2 := p1.(cmd := head + front, last := LastOf(kind, front));
    assert p2.cmd + [c] == head + u && p2.cmd[3] == kind && p2.cmd[1] == SB;
    DecodeStep(p2, t, c, rest);
    assert OptionsAfter(t, head + u) == t;
  }

  /** With fewer bytes the parser is still in the middle of it. */
  lemma NotYet(p: Parser, t: Options, o: Byte, kind: Byte, u: seq<Byte>)
    requires ParserOk(p) && p.escape == Normal && kind != 0 && |u| < Complete(kind) - 4
    ensures Decode(p, t, Header(o, kind) + u).0.escape == Receiving
  {
    hide Decode;
    var head := Header(o, kind);
    assert u + [] == u;
    HeaderIn(p, t, o, kind, u);
    var p1 := Parser(Receiving, Normal, head, kind);
    Collected(p1, t, head, u, []);
    DecodeNothing(p1.(cmd := head + u, last := LastOf(kind, u)), t);
  }

  /** The bytes that the parser holds of a command that it has not dispatched. */
  function HeldBytes(p: Parser): nat {
    match p.escape
    case Normal => 0
    case Received => 1
    case Receiving => |p.cmd| + if p.sigEscape == Received then 1 else 0
  }

  lemma StepHolds(p: Parser, binary: bool, c: Byte)
    requires ParserOk(p)
    ensures var p' := Parse(p, binary, c).0;
            HeldBytes(p') <= HeldBytes(p) + 1 && (p'.cmd == p.cmd || |p'.cmd| <= HeldBytes(p) + 1)
  {
  }

  /** What is in IACCommand after `rest` was there before, or came with it. */
  lemma {:induction false} CommandComesFrom(p: Parser, t: Options, rest: seq<Byte>)
    requires ParserOk(p)
    ensures var p' := Decode(p, t, rest).0; p'.cmd == p.cmd || |p'.cmd| <= HeldBytes(p) + |rest|
    decreases |rest|
  {
    hide Parse, OptionsAfter;
    if rest != [] {
      var binary := TRANSMIT_BINARY in t.isDo;
      ParseKeeps(p, binary, rest[0]);
      StepHolds(p, binary, rest[0]);
      var (p1, a) := Parse(p, binary, rest[0]);
      CommandComesFrom(p1.(last := rest[0]), if a.Run? then OptionsAfter(t, a.cmd) else t, rest[1..]);
    }
  }

  /** A command that has been dispatched. */
  predicate Shaped(cmd: seq<Byte>) {
    |cmd| == 3 || (|cmd| >= 4 && cmd[1] == SB && (cmd[3] == 0 || |cmd| == Complete(cmd[3])))
  }

  lemma StepShapes(p: Parser, binary: bool, c: Byte)
    requires ParserOk(p)
    ensures var p' := Parse(p, binary, c).0;
            p'.escape != Receiving ==> Shaped(p'.cmd) || (p.escape != Receiving && p'.cmd == p.cmd)
  {
    if p.escape == Receiving && p.cmd[1] == SB && |p.cmd| >= 4 {
      assert (p.cmd + [c])[1] == SB && (p.cmd + [c])[3] == p.cmd[3];
    }
  }

  /** Between commands there is in IACCommand what was there before, or a whole command. */
  lemma {:induction false} CommandIsWhole(p: Parser, t: Options, rest: seq<Byte>)
    requires ParserOk(p)
    ensures var p' := Decode(p, t, rest).0;
            p'.escape == Normal ==> Shaped(p'.cmd) || (p.escape != Receiving && p'.cmd == p.cmd)
    decreases |rest|
  {
    hide Parse, OptionsAfter, Shaped;
    if rest != [] {
      var binary := TRANSMIT_BINARY in t.isDo;
      ParseKeeps(p, binary, rest[0]);
      StepShapes(p, binary, rest[0]);
      var (p1, a) := Parse(p, binary, rest[0]);
      CommandIsWhole(p1.(last := rest[0]), if a.Run? then OptionsAfter(t, a.cmd) else t, rest[1..]);
    }
  }

  function Iacs(n: nat): (r: seq<Byte>)
    ensures |r| == n && forall i :: 0 <= i < n ==> r[i] == IAC
  {
    seq(n, i => IAC)
  }

  lemma {:induction false} DoubledLonger(d: seq<Byte>)
    ensures |d| <= |DoubledAll(d)| <= 2 * |d|
    ensures IAC !in d <==> |DoubledAll(d)| == |d|
    ensures IAC !in d ==> DoubledAll(d) == d
  {
    if d != [] {
      DoubledLonger(d[1..]);
      assert d == [d[0]] + d[1..];
    }
  }

  lemma PrefixCons(c: Byte, w: seq<Byte>, m: seq<Byte>, k: nat)
    requires k <= |w| && w[..k] != m
    ensures ([c] + w)[..k + 1] != [c] + m
  {
    assert ([c] + w)[..k + 1] == [c] + w[..k];
    SameFront([c], w[..k], m);
  }

  lemma WireHead(d: seq<Byte>)
    requires d != []
    ensures OnWire(d) == Doubled(d[0]) + OnWire(d[1..]) && Meant(d) == [d[0]] + Meant(d[1..])
  {
    hide Doubled;
    Associate(Doubled(d[0]), DoubledAll(d[1..]), [IAC, SE]);
    assert d == [d[0]] + d[1..];
    Associate([d[0]], d[1..], [IAC, SE]);
  }

  lemma MoreIacs(n: nat, x: seq<Byte>)
    ensures Iacs(n) + ([IAC, IAC] + x) == [IAC] + (Iacs(n + 1) + x)
  {
  }

  /** Behind an IAC too many, the beginning of what is on the wire is not what was meant. */
  lemma {:induction false} OneTooMany(n: nat, e: seq<Byte>)
    requires n >= 1
    ensures var w := Iacs(n) + OnWire(e); |e| + 2 <= |w| && w[..|e| + 2] != Meant(e)
    decreases |e|
  {
    var w := Iacs(n) + OnWire(e);
    DoubledLonger(e);
    assert w[0] == IAC;
    if e == [] {
      assert w[1] == IAC && Meant(e)[1] == SE;
    } else if e[0] != IAC {
      assert Meant(e)[0] == e[0];
    } else {
      hide OnWire, Meant, Iacs, DoubledAll;
      OneTooMany(n + 1, e[1..]);
      WireHead(e);
      MoreIacs(n, OnWire(e[1..]));
      PrefixCons(IAC, Iacs(n + 1) + OnWire(e[1..]), Meant(e[1..]), |e| + 1);
    }
  }

  lemma {:induction false} NotWhatWasMeant(d: seq<Byte>)
    requires IAC in d
    ensures |d| + 2 <= |OnWire(d)| && OnWire(d)[..|d| + 2] != Meant(d)
    decreases |d|
  {
    WireLength(d);
    hide OnWire, Meant, DoubledAll;
    WireHead(d);
    var d' := d[1..];
    assert d == [d[0]] + d';
    if d[0] == IAC {
      OneTooMany(1, d');
      assert Iacs(1) == [IAC];
      Associate([IAC], [IAC], OnWire(d'));
      PrefixCons(IAC, Iacs(1) + OnWire(d'), Meant(d'), |d'| + 2);
    } else {
      NotWhatWasMeant(d');
      PrefixCons(d[0], OnWire(d'), Meant(d'), |d'| + 2);
    }
  }

  lemma WireLength(d: seq<Byte>)
    ensures |OnWire(d)| >= |d| + 2
  {
    DoubledLonger(d);
  }

  // ---------- the signature ----------

  lemma CutMore(a: seq<Byte>, b: seq<Byte>)
    ensures Cut(Cut(a) + b) == Cut(a + b)
  {
    if |a| > TMP_STR_LEN { assert (a[..TMP_STR_LEN] + b)[..TMP_STR_LEN] == (a + b)[..TMP_STR_LEN]; }
  }

  lemma StoreCuts(cmd: seq<Byte>, c: Byte)
    requires |cmd| <= TMP_STR_LEN
    ensures Store(cmd, c) == Cut(cmd + [c])
  {
    assert |cmd| == TMP_STR_LEN ==> (cmd + [c])[..TMP_STR_LEN] == cmd;
  }

  /** The parser in the middle of a signature. */
  ghost predicate InSignature(p: Parser, cmd: seq<Byte>) {
    Inside(p, cmd) && |cmd| >= 4 && cmd[3] == 0
  }

  lemma SignatureMore(cmd: seq<Byte>, c: Byte)
    requires CommandOk(cmd) && cmd[1] == SB && |cmd| >= 4 && cmd[3] == 0
    ensures var s := Store(cmd, c); CommandOk(s) && s[1] == SB && |s| >= 4 && s[3] == 0
  {
  }

  lemma SignatureChar(p: Parser, t: Options, cmd: seq<Byte>, c: Byte, rest: seq<Byte>)
    requires ParserOk(p) && InSignature(p, cmd)
    ensures var p' := p.(cmd := Store(cmd, c), last := c);
            InSignature(p', Store(cmd, c)) && ParserOk(p') && Decode(p, t, Doubled(c) + rest) == Decode(p', t, rest)
  {
    hide Decode;
    SignatureMore(cmd, c);
    if c == IAC {
      assert Doubled(c) + rest == [IAC] + ([IAC] + rest);
      DecodeStep(p, t, IAC, [IAC] + rest);
      DecodeStep(p.(sigEscape := Received, last := IAC), t, IAC, rest);
    } else {
      DecodeStep(p, t, c, rest);
    }
  }

  lemma {:induction false} SignatureIn(p: Parser, t: Options, cmd: seq<Byte>, d: seq<Byte>, rest: seq<Byte>)
    requires ParserOk(p) && InSignature(p, cmd)
    ensures var p' := p.(cmd := Cut(cmd + d), last := LastOf(p.last, d));
            InSignature(p', Cut(cmd + d)) && ParserOk(p') && Decode(p, t, DoubledAll(d) + rest) == Decode(p', t, rest)
    decreases |d|
  {
    hide Decode, Doubled, Store, InSignature;
    SignatureFits(p, cmd);
    if d == [] {
      assert cmd + d == cmd && DoubledAll(d) + rest == rest;
    } else {
      var c, d' := d[0], d[1..];
      Associate(Doubled(c), DoubledAll(d'), rest);
      SignatureChar(p, t, cmd, c, DoubledAll(d') + rest);
      SignatureIn(p.(cmd := Store(cmd, c), last := c), t, Store(cmd, c), d', rest);
      StoreCuts(cmd, c);
      CutMore(cmd + [c], d');
      assert cmd + [c] + d' == cmd + d;
    }
  }

  lemma SignatureFits(p: Parser, cmd: seq<Byte>)
    requires InSignature(p, cmd)
    ensures |cmd| <= TMP_STR_LEN && p.cmd == cmd && Cut(cmd) == cmd
  {
  }

  /** A signature is read as what it is, whatever is in it, as far as there is room. */
  lemma SignatureRead(p: Parser, t: Options, o: Byte, d: seq<Byte>)
    requires ParserOk(p) && p.escape == Normal
    ensures ReadAs(p, t, Frame(o, [0] + d), Arrived(o, [0] + d))
  {
    hide Decode, DoubledAll, Store, Cut, Frame, InSignature, Inside;
    var head, end := Header(o, 0), [IAC] + ([SE] + []);
    SignatureFrame(o, d);
    HeaderIn(p, t, o, 0, DoubledAll(d) + end);
    var p1 := Parser(Receiving, Normal, head, 0);
    SignatureBegins(o);
    SignatureIn(p1, t, head, d, end);
    SignatureEnds(p1.(cmd := Cut(head + d), last := LastOf(0, d)), t, Cut(head + d));
    SignatureArrives(o, d);
  }

  lemma SignatureBegins(o: Byte)
    ensures InSignature(Parser(Receiving, Normal, Header(o, 0), 0), Header(o, 0))
  {
  }

  lemma SignatureFrame(o: Byte, d: seq<Byte>)
    ensures Frame(o, [0] + d) == Header(o, 0) + (DoubledAll(d) + ([IAC] + ([SE] + [])))
  {
    assert ([0] + d)[1..] == d && DoubledAll([0] + d) == [0] + DoubledAll(d);
  }

  lemma SignatureArrives(o: Byte, d: seq<Byte>)
    ensures Store(Store(Cut(Header(o, 0) + d), IAC), SE) == Arrived(o, [0] + d)
  {
    var s := Header(o, 0) + d;
    StoreCuts(Cut(s), IAC);
    CutMore(s, [IAC]);
    StoreCuts(Cut(s + [IAC]), SE);
    CutMore(s + [IAC], [SE]);
    assert s + [IAC] + [SE] == Front(o) + Meant([0] + d);
  }

  lemma SignatureEnds(p: Parser, t: Options, cmd: seq<Byte>)
    requires ParserOk(p) && InSignature(p, cmd)
    ensures var p' := p.(escape := Normal, sigEscape := Received, cmd := Store(Store(cmd, IAC), SE), last := SE);
            Decode(p, t, [IAC] + ([SE] + [])) == (p', t, [])
  {
    var p1 := p.(sigEscape := Received, last := IAC);
    var out := Store(Store(cmd, IAC), SE);
    SignatureMore(cmd, IAC);
    SignatureMore(Store(cmd, IAC), SE);
    assert OptionsAfter(t, out) == t;
    var p2 := p1.(escape := Normal, cmd := out, last := SE);
    hide Decode, Store;
    DecodeStep(p, t, IAC, [SE] + []);
    DecodeStep(p1, t, SE, []);
    DecodeNothing(p2, t);
  }

  // ---------- every suboption ----------

  /** The bytes are read as one command, which arrives as `cmd`, and nothing else. */
  ghost predicate ReadAs(p: Parser, t: Options, bytes: seq<Byte>, cmd: seq<Byte>)
    requires ParserOk(p)
  {
    var (p', t', data) := Decode(p, t, bytes);
    p'.escape == Normal && t' == t && data == [] && p'.cmd == cmd
  }

  /** A signature with anything in it, or a command without a parameter IAC that is as long as
      its kind asks for. */
  predicate Readable(d: seq<Byte>) {
    d != [] && (d[0] == 0 || (IAC !in d && |d| == Complete(d[0]) - 5))
  }

  lemma WireKind(d: seq<Byte>)
    ensures OnWire(d)[0] == Meant(d)[0] == if d == [] then IAC else d[0]
    ensures |d| + 2 <= |OnWire(d)| <= 2 * |d| + 2
    ensures OnWire(d) == Meant(d) <==> IAC !in d
    ensures |OnWire(d)| == |d| + 2 <==> IAC !in d
  {
    DoubledLonger(d);
  }

  /** A suboption that ends too early, or where it should. */
  lemma ReadWhole(p: Parser, t: Options, o: Byte, d: seq<Byte>)
    requires ParserOk(p) && p.escape == Normal && !(d != [] && d[0] == 0)
    requires |OnWire(d)| <= Complete(OnWire(d)[0]) - 3
    ensures ReadAs(p, t, Frame(o, d), Arrived(o, d)) <==> Readable(d)
  {
    WireKind(d);
    hide Decode, OnWire;
    var w, k := OnWire(d), OnWire(d)[0];
    assert Front(o) + w == Header(o, k) + w[1..];
    if |w| < Complete(k) - 3 {
      NotYet(p, t, o, k, w[1..]);
    } else {
      Dispatched(p, t, o, k, w[1..], []);
      assert Header(o, k) + w[1..] + [] == Front(o) + w;
      DecodeNothing(Parser(Normal, Normal, Front(o) + w, w[|w| - 1]), t);
      SameFront(Front(o), w, Meant(d));
    }
  }

  /** What is left over when a suboption is dispatched does not put it right. */
  lemma RestIsNoHelp(o: Byte, d: seq<Byte>, cmd: seq<Byte>)
    requires !(d != [] && d[0] == 0) && |OnWire(d)| > Complete(OnWire(d)[0]) - 3
    requires Shaped(cmd) && |cmd| <= |OnWire(d)| - (Complete(OnWire(d)[0]) - 3)
    ensures cmd != Arrived(o, d)
  {
    WireKind(d);
    var a := Arrived(o, d);
    assert a[1] == SB && a[3] == Meant(d)[0];
  }

  lemma CutShort(p: Parser, t: Options, o: Byte, d: seq<Byte>)
    requires ParserOk(p) && p.escape == Normal && !(d != [] && d[0] == 0)
    requires |OnWire(d)| > Complete(OnWire(d)[0]) - 3
    ensures !Readable(d) && !ReadAs(p, t, Frame(o, d), Arrived(o, d))
  {
    WireKind(d);
    hide Decode, OnWire, Shaped;
    var w, k := OnWire(d), OnWire(d)[0];
    var n := Complete(k) - 3;
    var u, rest := w[1..n], w[n..];
    assert Header(o, k) + u + rest == Front(o) + w;
    Dispatched(p, t, o, k, u, rest);
    var p1 := Parser(Normal, Normal, Header(o, k) + u, u[|u| - 1]);
    CommandIsWhole(p1, t, rest);
    CommandComesFrom(p1, t, rest);
    var cmd := Decode(p1, t, rest).0.cmd;
    if cmd == Arrived(o, d) {
      assert p1.cmd == Front(o) + w[..n];
      if cmd == p1.cmd {
        assert |d| + 2 == n && IAC in d;
        SameFront(Front(o), w[..n], Meant(d));
        NotWhatWasMeant(d);
      } else if Shaped(cmd) {
        RestIsNoHelp(o, d, cmd);
      }
    }
  }

  /** A suboption, whatever its option and its parameters, is read as what it is and nothing
      else if and only if it is such a one. */
  lemma FrameReadIff(p: Parser, t: Options, o: Byte, d: seq<Byte>)
    requires ParserOk(p) && p.escape == Normal
    ensures ReadAs(p, t, Frame(o, d), Arrived(o, d)) <==> Readable(d)
  {
    WireKind(d);
    hide ReadAs, OnWire;
    if d != [] && d[0] == 0 {
      SignatureRead(p, t, o, d[1..]);
      assert [0 as Byte] + d[1..] == d;
    } else if |OnWire(d)| <= Complete(OnWire(d)[0]) - 3 {
      ReadWhole(p, t, o, d);
    } else {
      CutShort(p, t, o, d);
    }
  }

  /** The modem state mask 255, doubled as it has to be: the end of the command reaches
      the device. */
  lemma DoubledParameter(p: Parser, t: Options)
    requires ParserOk(p) && p.escape == Normal
    ensures Decode(p, t, Frame(COM_PORT_OPTION, [11, IAC])).2 == [SE]
  {
    hide Decode;
    var head := Header(COM_PORT_OPTION, 11);
    assert [11, IAC][1..] == [IAC] && [IAC][1..] == [];
    assert DoubledAll([IAC]) == [IAC, IAC];
    assert DoubledAll([11, IAC]) == [11, IAC, IAC];
    assert Frame(COM_PORT_OPTION, [11, IAC]) == head + [IAC, IAC, IAC] + [SE];
    Dispatched(p, t, COM_PORT_OPTION, 11, [IAC, IAC, IAC], [SE]);
    DecodeOne(Parser(Normal, Normal, head + [IAC, IAC, IAC], IAC), t, SE);
  }
}
