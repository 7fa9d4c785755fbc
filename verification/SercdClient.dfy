/** What the device gets from a client that sends characters, new lines, commands and
    suboptions, in the form that RFC 854, RFC 856 and RFC 2217 ask for. */
module SercdClient {
  import opened Bytes
  import opened Telnet
  import opened TelnetRuns
  import opened Sercd
  import opened SercdPeer
  import opened SercdFrames

  // ---------- a client ----------

  /** What a client sends. A character is sent as binary data or as a network virtual terminal
      would; a signal is a command of two bytes, such as NOP or BRK; a negotiation has three. */
  datatype Sent =
    | Char(c: Byte, binary: bool)
    | NewLine
    | Signal(code: Byte)
    | Negotiate(verb: Byte, option: Byte)
    | Command(option: Byte, d: seq<Byte>)

  /** The codes from WILL to DONT have an option, those below SB have none. */
  predicate Proper(x: Sent) {
    match x
    case Signal(code) => code < SB
    case Negotiate(verb, _) => verb == WILL || verb == WONT || verb == DO || verb == DONT
    case _ => true
  }

  /** IAC is doubled, and a carriage return that is not binary and not part of a new line is
      followed by a NUL. */
  function ClientBytes(x: Sent): (r: seq<Byte>)
    ensures r != []
  {
    match x
    case Char(c, binary) => if c == IAC then [IAC, IAC] else if c == CR && !binary then [CR, 0] else [c]
    case NewLine => [CR, LF]
    case Signal(code) => [IAC, code]
    case Negotiate(verb, o) => [IAC, verb, o]
    case Command(o, d) => Frame(o, d)
  }

  /** The options that the server has accepted by then. */
  function OptionsBy(t: Options, x: Sent): Options {
    if x.Negotiate? && x.verb != SB then OptionsAfter(t, [IAC, x.verb, x.option]) else t
  }

  function Stream(items: seq<Sent>): seq<Byte>
    decreases |items|
  {
    if items == [] then [] else ClientBytes(items[0]) + Stream(items[1..])
  }

  function CharsOf(x: Sent): seq<Byte> {
    if x.Char? then [x.c] else if x.NewLine? then [CR, LF] else []
  }

  function Chars(items: seq<Sent>): seq<Byte>
    decreases |items|
  {
    if items == [] then [] else CharsOf(items[0]) + Chars(items[1..])
  }

  /** What has to be in IACCommand after a command of any kind. */
  predicate CommandRead(x: Sent, cmd: seq<Byte>) {
    match x
    case Signal(code) => cmd == [IAC, code]
    case Negotiate(verb, o) => cmd == [IAC, verb, o]
    case Command(o, d) => cmd == Arrived(o, d)
    case _ => true
  }

  /** The device gets the characters and nothing else, options are taken, commands arrive, and
      the server is between commands again. */
  ghost predicate ReadRight(p: Parser, t: Options, x: Sent)
    requires ParserOk(p)
  {
    var (p', t', data) := Decode(p, t, ClientBytes(x));
    p'.escape == Normal && t' == OptionsBy(t, x) && data == CharsOf(x) && CommandRead(x, p'.cmd)
  }

  /** A carriage return for the terminal while the server takes data as binary, a NUL behind a
      carriage return while it does not, a signal, and a suboption that sercd cannot read are
      not clear. */
  predicate Clear(last: Byte, t: Options, x: Sent) {
    match x
    case Char(c, binary) =>
      if TRANSMIT_BINARY in t.isDo then binary || c != CR else !(c == 0 && last == CR)
    case NewLine => true
    case Signal(_) => false
    case Negotiate(_, _) => true
    case Command(_, d) => Readable(d)
  }

  // ---------- one item ----------

  /** Two bytes that are no IAC. */
  lemma TwoPlain(p: Parser, t: Options, a: Byte, b: Byte)
    requires ParserOk(p) && p.escape == Normal && a != IAC && a != 0 && b != IAC
    ensures Decode(p, t, [a, b]) ==
            (p.(last := b), t, [a] + if b == 0 && a == CR && TRANSMIT_BINARY !in t.isDo then [] else [b])
  {
    DecodeOne(p, t, a);
    DecodeOne(p.(last := a), t, b);
    DecodeJoin(p, t, [a], [b]);
    assert [a] + [b] == [a, b];
  }

  lemma CharReadIff(p: Parser, t: Options, x: Sent)
    requires ParserOk(p) && p.escape == Normal && x.Char?
    ensures ReadRight(p, t, x) <==> Clear(p.last, t, x)
  {
    if x.c == IAC {
      DecodeChar(p, t, x.c);
    } else if x.c == CR && !x.binary {
      TwoPlain(p, t, CR, 0);
      assert |[CR] + [0]| == 2;
    } else {
      DecodeOne(p, t, x.c);
    }
  }

  /** A signal is read as the beginning of a negotiation. */
  lemma SignalWaits(p: Parser, t: Options, code: Byte)
    requires ParserOk(p) && p.escape == Normal && code < SB
    ensures Decode(p, t, [IAC, code]) == (Parser(Receiving, Normal, [IAC, code], code), t, [])
  {
    DecodeOne(p, t, IAC);
    DecodeOne(p.(escape := Received, last := IAC), t, code);
    DecodeJoin(p, t, [IAC], [code]);
    assert [IAC] + [code] == [IAC, code];
  }

  /** So the byte that follows is lost, whatever it is. */
  lemma SignalSwallows(p: Parser, t: Options, code: Byte, c: Byte)
    requires ParserOk(p) && p.escape == Normal && code < SB
    ensures var (p', t', data) := Decode(p, t, [IAC, code, c]); p'.escape == Normal && t' == t && data == []
  {
    assert code != SB && code != WILL && code != WONT && code != DO && code != DONT && code != IAC;
    OptionRead(p, t, code, c);
  }

  /** An item is read right if and only if it is clear. */
  lemma ReadRightIff(p: Parser, t: Options, x: Sent)
    requires ParserOk(p) && p.escape == Normal && Proper(x)
    ensures ReadRight(p, t, x) <==> Clear(p.last, t, x)
  {
    hide Decode, OptionsAfter, Readable;
    match x
    case Char(_, _) => CharReadIff(p, t, x);
    case NewLine => TwoPlain(p, t, CR, LF);
    case Signal(code) => SignalWaits(p, t, code);
    case Negotiate(verb, o) => OptionRead(p, t, verb, o);
    case Command(o, d) => FrameReadIff(p, t, o, d);
  }

  // ---------- a stream ----------

  /** Every item of the stream is read right where it comes. */
  ghost predicate AllRight(p: Parser, t: Options, items: seq<Sent>)
    requires ParserOk(p)
    decreases |items|
  {
    items == [] ||
    (ReadRight(p, t, items[0]) && AllRight(Decode(p, t, ClientBytes(items[0])).0, OptionsBy(t, items[0]), items[1..]))
  }

  predicate AllClear(last: Byte, t: Options, items: seq<Sent>)
    decreases |items|
  {
    items == [] ||
    (Clear(last, t, items[0]) && AllClear(LastOf(last, ClientBytes(items[0])), OptionsBy(t, items[0]), items[1..]))
  }

  predicate AllProper(items: seq<Sent>) {
    forall i :: 0 <= i < |items| ==> Proper(items[i])
  }

  /** For every stream of such items: every item is read right where it comes if and only if
      every item is clear; then the device gets the characters and nothing else, and the
      server is between commands again. */
  lemma {:induction false} StreamReadIff(p: Parser, t: Options, items: seq<Sent>)
    requires ParserOk(p) && p.escape == Normal && AllProper(items)
    ensures AllRight(p, t, items) <==> AllClear(p.last, t, items)
    ensures AllClear(p.last, t, items) ==>
              var (p', _, data) := Decode(p, t, Stream(items)); p'.escape == Normal && data == Chars(items)
    decreases |items|
  {
    hide Decode, ClientBytes, OptionsAfter, Clear, Proper;
    if items == [] {
      DecodeNothing(p, t);
    } else {
      var x, b := items[0], ClientBytes(items[0]);
      var p', t' := Decode(p, t, b).0, OptionsBy(t, x);
      ReadRightIff(p, t, x);
      DecodeLast(p, t, b);
      if ReadRight(p, t, x) {
        StreamReadIff(p', t', items[1..]);
        DecodeJoin(p, t, b, Stream(items[1..]));
      }
    }
  }

  /** A client that keeps its connection open with NOP, and goes on typing: the letter is lost. */
  lemma NopAndALetter(p: Parser, t: Options)
    requires ParserOk(p) && p.escape == Normal
    ensures var items := [Signal(241), Char(65, false)];
            && AllProper(items) && Chars(items) == [65]
            && Decode(p, t, Stream(items)).2 == []
  {
    hide Decode;
    var items := [Signal(241), Char(65, false)];
    assert items[1..] == [Char(65, false)] && items[1..][1..] == [];
    assert Stream(items[1..]) == [65] && Chars(items[1..]) == [65];
    assert Stream(items) == [IAC, 241, 65] && Chars(items) == [65];
    SignalSwallows(p, t, 241, 65);
  }

  /** A client that has offered binary mode and sends a carriage return before the answer
      is there: the device gets a NUL as well. */
  lemma ReturnAfterTheOffer(p: Parser, t: Options)
    requires ParserOk(p) && p.escape == Normal
    ensures var items := [Negotiate(WILL, TRANSMIT_BINARY), Char(CR, false)];
            && AllProper(items) && Chars(items) == [CR]
            && Decode(p, t, Stream(items)).2 == [CR, 0]
  {
    hide Decode;
    var items := [Negotiate(WILL, TRANSMIT_BINARY), Char(CR, false)];
    assert items[1..] == [Char(CR, false)] && items[1..][1..] == [];
    assert Stream(items[1..]) == [CR, 0] && Chars(items[1..]) == [CR];
    assert Stream(items) == [IAC, WILL, TRANSMIT_BINARY] + [CR, 0] && Chars(items) == [CR];
    OptionRead(p, t, WILL, TRANSMIT_BINARY);
    var (p', t', _) := Decode(p, t, [IAC, WILL, TRANSMIT_BINARY]);
    TwoPlain(p', t', CR, 0);
    DecodeJoin(p, t, [IAC, WILL, TRANSMIT_BINARY], [CR, 0]);
  }

  /** Over every run whose network input is such a stream, however it is cut: the device gets,
      in order, exactly the characters that the client sent. */
  lemma DeviceGetsTheCharacters(start: Server, run: seq<Event>, items: seq<Sent>)
    requires ParserOk(start.p) && start.p.escape == Normal && IsRun(Begin(start), run)
    requires After(Begin(start), run).netIn == Stream(items)
    requires AllProper(items) && AllClear(start.p.last, start.x.opts, items)
    ensures var l := After(Begin(start), run); l.devOut + l.toDev == Chars(items)
  {
    hide Decode;
    DeviceGetsTheStream(start, run);
    StreamReadIff(start.p, start.x.opts, items);
  }
}
