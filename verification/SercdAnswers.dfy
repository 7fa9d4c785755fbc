/** What sercd answers: options by who may do what, COM port commands by the setting that
    they name. */
module SercdAnswers {
  import opened Bytes
  import opened Telnet

  // ---------- options ----------

  predicate Positive(verb: Byte) { verb == WILL || verb == DO }

  /** WILL and WONT are about what the sender does, and the answer about what we let it do. */
  predicate AboutSender(verb: Byte) { verb == WILL || verb == WONT }

  /** Every answer is about the same option and from the other side; it agrees exactly if we were
      asked for an option that we know. A demand is left without answer if we had asked for it,
      and a refusal if there was nothing to take back. */
  lemma NegotiationIs(t: Options, verb: Byte, o: Byte)
    requires verb == WILL || verb == WONT || verb == DO || verb == DONT
    ensures var r := Negotiate(t, verb, o);
            && (r == Silent <==>
                  if Positive(verb) then Supported(o) && o in (if AboutSender(verb) then t.sentDo else t.sentWill)
                  else o !in (if AboutSender(verb) then t.isDo else t.isWill))
            && (r != Silent ==> r.Option? && r.option == o && (AboutSender(verb) <==> !AboutSender(r.verb)) &&
                                (r.verb == WILL || r.verb == WONT || r.verb == DO || r.verb == DONT) &&
                                (Positive(r.verb) <==> Positive(verb) && Supported(o)))
  {
  }

  /** An option is on for a side exactly if it was asked for and we know it; everything else stays. */
  lemma OptionsFollow(t: Options, verb: Byte, o: Byte)
    requires verb == WILL || verb == WONT || verb == DO || verb == DONT
    ensures var t' := OptionsAfter(t, [IAC, verb, o]);
            && (if AboutSender(verb) then t'.isWill == t.isWill && t'.sentWill == t.sentWill && o !in t'.sentDo
                else t'.isDo == t.isDo && t'.sentDo == t.sentDo && o !in t'.sentWill)
            && (o in (if AboutSender(verb) then t'.isDo else t'.isWill) <==> Positive(verb) && Supported(o))
            && forall p :: p != o ==> (p in t'.isWill <==> p in t.isWill) && (p in t'.isDo <==> p in t.isDo) &&
                                      (p in t'.sentWill <==> p in t.sentWill) && (p in t'.sentDo <==> p in t.sentDo)
  {
  }

  /** Two peers that both answer like sercd; the first one says WILL, and each answers the other.
      What is under way after n answers, and what either knows then. */
  function Talk(a: Options, b: Options, o: Byte, n: nat): (Options, Options, Reply)
    decreases n
  {
    if n == 0 then (a, b, Option(WILL, o))
    else
      var (x, y, r) := Talk(a, b, o, n - 1);
      if !r.Option? || r.verb == SB then (x, y, Silent)
      else if n % 2 == 1 then (x, OptionsAfter(y, [IAC, r.verb, r.option]), Negotiate(y, r.verb, r.option))
      else (OptionsAfter(x, [IAC, r.verb, r.option]), y, Negotiate(x, r.verb, r.option))
  }

  lemma {:induction false} TalkGoesOn(a: Options, b: Options, o: Byte, n: nat)
    requires Supported(o) && o !in b.sentDo && o !in a.sentWill
    ensures var (x, y, r) := Talk(a, b, o, n);
            o !in y.sentDo && o !in x.sentWill && r == if n % 2 == 0 then Option(WILL, o) else Option(DO, o)
    decreases n
  {
    hide OptionsAfter, Negotiate, Supported;
    if n > 0 {
      TalkGoesOn(a, b, o, n - 1);
      var (x, y, r) := Talk(a, b, o, n - 1);
      if n % 2 == 1 { Confirmed(y, o); } else { Confirmed(x, o); }
    }
  }

  /** What has not been asked for is confirmed. */
  lemma Confirmed(t: Options, o: Byte)
    requires Supported(o)
    ensures o !in t.sentDo ==> Negotiate(t, WILL, o) == Option(DO, o) && o !in OptionsAfter(t, [IAC, WILL, o]).sentDo
    ensures o !in t.sentWill ==> Negotiate(t, DO, o) == Option(WILL, o) && o !in OptionsAfter(t, [IAC, DO, o]).sentWill
    ensures OptionsAfter(t, [IAC, WILL, o]).sentWill == t.sentWill && OptionsAfter(t, [IAC, DO, o]).sentDo == t.sentDo
  {
  }

  lemma {:induction false} TalkEnds(a: Options, b: Options, o: Byte, n: nat)
    requires Supported(o) && (o in b.sentDo || o in a.sentWill) && n >= 2
    ensures Talk(a, b, o, n).2 == Silent
    decreases n
  {
    assert Talk(a, b, o, 0) == (a, b, Option(WILL, o));
    assert Talk(a, b, o, 1).2 == Negotiate(b, WILL, o) && Talk(a, b, o, 1).0 == a;
    if n > 2 { TalkEnds(a, b, o, n - 1); }
  }

  /** About an option that both know they come to an end if and only if one of them had asked for it
      before: an agreement that is already in force is confirmed again and again. */
  lemma NegotiationEndsIff(a: Options, b: Options, o: Byte)
    requires Supported(o)
    ensures (exists n: nat :: Talk(a, b, o, n).2 == Silent) <==> o in b.sentDo || o in a.sentWill
  {
    if o in b.sentDo || o in a.sentWill {
      TalkEnds(a, b, o, 2);
    } else {
      forall n: nat ensures Talk(a, b, o, n).2 != Silent { TalkGoesOn(a, b, o, n); }
    }
  }

  // ---------- COM port commands ----------

  /** The setting that a command names, as the port has it or as the command sets it. */
  function Named(kind: Byte, l: Line, v: Byte, port: Port): seq<Byte> {
    if kind == 1 then port.speed
    else if kind == 2 then [port.dataSize]
    else if kind == 3 then [port.parity]
    else if kind == 4 then [port.stopSize]
    else if kind == 5 then [Reported(l, v, port)]
    else if kind == 10 then [v & 0x10]
    else [v]
  }

  /** Flow control, break, DTR and RTS by their request codes: states are asked of the port, break is
      remembered, and any other value sets the port and is answered with its outbound state. */
  function Reported(l: Line, v: Byte, port: Port): Byte {
    match v
    case 4 => if l.breakOn then 5 else 6
    case 5 => 5
    case 6 => 6
    case 0 => port.flow(0)
    case 7 => port.flow(7)
    case 10 => port.flow(10)
    case 13 => port.flow(13)
    case 14 => if port.cisco then 0 else port.flow(0)
    case 15 => if port.cisco then 0 else port.flow(0)
    case 16 => if port.cisco then 0 else port.flow(0)
    case _ => port.flow(0)
  }

  predicate Answered(kind: Byte) {
    1 <= kind <= 5 || 10 <= kind <= 12
  }

  /** The answer to command k has the code k + 100 and carries the setting that k names; the
      signature is sent if the client's is empty; nothing else is answered. */
  lemma ComPortIs(l: Line, cmd: seq<Byte>, port: Port)
    requires |cmd| >= 6
    ensures var k, r := cmd[3], ComPort(l, cmd, port);
            && (Answered(k) ==> r == Suboption(k + 100, Named(k, l, cmd[4], port)))
            && (k == 0 ==> r == if |cmd| == 6 then Suboption(100, port.signature) else Silent)
            && (!Answered(k) && k != 0 ==> r == Silent)
  {
  }

  /** A command changes at most what it is about: break, the two masks, and the flow of input. */
  lemma LineFollows(l: Line, cmd: seq<Byte>)
    requires |cmd| >= 6
    ensures var k, v, l' := cmd[3], cmd[4], LineAfter(l, cmd);
            && l'.portControl == l.portControl
            && l'.breakOn == (if k == 5 && v == 5 then true else if k == 5 && v == 6 then false else l.breakOn)
            && l'.lineMask == (if k == 10 then v & 0x10 else l.lineMask)
            && l'.modemMask == (if k == 11 then v else l.modemMask)
            && l'.inputFlow == (if k == 8 then false else if k == 9 then true else l.inputFlow)
  {
  }

  // ---------- the dispatch ----------

  /** A suboption is looked at only if it is of the COM port option and that is on for either side; the
      four verbs are negotiated, and the COM port option turns on port control; nothing else has
      any effect. */
  lemma HandleMeans(x: Session, cmd: seq<Byte>, port: Port)
    requires Ready(cmd)
    ensures var (x', net) := Handle(x, cmd, port);
            var verb, o := cmd[1], cmd[2];
            var negotiated := verb == WILL || verb == WONT || verb == DO || verb == DONT;
            var looked := verb == SB && o == COM_PORT_OPTION && (o in x.opts.isWill || o in x.opts.isDo);
            && (!negotiated && !looked ==> x' == x && net == [])
            && (negotiated ==>
                  && x'.opts == OptionsAfter(x.opts, [IAC, verb, o]) && x'.wlast == x.wlast
                  && x'.line == x.line.(portControl := x.line.portControl || (Positive(verb) && o == COM_PORT_OPTION))
                  && net == match Negotiate(x.opts, verb, o) case Option(v, p) => [IAC, v, p] case _ => [])
            && (looked ==>
                  var r := ComPort(x.line, cmd, port);
                  && x'.opts == x.opts && x'.line == LineAfter(x.line, cmd)
                  && (r == Silent ==> net == [] && x'.wlast == x.wlast)
                  && (r.Suboption? ==>
                        && net == [IAC, SB, COM_PORT_OPTION, r.kind] +
                                  EscapedAll(x.wlast, TRANSMIT_BINARY in x.opts.isWill, r.data) + [IAC, SE]
                        && x'.wlast == LastOf(x.wlast, r.data)))
  {
    hide ComPort, LineAfter;
    NegotiationKind(x.opts, cmd[1], cmd[2]);
    ComPortKind(x.line, cmd, port);
  }

  lemma NegotiationKind(t: Options, verb: Byte, o: Byte)
    ensures !Negotiate(t, verb, o).Suboption?
  {
  }

  lemma ComPortKind(l: Line, cmd: seq<Byte>, port: Port)
    ensures |cmd| >= 6 ==> !ComPort(l, cmd, port).Option?
  {
  }
}
