/** The connection object: its fields, and the methods that update them (src/dtls/connection.ts:92-950). */
module DtlsConnectionObject {
  import opened Bytes
  import opened DtlsWire
  import opened DtlsMessages
  import opened DtlsReassembly
  import opened DtlsHandshake
  import opened DtlsRecordLayer

  /** A record handed to the output callback; a seal stands for encryption under its keys. */
  datatype Output = Output(seal: Option<Seal>, typ: byte, epoch: u16, number: nat, payload: Buffer)

  /** Piece `j` of a message as it goes on the wire. */
  function PieceBytes(n: u16, m: Message, j: nat): Buffer
    requires MAX_FRAGMENT * j <= |m.body|
  {
    var start := MAX_FRAGMENT * j;
    FragmentBytes(m.msgType, |m.body|, n, start, m.body[start..DtlsMessages.Min(start + MAX_FRAGMENT, |m.body|)])
  }

  function PiecesBytes(n: u16, m: Message, count: nat): (ps: seq<Buffer>)
    requires MAX_FRAGMENT * (count - 1) <= |m.body|
    ensures |ps| == count
  {
    if count == 0 then [] else PiecesBytes(n, m, count - 1) + [PieceBytes(n, m, count - 1)]
  }

  /** The fragments of a whole flight, in order. */
  function FlightBytes(n: nat, ms: seq<Message>): seq<Buffer>
    requires n + |ms| <= 0x1_0000
  {
    if ms == [] then []
    else
      var k := |ms| - 1;
      FlightBytes(n, ms[..k]) + PiecesBytes(n + k, ms[k], PieceCount(|ms[k].body|))
  }

  /** The receiver parses a piece to the fragment its bytes were cut from. */
  lemma PieceParses(n: u16, m: Message, j: nat)
    requires MAX_FRAGMENT * j <= |m.body| < 0x100_0000
    ensures var a := PieceOf(n, |m.body|, j);
      ParseHandshake(PieceBytes(n, m, j)) ==
        Some(Fragment(m.msgType, |m.body|, n, a.from, a.length, m.body[a.from..a.from + a.length]))
  {
    var start := MAX_FRAGMENT * j;
    FragmentRoundTrip(m.msgType, |m.body|, n, start, m.body[start..DtlsMessages.Min(start + MAX_FRAGMENT, |m.body|)]);
  }

  /** Handshake records for these payloads, numbered from `number`. */
  function Records(seal: Option<Seal>, epoch: u16, number: nat, payloads: seq<Buffer>): seq<Output> {
    if payloads == [] then []
    else
      var k := |payloads| - 1;
      Records(seal, epoch, number, payloads[..k]) + [Output(seal, HANDSHAKE, epoch, number + k, payloads[k])]
  }

  /** The numbers on the records sent so far. */
  predicate Stamped(output: seq<Output>, ops: seq<Op>) {
    |output| == |ops| && forall i | 0 <= i < |output| ::
        (output[i].epoch as nat, output[i].number) == Stamps(START, ops)[i]
  }

  /** Sealed messages among those sent. */
  function Seals(sent: seq<Outgoing>): nat {
    if sent == [] then 0 else Seals(sent[..|sent| - 1]) + if sent[|sent| - 1].seal.Some? then 1 else 0
  }

  lemma OpPushed(output: seq<Output>, ops: seq<Op>, o: Output, op: Op)
    requires Stamped(output, ops) && (o.epoch as nat, o.number) == Stamp(AfterAll(START, ops))
    ensures Stamped(output + [o], ops + [op]) && AfterAll(START, ops + [op]) == After(AfterAll(START, ops), op)
    ensures Changes(ops + [op]) == Changes(ops) + if op == ChangeCipherSpec then 1 else 0
  {
    assert (ops + [op])[..|ops|] == ops;
  }

  lemma SealPushed(sent: seq<Outgoing>, o: Outgoing)
    ensures Seals(sent + [o]) == Seals(sent) + if o.seal.Some? then 1 else 0
  {
    assert (sent + [o])[..|sent|] == sent;
  }

  lemma FlightPush(n: nat, ms: seq<Message>, m: Message)
    requires n + |ms| < 0x1_0000
    ensures ms == [] ==> Recorded(n, ms) == [] && Numbered(n, ms) == [] && FlightBytes(n, ms) == []
    ensures Recorded(n, ms + [m]) == Recorded(n, ms) + [HandshakeBytes(m.msgType, n + |ms|, m.body)]
    ensures Numbered(n, ms + [m]) == Numbered(n, ms) + [Outgoing(None, n + |ms|, m)]
    ensures FlightBytes(n, ms + [m]) == FlightBytes(n, ms) + PiecesBytes(n + |ms|, m, PieceCount(|m.body|))
  {
    hide HandshakeBytes, PiecesBytes;
    assert (ms + [m])[..|ms|] == ms;
  }

  lemma HelloIs(e: Core)
    requires e.status != FAILED
    ensures DtlsHandshake.SendClientHello(e) ==
      if e.clientRandom.None? || e.messageSeq > 0xffff then Fail(e)
      else
        var body := ClientHelloBody(e.clientRandom.value, e.cookie);
        var full := HandshakeBytes(CLIENT_HELLO, e.messageSeq, body);
        e.(transcript := if e.cookie == [] then e.transcript else e.transcript + [full],
           firstClientHello := if e.cookie == [] then Some(full) else e.firstClientHello,
           sent := e.sent + [Outgoing(None, e.messageSeq, Message(CLIENT_HELLO, body))], messageSeq := e.messageSeq + 1)
  {
    hide HandshakeBytes, ClientHelloBody;
  }

  lemma ServerHelloIs(e: Core, n: u16, m: Message)
    requires e.status != FAILED
    ensures var spec := DtlsHandshake.TakeServerHello(e, n, m);
      var r := ReadServerHello(m.body);
      var before := if e.cookie == [] && e.transcript == [] && e.firstClientHello.Some? then [e.firstClientHello.value]
          else e.transcript;
      if r.None? || r.value.suite != CIPHER_SUITE then spec.status == FAILED
      else spec == e.(transcript := before + [HandshakeBytes(m.msgType, n, m.body)],
          serverRandom := Some(r.value.random),
                      extendedMasterSecret := e.extendedMasterSecret || r.value.extendedMasterSecret)
  {
    hide HandshakeBytes, ReadServerHello;
  }

  lemma FinishedIs(c: Crypto, e: Core)
    requires e.status != FAILED
    ensures DtlsHandshake.SendFinished(c, e) ==
      if e.master.None? || e.keys.None? || e.messageSeq > 0xffff then Fail(e)
      else
        var body := c.verifyData(e.master.value, e.role, c.sha256(Concat(e.transcript)));
        e.(checks := e.checks + [FinishedCheck(e.role, Concat(e.transcript))],
           transcript := e.transcript + [HandshakeBytes(FINISHED, e.messageSeq, body)],
           sent := e.sent + [Outgoing(Some(Seal(e.keys.value, e.role)), e.messageSeq, Message(FINISHED, body))],
           messageSeq := e.messageSeq + 1)
  {
    hide HandshakeBytes, Concat;
  }

  /** The state after a handler, or that it threw. */
  ghost predicate Outcome(spec: Core, threw: bool, now: Core) {
    (threw <==> spec.status == FAILED) && (!threw ==> now == spec)
  }

  class DtlsConnection {
    const c: Crypto
    const cfg: Config
    const role: Role
    const draw: Draw
    var state: Status
    var sendEpoch: u16
    var sendSeq: nat
    var handshakeMessageSeq: nat
    var sendEncrypted: bool
    var cipherKeys: Option<Keys>
    var clientRandom: Option<Buffer>
    var serverRandom: Option<Buffer>
    var cookie: Buffer
    var ecdh: Option<Buffer>
    var masterSecret: Option<Buffer>
    var remoteCertDer: Option<Buffer>
    var remoteEcdhePub: Option<Buffer>
    var useExtendedMasterSecret: bool
    var renegRequested: bool
    var certRequested: bool
    var firstClientHello: Option<Buffer>
    var transcript: seq<Buffer>
    var reassembly: map<nat, Entry>
    var nextExpectedHsSeq: nat
    var lastFlight: seq<Buffer>
    var output: seq<Output>
    var received: seq<Buffer>  // 'data' events
    var closed: bool           // the state CLOSED, whichever it was before
    ghost var sent: seq<Outgoing>
    ghost var checks: seq<Check>
    ghost var ops: seq<Op>

    ghost predicate Counted()
      reads this
    {
      Numbers() == AfterAll(START, ops) && Stamped(output, ops)
    }

    /** Records are numbered by the operations so far, with one change of cipher for each Finished sent. */
    ghost predicate Valid()
      reads this
    {
      Counted() && Changes(ops) == Seals(sent) && state != FAILED
    }

    ghost function View(): Core
      reads this
    {
      Core(role, draw, state, handshakeMessageSeq, sent, transcript, clientRandom, serverRandom, cookie,
           useExtendedMasterSecret, renegRequested, ecdh, remoteCertDer, remoteEcdhePub, certRequested,
           firstClientHello, masterSecret, cipherKeys, checks)
    }

    ghost function EndView(): End
      reads this
    {
      End(View(), reassembly, nextExpectedHsSeq)
    }

    ghost function Numbers(): Numbering
      reads this
    {
      Numbering(sendEpoch, sendSeq)
    }

    /** What encryption adds to a record sent now. */
    function CurrentSeal(): Option<Seal>
      reads this
    {
      if sendEncrypted && cipherKeys.Some? then Some(Seal(cipherKeys.value, role)) else None
    }

    constructor (c: Crypto, cfg: Config, role: Role, draw: Draw)
      ensures this.c == c && this.cfg == cfg && EndView() == End(Fresh(role, draw), map[], 0)
      ensures Valid() && Numbers() == START && !sendEncrypted && output == [] && lastFlight == []
    {
      this.c, this.cfg, this.role, this.draw, state := c, cfg, role, draw, HANDSHAKING;
      sendEpoch, sendSeq, handshakeMessageSeq, sendEncrypted, cipherKeys := 0, 0, 0, false, None;
      clientRandom, serverRandom, cookie, ecdh, masterSecret := None, None, [], None, None;
      remoteCertDer, remoteEcdhePub, useExtendedMasterSecret, renegRequested, certRequested :=
          None, None, false, false, false;
      firstClientHello, transcript, reassembly, nextExpectedHsSeq, lastFlight, output := None, [], map[], 0, [], [];
      received, closed := [], false;
      sent, checks, ops := [], [], [];
    }

    /** What the handshake does not touch. */
    ghost function Outside(): (seq<Buffer>, bool)
      reads this
    {
      (received, closed)
    }

    // ---- Records ----

    method SendRecord(typ: byte, payload: Buffer)
      requires Counted()
      modifies this`sendSeq, this`output, this`ops
      ensures Counted() && ops == old(ops) + [Send] && Changes(ops) == Changes(old(ops))
      ensures output == old(output) + [Output(CurrentSeal(), typ, sendEpoch, old(sendSeq), payload)]
      ensures sendSeq == old(sendSeq) + 1
    {
      var number := sendSeq;
      sendSeq := sendSeq + 1;
      var record := Output(CurrentSeal(), typ, sendEpoch, number, payload);
      OpPushed(output, ops, record, Send);
      output, ops := output + [record], ops + [Send];
    }

    method SendChangeCipherSpec()
      requires Counted()
      modifies this`sendSeq, this`output, this`sendEpoch, this`sendEncrypted, this`ops
      ensures Counted() && ops == old(ops) + [ChangeCipherSpec] && Changes(ops) == Changes(old(ops)) + 1
      ensures sendEncrypted
      ensures output == old(output) + [Output(old(CurrentSeal()), CHANGE_CIPHER_SPEC, old(sendEpoch), old(sendSeq),
          [1])]
    {
      hide Stamped, AfterAll, Changes, Stamps;
      var record := Output(CurrentSeal(), CHANGE_CIPHER_SPEC, sendEpoch, sendSeq, [1]);
      OpPushed(output, ops, record, ChangeCipherSpec);
      output, ops := output + [record], ops + [ChangeCipherSpec];
      sendEpoch, sendSeq, sendEncrypted := 1, 0, true;
    }

    /** Also what a retransmission does: the same payloads under new record numbers. */
    method FlushFlight()
      requires Counted()
      modifies this`sendSeq, this`output, this`ops
      ensures Counted() && Changes(ops) == Changes(old(ops))
      ensures output == old(output) + Records(CurrentSeal(), sendEpoch, old(sendSeq), lastFlight)
    {
      for i := 0 to |lastFlight|
        invariant Counted() && Changes(ops) == Changes(old(ops))
        invariant output == old(output) + Records(CurrentSeal(), sendEpoch, old(sendSeq), lastFlight[..i])
        invariant sendSeq == old(sendSeq) + i
      {
        assert lastFlight[..i + 1][..i] == lastFlight[..i];
        SendRecord(HANDSHAKE, lastFlight[i]);
      }
      assert lastFlight[..|lastFlight|] == lastFlight;
    }

    // ---- Flights ----

    /** Throws once the message numbers run out. */
    method SendFlight(messages: seq<Message>) returns (threw: bool)
      requires Valid() && messages != []
      modifies this`handshakeMessageSeq, this`transcript, this`lastFlight, this`sendSeq, this`output, this`sent,
               this`ops
      ensures Outcome(PostAll(old(View()), messages), threw, View())
      ensures threw <==> old(handshakeMessageSeq) + |messages| > 0x1_0000
      ensures !threw ==>
        && Valid() && sendEncrypted == old(sendEncrypted)
        && lastFlight == FlightBytes(old(handshakeMessageSeq), messages)
        && output == old(output) + Records(CurrentSeal(), sendEpoch, old(sendSeq), lastFlight)
    {
      hide PieceBytes, HandshakeBytes, FlightBytes, PiecesBytes, PostAll, Records, Recorded, Numbered, Seals, Changes,
           AfterAll, Stamped;
      ghost var e := View();
      var datagrams;
      threw, datagrams := RecordFlight(messages);
      if threw {
        FlightOverruns(e, messages);
      } else {
        FlightAdds(e, messages);
        lastFlight := datagrams;
        FlushFlight();
      }
    }

    method RecordFlight(messages: seq<Message>) returns (threw: bool, datagrams: seq<Buffer>)
      modifies this`handshakeMessageSeq, this`transcript, this`sent
      ensures threw <==> messages != [] && old(handshakeMessageSeq) + |messages| > 0x1_0000
      ensures !threw && messages != [] ==>
        && handshakeMessageSeq == old(handshakeMessageSeq) + |messages|
        && transcript == old(transcript) + Recorded(old(handshakeMessageSeq), messages)
        && sent == old(sent) + Numbered(old(handshakeMessageSeq), messages)
        && datagrams == FlightBytes(old(handshakeMessageSeq), messages)
      ensures Seals(sent) == Seals(old(sent))
    {
      hide HandshakeBytes, Recorded, Numbered, FlightBytes, PiecesBytes, Seals;
      datagrams := [];
      for i := 0 to |messages|
        invariant handshakeMessageSeq == old(handshakeMessageSeq) + i
        invariant i > 0 ==> handshakeMessageSeq <= 0x1_0000
        invariant Seals(sent) == Seals(old(sent))
        invariant i == 0 ==> transcript == old(transcript) && sent == old(sent) && datagrams == []
        invariant i > 0 ==> transcript == old(transcript) + Recorded(old(handshakeMessageSeq), messages[..i])
        invariant i > 0 ==> sent == old(sent) + Numbered(old(handshakeMessageSeq), messages[..i])
        invariant i > 0 ==> datagrams == FlightBytes(old(handshakeMessageSeq), messages[..i])
      {
        var m := messages[i];
        if handshakeMessageSeq > 0xffff {
          return true, [];
        }
        FlightPush(handshakeMessageSeq - i, messages[..i], m);
        assert messages[..i + 1] == messages[..i] + [m];
        var number := handshakeMessageSeq;
        handshakeMessageSeq := handshakeMessageSeq + 1;
        transcript := transcript + [HandshakeBytes(m.msgType, number, m.body)];
        SealPushed(sent, Outgoing(None, number, m));
        sent := sent + [Outgoing(None, number, m)];
        var pieces := FragmentMessage(number, m);
        datagrams := datagrams + pieces;
      }
      assert messages[..|messages|] == messages;
      threw := false;
    }

    /** The inner loop: a do-while, so an empty body takes one fragment. */
    method FragmentMessage(number: u16, m: Message) returns (datagrams: seq<Buffer>)
      ensures datagrams == PiecesBytes(number, m, PieceCount(|m.body|))
    {
      hide FragmentBytes;
      datagrams := [];
      var offset := 0;
      while true
        invariant |datagrams| < PieceCount(|m.body|) && offset == MAX_FRAGMENT * |datagrams|
        invariant datagrams == PiecesBytes(number, m, |datagrams|)
        decreases PieceCount(|m.body|) - |datagrams|
      {
        var chunk := m.body[offset..DtlsMessages.Min(offset + MAX_FRAGMENT, |m.body|)];
        datagrams := datagrams + [FragmentBytes(m.msgType, |m.body|, number, offset, chunk)];
        offset := offset + |chunk|;
        if offset >= |m.body| {
          break;
        }
      }
    }

    // ---- Client ----

    method Start() returns (threw: bool)
      requires Valid() && role == Client
      modifies this
      ensures Outcome(DtlsHandshake.Start(old(View())), threw, View()) && (!threw ==> Valid())
      ensures reassembly == old(reassembly) && nextExpectedHsSeq == old(nextExpectedHsSeq)
    {
      clientRandom := Some(draw.random);
      threw := SendClientHello();
    }

    /** The first hello is remembered rather than recorded; the second opens the transcript. */
    method SendClientHello() returns (threw: bool)
      requires Valid()
      modifies this`handshakeMessageSeq, this`transcript, this`firstClientHello, this`lastFlight, this`sendSeq,
               this`output, this`sent, this`ops
      ensures Outcome(DtlsHandshake.SendClientHello(old(View())), threw, View()) && (!threw ==> Valid())
    {
      hide HandshakeBytes, ClientHelloBody, Seals, Changes, AfterAll, Stamped, Records, DtlsHandshake.SendClientHello;
      ghost var e := View();
      HelloIs(e);
      if clientRandom == None || handshakeMessageSeq > 0xffff {
        return true;
      }
      SendHello(ClientHelloBody(clientRandom.value, cookie));
      assert View() == DtlsHandshake.SendClientHello(e);
      return false;
    }

    method SendHello(body: Buffer)
      requires Valid() && handshakeMessageSeq <= 0xffff
      modifies this`handshakeMessageSeq, this`transcript, this`firstClientHello, this`lastFlight, this`sendSeq,
               this`output, this`sent, this`ops
      ensures Valid() && handshakeMessageSeq == old(handshakeMessageSeq) + 1
      ensures var full := HandshakeBytes(CLIENT_HELLO, old(handshakeMessageSeq), body);
        && transcript == (if cookie == [] then old(transcript) else old(transcript) + [full])
        && firstClientHello == (if cookie == [] then Some(full) else old(firstClientHello))
        && sent == old(sent) + [Outgoing(None, old(handshakeMessageSeq), Message(CLIENT_HELLO, body))]
        && output == old(output) + Records(CurrentSeal(), sendEpoch, old(sendSeq), [full])
    {
      hide HandshakeBytes, Seals, Changes, AfterAll, Stamped, Records;
      var full := RecordHello(body);
      SendAlone(full);
    }

    method RecordHello(body: Buffer) returns (full: Buffer)
      requires handshakeMessageSeq <= 0xffff
      modifies this`handshakeMessageSeq, this`transcript, this`firstClientHello, this`sent
      ensures handshakeMessageSeq == old(handshakeMessageSeq) + 1
      ensures full == HandshakeBytes(CLIENT_HELLO, old(handshakeMessageSeq), body)
      ensures transcript == if cookie == [] then old(transcript) else old(transcript) + [full]
      ensures firstClientHello == if cookie == [] then Some(full) else old(firstClientHello)
      ensures sent == old(sent) + [Outgoing(None, old(handshakeMessageSeq), Message(CLIENT_HELLO, body))]
      ensures Seals(sent) == Seals(old(sent))
    {
      hide HandshakeBytes, Seals;
      var number := handshakeMessageSeq;
      handshakeMessageSeq := handshakeMessageSeq + 1;
      full := HandshakeBytes(CLIENT_HELLO, number, body);
      if |cookie| == 0 {
        firstClientHello := Some(full);
      } else {
        transcript := transcript + [full];
      }
      SealPushed(sent, Outgoing(None, number, Message(CLIENT_HELLO, body)));
      sent := sent + [Outgoing(None, number, Message(CLIENT_HELLO, body))];
    }

    /** A flight of one record. */
    method SendAlone(full: Buffer)
      requires Counted()
      modifies this`lastFlight, this`sendSeq, this`output, this`ops
      ensures Counted() && Changes(ops) == Changes(old(ops)) && lastFlight == [full]
      ensures output == old(output) + Records(CurrentSeal(), sendEpoch, old(sendSeq), [full])
    {
      lastFlight := [full];
      FlushFlight();
    }

    method AppendInboundTranscript(m: Message)
      requires 1 <= nextExpectedHsSeq <= 0x1_0000
      modifies this`transcript
      ensures View() == Append(old(View()), nextExpectedHsSeq - 1, m)
    {
      transcript := transcript + [HandshakeBytes(m.msgType, nextExpectedHsSeq - 1, m.body)];
    }

    method TakeServerHello(m: Message) returns (threw: bool)
      requires Valid() && 1 <= nextExpectedHsSeq <= 0x1_0000
      modifies this`transcript, this`serverRandom, this`useExtendedMasterSecret
      ensures Outcome(DtlsHandshake.TakeServerHello(old(View()), nextExpectedHsSeq - 1, m), threw, View()) && Valid()
    {
      hide HandshakeBytes, ReadServerHello, Seals, Changes, AfterAll, Stamped, DtlsHandshake.TakeServerHello;
      ServerHelloIs(View(), nextExpectedHsSeq - 1, m);
      RecordServerHello(m);
      threw := ParseServerHello(m.body);
    }

    /** Without a cookie exchange the first hello still has to open the transcript. */
    method RecordServerHello(m: Message)
      requires 1 <= nextExpectedHsSeq <= 0x1_0000
      modifies this`transcript
      ensures transcript ==
        (if |cookie| == 0 && old(transcript) == [] && firstClientHello.Some? then [firstClientHello.value]
            else old(transcript))
        + [HandshakeBytes(m.msgType, nextExpectedHsSeq - 1, m.body)]
    {
      if |cookie| == 0 && |transcript| == 0 && firstClientHello.Some? {
        transcript := [firstClientHello.value];
      }
      AppendInboundTranscript(m);
    }

    method ParseServerHello(body: Buffer) returns (threw: bool)
      modifies this`serverRandom, this`useExtendedMasterSecret
      ensures threw <==> ReadServerHello(body).None? || ReadServerHello(body).value.suite != CIPHER_SUITE
      ensures !threw ==>
        && serverRandom == Some(ReadServerHello(body).value.random)
        && useExtendedMasterSecret == (old(useExtendedMasterSecret) || ReadServerHello(body).value.extendedMasterSecret)
    {
      hide ReadServerHello;
      var params := ReadServerHello(body);
      if params == None || params.value.suite != CIPHER_SUITE {
        return true;
      }
      serverRandom := Some(params.value.random);
      if params.value.extendedMasterSecret {
        useExtendedMasterSecret := true;
      }
      return false;
    }

    method TakeCertificate(body: Buffer) returns (threw: bool)
      requires Valid()
      modifies this`remoteCertDer
      ensures Outcome(DtlsHandshake.TakeCertificate(c, old(View()), body), threw, View()) && Valid()
    {
      hide ReadCertificate;
      var der := ReadCertificate(body);
      if der.Some? && !c.trusts(role, der.value) {
        return true;
      }
      remoteCertDer := der;
      return false;
    }

    method TakeServerKeyExchange(body: Buffer) returns (threw: bool)
      requires Valid()
      modifies this`remoteEcdhePub
      ensures Outcome(TakeServerKey(c, old(View()), body), threw, View()) && Valid()
    {
      hide ReadKeyExchange;
      var k := ReadKeyExchange(body);
      if k == None {
        return true;
      }
      remoteEcdhePub := Some(k.value.pub);
      if clientRandom == None || serverRandom == None || remoteCertDer == None {
        return true;
      }
      var ok := c.verify(remoteCertDer.value, clientRandom.value + serverRandom.value + k.value.params,
          k.value.signature);
      return !ok;
    }

    method DeriveCipherKeys(hashed: Buffer) returns (threw: bool)
      requires Valid()
      modifies this`masterSecret, this`cipherKeys, this`checks
      ensures Outcome(DeriveKeys(c, old(View()), hashed), threw, View()) && Valid()
    {
      if ecdh == None || remoteEcdhePub == None || clientRandom == None || serverRandom == None {
        return true;
      }
      var pms := c.agree(ecdh.value, remoteEcdhePub.value);
      var master;
      if useExtendedMasterSecret {
        master := c.extendedMaster(pms, c.sha256(hashed));
        checks := checks + [SessionHash(hashed)];
      } else {
        master := c.plainMaster(pms, clientRandom.value, serverRandom.value);
      }
      masterSecret := Some(master);
      cipherKeys := Some(Keys(master, clientRandom.value, serverRandom.value));
      return false;
    }

    /** Sealed: the change of cipher has just gone out. */
    method SendFinished() returns (threw: bool)
      requires Counted() && Changes(ops) == Seals(sent) + 1 && state != FAILED && sendEncrypted
      modifies this`handshakeMessageSeq, this`transcript, this`sendSeq, this`output, this`sent, this`ops, this`checks
      ensures Outcome(DtlsHandshake.SendFinished(c, old(View())), threw, View()) && (!threw ==> Valid())
    {
      hide HandshakeBytes, Concat, Seals, Changes, Counted, DtlsHandshake.SendFinished;
      ghost var e := View();
      FinishedIs(c, e);
      if masterSecret == None || cipherKeys == None || handshakeMessageSeq > 0xffff {
        return true;
      }
      var bytes := Concat(transcript);
      SendSealed(c.verifyData(masterSecret.value, role, c.sha256(bytes)), FinishedCheck(role, bytes));
      assert View() == DtlsHandshake.SendFinished(c, e);
      return false;
    }

    method SendSealed(body: Buffer, ghost check: Check)
      requires Counted() && handshakeMessageSeq <= 0xffff && sendEncrypted && cipherKeys.Some?
      modifies this`handshakeMessageSeq, this`transcript, this`sendSeq, this`output, this`sent, this`ops, this`checks
      ensures checks == old(checks) + [check]
      ensures Counted() && Changes(ops) == Changes(old(ops)) && Seals(sent) == Seals(old(sent)) + 1
      ensures handshakeMessageSeq == old(handshakeMessageSeq) + 1
      ensures transcript == old(transcript) + [HandshakeBytes(FINISHED, old(handshakeMessageSeq), body)]
      ensures sent == old(sent) + [Outgoing(Some(Seal(cipherKeys.value, role)), old(handshakeMessageSeq),
          Message(FINISHED, body))]
      ensures output == old(output) + [Output(Some(Seal(cipherKeys.value, role)), HANDSHAKE, sendEpoch, old(sendSeq),
                                              HandshakeBytes(FINISHED, old(handshakeMessageSeq), body))]
    {
      hide HandshakeBytes, Seals, Changes, AfterAll, Stamped;
      var number := handshakeMessageSeq;
      handshakeMessageSeq := handshakeMessageSeq + 1;
      var full := HandshakeBytes(FINISHED, number, body);
      transcript := transcript + [full];
      checks := checks + [check];
      SendRecord(HANDSHAKE, full);
      SealPushed(sent, Outgoing(Some(Seal(cipherKeys.value, role)), number, Message(FINISHED, body)));
      sent := sent + [Outgoing(Some(Seal(cipherKeys.value, role)), number, Message(FINISHED, body))];
    }

    method VerifyPeerFinished(sender: Role, body: Buffer) returns (threw: bool)
      requires Valid()
      modifies this`checks
      ensures Outcome(VerifyFinished(c, old(View()), sender, body), threw, View()) && Valid()
    {
      if masterSecret == None {
        return true;
      }
      var expected := c.verifyData(masterSecret.value, sender, c.sha256(Concat(transcript)));
      if body != expected {
        return true;
      }
      checks := checks + [FinishedCheck(sender, Concat(transcript))];
      return false;
    }

    method OnHandshakeComplete()
      requires Valid()
      modifies this`state, this`transcript, this`lastFlight, this`firstClientHello, this`clientRandom,
               this`serverRandom, this`masterSecret, this`ecdh, this`remoteEcdhePub, this`reassembly
      ensures View() == Finish(old(View())) && Valid()
      ensures reassembly == if old(state) == HANDSHAKING then map[] else old(reassembly)
    {
      hide Counted;
      if state == HANDSHAKING {
        EnterConnected();
      }
    }

    method EnterConnected()
      requires Valid() && state == HANDSHAKING
      modifies this`state, this`transcript, this`lastFlight, this`firstClientHello, this`clientRandom,
               this`serverRandom, this`masterSecret, this`ecdh, this`remoteEcdhePub, this`reassembly
      ensures View() == Finish(old(View())) && reassembly == map[]
      ensures Counted() && state != FAILED
    {
      hide Seals, Changes, AfterAll, Stamped;
      ReleaseHandshakeState();
      state := CONNECTED;
    }

    method ReleaseHandshakeState()
      modifies this`transcript, this`lastFlight, this`firstClientHello, this`clientRandom, this`serverRandom,
               this`masterSecret, this`ecdh, this`remoteEcdhePub, this`reassembly
      ensures transcript == [] && lastFlight == [] && firstClientHello == None && clientRandom == None
      ensures serverRandom == None
      ensures masterSecret == None && ecdh == None && remoteEcdhePub == None && reassembly == map[]
    {
      transcript, lastFlight, firstClientHello, clientRandom, serverRandom := [], [], None, None, None;
      masterSecret, ecdh, remoteEcdhePub, reassembly := None, None, None, map[];
    }

    method SendClientSecondFlight() returns (threw: bool)
      requires Valid()
      modifies this`ecdh, this`masterSecret, this`cipherKeys, this`checks, this`handshakeMessageSeq, this`transcript,
               this`lastFlight, this`sendSeq, this`output, this`sent, this`ops, this`sendEpoch, this`sendEncrypted
      ensures Outcome(SecondFlight(c, old(View())), threw, View()) && (!threw ==> Valid())
    {
      hide HandshakeBytes, CertificateBody, ClientKeyBody, VerifyBody, Concat, Counted, PostAll,
           DtlsHandshake.SendFinished, DeriveKeys, Built;
      if handshakeMessageSeq >= 0xffff {
        return true;
      }
      var flight;
      threw, flight := BuildSecondFlight();
      if threw {
        return;
      }
      threw := SendFlightAndFinish(flight);
    }

    /** Derive the keys from the predicted transcript and, when asked to, sign it. */
    method BuildSecondFlight() returns (threw: bool, flight: seq<Message>)
      requires Valid() && handshakeMessageSeq < 0xffff
      modifies this`ecdh, this`masterSecret, this`cipherKeys, this`checks
      ensures threw <==> Built(c, old(View())).0.status == FAILED
      ensures !threw ==> (View(), flight) == Built(c, old(View())) && Valid() && flight != []
    {
      hide HandshakeBytes, CertificateBody, ClientKeyBody, VerifyBody, Concat, Seals, Changes, AfterAll, Stamped,
           DeriveKeys;
      var sendCert, cke := certRequested, ClientKeyBody(c.publicOf(draw.ecdh));
      var ckeSeq := if sendCert then handshakeMessageSeq + 1 else handshakeMessageSeq;
      var covered := transcript;
      if sendCert {
        covered := covered + [HandshakeBytes(CERTIFICATE, handshakeMessageSeq, CertificateBody(draw.der))];
      }
      covered := covered + [HandshakeBytes(CLIENT_KEY_EXCHANGE, ckeSeq, cke)];
      assert covered == transcript + Predicted(c, View());
      ecdh := Some(draw.ecdh);
      threw := DeriveCipherKeys(Concat(covered));
      if threw {
        return true, [];
      }
      flight := [Message(CLIENT_KEY_EXCHANGE, cke)];
      if sendCert {
        var signature := c.sign(draw.key, Concat(covered));
        if |signature| > 0xffff {
          return true, [];
        }
        checks := checks + [CertificateVerify(Concat(covered))];
        flight := [Message(CERTIFICATE, CertificateBody(draw.der))] + flight
            + [Message(CERTIFICATE_VERIFY, VerifyBody(signature))];
        assert flight == [flight[0], flight[1], flight[2]];
      }
    }

    method SendFlightAndFinish(flight: seq<Message>) returns (threw: bool)
      requires Valid() && flight != []
      modifies this`checks, this`handshakeMessageSeq, this`transcript, this`lastFlight,
               this`sendSeq, this`output, this`sent, this`ops, this`sendEpoch, this`sendEncrypted
      ensures Outcome(DtlsHandshake.SendFinished(c, PostAll(old(View()), flight)), threw, View())
      ensures !threw ==> Valid()
    {
      hide HandshakeBytes, PostAll, Concat, Counted, Records, FlightBytes, DtlsHandshake.SendFinished;
      ghost var e := View();
      threw := SendFlight(flight);
      if threw {
        FinishedFails(c, PostAll(e, flight));
        return;
      }
      threw := ChangeAndFinish();
    }

    method ChangeAndFinish() returns (threw: bool)
      requires Valid()
      modifies this`checks, this`handshakeMessageSeq, this`transcript, this`sendSeq, this`output, this`sent, this`ops,
               this`sendEpoch, this`sendEncrypted
      ensures Outcome(DtlsHandshake.SendFinished(c, old(View())), threw, View()) && (!threw ==> Valid())
    {
      hide Counted, HandshakeBytes, DtlsHandshake.SendFinished;
      ghost var e := View();
      SendChangeCipherSpec();
      assert View() == e;
      threw := SendFinished();
    }

    method ClientHandle(m: Message) returns (threw: bool)
      requires Valid() && 1 <= nextExpectedHsSeq <= 0x1_0000
      modifies this
      ensures Outside() == old(Outside())
      ensures Outcome(DtlsHandshake.ClientHandle(c, old(View()), old(nextExpectedHsSeq) - 1, m), threw, View())
      ensures !threw ==> Valid()
      ensures InboxAfter(old(EndView()), EndView())
    {
      hide HandshakeBytes, Counted, DtlsHandshake.ClientHandle, VerifyFinished, Finish, Append;
      ClientHandleRest(c, View(), nextExpectedHsSeq - 1, m);
      threw := false;
      if m.msgType == HELLO_VERIFY_REQUEST || m.msgType == SERVER_HELLO {
        threw := ClientHandleHello(m);
      } else if m.msgType == CERTIFICATE || m.msgType == SERVER_KEY_EXCHANGE || m.msgType == CERTIFICATE_REQUEST
                || m.msgType == SERVER_HELLO_DONE {
        threw := ClientHandleLater(m);
      } else if m.msgType == FINISHED {
        threw := TakeServerFinished(m);
      }
    }

    method ClientHandleHello(m: Message) returns (threw: bool)
      requires Valid() && 1 <= nextExpectedHsSeq <= 0x1_0000
      requires m.msgType == HELLO_VERIFY_REQUEST || m.msgType == SERVER_HELLO
      modifies this`cookie, this`handshakeMessageSeq, this`transcript, this`firstClientHello, this`lastFlight,
               this`sendSeq, this`output, this`sent, this`ops, this`serverRandom, this`useExtendedMasterSecret
      ensures Outcome(DtlsHandshake.ClientHandle(c, old(View()), nextExpectedHsSeq - 1, m), threw, View())
      ensures !threw ==> Valid()
    {
      hide HandshakeBytes, Counted, ReadVerifyRequest, DtlsHandshake.TakeServerHello, DtlsHandshake.TakeCertificate,
           TakeServerKey, SecondFlight, DtlsHandshake.SendClientHello, VerifyFinished, Finish, Append;
      if m.msgType == HELLO_VERIFY_REQUEST {
        threw := TakeVerifyRequest(m.body);
      } else {
        threw := TakeServerHello(m);
      }
    }

    method TakeVerifyRequest(body: Buffer) returns (threw: bool)
      requires Valid()
      modifies this`cookie, this`handshakeMessageSeq, this`transcript, this`firstClientHello, this`lastFlight,
               this`sendSeq, this`output, this`sent, this`ops
      ensures var cookie := ReadVerifyRequest(body);
        Outcome(if cookie.None? then Fail(old(View()))
            else DtlsHandshake.SendClientHello(old(View()).(cookie := cookie.value)), threw, View())
      ensures !threw ==> Valid()
    {
      hide Seals, Changes, AfterAll, Stamped, ReadVerifyRequest, DtlsHandshake.SendClientHello;
      var received := ReadVerifyRequest(body);
      if received == None {
        return true;
      }
      cookie := received.value;
      threw := SendClientHello();
    }

    method ClientHandleLater(m: Message) returns (threw: bool)
      requires Valid() && 1 <= nextExpectedHsSeq <= 0x1_0000
      requires m.msgType == CERTIFICATE || m.msgType == SERVER_KEY_EXCHANGE || m.msgType == CERTIFICATE_REQUEST
          || m.msgType == SERVER_HELLO_DONE
      modifies this`transcript, this`remoteCertDer, this`remoteEcdhePub, this`certRequested, this`ecdh,
               this`masterSecret, this`cipherKeys, this`checks, this`handshakeMessageSeq, this`lastFlight, this`sendSeq,
               this`output, this`sent, this`ops, this`sendEpoch, this`sendEncrypted
      ensures Outcome(DtlsHandshake.ClientHandle(c, old(View()), nextExpectedHsSeq - 1, m), threw, View())
      ensures !threw ==> Valid()
    {
      hide Seals, Changes, AfterAll, Stamped, HandshakeBytes, DtlsHandshake.TakeCertificate, TakeServerKey,
           SecondFlight, DtlsHandshake.TakeServerHello, VerifyFinished, Finish, DtlsHandshake.SendClientHello,
           ReadVerifyRequest;
      AppendInboundTranscript(m);
      threw := false;
      if m.msgType == CERTIFICATE {
        threw := TakeCertificate(m.body);
      } else if m.msgType == SERVER_KEY_EXCHANGE {
        threw := TakeServerKeyExchange(m.body);
      } else if m.msgType == CERTIFICATE_REQUEST {
        certRequested := true;
      } else {
        threw := SendClientSecondFlight();
      }
    }

    method TakeServerFinished(m: Message) returns (threw: bool)
      requires Valid() && 1 <= nextExpectedHsSeq <= 0x1_0000
      modifies this`checks, this`state, this`transcript, this`lastFlight, this`firstClientHello, this`clientRandom,
               this`serverRandom, this`masterSecret, this`ecdh, this`remoteEcdhePub, this`reassembly
      ensures var e := VerifyFinished(c, old(View()), Server, m.body);
        Outcome(if e.status == FAILED then e else Finish(Append(e, nextExpectedHsSeq - 1, m)), threw, View())
      ensures !threw ==> Valid()
      ensures InboxAfter(old(EndView()), EndView())
    {
      hide Seals, Changes, AfterAll, Stamped, HandshakeBytes, VerifyFinished;
      FinishKeeps(Append(VerifyFinished(c, View(), Server, m.body), nextExpectedHsSeq - 1, m));
      threw := VerifyPeerFinished(Server, m.body);
      if threw {
        return;
      }
      AppendInboundTranscript(m);
      OnHandshakeComplete();
    }

    // ---- Server ----

    method SendHelloVerifyRequest(cookie: Buffer)
      requires Valid()
      modifies this`handshakeMessageSeq, this`sendSeq, this`output, this`sent, this`ops
      ensures View() == SendVerifyRequest(old(View()), cookie) && Valid()
    {
      hide Seals, Changes, AfterAll, Stamped, HandshakeBytes, VerifyRequestBody;
      var body := VerifyRequestBody(cookie);
      SendRecord(HANDSHAKE, HandshakeBytes(HELLO_VERIFY_REQUEST, 0, body));
      SealPushed(sent, Outgoing(None, 0, Message(HELLO_VERIFY_REQUEST, body)));
      sent := sent + [Outgoing(None, 0, Message(HELLO_VERIFY_REQUEST, body))];
      handshakeMessageSeq := 1;
    }

    method SendServerFlight() returns (threw: bool)
      requires Valid()
      modifies this`serverRandom, this`ecdh, this`handshakeMessageSeq, this`transcript, this`lastFlight, this`sendSeq,
               this`output, this`sent, this`ops
      ensures Outcome(ServerFlight(c, cfg, old(View())), threw, View()) && (!threw ==> Valid())
    {
      hide Seals, Changes, AfterAll, Stamped, ServerFlightMessages, ServerSignature, PostAll, Records, FlightBytes,
           EcdhParams;
      var flight;
      threw, flight := BuildServerFlight();
      if threw {
        return;
      }
      serverRandom := Some(draw.random);
      ecdh := Some(draw.ecdh);
      threw := SendFlight(flight);
    }

    method BuildServerFlight() returns (threw: bool, flight: seq<Message>)
      ensures threw <==> clientRandom.None? || |ServerSignature(c, View())| > 0xffff
      ensures !threw ==> flight == ServerFlightMessages(c, cfg, View())
    {
      hide ServerHelloBody, CertificateBody, KeyExchangeBody, EcdhParams;
      if clientRandom == None {
        return true, [];
      }
      var pub := c.publicOf(draw.ecdh);
      var signature := c.sign(draw.key, clientRandom.value + draw.random + EcdhParams(pub));
      if |signature| > 0xffff {
        return true, [];
      }
      var request := if cfg.requestCert then [Message(CERTIFICATE_REQUEST, RequestBody())] else [];
      threw, flight := false,
        [Message(SERVER_HELLO, ServerHelloBody(draw.random, useExtendedMasterSecret, renegRequested)),
         Message(CERTIFICATE, CertificateBody(draw.der)), Message(SERVER_KEY_EXCHANGE, KeyExchangeBody(pub, signature))]
        + request + [Message(SERVER_HELLO_DONE, [])];
    }

    /** A missing or wrong cookie is answered with a HelloVerifyRequest, and the numbering starts over at 1. */
    method HandleClientHello(m: Message) returns (threw: bool)
      requires Valid() && 1 <= nextExpectedHsSeq <= 0x1_0000
      modifies this`renegRequested, this`clientRandom, this`useExtendedMasterSecret, this`transcript, this`serverRandom,
               this`ecdh, this`handshakeMessageSeq, this`lastFlight, this`sendSeq, this`output, this`sent, this`ops,
               this`reassembly, this`nextExpectedHsSeq
      ensures var (spec, restart) := TakeClientHello(c, cfg, old(View()), old(nextExpectedHsSeq) - 1, m);
        && Outcome(spec, threw, View()) && (!threw ==> Valid())
        && (!threw ==>
              && reassembly == (if restart then map[] else old(reassembly))
              && nextExpectedHsSeq == if restart then 1 else old(nextExpectedHsSeq))
    {
      hide Counted, HandshakeBytes, ReadClientHello, AcceptHello, RefuseHello, MakeCookie, TakeClientHello;
      HelloCases(c, cfg, View(), nextExpectedHsSeq - 1, m);
      var hello := ReadClientHello(m.body);
      if hello == None {
        return true;
      }
      var expected := MakeCookie(c, draw, hello.value.random);
      RefusalGoesOn(View(), hello.value, expected);
      if !cfg.skipVerify && (|hello.value.cookie| == 0 || hello.value.cookie != expected) {
        RefuseClientHello(hello.value, expected);
        return false;
      }
      threw := AcceptClientHello(hello.value, m);
    }

    method RefuseClientHello(hello: Hello, expected: Buffer)
      requires Valid()
      modifies this`renegRequested, this`clientRandom, this`handshakeMessageSeq, this`sendSeq, this`output, this`sent,
               this`ops, this`reassembly, this`nextExpectedHsSeq
      ensures View() == RefuseHello(old(View()), hello, expected) && Valid()
      ensures reassembly == map[] && nextExpectedHsSeq == 1
    {
      hide Counted, SendVerifyRequest;
      NoteHello(hello);
      ClearInbox();
      SendHelloVerifyRequest(expected);
    }

    /** The random is kept only from a hello without a cookie. */
    method NoteHello(hello: Hello)
      requires Valid()
      modifies this`renegRequested, this`clientRandom
      ensures Valid()
      ensures View() == old(View()).(
        renegotiation := hello.renegotiation,
        clientRandom := if hello.cookie == [] then Some(hello.random) else old(clientRandom))
    {
      hide Seals, Changes, AfterAll, Stamped;
      renegRequested := hello.renegotiation;
      if |hello.cookie| == 0 {
        clientRandom := Some(hello.random);
      }
    }

    method ClearInbox()
      requires Valid()
      modifies this`reassembly, this`nextExpectedHsSeq
      ensures Valid() && View() == old(View()) && reassembly == map[] && nextExpectedHsSeq == 1
    {
      hide Seals, Changes, AfterAll, Stamped;
      reassembly, nextExpectedHsSeq := map[], 1;
    }

    method AcceptClientHello(hello: Hello, m: Message) returns (threw: bool)
      requires Valid() && 1 <= nextExpectedHsSeq <= 0x1_0000
      modifies this`renegRequested, this`clientRandom, this`useExtendedMasterSecret, this`transcript, this`serverRandom,
               this`ecdh, this`handshakeMessageSeq, this`lastFlight, this`sendSeq, this`output, this`sent, this`ops
      ensures Outcome(AcceptHello(c, cfg, old(View()), hello, nextExpectedHsSeq - 1, m), threw, View())
      ensures !threw ==> Valid()
    {
      hide Seals, Changes, AfterAll, Stamped, HandshakeBytes, ServerFlight;
      renegRequested := hello.renegotiation;
      clientRandom := Some(hello.random);
      useExtendedMasterSecret := hello.extendedMasterSecret;
      AppendInboundTranscript(m);
      threw := SendServerFlight();
    }

    method TakeClientKeyExchange(body: Buffer) returns (threw: bool)
      requires Valid()
      modifies this`remoteEcdhePub, this`masterSecret, this`cipherKeys, this`checks
      ensures Outcome(TakeClientKey(c, old(View()), body), threw, View()) && (!threw ==> Valid())
    {
      hide Seals, Changes, AfterAll, Stamped, ReadClientKey, DeriveKeys, Concat;
      var pub := ReadClientKey(body);
      if pub == None {
        return true;
      }
      remoteEcdhePub := Some(pub.value);
      threw := DeriveCipherKeys(Concat(transcript));
    }

    method VerifyClientCertificateVerify(body: Buffer) returns (threw: bool)
      requires Valid()
      modifies this`checks
      ensures Outcome(CheckCertificateVerify(c, old(View()), body), threw, View()) && (!threw ==> Valid())
    {
      hide Seals, Changes, AfterAll, Stamped, ReadVerify, Concat;
      var signature := ReadVerify(body);
      if signature == None || remoteCertDer == None {
        return true;
      }
      if !c.verify(remoteCertDer.value, Concat(transcript), signature.value) {
        return true;
      }
      checks := checks + [CertificateVerify(Concat(transcript))];
      return false;
    }

    method TakeClientFinished(m: Message) returns (threw: bool)
      requires Valid() && 1 <= nextExpectedHsSeq <= 0x1_0000
      modifies this`checks, this`state, this`transcript, this`lastFlight, this`firstClientHello, this`clientRandom,
               this`serverRandom, this`masterSecret, this`ecdh, this`remoteEcdhePub, this`reassembly, this`sendSeq,
               this`output, this`ops, this`sendEpoch, this`sendEncrypted, this`handshakeMessageSeq, this`sent
      ensures var e := VerifyFinished(c, old(View()), Client, m.body);
        Outcome(if e.status == FAILED then e
                else Finish(DtlsHandshake.SendFinished(c, Append(e, nextExpectedHsSeq - 1, m))), threw, View())
      ensures !threw ==> Valid() && InboxAfter(old(EndView()), EndView())
    {
      hide Seals, Changes, AfterAll, Stamped, HandshakeBytes, VerifyFinished, DtlsHandshake.SendFinished, Finish;
      FinishKeeps(Append(VerifyFinished(c, View(), Client, m.body), nextExpectedHsSeq - 1, m));
      threw := VerifyPeerFinished(Client, m.body);
      if threw {
        return;
      }
      AppendInboundTranscript(m);
      threw := AnswerFinished();
    }

    /** The server's own change of cipher and Finished complete its handshake. */
    method AnswerFinished() returns (threw: bool)
      requires Valid()
      modifies this`checks, this`state, this`transcript, this`lastFlight, this`firstClientHello, this`clientRandom,
               this`serverRandom, this`masterSecret, this`ecdh, this`remoteEcdhePub, this`reassembly, this`sendSeq,
               this`output, this`ops, this`sendEpoch, this`sendEncrypted, this`handshakeMessageSeq, this`sent
      ensures Outcome(Finish(DtlsHandshake.SendFinished(c, old(View()))), threw, View())
      ensures !threw ==> Valid() && InboxAfter(old(EndView()), EndView())
    {
      hide Counted, HandshakeBytes, DtlsHandshake.SendFinished, Finish;
      FinishKeeps(DtlsHandshake.SendFinished(c, View()));
      FinishedStatus(c, View());
      threw := ChangeAndFinish();
      if !threw {
        OnHandshakeComplete();
      }
    }

    method ServerHandle(m: Message) returns (threw: bool)
      requires Valid() && 1 <= nextExpectedHsSeq <= 0x1_0000
      modifies this
      ensures Outside() == old(Outside())
      ensures var (spec, restart) := DtlsHandshake.ServerHandle(c, cfg, old(View()), old(nextExpectedHsSeq) - 1, m);
        && Outcome(spec, threw, View()) && (!threw ==> Valid())
        && (!threw ==> if restart then reassembly == map[] && nextExpectedHsSeq == 1
            else InboxAfter(old(EndView()), EndView()))
    {
      hide Counted, HandshakeBytes, TakeClientHello, VerifyFinished, DtlsHandshake.SendFinished, Finish,
           DtlsHandshake.TakeCertificate, TakeClientKey, CheckCertificateVerify, Append;
      if m.msgType == CLIENT_HELLO {
        HelloGoesOn(c, cfg, View(), nextExpectedHsSeq - 1, m);
        threw := HandleClientHello(m);
      } else if m.msgType == FINISHED {
        threw := TakeClientFinished(m);
      } else {
        threw := ServerHandleKeys(m);
      }
    }

    method ServerHandleKeys(m: Message) returns (threw: bool)
      requires Valid() && 1 <= nextExpectedHsSeq <= 0x1_0000
      requires m.msgType != CLIENT_HELLO && m.msgType != FINISHED
      modifies this`transcript, this`remoteCertDer, this`remoteEcdhePub, this`masterSecret, this`cipherKeys, this`checks
      ensures Outcome(DtlsHandshake.ServerHandle(c, cfg, old(View()), nextExpectedHsSeq - 1, m).0, threw, View())
      ensures !threw ==> Valid()
      ensures !threw ==> state == old(state)
    {
      hide Seals, Changes, AfterAll, Stamped, HandshakeBytes, DtlsHandshake.TakeCertificate, TakeClientKey,
           CheckCertificateVerify;
      threw := false;
      if m.msgType == CERTIFICATE {
        AppendInboundTranscript(m);
        threw := TakeCertificate(m.body);
      } else if m.msgType == CLIENT_KEY_EXCHANGE {
        AppendInboundTranscript(m);
        threw := TakeClientKeyExchange(m.body);
      } else if m.msgType == CERTIFICATE_VERIFY {
        threw := VerifyClientCertificateVerify(m.body);
        if !threw {
          AppendInboundTranscript(m);
        }
      }
    }

    // ---- Receiving ----

    /**
     * A throw anywhere fails the connection, which then takes no more packets. A sealed record is dropped while
     * there are no keys, and one that does not open fails the connection.
     */
    method HandleRecord(typ: byte, seal: Option<Seal>, fragment: Buffer)
      requires Valid() && !closed
      modifies this
      ensures var before, unread := old(EndView()), seal.Some? && old(cipherKeys) == None;
        var misread := !unread && seal.Some? && !Opens(before.core, seal.value);
        if misread then state == FAILED && Outside() == old(Outside())
        else if typ == HANDSHAKE then
          var spec := TakePayload(c, cfg, before, seal, fragment);
          && (if spec.core.status == FAILED then state == FAILED else Valid() && EndView() == spec)
          && Outside() == old(Outside())
        else if typ == APPLICATION_DATA then
          && Valid() && EndView() == before && !closed
          && received == old(received) + if !unread && old(state) == CONNECTED then [fragment] else []
        else if typ == ALERT && !unread && Closing(fragment) then closed && received == old(received)
        else if typ == ALERT && !unread && Fatal(fragment) then state == FAILED && Outside() == old(Outside())
        else Valid() && EndView() == before && Outside() == old(Outside())
    {
      hide Counted, TakeFragment, ParseHandshake;
      if seal.Some? && cipherKeys == None {
        return;
      }
      if seal.Some? && seal.value != Seal(cipherKeys.value, if role == Client then Server else Client) {
        state := FAILED;
        return;
      }
      if typ == HANDSHAKE {
        var threw := HandleHandshakeFragment(fragment);
        if threw {
          state := FAILED;
        }
      } else if typ == APPLICATION_DATA {
        TakeData(fragment);
      } else if typ == ALERT {
        HandleAlert(fragment);
      }
    }

    method TakeData(fragment: Buffer)
      requires Valid()
      modifies this`received
      ensures Valid() && received == old(received) + if state == CONNECTED then [fragment] else []
    {
      hide Seals, Changes, AfterAll, Stamped;
      if state == CONNECTED {
        received := received + [fragment];
      }
    }

    method HandleAlert(fragment: Buffer)
      requires Valid() && !closed
      modifies this
      ensures received == old(received)
      ensures if Closing(fragment) then closed
              else !closed && (if Fatal(fragment) then state == FAILED else Valid() && EndView() == old(EndView()))
    {
      if |fragment| < 2 {
        return;
      }
      if fragment[1] == CLOSE_NOTIFY {
        Close();
      } else if fragment[0] == FATAL {
        state := FAILED;
      }
    }

    /** Announces the close under the cipher of the moment, once one is in use. */
    method Close()
      requires Valid()
      modifies this`sendSeq, this`output, this`ops, this`closed, this`transcript, this`lastFlight,
               this`firstClientHello, this`clientRandom, this`serverRandom, this`masterSecret, this`ecdh,
               this`remoteEcdhePub, this`reassembly
      ensures closed && received == old(received)
      ensures output == old(output) +
        if old(sendEncrypted) && !old(closed) then
          [Output(old(CurrentSeal()), ALERT, sendEpoch, old(sendSeq), [WARNING, CLOSE_NOTIFY])]
        else []
    {
      if closed {
        return;
      }
      if sendEncrypted {
        SendRecord(ALERT, [WARNING, CLOSE_NOTIFY]);
      }
      ReleaseHandshakeState();
      closed := true;
    }

    /** `send` of application data. */
    method SendData(data: Buffer) returns (threw: bool)
      requires Valid()
      modifies this`sendSeq, this`output, this`ops
      ensures Valid() && EndView() == old(EndView())
      ensures threw <==> state != CONNECTED || closed
      ensures output == old(output) +
        if threw then [] else [Output(CurrentSeal(), APPLICATION_DATA, sendEpoch, old(sendSeq), data)]
    {
      hide Seals, Changes, AfterAll, Stamped;
      if state != CONNECTED || closed {
        return true;
      }
      SendRecord(APPLICATION_DATA, data);
      threw := false;
    }

    method HandleHandshakeFragment(buf: Buffer) returns (threw: bool)
      requires Valid()
      modifies this
      ensures Outside() == old(Outside())
      ensures var parsed := ParseHandshake(buf);
        if parsed.None? then threw
        else
          var spec := TakeFragment(c, cfg, old(EndView()), parsed.value);
          (threw <==> spec.core.status == FAILED) && (!threw ==> Valid() && EndView() == spec)
    {
      hide Seals, Changes, AfterAll, Stamped, ParseHandshake, DrainEnd, Copied;
      var parsed := ParseHandshake(buf);
      if parsed == None {
        return true;
      }
      var f := parsed.value;
      var entry := if f.messageSeq in reassembly then reassembly[f.messageSeq]
          else Entry(f.msgType, f.length, Zeros(f.length), 0);
      entry := entry.(data := Copied(entry.data, f.fragmentOffset, f.data),
                      received := DtlsReassembly.Max(entry.received, f.fragmentOffset + f.fragmentLength));
      reassembly := reassembly[f.messageSeq as nat := entry];
      threw := DrainInbox();
    }

    /** Dispatch any in-order, fully received messages. */
    method DrainInbox() returns (threw: bool)
      requires Valid()
      modifies this
      ensures Outside() == old(Outside())
      ensures var spec := DrainEnd(c, cfg, old(EndView()));
        (threw <==> spec.core.status == FAILED) && (!threw ==> Valid() && EndView() == spec)
    {
      hide Seals, Changes, AfterAll, Stamped, HandleMessage, DtlsReassembly.Complete;
      ghost var start := EndView();
      while nextExpectedHsSeq <= 0xffff && nextExpectedHsSeq in reassembly
          && DtlsReassembly.Complete(reassembly[nextExpectedHsSeq])
        invariant Valid() && DrainEnd(c, cfg, EndView()) == DrainEnd(c, cfg, start) && Outside() == old(Outside())
        decreases |reassembly|
      {
        ghost var before := EndView();
        var next := reassembly[nextExpectedHsSeq];
        DtlsReassembly.Shrinks(reassembly, nextExpectedHsSeq);
        threw := DispatchNext(next);
        if threw {
          return;
        }
      }
      threw := false;
    }

    /** One turn of the loop. */
    method DispatchNext(next: Entry) returns (threw: bool)
      requires Valid() && nextExpectedHsSeq <= 0xffff && nextExpectedHsSeq in reassembly
      requires next == reassembly[nextExpectedHsSeq]
      modifies this
      ensures Outside() == old(Outside())
      ensures Outcome(DispatchedNext(c, cfg, old(EndView())).core, threw, View())
      ensures !threw ==> Valid() && EndView() == DispatchedNext(c, cfg, old(EndView()))
    {
      hide Seals, Changes, AfterAll, Stamped, DtlsHandshake.ClientHandle, DtlsHandshake.ServerHandle;
      reassembly := reassembly - {nextExpectedHsSeq};
      nextExpectedHsSeq := nextExpectedHsSeq + 1;
      if role == Client {
        threw := ClientHandle(Message(next.msgType, next.data));
      } else {
        threw := ServerHandle(Message(next.msgType, next.data));
      }
    }
  }

  /** A record under this seal opens with the keys the end has. */
  predicate Opens(e: Core, seal: Seal) {
    e.keys.Some? && seal == Seal(e.keys.value, if e.role == Client then Server else Client)
  }

  const ALERT: byte := 21
  const APPLICATION_DATA: byte := 23
  const WARNING: byte := 1
  const FATAL: byte := 2
  const CLOSE_NOTIFY: byte := 0

  predicate Closing(fragment: Buffer) { |fragment| >= 2 && fragment[1] == CLOSE_NOTIFY }

  predicate Fatal(fragment: Buffer) { |fragment| >= 2 && fragment[1] != CLOSE_NOTIFY && fragment[0] == FATAL }

  const CLIENT_HEARS: set<byte> :=
    {HELLO_VERIFY_REQUEST, SERVER_HELLO, CERTIFICATE, SERVER_KEY_EXCHANGE, CERTIFICATE_REQUEST, SERVER_HELLO_DONE,
        FINISHED}

  lemma ClientHandleRest(c: Crypto, e: Core, n: u16, m: Message)
    ensures m.msgType == FINISHED ==>
      var e1 := VerifyFinished(c, e, Server, m.body);
      DtlsHandshake.ClientHandle(c, e, n, m) == if e1.status == FAILED then e1 else Finish(Append(e1, n, m))
    ensures m.msgType !in CLIENT_HEARS ==> DtlsHandshake.ClientHandle(c, e, n, m) == e
  {
    hide VerifyFinished, Finish, Append, DtlsHandshake.TakeCertificate, TakeServerKey, SecondFlight;
  }

  lemma HelloCases(c: Crypto, cfg: Config, e: Core, n: u16, m: Message)
    ensures var hello := ReadClientHello(m.body);
      DtlsHandshake.TakeClientHello(c, cfg, e, n, m) ==
        if hello == None then (Fail(e), false)
        else
          var expected := MakeCookie(c, e.draw, hello.value.random);
          if !cfg.skipVerify && (hello.value.cookie == [] || hello.value.cookie != expected) then
            (RefuseHello(e, hello.value, expected), true)
          else (AcceptHello(c, cfg, e, hello.value, n, m), false)
  {
    hide ReadClientHello, MakeCookie, RefuseHello, AcceptHello;
  }

  lemma RefusalGoesOn(e: Core, h: Hello, expected: Buffer)
    ensures RefuseHello(e, h, expected).status == e.status
  {}

  lemma FinishedStatus(c: Crypto, e: Core)
    ensures var s := DtlsHandshake.SendFinished(c, e).status; s == e.status || s == FAILED
  {
    hide HandshakeBytes, Concat;
  }

  /** A ClientHello never completes the handshake. */
  lemma HelloGoesOn(c: Crypto, cfg: Config, e: Core, n: u16, m: Message)
    ensures TakeClientHello(c, cfg, e, n, m).0.status == e.status || TakeClientHello(c, cfg, e, n, m).0.status == FAILED
  {
    hide HandshakeBytes, ReadClientHello, ServerFlightMessages, ServerSignature, PostAll;
    forall e1: Core, ms ensures PostAll(e1, ms).status == e1.status || PostAll(e1, ms).status == FAILED {
      PostKeepsStatus(e1, ms);
    }
  }

  lemma {:induction false} PostKeepsStatus(e: Core, ms: seq<Message>)
    ensures PostAll(e, ms).status == e.status || PostAll(e, ms).status == FAILED
    decreases |ms|
  {
    hide HandshakeBytes;
    if ms != [] {
      PostKeepsStatus(Post(e, ms[0]), ms[1..]);
    }
  }

  /** A handler that completes the handshake clears the inbox; no other touches it. */
  ghost predicate InboxAfter(a: End, b: End) {
    && b.next == a.next
    && b.entries == if b.core.status == CONNECTED && a.core.status == HANDSHAKING then map[] else a.entries
  }

  lemma FinishKeeps(e: Core)
    ensures Finish(e).status == if e.status == HANDSHAKING then CONNECTED else e.status
  {}

  lemma FinishedFails(c: Crypto, e: Core)
    requires e.status == FAILED
    ensures DtlsHandshake.SendFinished(c, e).status == FAILED
  {}

}

/** Nonces over honest runs of the handshake. */
module DtlsNonces {
  import opened Bytes
  import opened DtlsHandshake
  import opened DtlsAgreement
  import opened DtlsRuns
  import opened DtlsConnectionObject
  import DtlsRecordLayer

  lemma {:induction false} SealsOfPrefix(sent: seq<Outgoing>, n: nat)
    requires n <= |sent|
    ensures Seals(sent[..n]) <= Seals(sent)
  {
    if n < |sent| {
      SealsOfPrefix(sent[..|sent| - 1], n);
      assert sent[..|sent| - 1][..n] == sent[..n];
    } else {
      assert sent[..n] == sent;
    }
  }

  lemma {:induction false} NoSeals(sent: seq<Outgoing>)
    requires forall i | 0 <= i < |sent| :: sent[i].seal == None
    ensures Seals(sent) == 0
  {
    if sent != [] {
      NoSeals(sent[..|sent| - 1]);
    }
  }

  lemma OneSeal(p: Setting, role: Role)
    requires Honest(p)
    ensures Seals(Said(p, role)) <= 1
  {
    hide ServerFlightSends, Hellos, ClientCert, ClientKey, Verify, ClientDone, ServerDone, TheKeys, Honest, Seals;
    var all := Said(p, role);
    var n := |all| - 1;
    if role == Server {
      FlightUnsealed(p);
      assert all[..n] == ServerFlightSends(p);
    } else {
      HellosNumbered(p);
    }
    NoSeals(all[..n]);
    assert all == all[..n] + [all[n]];
    SealPushed(all[..n], all[n]);
  }

  lemma FlightUnsealed(p: Setting)
    requires Honest(p)
    ensures forall i | 0 <= i < |ServerFlightSends(p)| :: ServerFlightSends(p)[i].seal == None
  {
    hide ServerFlightSends;
    forall i | 0 <= i < |ServerFlightSends(p)| ensures ServerFlightSends(p)[i].seal == None {
      DtlsRuns.FlightNumbered(p, i);
    }
  }

  /** A finished handshake or one under way has sent at most one sealed message. */
  lemma RunSealsOnce(p: Setting, events: seq<Event>, role: Role)
    requires Honest(p) && Schedule(p, Initial(p), events)
    ensures var s := Run(p, Initial(p), events);
      Seals(if role == Client then s.client.core.sent else s.server.core.sent) <= 1
  {
    hide Honest, Said, Seals, Run, AllChecks, After, Heard, SealedComeWhole;
    RunKeepsInv(p, Initial(p), events);
    var s := Run(p, Initial(p), events);
    NoSeals([]);
    OneSeal(p, role);
    if s.started {
      var e := if role == Client then s.client else s.server;
      AfterFacts(p, role, e.next);
      SealsOfPrefix(Said(p, role), |e.core.sent|);
      assert Said(p, role)[..|e.core.sent|] == e.core.sent;
    }
  }

  function NonceOf(o: Output): Buffer
    requires o.number < 0x1_0000_0000_0000
  {
    DtlsRecordLayer.Nonce((o.epoch as nat, o.number))
  }

  /**
   * Over every run of the handshake: a connection that stands where an end of the run stands has changed
   * cipher at most once, so no two of the records it has put out, retransmissions and application data
   * included, share a nonce.
   */
  lemma HonestNoncesDistinct(p: Setting, events: seq<Event>, conn: DtlsConnection, i: nat, j: nat)
    requires Honest(p) && Schedule(p, Initial(p), events) && conn.Valid()
    requires var s := Run(p, Initial(p), events);
      conn.View() == if conn.role == Client then s.client.core else s.server.core
    requires |conn.output| < 0x1_0000_0000_0000 && i < j < |conn.output|
    ensures conn.output[i].number < 0x1_0000_0000_0000 && conn.output[j].number < 0x1_0000_0000_0000
    ensures NonceOf(conn.output[i]) != NonceOf(conn.output[j])
  {
    hide Honest, Schedule, Run, Seals, DtlsRecordLayer.Changes, DtlsRecordLayer.Stamps, DtlsRecordLayer.Nonce;
    RunSealsOnce(p, events, conn.role);
    DtlsRecordLayer.NoncesDistinct(conn.ops, i, j);
  }
}
