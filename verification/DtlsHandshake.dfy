/**
 * The DTLS 1.2 handshake of both roles (src/dtls/connection.ts:380-937): what each incoming message does
 * to an end, as functions on its state.
 */
module DtlsHandshake {
  import opened Bytes
  import opened DtlsWire
  import opened DtlsMessages
  import opened DtlsReassembly

  datatype Role = Client | Server

  /** Cryptography, uninterpreted. Certificates are named by their DER bytes, private keys by theirs. */
  datatype Crypto = Crypto(
    sha256: Buffer -> Buffer,
    verifyData: (Buffer, Role, Buffer) -> Buffer,      // (master secret, sender, transcript hash)
    publicOf: Buffer -> Buffer,                        // ECDH private key to public point
    agree: (Buffer, Buffer) -> Buffer,                 // (own private key, peer's public point)
    extendedMaster: (Buffer, Buffer) -> Buffer,        // (pre-master secret, session hash)
    plainMaster: (Buffer, Buffer, Buffer) -> Buffer,   // (pre-master secret, client random, server random)
    sign: (Buffer, Buffer) -> Buffer,                  // (private key, data)
    verify: (Buffer, Buffer, Buffer) -> bool,          // (certificate, data, signature)
    cookieMac: (Buffer, Buffer) -> Buffer,             // (secret, client random)
    trusts: (Role, Buffer) -> bool)                    // the fingerprint callback of each role

  /** Everything an end draws or is given before it starts. */
  datatype Draw = Draw(random: Buffer, ecdh: Buffer, key: Buffer, der: Buffer, cookieSecret: Buffer)

  /**
   * How the server behaves: this repository's server sends HelloVerifyRequest and CertificateRequest, other
   * peers may not.
   */
  datatype Config = Config(skipVerify: bool, requestCert: bool)

  datatype Status = HANDSHAKING | CONNECTED | FAILED

  /** What the record keys are derived from; equal inputs give equal keys. */
  datatype Keys = Keys(master: Buffer, clientRandom: Buffer, serverRandom: Buffer)

  /** Record protection under one direction's keys: it opens under the same keys only. */
  datatype Seal = Seal(keys: Keys, writer: Role)

  datatype Outgoing = Outgoing(seal: Option<Seal>, messageSeq: u16, message: Message)

  /** The bytes fed to a hash or signature, for each check of the handshake (history). */
  datatype Check =
    | SessionHash(bytes: Buffer)
    | CertificateVerify(bytes: Buffer)
    | ClientFinished(bytes: Buffer)
    | ServerFinished(bytes: Buffer)

  datatype Core = Core(
    role: Role, draw: Draw, status: Status, messageSeq: nat, sent: seq<Outgoing>, transcript: seq<Buffer>,
    clientRandom: Option<Buffer>, serverRandom: Option<Buffer>, cookie: Buffer, extendedMasterSecret: bool,
    renegotiation: bool, ecdh: Option<Buffer>, remoteCert: Option<Buffer>, remotePub: Option<Buffer>,
    certRequested: bool, firstClientHello: Option<Buffer>, master: Option<Buffer>, keys: Option<Keys>,
    checks: seq<Check>)

  function Fresh(role: Role, draw: Draw): Core {
    Core(role, draw, HANDSHAKING, 0, [], [], None, None, [], false, false, None, None, None, false, None, None, None,
        [])
  }

  function Fail(e: Core): Core { e.(status := FAILED) }

  /** A received message, rebuilt as one fragment from the number just consumed. */
  function Append(e: Core, n: u16, m: Message): Core {
    e.(transcript := e.transcript + [HandshakeBytes(m.msgType, n, m.body)])
  }

  function Post(e: Core, m: Message): Core {
    if e.messageSeq > 0xffff || e.status == FAILED then Fail(e)
    else e.(transcript := e.transcript + [HandshakeBytes(m.msgType, e.messageSeq, m.body)],
            sent := e.sent + [Outgoing(None, e.messageSeq, m)], messageSeq := e.messageSeq + 1)
  }

  /** `#sendFlight`. */
  function PostAll(e: Core, ms: seq<Message>): Core
    decreases |ms|
  {
    if ms == [] then e else PostAll(Post(e, ms[0]), ms[1..])
  }

  /** The bytes of `#transcriptBytes`, which `#transcriptHash` hashes. */
  function TranscriptBytes(e: Core): Buffer { Concat(e.transcript) }

  function FinishedCheck(sender: Role, bytes: Buffer): Check {
    if sender == Client then ClientFinished(bytes) else ServerFinished(bytes)
  }

  /** Sealed, since the change of cipher goes out just before. */
  function SendFinished(c: Crypto, e: Core): Core {
    if e.status == FAILED || e.master.None? || e.keys.None? || e.messageSeq > 0xffff then Fail(e)
    else
      var m := Message(FINISHED, c.verifyData(e.master.value, e.role, c.sha256(TranscriptBytes(e))));
      e.(checks := e.checks + [FinishedCheck(e.role, TranscriptBytes(e))],
         transcript := e.transcript + [HandshakeBytes(FINISHED, e.messageSeq, m.body)],
         sent := e.sent + [Outgoing(Some(Seal(e.keys.value, e.role)), e.messageSeq, m)], messageSeq := e.messageSeq + 1)
  }

  function VerifyFinished(c: Crypto, e: Core, sender: Role, body: Buffer): Core {
    if e.master.None? || body != c.verifyData(e.master.value, sender, c.sha256(TranscriptBytes(e))) then Fail(e)
    else e.(checks := e.checks + [FinishedCheck(sender, TranscriptBytes(e))])
  }

  /** `#onHandshakeComplete` with the release of what only the handshake needed. */
  function Finish(e: Core): Core {
    if e.status != HANDSHAKING then e
    else e.(status := CONNECTED, transcript := [], firstClientHello := None, clientRandom := None, serverRandom := None,
            master := None, ecdh := None, remotePub := None)
  }

  /** `hashed` is what the session hash covers when the extended master secret is in use. */
  function DeriveKeys(c: Crypto, e: Core, hashed: Buffer): Core {
    if e.ecdh.None? || e.remotePub.None? || e.clientRandom.None? || e.serverRandom.None? then Fail(e)
    else
      var pms := c.agree(e.ecdh.value, e.remotePub.value);
      var master := if e.extendedMasterSecret then c.extendedMaster(pms, c.sha256(hashed))
                    else c.plainMaster(pms, e.clientRandom.value, e.serverRandom.value);
      e.(master := Some(master), keys := Some(Keys(master, e.clientRandom.value, e.serverRandom.value)),
         checks := if e.extendedMasterSecret then e.checks + [SessionHash(hashed)] else e.checks)
  }

  function TakeCertificate(c: Crypto, e: Core, body: Buffer): Core {
    match ReadCertificate(body)
    case None => e.(remoteCert := None)
    case Some(der) => if c.trusts(e.role, der) then e.(remoteCert := Some(der)) else Fail(e)
  }

  // ---- Client ----

  /** The first ClientHello, without a cookie, stays out of the transcript for now. */
  function SendClientHello(e: Core): Core {
    if e.clientRandom.None? then Fail(e)
    else
      var m := Message(CLIENT_HELLO, ClientHelloBody(e.clientRandom.value, e.cookie));
      if e.cookie != [] then Post(e, m)
      else if e.messageSeq > 0xffff then Fail(e)
      else e.(firstClientHello := Some(HandshakeBytes(CLIENT_HELLO, e.messageSeq, m.body)),
              sent := e.sent + [Outgoing(None, e.messageSeq, m)], messageSeq := e.messageSeq + 1)
  }

  function Start(e: Core): Core { SendClientHello(e.(clientRandom := Some(e.draw.random))) }

  /** Without a HelloVerifyRequest the first ClientHello opens the transcript (section 4.2.1 of RFC 6347). */
  function TakeServerHello(e: Core, n: u16, m: Message): Core {
    var first := if e.cookie == [] && e.transcript == [] && e.firstClientHello.Some?
                  then e.(transcript := [e.firstClientHello.value]) else e;
    var e1 := Append(first, n, m);
    match ReadServerHello(m.body)
    case None => Fail(e1)
    case Some(p) =>
      if p.suite != CIPHER_SUITE then Fail(e1)
      else e1.(serverRandom := Some(p.random), extendedMasterSecret := e.extendedMasterSecret || p.extendedMasterSecret)
  }

  function TakeServerKey(c: Crypto, e: Core, body: Buffer): Core {
    match ReadKeyExchange(body)
    case None => Fail(e)
    case Some(k) =>
      if e.clientRandom.None? || e.serverRandom.None? || e.remoteCert.None?
         || !c.verify(e.remoteCert.value, e.clientRandom.value + e.serverRandom.value + k.params, k.signature) then
             Fail(e)
      else e.(remotePub := Some(k.pub))
  }

  /** The Certificate and ClientKeyExchange as they will be numbered, before either is sent. */
  function Predicted(c: Crypto, e: Core): seq<Buffer>
    requires e.messageSeq < 0xffff
  {
    var cke := ClientKeyBody(c.publicOf(e.draw.ecdh));
    if e.certRequested then
      [HandshakeBytes(CERTIFICATE, e.messageSeq, CertificateBody(e.draw.der)),
       HandshakeBytes(CLIENT_KEY_EXCHANGE, e.messageSeq as int + 1, cke)]
    else [HandshakeBytes(CLIENT_KEY_EXCHANGE, e.messageSeq, cke)]
  }

  /** The client's state and flight once the keys are derived and the checks made. */
  function Built(c: Crypto, e: Core): (Core, seq<Message>)
    requires e.messageSeq < 0xffff
  {
    var signed := Concat(e.transcript + Predicted(c, e));
    var e1 := DeriveKeys(c, e.(ecdh := Some(e.draw.ecdh)), signed);
    var signature := c.sign(e.draw.key, signed);
    var cke := Message(CLIENT_KEY_EXCHANGE, ClientKeyBody(c.publicOf(e.draw.ecdh)));
    if e1.status == FAILED || (e.certRequested && |signature| > 0xffff) then (Fail(e1), [])
    else if e.certRequested then
      (e1.(checks := e1.checks + [CertificateVerify(signed)]),
       [Message(CERTIFICATE, CertificateBody(e.draw.der)), cke, Message(CERTIFICATE_VERIFY, VerifyBody(signature))])
    else (e1, [cke])
  }

  function SecondFlight(c: Crypto, e: Core): Core {
    if e.messageSeq >= 0xffff then Fail(e)
    else
      var (e1, flight) := Built(c, e);
      if e1.status == FAILED then e1 else SendFinished(c, PostAll(e1, flight))
  }

  function ClientHandle(c: Crypto, e: Core, n: u16, m: Message): Core {
    if m.msgType == HELLO_VERIFY_REQUEST then
      (match ReadVerifyRequest(m.body)
       case None => Fail(e)
       case Some(cookie) => SendClientHello(e.(cookie := cookie)))
    else if m.msgType == SERVER_HELLO then TakeServerHello(e, n, m)
    else if m.msgType == CERTIFICATE then TakeCertificate(c, Append(e, n, m), m.body)
    else if m.msgType == SERVER_KEY_EXCHANGE then TakeServerKey(c, Append(e, n, m), m.body)
    else if m.msgType == CERTIFICATE_REQUEST then Append(e.(certRequested := true), n, m)
    else if m.msgType == SERVER_HELLO_DONE then SecondFlight(c, Append(e, n, m))
    else if m.msgType == FINISHED then
      var e1 := VerifyFinished(c, e, Server, m.body);
      if e1.status == FAILED then e1 else Finish(Append(e1, n, m))
    else e
  }

  // ---- Server ----

  function MakeCookie(c: Crypto, draw: Draw, random: Buffer): Buffer {
    DtlsMessages.Slice(c.cookieMac(draw.cookieSecret, random), 0, 20)
  }

  function SendVerifyRequest(e: Core, cookie: Buffer): Core {
    e.(sent := e.sent + [Outgoing(None, 0, Message(HELLO_VERIFY_REQUEST, VerifyRequestBody(cookie)))], messageSeq := 1)
  }

  function ServerSignature(c: Crypto, e: Core): Buffer {
    if e.clientRandom.None? then [] else c.sign(e.draw.key,
        e.clientRandom.value + e.draw.random + EcdhParams(c.publicOf(e.draw.ecdh)))
  }

  function ServerFlightMessages(c: Crypto, cfg: Config, e: Core): (ms: seq<Message>)
    requires |ServerSignature(c, e)| <= 0xffff
    ensures ms != []
  {
    [Message(SERVER_HELLO, ServerHelloBody(e.draw.random, e.extendedMasterSecret, e.renegotiation)),
     Message(CERTIFICATE, CertificateBody(e.draw.der)),
     Message(SERVER_KEY_EXCHANGE, KeyExchangeBody(c.publicOf(e.draw.ecdh), ServerSignature(c, e)))]
    + (if cfg.requestCert then [Message(CERTIFICATE_REQUEST, RequestBody())] else [])
    + [Message(SERVER_HELLO_DONE, [])]
  }

  function ServerFlight(c: Crypto, cfg: Config, e: Core): Core {
    if e.clientRandom.None? || |ServerSignature(c, e)| > 0xffff then Fail(e)
    else PostAll(e.(serverRandom := Some(e.draw.random), ecdh := Some(e.draw.ecdh)), ServerFlightMessages(c, cfg, e))
  }

  function RefuseHello(e: Core, h: Hello, expected: Buffer): Core {
    SendVerifyRequest(
      if h.cookie == [] then e.(renegotiation := h.renegotiation, clientRandom := Some(h.random))
          else e.(renegotiation := h.renegotiation),
      expected)
  }

  function AcceptHello(c: Crypto, cfg: Config, e: Core, h: Hello, n: u16, m: Message): Core {
    ServerFlight(c, cfg, Append(e.(renegotiation := h.renegotiation, clientRandom := Some(h.random),
                                   extendedMasterSecret := h.extendedMasterSecret), n, m))
  }

  /** The second component: forget buffered messages and expect message 1 next. */
  function TakeClientHello(c: Crypto, cfg: Config, e: Core, n: u16, m: Message): (Core, bool) {
    match ReadClientHello(m.body)
    case None => (Fail(e), false)
    case Some(h) =>
      var expected := MakeCookie(c, e.draw, h.random);
      if !cfg.skipVerify && (h.cookie == [] || h.cookie != expected) then (RefuseHello(e, h, expected), true)
      else (AcceptHello(c, cfg, e, h, n, m), false)
  }

  function TakeClientKey(c: Crypto, e: Core, body: Buffer): Core {
    match ReadClientKey(body)
    case None => Fail(e)
    case Some(pub) => DeriveKeys(c, e.(remotePub := Some(pub)), TranscriptBytes(e))
  }

  function CheckCertificateVerify(c: Crypto, e: Core, body: Buffer): Core {
    match ReadVerify(body)
    case None => Fail(e)
    case Some(signature) =>
      if e.remoteCert.None? || !c.verify(e.remoteCert.value, TranscriptBytes(e), signature) then Fail(e)
      else e.(checks := e.checks + [CertificateVerify(TranscriptBytes(e))])
  }

  function ServerHandle(c: Crypto, cfg: Config, e: Core, n: u16, m: Message): (Core, bool) {
    if m.msgType == CLIENT_HELLO then TakeClientHello(c, cfg, e, n, m)
    else (
      if m.msgType == CERTIFICATE then TakeCertificate(c, Append(e, n, m), m.body)
      else if m.msgType == CLIENT_KEY_EXCHANGE then TakeClientKey(c, Append(e, n, m), m.body)
      else if m.msgType == CERTIFICATE_VERIFY then
        var e1 := CheckCertificateVerify(c, e, m.body);
        if e1.status == FAILED then e1 else Append(e1, n, m)
      else if m.msgType == FINISHED then
        var e1 := VerifyFinished(c, e, Client, m.body);
        if e1.status == FAILED then e1 else Finish(SendFinished(c, Append(e1, n, m)))
      else e, false)
  }

  function HandleMessage(c: Crypto, cfg: Config, e: Core, n: u16, m: Message): (Core, bool) {
    if e.role == Client then (ClientHandle(c, e, n, m), false) else ServerHandle(c, cfg, e, n, m)
  }

  // ---- Receiving records ----

  datatype End = End(core: Core, entries: map<nat, Entry>, next: nat)

  /**
   * Dispatch the complete messages that are next in line; a throw fails the connection and stops the loop.
   * Completion clears the inbox.
   */
  function DrainEnd(c: Crypto, cfg: Config, e: End): End
    decreases |e.entries|
  {
    if e.core.status != FAILED && e.next <= 0xffff && e.next in e.entries && Complete(e.entries[e.next]) then
      var entry := e.entries[e.next];
      Shrinks(e.entries, e.next);
      var (core, restart) := HandleMessage(c, cfg, e.core, e.next, Message(entry.msgType, entry.data));
      if restart then End(core, map[], 1)
      else if core.status == CONNECTED && e.core.status == HANDSHAKING then End(core, map[], e.next + 1)
      else DrainEnd(c, cfg, End(core, e.entries - {e.next}, e.next + 1))
    else e
  }

  function TakeFragment(c: Crypto, cfg: Config, e: End, f: Fragment): End {
    DrainEnd(c, cfg, e.(entries := Fed(e.entries, f)))
  }

  /** Sealed records are dropped until keys exist; one that does not open fails the connection. */
  function TakeRecord(c: Crypto, cfg: Config, e: End, seal: Option<Seal>, f: Fragment): End {
    if e.core.status == FAILED then e
    else if seal.Some? && e.core.keys.None? then e
    else if seal.Some? && seal.value != Seal(e.core.keys.value, if e.core.role == Client then Server else Client) then
      e.(core := Fail(e.core))
    else TakeFragment(c, cfg, e, f)
  }

  /** A handshake record from its bytes; ones too short to parse make the parser throw. */
  function TakePayload(c: Crypto, cfg: Config, e: End, seal: Option<Seal>, payload: Buffer): End {
    match ParseHandshake(payload)
    case Some(f) => TakeRecord(c, cfg, e, seal, f)
    case None => if e.core.status == FAILED || (seal.Some? && e.core.keys.None?) then e else e.(core := Fail(e.core))
  }

  /** The end after the message next in line has been dispatched. */
  function DispatchedNext(c: Crypto, cfg: Config, e: End): End
    requires e.next <= 0xffff && e.next in e.entries
  {
    var entry := e.entries[e.next];
    var (core, restart) := HandleMessage(c, cfg, e.core, e.next, Message(entry.msgType, entry.data));
    if restart then End(core, map[], 1)
    else if core.status == CONNECTED && e.core.status == HANDSHAKING then End(core, map[], e.next + 1)
    else End(core, e.entries - {e.next}, e.next + 1)
  }

  // ---- What a flight adds ----

  function Recorded(n: nat, ms: seq<Message>): (r: seq<Buffer>)
    requires n + |ms| <= 0x1_0000
    ensures |r| == |ms|
  {
    seq(|ms|, i requires 0 <= i < |ms| => HandshakeBytes(ms[i].msgType, n + i, ms[i].body))
  }

  function Numbered(n: nat, ms: seq<Message>): (r: seq<Outgoing>)
    requires n + |ms| <= 0x1_0000
    ensures |r| == |ms|
  {
    seq(|ms|, i requires 0 <= i < |ms| => Outgoing(None, n + i, ms[i]))
  }

  /** A flight's messages are numbered consecutively, and recorded under the numbers they are sent with. */
  lemma {:induction false} FlightAdds(e: Core, ms: seq<Message>)
    requires e.status != FAILED && e.messageSeq + |ms| <= 0x1_0000
    ensures PostAll(e, ms) == e.(transcript := e.transcript + Recorded(e.messageSeq, ms),
                                 sent := e.sent + Numbered(e.messageSeq, ms), messageSeq := e.messageSeq + |ms|)
    decreases |ms|
  {
    hide HandshakeBytes;
    if ms != [] {
      var e1 := Post(e, ms[0]);
      FlightAdds(e1, ms[1..]);
      assert e1.transcript + Recorded(e1.messageSeq, ms[1..]) == e.transcript + Recorded(e.messageSeq, ms);
      assert e1.sent + Numbered(e1.messageSeq, ms[1..]) == e.sent + Numbered(e.messageSeq, ms);
    }
  }

  /** A flight that runs out of message numbers fails. */
  lemma {:induction false} FlightOverruns(e: Core, ms: seq<Message>)
    requires ms != [] && e.messageSeq + |ms| > 0x1_0000
    ensures PostAll(e, ms).status == FAILED
    decreases |ms|
  {
    hide HandshakeBytes;
    if e.status == FAILED || e.messageSeq > 0xffff {
      StaysFailed(Post(e, ms[0]), ms[1..]);
    } else {
      FlightOverruns(Post(e, ms[0]), ms[1..]);
    }
  }

  lemma {:induction false} StaysFailed(e: Core, ms: seq<Message>)
    requires e.status == FAILED
    ensures PostAll(e, ms).status == FAILED
    decreases |ms|
  {
    if ms != [] {
      StaysFailed(Post(e, ms[0]), ms[1..]);
    }
  }

  /**
   * What the client hashes and signs before sending is exactly what `#sendFlight` then puts in its
   * transcript, in any state: the predicted numbers are the assigned ones.
   */
  lemma PredictionsMatch(c: Crypto, e: Core)
    requires e.messageSeq < 0xffff && e.status != FAILED
    ensures var ms := (if e.certRequested then [Message(CERTIFICATE, CertificateBody(e.draw.der))] else [])
                      + [Message(CLIENT_KEY_EXCHANGE, ClientKeyBody(c.publicOf(e.draw.ecdh)))];
      PostAll(e, ms).transcript == e.transcript + Predicted(c, e)
  {
    hide HandshakeBytes, CertificateBody, ClientKeyBody;
    var ms := (if e.certRequested then [Message(CERTIFICATE, CertificateBody(e.draw.der))] else [])
              + [Message(CLIENT_KEY_EXCHANGE, ClientKeyBody(c.publicOf(e.draw.ecdh)))];
    FlightAdds(e, ms);
    assert Recorded(e.messageSeq, ms) == Predicted(c, e);
  }
}
