/**
 * Two honest ends of the handshake: every run keeps both transcripts equal at every check, whatever is
 * lost, repeated or reordered (sections 4.2.1 and 4.2.6 of RFC 6347, section 4 of RFC 7627).
 */
module DtlsAgreement {
  import opened Bytes
  import opened DtlsWire
  import opened DtlsMessages
  import opened DtlsReassembly
  import opened DtlsHandshake

  datatype Setting = Setting(c: Crypto, cfg: Config, client: Draw, server: Draw)

  /** The only laws of the cryptography: both ends agree on a secret, own signatures verify, and sizes fit. */
  ghost predicate Honest(p: Setting) {
    && |p.client.random| == 32 && |p.server.random| == 32
    && |p.client.der| <= 0xff_ffff - 3 && |p.server.der| <= 0xff_ffff - 3
    && (forall x :: |p.c.publicOf(x)| <= 0xff)
    && p.c.agree(p.client.ecdh, p.c.publicOf(p.server.ecdh)) == p.c.agree(p.server.ecdh, p.c.publicOf(p.client.ecdh))
    && (forall key, data :: |p.c.sign(key, data)| <= 0xffff)
    && (forall data :: p.c.verify(p.client.der, data, p.c.sign(p.client.key, data)))
    && (forall data :: p.c.verify(p.server.der, data, p.c.sign(p.server.key, data)))
    && p.c.trusts(Client, p.server.der) && p.c.trusts(Server, p.client.der)
    && (forall secret, data :: |p.c.cookieMac(secret, data)| == 32)
  }

  // ---- The messages of the handshake, and the transcript they make ----

  /** How far message numbers are shifted by the cookie exchange, and by the client's certificate. */
  function Off(p: Setting): nat { if p.cfg.skipVerify then 0 else 1 }

  function Cert(p: Setting): nat { if p.cfg.requestCert then 1 else 0 }

  function TheCookie(p: Setting): Buffer {
    if p.cfg.skipVerify then [] else DtlsMessages.Slice(p.c.cookieMac(p.server.cookieSecret, p.client.random), 0, 20)
  }

  function FirstHello(p: Setting): Message { Message(CLIENT_HELLO, ClientHelloBody(p.client.random, [])) }

  function VerifyRequest(p: Setting): Message { Message(HELLO_VERIFY_REQUEST, VerifyRequestBody(TheCookie(p))) }

  function SecondHello(p: Setting): Message { Message(CLIENT_HELLO, ClientHelloBody(p.client.random, TheCookie(p))) }

  function ServerHello(p: Setting): Message { Message(SERVER_HELLO, ServerHelloBody(p.server.random, true, false)) }

  function ServerCert(p: Setting): Message { Message(CERTIFICATE, CertificateBody(p.server.der)) }

  function ServerPub(p: Setting): Buffer { p.c.publicOf(p.server.ecdh) }

  function ServerKeySigned(p: Setting): Buffer { p.client.random + p.server.random + EcdhParams(ServerPub(p)) }

  function ServerKey(p: Setting): Message
    requires |p.c.sign(p.server.key, ServerKeySigned(p))| <= 0xffff
  {
    Message(SERVER_KEY_EXCHANGE, KeyExchangeBody(ServerPub(p), p.c.sign(p.server.key, ServerKeySigned(p))))
  }

  const CERT_REQUEST: Message := Message(CERTIFICATE_REQUEST, RequestBody())
  const HELLO_DONE: Message := Message(SERVER_HELLO_DONE, [])

  function ClientCert(p: Setting): Message { Message(CERTIFICATE, CertificateBody(p.client.der)) }

  function ClientKey(p: Setting): Message { Message(CLIENT_KEY_EXCHANGE, ClientKeyBody(p.c.publicOf(p.client.ecdh))) }

  function With(t: seq<Buffer>, n: u16, m: Message): seq<Buffer> { t + [HandshakeBytes(m.msgType, n, m.body)] }

  /** The transcript through each message, in the order both ends should hold them. */
  function ToHello(p: Setting): seq<Buffer> { With([], Off(p), SecondHello(p)) }
  function ToServerHello(p: Setting): seq<Buffer> { With(ToHello(p), Off(p), ServerHello(p)) }
  function ToServerCert(p: Setting): seq<Buffer> { With(ToServerHello(p), Off(p) + 1, ServerCert(p)) }
  function ToServerKey(p: Setting): seq<Buffer> requires Honest(p) { With(ToServerCert(p), Off(p) + 2, ServerKey(p)) }
  function ToRequest(p: Setting): seq<Buffer> requires Honest(p) {
    if p.cfg.requestCert then With(ToServerKey(p), Off(p) + 3, CERT_REQUEST) else ToServerKey(p)
  }
  function ToDone(p: Setting): seq<Buffer> requires Honest(p) { With(ToRequest(p), Off(p) + 3 + Cert(p), HELLO_DONE) }
  function ToClientCert(p: Setting): seq<Buffer> requires Honest(p) {
    if p.cfg.requestCert then With(ToDone(p), Off(p) + 1, ClientCert(p)) else ToDone(p)
  }
  function ToClientKey(p: Setting): seq<Buffer>
    requires Honest(p)
  {
    With(ToClientCert(p), Off(p) + 1 + Cert(p), ClientKey(p))
  }

  function SessionBytes(p: Setting): Buffer requires Honest(p) { Concat(ToClientKey(p)) }

  function Verify(p: Setting): Message requires Honest(p) {
    Message(CERTIFICATE_VERIFY, VerifyBody(p.c.sign(p.client.key, SessionBytes(p))))
  }
  function ToVerify(p: Setting): seq<Buffer> requires Honest(p) {
    if p.cfg.requestCert then With(ToClientKey(p), Off(p) + 3, Verify(p)) else ToClientKey(p)
  }

  function TheMaster(p: Setting): Buffer requires Honest(p) {
    p.c.extendedMaster(p.c.agree(p.client.ecdh, ServerPub(p)), p.c.sha256(SessionBytes(p)))
  }
  function TheKeys(p: Setting): Keys requires Honest(p) { Keys(TheMaster(p), p.client.random, p.server.random) }

  function ClientDone(p: Setting): Message requires Honest(p) {
    Message(FINISHED, p.c.verifyData(TheMaster(p), Client, p.c.sha256(Concat(ToVerify(p)))))
  }
  function ToClientDone(p: Setting): seq<Buffer>
    requires Honest(p)
  {
    With(ToVerify(p), Off(p) + 2 + 2 * Cert(p), ClientDone(p))
  }

  function ServerDone(p: Setting): Message requires Honest(p) {
    Message(FINISHED, p.c.verifyData(TheMaster(p), Server, p.c.sha256(Concat(ToClientDone(p)))))
  }

  /** All that each end ever sends, by message number. */
  function ClientSends(p: Setting): seq<Outgoing> requires Honest(p) {
    Hellos(p)
    + (if p.cfg.requestCert then [Outgoing(None, Off(p) + 1, ClientCert(p))] else [])
    + [Outgoing(None, Off(p) + 1 + Cert(p), ClientKey(p))]
    + (if p.cfg.requestCert then [Outgoing(None, Off(p) + 3, Verify(p))] else [])
    + [Outgoing(Some(Seal(TheKeys(p), Client)), Off(p) + 2 + 2 * Cert(p), ClientDone(p))]
  }

  function Hellos(p: Setting): seq<Outgoing> {
    [Outgoing(None, 0, FirstHello(p))] + (if p.cfg.skipVerify then [] else [Outgoing(None, 1, SecondHello(p))])
  }

  function ServerFlightSends(p: Setting): seq<Outgoing> requires Honest(p) {
    (if p.cfg.skipVerify then [] else [Outgoing(None, 0, VerifyRequest(p))])
    + [Outgoing(None, Off(p), ServerHello(p)), Outgoing(None, Off(p) + 1, ServerCert(p)),
        Outgoing(None, Off(p) + 2, ServerKey(p))]
    + (if p.cfg.requestCert then [Outgoing(None, Off(p) + 3, CERT_REQUEST)] else [])
    + [Outgoing(None, Off(p) + 3 + Cert(p), HELLO_DONE)]
  }

  function ServerSends(p: Setting): seq<Outgoing> requires Honest(p) {
    ServerFlightSends(p) + [Outgoing(Some(Seal(TheKeys(p), Server)), Off(p) + 4 + Cert(p), ServerDone(p))]
  }

  /** What each check should hash or sign, in the order both ends make them. */
  function KeyChecks(p: Setting): seq<Check> requires Honest(p) { [SessionHash(SessionBytes(p))] }
  function SignedChecks(p: Setting): seq<Check> requires Honest(p) {
    KeyChecks(p) + if p.cfg.requestCert then [CertificateVerify(SessionBytes(p))] else []
  }
  function ClientChecks(p: Setting): seq<Check>
    requires Honest(p)
  {
    SignedChecks(p) + [ClientFinished(Concat(ToVerify(p)))]
  }
  function AllChecks(p: Setting): seq<Check>
    requires Honest(p)
  {
    ClientChecks(p) + [ServerFinished(Concat(ToClientDone(p)))]
  }

  // ---- The states each end passes through ----

  function AtStart(p: Setting): Core {
    Fresh(Client, p.client).(clientRandom := Some(p.client.random), messageSeq := 1,
        sent := [Outgoing(None, 0, FirstHello(p))],
                             firstClientHello := Some(HandshakeBytes(CLIENT_HELLO, 0, FirstHello(p).body)))
  }

  function AtHello(p: Setting): Core {
    if p.cfg.skipVerify then AtStart(p)
    else AtStart(p).(cookie := TheCookie(p), transcript := ToHello(p), messageSeq := 2, sent := Hellos(p))
  }

  function AtServerHello(p: Setting): Core {
    AtHello(p).(transcript := ToServerHello(p), serverRandom := Some(p.server.random), extendedMasterSecret := true)
  }

  function AtServerCert(p: Setting): Core {
    AtServerHello(p).(transcript := ToServerCert(p), remoteCert := Some(p.server.der))
  }

  function AtServerKey(p: Setting): Core requires Honest(p) {
    AtServerCert(p).(transcript := ToServerKey(p), remotePub := Some(ServerPub(p)))
  }

  function AtRequest(p: Setting): Core requires Honest(p) {
    AtServerKey(p).(transcript := ToRequest(p), certRequested := p.cfg.requestCert)
  }

  function AtDone(p: Setting): Core requires Honest(p) {
    AtRequest(p).(transcript := ToClientDone(p), ecdh := Some(p.client.ecdh), master := Some(TheMaster(p)),
                  keys := Some(TheKeys(p)), messageSeq := Off(p) + 3 + 2 * Cert(p), sent := ClientSends(p),
                      checks := ClientChecks(p))
  }

  function AtEnd(p: Setting): Core requires Honest(p) { Finish(AtDone(p).(checks := AllChecks(p))) }

  /** The client once it has dispatched `n` of the server's messages. */
  function ClientAfter(p: Setting, n: nat): Core
    requires Honest(p)
  {
    if n == 0 then AtStart(p)
    else if n == Off(p) then AtHello(p)
    else if n == Off(p) + 1 then AtServerHello(p)
    else if n == Off(p) + 2 then AtServerCert(p)
    else if n == Off(p) + 3 then AtServerKey(p)
    else if n == Off(p) + 3 + Cert(p) then AtRequest(p)
    else if n == Off(p) + 4 + Cert(p) then AtDone(p)
    else AtEnd(p)
  }

  function Waiting(p: Setting): Core { Fresh(Server, p.server) }

  function Verifying(p: Setting): Core {
    if p.cfg.skipVerify then Waiting(p)
    else Waiting(p).(clientRandom := Some(p.client.random), sent := [Outgoing(None, 0, VerifyRequest(p))],
        messageSeq := 1)
  }

  function Greeted(p: Setting): Core requires Honest(p) {
    Verifying(p).(clientRandom := Some(p.client.random), extendedMasterSecret := true,
        serverRandom := Some(p.server.random),
                  ecdh := Some(p.server.ecdh), transcript := ToDone(p), sent := ServerFlightSends(p),
                      messageSeq := Off(p) + 4 + Cert(p))
  }

  function Certified(p: Setting): Core requires Honest(p) {
    if p.cfg.requestCert then Greeted(p).(transcript := ToClientCert(p), remoteCert := Some(p.client.der))
        else Greeted(p)
  }

  function Keyed(p: Setting): Core requires Honest(p) {
    Certified(p).(transcript := ToClientKey(p), remotePub := Some(p.c.publicOf(p.client.ecdh)),
        master := Some(TheMaster(p)),
                  keys := Some(TheKeys(p)), checks := KeyChecks(p))
  }

  function Verified(p: Setting): Core
    requires Honest(p)
  {
    Keyed(p).(transcript := ToVerify(p), checks := SignedChecks(p))
  }

  function Ended(p: Setting): Core requires Honest(p) {
    Finish(Verified(p).(checks := AllChecks(p), sent := ServerSends(p), messageSeq := Off(p) + 5 + Cert(p)))
  }

  /** The server once it has dispatched `n` of the client's messages. */
  function ServerAfter(p: Setting, n: nat): Core
    requires Honest(p)
  {
    if n == 0 then Waiting(p)
    else if n == Off(p) then Verifying(p)
    else if n == Off(p) + 1 then Greeted(p)
    else if n == Off(p) + 1 + Cert(p) then Certified(p)
    else if n == Off(p) + 2 + Cert(p) then Keyed(p)
    else if n == Off(p) + 2 + 2 * Cert(p) then Verified(p)
    else Ended(p)
  }

  // ---- Each step of the client ----

  lemma CookieFits(p: Setting)
    requires Honest(p)
    ensures |TheCookie(p)| == if p.cfg.skipVerify then 0 else 20
  {}

  lemma ClientStarts(p: Setting)
    requires Honest(p)
    ensures Start(Fresh(Client, p.client)) == AtStart(p)
  {}

  lemma VerifyRequestTaken(p: Setting)
    requires Honest(p) && !p.cfg.skipVerify
    ensures ClientHandle(p.c, AtStart(p), 0, VerifyRequest(p)) == AtHello(p)
  {
    hide HandshakeBytes, ClientHelloBody, VerifyRequestBody, ReadVerifyRequest;
    CookieFits(p);
    VerifyRequestRoundTrip(TheCookie(p));
  }

  lemma ServerHelloTaken(p: Setting)
    requires Honest(p)
    ensures ClientHandle(p.c, AtHello(p), Off(p), ServerHello(p)) == AtServerHello(p)
  {
    hide HandshakeBytes, ClientHelloBody, ServerHelloBody, ReadServerHello;
    CookieFits(p);
    ServerHelloRoundTrip(p.server.random, true, false);
  }

  lemma ServerCertTaken(p: Setting)
    requires Honest(p)
    ensures ClientHandle(p.c, AtServerHello(p), Off(p) + 1, ServerCert(p)) == AtServerCert(p)
  {
    hide HandshakeBytes, ClientHelloBody, ServerHelloBody, CertificateBody, ReadCertificate;
    CertificateRoundTrip(p.server.der);
  }

  lemma ServerKeyTaken(p: Setting)
    requires Honest(p)
    ensures ClientHandle(p.c, AtServerCert(p), Off(p) + 2, ServerKey(p)) == AtServerKey(p)
  {
    hide HandshakeBytes, ClientHelloBody, ServerHelloBody, CertificateBody, KeyExchangeBody, ReadKeyExchange,
         EcdhParams;
    KeyExchangeRoundTrip(ServerPub(p), p.c.sign(p.server.key, ServerKeySigned(p)));
  }

  lemma RequestTaken(p: Setting)
    requires Honest(p) && p.cfg.requestCert
    ensures ClientHandle(p.c, AtServerKey(p), Off(p) + 3, CERT_REQUEST) == AtRequest(p)
  {
    hide HandshakeBytes, ClientHelloBody, ServerHelloBody, CertificateBody, KeyExchangeBody;
  }

  lemma PredictionIsSession(p: Setting)
    requires Honest(p)
    ensures var e := Append(AtRequest(p), Off(p) + 3 + Cert(p), HELLO_DONE);
      e.messageSeq == Off(p) + 1 && e.transcript == ToDone(p) && e.transcript + Predicted(p.c, e) == ToClientKey(p)
  {
    hide HandshakeBytes, ClientHelloBody, ServerHelloBody, CertificateBody, KeyExchangeBody, ClientKeyBody, ToDone;
    var e := Append(AtRequest(p), Off(p) + 3 + Cert(p), HELLO_DONE);
    DoneAppended(p);
    assert e.transcript == ToDone(p);
    if p.cfg.requestCert {
      var a, b := HandshakeBytes(CERTIFICATE, Off(p) + 1, ClientCert(p).body),
          HandshakeBytes(CLIENT_KEY_EXCHANGE, Off(p) + 2, ClientKey(p).body);
      assert Predicted(p.c, e) == [a, b];
      assert ToDone(p) + [a] + [b] == ToDone(p) + [a, b];
    }
  }

  lemma DoneAppended(p: Setting)
    requires Honest(p)
    ensures ToDone(p) == AtRequest(p).transcript + [HandshakeBytes(SERVER_HELLO_DONE, Off(p) + 3 + Cert(p), [])]
  {
    hide HandshakeBytes;
  }

  /** The state once the keys are derived and the checks made, before the flight is sent. */
  function Signing(p: Setting): Core requires Honest(p) {
    AtRequest(p).(transcript := ToDone(p), ecdh := Some(p.client.ecdh), master := Some(TheMaster(p)),
        keys := Some(TheKeys(p)), checks := SignedChecks(p))
  }

  function SecondMessages(p: Setting): seq<Message> requires Honest(p) {
    if p.cfg.requestCert then [ClientCert(p), ClientKey(p), Verify(p)] else [ClientKey(p)]
  }

  /** What the client knows when the server's flight is complete. */
  ghost predicate ReadyToSign(p: Setting, e: Core)
    requires Honest(p)
  {
    && e.role == Client && e.draw == p.client && e.status == HANDSHAKING && e.messageSeq == Off(p) + 1
    && e.remotePub == Some(ServerPub(p)) && e.clientRandom == Some(p.client.random)
        && e.serverRandom == Some(p.server.random)
    && e.extendedMasterSecret && e.certRequested == p.cfg.requestCert && e.checks == []
  }

  lemma RequestIsReady(p: Setting)
    requires Honest(p)
    ensures ReadyToSign(p, AtRequest(p))
  {}

  lemma SecondFlightSigned(p: Setting, e: Core)
    requires Honest(p) && ReadyToSign(p, e) && e.transcript + Predicted(p.c, e) == ToClientKey(p)
    ensures SecondFlight(p.c, e) == SendFinished(p.c, PostAll(
      e.(ecdh := Some(p.client.ecdh), master := Some(TheMaster(p)), keys := Some(TheKeys(p)),
          checks := SignedChecks(p)), SecondMessages(p)))
  {
    hide CertificateBody, ClientKeyBody, VerifyBody, Concat, Predicted, PostAll, SendFinished, ToClientKey;
    assert Concat(e.transcript + Predicted(p.c, e)) == SessionBytes(p);
    var e1 := DeriveKeys(p.c, e.(ecdh := Some(p.client.ecdh)), SessionBytes(p));
    assert e1 == e.(ecdh := Some(p.client.ecdh), master := Some(TheMaster(p)), keys := Some(TheKeys(p)),
        checks := KeyChecks(p));
    assert e1.status == HANDSHAKING && |p.c.sign(p.client.key, SessionBytes(p))| <= 0xffff;
    if p.cfg.requestCert {
      assert [ClientCert(p), ClientKey(p), Verify(p)] == SecondMessages(p);
    } else {
      assert KeyChecks(p) == SignedChecks(p) && [ClientKey(p)] == SecondMessages(p);
      assert SecondFlight(p.c, e) == SendFinished(p.c, PostAll(e1, [ClientKey(p)]));
    }
  }

  lemma HelloDoneSigned(p: Setting)
    requires Honest(p)
    ensures ClientHandle(p.c, AtRequest(p), Off(p) + 3 + Cert(p), HELLO_DONE)
        == SendFinished(p.c, PostAll(Signing(p), SecondMessages(p)))
  {
    hide AtRequest, Predicted, PostAll, SendFinished, SecondFlight, ToDone, ToClientKey, TheMaster, SignedChecks,
         SecondMessages;
    PredictionIsSession(p);
    RequestIsReady(p);
    SecondFlightSigned(p, Append(AtRequest(p), Off(p) + 3 + Cert(p), HELLO_DONE));
  }

  lemma FlightPosted(p: Setting)
    requires Honest(p)
    ensures PostAll(Signing(p), SecondMessages(p)) ==
      Signing(p).(transcript := ToVerify(p), messageSeq := Off(p) + 2 + 2 * Cert(p),
          sent := ClientSends(p)[..|ClientSends(p)| - 1])
  {
    hide Signing, ToDone, ToVerify, Hellos, ClientSends, Recorded, Numbered, PostAll;
    SigningFields(p);
    FlightAdds(Signing(p), SecondMessages(p));
    SecondRecorded(p);
    SecondSent(p);
  }

  lemma SecondRecorded(p: Setting)
    requires Honest(p)
    ensures |SecondMessages(p)| == 1 + 2 * Cert(p) && ToDone(p) + Recorded(Off(p) + 1, SecondMessages(p)) == ToVerify(p)
  {
    hide HandshakeBytes, CertificateBody, ClientKeyBody, VerifyBody, ToDone, SessionBytes;
  }

  lemma SecondSent(p: Setting)
    requires Honest(p)
    ensures Hellos(p) + Numbered(Off(p) + 1, SecondMessages(p)) == ClientSends(p)[..|ClientSends(p)| - 1]
  {
    hide ClientCert, ClientKey, Verify, Hellos, TheKeys, ClientDone;
  }

  lemma SigningFields(p: Setting)
    requires Honest(p)
    ensures var e := Signing(p);
      e.status == HANDSHAKING && e.messageSeq == Off(p) + 1 && e.transcript == ToDone(p) && e.sent == Hellos(p)
  {}

  lemma HelloDoneTaken(p: Setting)
    requires Honest(p)
    ensures ClientHandle(p.c, AtRequest(p), Off(p) + 3 + Cert(p), HELLO_DONE) == AtDone(p)
  {
    hide HandshakeBytes, Concat, PostAll, SendFinished, ClientHandle, SecondMessages, ToVerify, ToClientDone, ToDone,
         ClientSends, AtRequest, TheMaster, TheKeys, SignedChecks, ClientChecks;
    HelloDoneSigned(p);
    FlightPosted(p);
    RequestIsReady(p);
    FinishedSent(p, PostAll(Signing(p), SecondMessages(p)));
  }

  lemma FinishedSent(p: Setting, e: Core)
    requires Honest(p) && e.role == Client && e.status == HANDSHAKING && e.master == Some(TheMaster(p))
    requires e.keys == Some(TheKeys(p))
    requires e.transcript == ToVerify(p) && e.checks == SignedChecks(p) && e.messageSeq == Off(p) + 2 + 2 * Cert(p)
    requires e.sent == ClientSends(p)[..|ClientSends(p)| - 1]
    ensures SendFinished(p.c, e) ==
      e.(checks := ClientChecks(p), transcript := ToClientDone(p), sent := ClientSends(p),
          messageSeq := Off(p) + 3 + 2 * Cert(p))
  {
    hide HandshakeBytes, Concat, ToVerify, ClientSends, TheMaster, TheKeys, SignedChecks;
    LastSent(p);
  }

  lemma LastSent(p: Setting)
    requires Honest(p)
    ensures var n := |ClientSends(p)| - 1;
      ClientSends(p) == ClientSends(p)[..n] + [Outgoing(Some(Seal(TheKeys(p), Client)), Off(p) + 2 + 2 * Cert(p),
          ClientDone(p))]
  {
    hide ClientCert, ClientKey, Verify, Hellos, TheKeys, ClientDone;
  }

  lemma DoneFields(p: Setting)
    requires Honest(p)
    ensures var e := AtDone(p);
      && e.role == Client && e.status == HANDSHAKING && e.master == Some(TheMaster(p)) && e.keys == Some(TheKeys(p))
      && e.transcript == ToClientDone(p) && e.checks == ClientChecks(p) && e.sent == ClientSends(p)
  {
    hide TheMaster, TheKeys, ToClientDone, ClientChecks, ClientSends;
  }

  lemma ServerFinishedVerified(p: Setting)
    requires Honest(p)
    ensures VerifyFinished(p.c, AtDone(p), Server, ServerDone(p).body) == AtDone(p).(checks := AllChecks(p))
  {
    hide AtDone, Concat, ToClientDone, TheMaster, ClientChecks;
    DoneFields(p);
  }

  lemma ServerDoneTaken(p: Setting)
    requires Honest(p)
    ensures ClientHandle(p.c, AtDone(p), Off(p) + 4 + Cert(p), ServerDone(p)) == AtEnd(p)
  {
    hide Finish, AtDone, ToClientDone, TheMaster, HandshakeBytes, AllChecks, VerifyFinished, Concat;
    DoneFields(p);
    ServerFinishedVerified(p);
    var e := AtDone(p).(checks := AllChecks(p));
    FinishForgets(e, Append(e, Off(p) + 4 + Cert(p), ServerDone(p)).transcript);
  }

  // ---- Each step of the server ----

  lemma FirstHelloTaken(p: Setting)
    requires Honest(p) && !p.cfg.skipVerify
    ensures ServerHandle(p.c, p.cfg, Waiting(p), 0, FirstHello(p)) == (Verifying(p), true)
  {
    hide ClientHelloBody, ReadClientHello, VerifyRequestBody;
    ClientHelloRoundTrip(p.client.random, []);
    assert MakeCookie(p.c, p.server, p.client.random) == TheCookie(p);
    assert [] + Verifying(p).sent == Verifying(p).sent;
    assert SendVerifyRequest(Waiting(p).(renegotiation := false, clientRandom := Some(p.client.random)), TheCookie(p))
        == Verifying(p);
  }

  function FlightMessages(p: Setting): seq<Message> requires Honest(p) {
    [ServerHello(p), ServerCert(p), ServerKey(p)] + (if p.cfg.requestCert then [CERT_REQUEST] else []) + [HELLO_DONE]
  }

  /** The server's state when it starts its flight. */
  function Greeting(p: Setting): Core {
    Verifying(p).(clientRandom := Some(p.client.random), extendedMasterSecret := true, transcript := ToHello(p))
  }

  lemma HelloAccepted(p: Setting)
    requires Honest(p)
    ensures ServerHandle(p.c, p.cfg, Verifying(p), Off(p), SecondHello(p))
        == (ServerFlight(p.c, p.cfg, Greeting(p)), false)
  {
    hide ClientHelloBody, ReadClientHello, VerifyRequestBody, ServerFlight, HandshakeBytes;
    CookieFits(p);
    ClientHelloRoundTrip(p.client.random, TheCookie(p));
  }

  lemma FlightIs(p: Setting, e: Core)
    requires Honest(p)
    requires e.clientRandom == Some(p.client.random) && e.extendedMasterSecret && !e.renegotiation && e.draw == p.server
    ensures ServerFlight(p.c, p.cfg, e) ==
      PostAll(e.(serverRandom := Some(p.server.random), ecdh := Some(p.server.ecdh)), FlightMessages(p))
  {
    hide ServerHelloBody, CertificateBody, KeyExchangeBody, EcdhParams, PostAll;
  }

  lemma ServerFlightPosted(p: Setting)
    requires Honest(p)
    ensures ServerFlight(p.c, p.cfg, Greeting(p)) == Greeted(p)
  {
    hide ServerFlight, PostAll, FlightMessages, ServerFlightSends, ToHello, ToDone, VerifyRequest, Recorded, Numbered;
    FlightLength(p);
    FlightIs(p, Greeting(p));
    var e := Greeting(p).(serverRandom := Some(p.server.random), ecdh := Some(p.server.ecdh));
    FlightAdds(e, FlightMessages(p));
    FlightRecorded(p);
    FlightSent(p);
  }

  lemma FlightLength(p: Setting)
    requires Honest(p)
    ensures |FlightMessages(p)| == 4 + Cert(p)
  {}

  lemma FlightRecorded(p: Setting)
    requires Honest(p)
    ensures ToHello(p) + Recorded(Off(p), FlightMessages(p)) == ToDone(p)
  {
    hide HandshakeBytes, ToHello, ServerHelloBody, CertificateBody, KeyExchangeBody;
  }

  lemma FlightSent(p: Setting)
    requires Honest(p)
    ensures Verifying(p).sent + Numbered(Off(p), FlightMessages(p)) == ServerFlightSends(p)
  {
    hide ServerHello, ServerCert, ServerKey, VerifyRequest;
  }

  lemma HelloTaken(p: Setting)
    requires Honest(p)
    ensures ServerHandle(p.c, p.cfg, Verifying(p), Off(p), SecondHello(p)) == (Greeted(p), false)
  {
    HelloAccepted(p);
    ServerFlightPosted(p);
  }

  lemma ClientCertTaken(p: Setting)
    requires Honest(p) && p.cfg.requestCert
    ensures ServerHandle(p.c, p.cfg, Greeted(p), Off(p) + 1, ClientCert(p)) == (Certified(p), false)
  {
    hide HandshakeBytes, CertificateBody, ReadCertificate, ToDone, ServerFlightSends;
    CertificateRoundTrip(p.client.der);
  }

  lemma ClientKeyTaken(p: Setting)
    requires Honest(p)
    ensures ServerHandle(p.c, p.cfg, Certified(p), Off(p) + 1 + Cert(p), ClientKey(p)) == (Keyed(p), false)
  {
    hide HandshakeBytes, ClientKeyBody, ReadClientKey, Concat, DeriveKeys, Certified, TheMaster, TheKeys, KeyChecks,
         ToClientCert;
    ClientKeyRoundTrip(p.c.publicOf(p.client.ecdh));
    CertifiedFields(p);
    var e := Append(Certified(p), Off(p) + 1 + Cert(p), ClientKey(p));
    assert e == Certified(p).(transcript := ToClientKey(p));
    KeysDerived(p, e.(remotePub := Some(p.c.publicOf(p.client.ecdh))));
  }

  lemma CertifiedFields(p: Setting)
    requires Honest(p)
    ensures var e := Certified(p);
      && e.transcript == ToClientCert(p) && e.checks == [] && e.status == HANDSHAKING && e.extendedMasterSecret
      && e.clientRandom == Some(p.client.random) && e.serverRandom == Some(p.server.random)
          && e.ecdh == Some(p.server.ecdh)
  {
    hide ToDone, ServerFlightSends;
  }

  lemma KeysDerived(p: Setting, e: Core)
    requires Honest(p) && e.extendedMasterSecret && e.checks == []
    requires e.clientRandom == Some(p.client.random) && e.serverRandom == Some(p.server.random)
    requires e.ecdh == Some(p.server.ecdh) && e.remotePub == Some(p.c.publicOf(p.client.ecdh))
    ensures DeriveKeys(p.c, e, SessionBytes(p))
        == e.(master := Some(TheMaster(p)), keys := Some(TheKeys(p)), checks := KeyChecks(p))
  {
    hide Concat, ToClientKey;
  }

  lemma KeyedFields(p: Setting)
    requires Honest(p) && p.cfg.requestCert
    ensures var e := Keyed(p);
      && e.transcript == ToClientKey(p) && e.checks == KeyChecks(p) && e.remoteCert == Some(p.client.der)
          && e.status == HANDSHAKING
  {
    hide ToClientKey, KeyChecks, TheMaster, TheKeys, ServerFlightSends, ToClientCert, ToDone;
  }

  lemma VerifyTaken(p: Setting)
    requires Honest(p) && p.cfg.requestCert
    ensures ServerHandle(p.c, p.cfg, Keyed(p), Off(p) + 3, Verify(p)) == (Verified(p), false)
  {
    hide HandshakeBytes, VerifyBody, ReadVerify, Keyed, Concat, ToClientKey;
    KeyedFields(p);
    VerifyRoundTrip(p.c.sign(p.client.key, SessionBytes(p)));
    assert CheckCertificateVerify(p.c, Keyed(p), Verify(p).body) == Keyed(p).(checks := SignedChecks(p));
  }

  lemma FinishedVerified(p: Setting)
    requires Honest(p)
    ensures VerifyFinished(p.c, Verified(p), Client, ClientDone(p).body) == Verified(p).(checks := ClientChecks(p))
  {
    hide Verified, Concat, ToVerify, TheMaster, SignedChecks;
    VerifiedFields(p);
  }

  lemma FinishedAnswered(p: Setting, e: Core)
    requires Honest(p) && e.role == Server && e.status == HANDSHAKING && e.master == Some(TheMaster(p))
    requires e.keys == Some(TheKeys(p))
    requires e.transcript == ToClientDone(p) && e.checks == ClientChecks(p)
    requires e.sent == ServerFlightSends(p) && e.messageSeq == Off(p) + 4 + Cert(p)
    ensures var e' := SendFinished(p.c, e);
      e' == e.(checks := AllChecks(p), sent := ServerSends(p), messageSeq := Off(p) + 5 + Cert(p),
          transcript := e'.transcript)
  {
    hide Concat, ToClientDone, TheMaster, TheKeys, ClientChecks, ServerFlightSends, HandshakeBytes;
  }

  lemma ClientDoneTaken(p: Setting)
    requires Honest(p)
    ensures ServerHandle(p.c, p.cfg, Verified(p), Off(p) + 2 + 2 * Cert(p), ClientDone(p)) == (Ended(p), false)
  {
    hide Finish, Verified, ToVerify, ToClientDone, TheMaster, TheKeys, ClientChecks, AllChecks, ServerSends,
         ServerFlightSends, HandshakeBytes, VerifyFinished, SendFinished, Concat;
    VerifiedFields(p);
    FinishedVerified(p);
    var e := Append(Verified(p).(checks := ClientChecks(p)), Off(p) + 2 + 2 * Cert(p), ClientDone(p));
    DoneIsLast(p);
    FinishedAnswered(p, e);
    var e' := Verified(p).(checks := AllChecks(p), sent := ServerSends(p), messageSeq := Off(p) + 5 + Cert(p));
    FinishForgets(e', SendFinished(p.c, e).transcript);
  }

  lemma DoneIsLast(p: Setting)
    requires Honest(p)
    ensures ToClientDone(p) == ToVerify(p) + [HandshakeBytes(FINISHED, Off(p) + 2 + 2 * Cert(p), ClientDone(p).body)]
  {
    hide HandshakeBytes, ToVerify;
  }

  lemma FinishForgets(e: Core, t: seq<Buffer>)
    requires e.status == HANDSHAKING
    ensures Finish(e.(transcript := t)) == Finish(e)
  {}

  lemma VerifiedFields(p: Setting)
    requires Honest(p)
    ensures var e := Verified(p);
      && e.role == Server && e.status == HANDSHAKING && e.master == Some(TheMaster(p)) && e.keys == Some(TheKeys(p))
      && e.transcript == ToVerify(p) && e.checks == SignedChecks(p)
      && e.sent == ServerFlightSends(p) && e.messageSeq == Off(p) + 4 + Cert(p)
  {
    hide TheMaster, TheKeys, ToVerify, SignedChecks, ServerFlightSends, ToClientKey, ToClientCert, ToDone;
  }
}
