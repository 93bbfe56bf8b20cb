/**
 * What an end of the handshake has checked by the time it connects, over any sequence of records whatever: no
 * assumption is made on who wrote them (src/dtls/connection.ts:380-957; sections 7.4.3, 7.4.8 and 7.4.9 of RFC 5246).
 */
module DtlsAuthentication {
  import opened Bytes
  import opened DtlsWire
  import opened DtlsMessages
  import opened DtlsReassembly
  import opened DtlsHandshake

  function PeerOf(role: Role): Role { if role == Client then Server else Client }

  // ---- What one message does to the status ----

  /** A Finished (20) that covers this end's transcript so far under its master secret, as its peer would write it. */
  predicate GoodFinished(c: Crypto, e: Core, m: Message) {
    && m.msgType == 20 && e.master.Some?
    && m.body == c.verifyData(e.master.value, PeerOf(e.role), c.sha256(Concat(e.transcript)))
  }

  /** A server answers with its own Finished, which needs the keys and a message number. */
  predicate CanAnswer(e: Core) { e.role == Server ==> e.keys.Some? && e.messageSeq <= 0xffff }

  lemma {:induction false} FlightGoesOn(e: Core, ms: seq<Message>)
    ensures var b := PostAll(e, ms);
      (b.status == e.status || b.status == FAILED)
      && b == e.(status := b.status, transcript := b.transcript, sent := b.sent, messageSeq := b.messageSeq)
    decreases |ms|
  {
    hide HandshakeBytes;
    if ms != [] {
      FlightGoesOn(Post(e, ms[0]), ms[1..]);
    }
  }

  lemma SecondFlightGoesOn(c: Crypto, e: Core)
    ensures var b := SecondFlight(c, e); b.status == e.status || b.status == FAILED
  {
    hide HandshakeBytes, Predicted, PostAll, Concat, ClientKeyBody, VerifyBody, CertificateBody;
    if e.messageSeq < 0xffff {
      var (e1, flight) := Built(c, e);
      FlightGoesOn(e1, flight);
    }
  }

  lemma ServerFlightGoesOn(c: Crypto, cfg: Config, e: Core)
    ensures var b := ServerFlight(c, cfg, e); b.status == e.status || b.status == FAILED
  {
    hide HandshakeBytes, ServerFlightMessages, ServerSignature, PostAll;
    if e.clientRandom.Some? && |ServerSignature(c, e)| <= 0xffff {
      FlightGoesOn(e.(serverRandom := Some(e.draw.random), ecdh := Some(e.draw.ecdh)), ServerFlightMessages(c, cfg, e));
    }
  }

  predicate GoesOn(a: Core, b: Core) { b.status == a.status || b.status == FAILED }

  lemma HelloGoesOn(e: Core)
    ensures GoesOn(e, SendClientHello(e))
  {
    hide HandshakeBytes, ClientHelloBody;
  }

  lemma ServerHelloGoesOn(e: Core, n: u16, m: Message)
    ensures GoesOn(e, TakeServerHello(e, n, m))
  {
    hide HandshakeBytes, ReadServerHello;
  }

  lemma KeysGoOn(c: Crypto, e: Core, body: Buffer)
    ensures GoesOn(e, TakeServerKey(c, e, body)) && GoesOn(e, TakeCertificate(c, e, body))
    ensures GoesOn(e, TakeClientKey(c, e, body)) && GoesOn(e, CheckCertificateVerify(c, e, body))
  {
    hide ReadKeyExchange, ReadCertificate, ReadClientKey, ReadVerify, Concat;
  }

  lemma AppendGoesOn(e: Core, n: u16, m: Message)
    ensures var b := Append(e, n, m);
      b.status == e.status && b.keys == e.keys && b.messageSeq == e.messageSeq && b.master == e.master
  {
    hide HandshakeBytes;
  }

  /** The Finished branch, up to its answer: it goes on only with the right bytes, and nothing it needs is lost. */
  lemma VerifyGoesOn(c: Crypto, e: Core, sender: Role, body: Buffer)
    requires e.status != FAILED
    ensures var b := VerifyFinished(c, e, sender, body);
      && (b.status != FAILED <==>
            e.master.Some? && body == c.verifyData(e.master.value, sender, c.sha256(Concat(e.transcript))))
      && (b.status != FAILED ==>
            b.status == e.status && b.keys == e.keys && b.messageSeq == e.messageSeq && b.master == e.master)
  {
    hide Concat;
  }

  lemma AnswerGoesOn(c: Crypto, e: Core)
    requires e.status == HANDSHAKING && e.master.Some?
    ensures SendFinished(c, e).status == if e.keys.Some? && e.messageSeq <= 0xffff then HANDSHAKING else FAILED
  {
    hide HandshakeBytes, Concat;
  }

  lemma FinishGoesOn(e: Core)
    ensures Finish(e).status == if e.status == HANDSHAKING then CONNECTED else e.status
  {}

  lemma ClientConnectsIff(c: Crypto, e: Core, n: u16, m: Message)
    requires e.status == HANDSHAKING && e.role == Client
    ensures ClientHandle(c, e, n, m).status == CONNECTED <==> GoodFinished(c, e, m)
  {
    hide HandshakeBytes, SecondFlight, ReadVerifyRequest, SendClientHello, TakeServerHello, TakeServerKey,
         TakeCertificate, Append, VerifyFinished, Finish, Concat;
    var a := Append(e, n, m);
    AppendGoesOn(e, n, m);
    AppendGoesOn(e.(certRequested := true), n, m);
    if m.msgType == HELLO_VERIFY_REQUEST {
      if ReadVerifyRequest(m.body).Some? {
        HelloGoesOn(e.(cookie := ReadVerifyRequest(m.body).value));
      }
    } else if m.msgType == SERVER_HELLO {
      ServerHelloGoesOn(e, n, m);
    } else if m.msgType == CERTIFICATE || m.msgType == SERVER_KEY_EXCHANGE {
      KeysGoOn(c, a, m.body);
    } else if m.msgType == SERVER_HELLO_DONE {
      SecondFlightGoesOn(c, a);
    } else if m.msgType == FINISHED {
      var e1 := VerifyFinished(c, e, Server, m.body);
      VerifyGoesOn(c, e, Server, m.body);
      AppendGoesOn(e1, n, m);
      FinishGoesOn(Append(e1, n, m));
    }
  }

  lemma ServerConnectsIff(c: Crypto, cfg: Config, e: Core, n: u16, m: Message)
    requires e.status == HANDSHAKING && e.role == Server
    ensures ServerHandle(c, cfg, e, n, m).0.status == CONNECTED <==> GoodFinished(c, e, m) && CanAnswer(e)
  {
    hide HandshakeBytes, TakeClientHello, TakeCertificate, TakeClientKey, CheckCertificateVerify, Append,
         VerifyFinished, SendFinished, Finish, Concat;
    var a := Append(e, n, m);
    AppendGoesOn(e, n, m);
    KeysGoOn(c, a, m.body);
    KeysGoOn(c, e, m.body);
    if m.msgType == CLIENT_HELLO {
      ClientHelloGoesOn(c, cfg, e, n, m);
    } else if m.msgType == CERTIFICATE_VERIFY {
      AppendGoesOn(CheckCertificateVerify(c, e, m.body), n, m);
    } else if m.msgType == FINISHED {
      var e1 := VerifyFinished(c, e, Client, m.body);
      VerifyGoesOn(c, e, Client, m.body);
      AppendGoesOn(e1, n, m);
      if e1.status != FAILED {
        AnswerGoesOn(c, Append(e1, n, m));
      }
      FinishGoesOn(SendFinished(c, Append(e1, n, m)));
    }
  }

  lemma ClientHelloGoesOn(c: Crypto, cfg: Config, e: Core, n: u16, m: Message)
    ensures GoesOn(e, TakeClientHello(c, cfg, e, n, m).0)
  {
    hide HandshakeBytes, ServerFlight, ReadClientHello, MakeCookie;
    forall e1 ensures GoesOn(e1, ServerFlight(c, cfg, e1)) {
      ServerFlightGoesOn(c, cfg, e1);
    }
  }

  /** Whoever wrote the message: it connects this end if and only if it is a Finished whose bytes are right. */
  lemma ConnectsIff(c: Crypto, cfg: Config, e: Core, n: u16, m: Message)
    requires e.status == HANDSHAKING
    ensures HandleMessage(c, cfg, e, n, m).0.status == CONNECTED <==> GoodFinished(c, e, m) && CanAnswer(e)
  {
    hide ClientHandle, ServerHandle, GoodFinished;
    if e.role == Client {
      ClientConnectsIff(c, e, n, m);
    } else {
      ServerConnectsIff(c, cfg, e, n, m);
    }
  }

  /** Nothing that only the handshake needed is held any more; the keys stay. */
  predicate Released(e: Core) {
    && e.transcript == [] && e.firstClientHello.None? && e.clientRandom.None? && e.serverRandom.None?
    && e.master.None? && e.ecdh.None? && e.remotePub.None?
  }

  lemma FinishReleases(e: Core)
    ensures Finish(e).keys == e.keys && Finish(e).remoteCert == e.remoteCert
    ensures e.status == HANDSHAKING ==> Released(Finish(e))
  {}

  lemma VerifyKeeps(c: Crypto, e: Core, sender: Role, body: Buffer, n: u16, m: Message)
    ensures var b := Append(VerifyFinished(c, e, sender, body), n, m);
      b.keys == e.keys && b.remoteCert == e.remoteCert && (b.status == e.status || b.status == FAILED)
  {
    hide HandshakeBytes, Concat;
  }

  lemma AnswerKeeps(c: Crypto, e: Core)
    ensures var b := SendFinished(c, e);
      b.keys == e.keys && b.remoteCert == e.remoteCert && (b.status == e.status || b.status == FAILED)
  {
    hide HandshakeBytes, Concat;
  }

  /** The message that connects an end leaves it with its keys and its peer's certificate, and no handshake secret. */
  lemma ConnectingReleases(c: Crypto, cfg: Config, e: Core, n: u16, m: Message)
    requires e.status == HANDSHAKING && HandleMessage(c, cfg, e, n, m).0.status == CONNECTED
    ensures var b := HandleMessage(c, cfg, e, n, m).0;
      Released(b) && b.keys == e.keys && b.remoteCert == e.remoteCert
  {
    hide Finish, SendFinished, VerifyFinished, Append, Released, CanAnswer, TakeClientHello, SecondFlight;
    ConnectsIff(c, cfg, e, n, m);
    var sender := PeerOf(e.role);
    var x := Append(VerifyFinished(c, e, sender, m.body), n, m);
    VerifyKeeps(c, e, sender, m.body, n, m);
    FinishReleases(x);
    FinishGoesOn(x);
    AnswerKeeps(c, x);
    FinishReleases(SendFinished(c, x));
    FinishGoesOn(SendFinished(c, x));
    if VerifyFinished(c, e, sender, m.body).status == FAILED {
      VerifyGoesOn(c, e, sender, m.body);
    }
  }

  // ---- What is checked before it is kept ----

  ghost predicate SignedPoint(c: Crypto, cert: Buffer, random: Buffer, serverRandom: Buffer, pub: Buffer, sig: Buffer) {
    c.trusts(Client, cert) && c.verify(cert, random + serverRandom + EcdhParams(pub), sig)
  }

  /** A certificate the client trusts signed this point together with the client's own random bytes. */
  ghost predicate Vouched(c: Crypto, random: Buffer, pub: Buffer) {
    exists cert, serverRandom, sig :: SignedPoint(c, cert, random, serverRandom, pub, sig)
  }

  ghost predicate SignedBytes(c: Crypto, cert: Buffer, bytes: Buffer, sig: Buffer) {
    c.trusts(Server, cert) && c.verify(cert, bytes, sig)
  }

  /** The two ways to a master secret from a shared one. */
  ghost predicate DerivedFrom(c: Crypto, keys: Keys, shared: Buffer) {
    || keys.master == c.plainMaster(shared, keys.clientRandom, keys.serverRandom)
    || exists hashed: Buffer :: keys.master == c.extendedMaster(shared, c.sha256(hashed))
  }

  ghost predicate VouchedKeys(c: Crypto, draw: Draw, keys: Keys, pub: Buffer) {
    Vouched(c, draw.random, pub) && DerivedFrom(c, keys, c.agree(draw.ecdh, pub))
  }

  /** A server's hello that chose the one cipher suite. */
  ghost predicate Chose(body: Buffer, random: Buffer) {
    match ReadServerHello(body) case None => false case Some(h) => h.suite == 0xc02b && h.random == random
  }

  /** A client's hello with the cookie this server makes for it. */
  ghost predicate HelloWithCookie(c: Crypto, draw: Draw, body: Buffer) {
    match ReadClientHello(body)
    case None => false
    case Some(h) => h.cookie != [] && h.cookie == DtlsMessages.Slice(c.cookieMac(draw.cookieSecret, h.random), 0, 20)
  }

  /** What a client holds has been checked. */
  ghost predicate ClientChecked(c: Crypto, e: Core) {
    && (e.remoteCert.Some? ==> c.trusts(Client, e.remoteCert.value))
    && (e.clientRandom.Some? ==> e.clientRandom.value == e.draw.random)
    && (e.serverRandom.Some? ==> exists body :: Chose(body, e.serverRandom.value))
    && (e.remotePub.Some? ==> Vouched(c, e.draw.random, e.remotePub.value))
    && (e.keys.Some? ==>
          && e.keys.value.clientRandom == e.draw.random
          && exists pub :: VouchedKeys(c, e.draw, e.keys.value, pub))
    && (e.master.Some? ==> e.keys.Some? && e.keys.value.master == e.master.value)
  }

  predicate SameEnd(a: Core, b: Core) { b.role == a.role && b.draw == a.draw }

  /** A Certificate message leaves its first certificate if trusted, none if the list is empty, or a failed end. */
  lemma CertificateTaken(c: Crypto, e: Core, body: Buffer)
    requires e.status != FAILED
    ensures var b, r := TakeCertificate(c, e, body), ReadCertificate(body);
      && (b.status == FAILED <==> r.Some? && !c.trusts(e.role, r.value))
      && (b.status != FAILED ==> b == e.(remoteCert := r))
  {
    hide ReadCertificate;
  }

  lemma KeyExchangeNames(body: Buffer)
    ensures var r := ReadKeyExchange(body); r.Some? ==> r.value.params == EcdhParams(r.value.pub)
  {
    var r := ReadKeyExchange(body);
    if r.Some? {
      var n := body[3];
      assert r.value.pub == body[4..4 + n as nat] && r.value.params == body[..4 + n as nat];
      assert body[..4 + n as nat] == body[..4] + body[4..4 + n as nat];
      WrittenBack16(body, 1);
      assert body[..4] == [body[0]] + body[1..3] + [body[3]];
    }
  }

  lemma WrittenBack16(b: Buffer, off: nat)
    requires off + 2 <= |b|
    ensures U16(ReadU16(b, off)) == b[off..off + 2]
  {}

  lemma TakeServerKeyChecks(c: Crypto, e: Core, body: Buffer)
    requires e.role == Client && ClientChecked(c, e)
    ensures ClientChecked(c, TakeServerKey(c, e, body)) && SameEnd(e, TakeServerKey(c, e, body))
  {
    hide ReadKeyExchange, EcdhParams, DerivedFrom, Chose;
    KeyExchangeNames(body);
    var e' := TakeServerKey(c, e, body);
    if e'.status != FAILED || e'.remotePub != e.remotePub {
      var k := ReadKeyExchange(body).value;
      assert SignedPoint(c, e.remoteCert.value, e.draw.random, e.serverRandom.value, k.pub, k.signature);
    }
  }

  /**
   * A step that leaves the client's secrets alone, or forgets them; a random the server sends comes with its
   * choice.
   */
  ghost predicate SameSecrets(c: Crypto, a: Core, b: Core) {
    && SameEnd(a, b) && b.keys == a.keys
    && (b.remoteCert.Some? ==> b.remoteCert == a.remoteCert || c.trusts(b.role, b.remoteCert.value))
    && (b.clientRandom.Some? ==> b.clientRandom == a.clientRandom)
    && (b.serverRandom.Some? ==> b.serverRandom == a.serverRandom || exists body :: Chose(body, b.serverRandom.value))
    && (b.master.Some? ==> b.master == a.master)
    && (b.remotePub.Some? ==> b.remotePub == a.remotePub)
  }

  lemma SameIsChecked(c: Crypto, a: Core, b: Core)
    requires a.role == Client && ClientChecked(c, a) && SameSecrets(c, a, b)
    ensures ClientChecked(c, b)
  {
    hide Vouched, VouchedKeys, Chose;
  }

  lemma ServerHelloKeeps(c: Crypto, e: Core, n: u16, m: Message)
    ensures SameSecrets(c, e, TakeServerHello(e, n, m))
  {
    hide ReadServerHello, HandshakeBytes;
    var r := ReadServerHello(m.body);
    if r.Some? && r.value.suite == CIPHER_SUITE {
      assert Chose(m.body, r.value.random);
    }
  }

  lemma PostKeeps(c: Crypto, e: Core, m: Message)
    ensures SameSecrets(c, e, Post(e, m))
  {
    hide HandshakeBytes, Chose;
  }

  lemma FailKeeps(c: Crypto, e: Core)
    ensures SameSecrets(c, e, Fail(e))
  {
    hide Chose;
  }

  lemma HelloKeeps(c: Crypto, e: Core)
    ensures SameSecrets(c, e, SendClientHello(e))
  {
    hide HandshakeBytes, ClientHelloBody, Chose, Post, Fail;
    FailKeeps(c, e);
    if e.clientRandom.Some? {
      PostKeeps(c, e, Message(CLIENT_HELLO, ClientHelloBody(e.clientRandom.value, e.cookie)));
    }
  }

  lemma DeriveChecks(c: Crypto, e: Core, hashed: Buffer)
    requires e.role == Client && ClientChecked(c, e) && e.ecdh == Some(e.draw.ecdh)
    ensures ClientChecked(c, DeriveKeys(c, e, hashed)) && SameEnd(e, DeriveKeys(c, e, hashed))
  {
    hide Vouched, Chose;
    var e' := DeriveKeys(c, e, hashed);
    if e'.status != FAILED || e'.keys != e.keys {
      assert DerivedFrom(c, e'.keys.value, c.agree(e.draw.ecdh, e.remotePub.value));
      assert VouchedKeys(c, e.draw, e'.keys.value, e.remotePub.value);
    }
  }

  lemma SecondFlightChecks(c: Crypto, e: Core)
    requires e.role == Client && ClientChecked(c, e)
    ensures ClientChecked(c, SecondFlight(c, e)) && SameEnd(e, SecondFlight(c, e))
  {
    hide HandshakeBytes, Predicted, PostAll, Concat, ClientKeyBody, VerifyBody, CertificateBody, ClientChecked,
         DeriveKeys;
    if e.messageSeq < 0xffff {
      var (e1, flight) := Built(c, e);
      var own := e.(ecdh := Some(e.draw.ecdh));
      assert ClientChecked(c, own) by {
        OwnSecret(c, e);
      }
      var derived := DeriveKeys(c, own, Concat(e.transcript + Predicted(c, e)));
      DeriveChecks(c, own, Concat(e.transcript + Predicted(c, e)));
      SameIsChecked(c, derived, e1);
      FlightGoesOn(e1, flight);
      SameIsChecked(c, e1, PostAll(e1, flight));
      SameIsChecked(c, PostAll(e1, flight), SendFinished(c, PostAll(e1, flight)));
    } else {
      SameIsChecked(c, e, Fail(e));
    }
  }

  lemma OwnSecret(c: Crypto, e: Core)
    requires ClientChecked(c, e)
    ensures ClientChecked(c, e.(ecdh := Some(e.draw.ecdh)))
  {
    hide Vouched, VouchedKeys, Chose;
  }

  lemma ClientHandleChecks(c: Crypto, e: Core, n: u16, m: Message)
    requires e.role == Client && ClientChecked(c, e)
    ensures ClientChecked(c, ClientHandle(c, e, n, m)) && SameEnd(e, ClientHandle(c, e, n, m))
  {
    hide HandshakeBytes, ReadVerifyRequest, Concat, SendClientHello, TakeServerHello, TakeServerKey, SecondFlight,
         ClientChecked, Append, TakeCertificate, Chose;
    var a := Append(e, n, m);
    SameIsChecked(c, e, a) by {
      AppendKeeps(c, e, n, m);
    }
    AppendKeeps(c, e, n, m);
    if m.msgType == HELLO_VERIFY_REQUEST {
      if ReadVerifyRequest(m.body).Some? {
        var e1 := e.(cookie := ReadVerifyRequest(m.body).value);
        HelloKeeps(c, e1);
        SameIsChecked(c, e, e1);
        SameIsChecked(c, e1, SendClientHello(e1));
      } else {
        SameIsChecked(c, e, Fail(e));
      }
    } else if m.msgType == SERVER_HELLO {
      ServerHelloKeeps(c, e, n, m);
      SameIsChecked(c, e, TakeServerHello(e, n, m));
    } else if m.msgType == CERTIFICATE {
      CertificateKeeps(c, a, m.body);
      SameIsChecked(c, a, TakeCertificate(c, a, m.body));
    } else if m.msgType == SERVER_KEY_EXCHANGE {
      TakeServerKeyChecks(c, a, m.body);
    } else if m.msgType == CERTIFICATE_REQUEST {
      RequestKeeps(c, e, n, m);
      SameIsChecked(c, e, Append(e.(certRequested := true), n, m));
    } else if m.msgType == SERVER_HELLO_DONE {
      SecondFlightChecks(c, a);
    } else if m.msgType == FINISHED {
      FinishedKeeps(c, e, n, m);
      SameIsChecked(c, e, ClientHandle(c, e, n, m));
    }
  }

  lemma AppendKeeps(c: Crypto, e: Core, n: u16, m: Message)
    ensures SameSecrets(c, e, Append(e, n, m)) && Append(e, n, m).role == e.role
  {
    hide HandshakeBytes, Chose;
  }

  lemma RequestKeeps(c: Crypto, e: Core, n: u16, m: Message)
    ensures SameSecrets(c, e, Append(e.(certRequested := true), n, m))
  {
    hide HandshakeBytes, Chose;
  }

  lemma CertificateKeeps(c: Crypto, e: Core, body: Buffer)
    ensures SameSecrets(c, e, TakeCertificate(c, e, body)) && SameProofs(c, e, TakeCertificate(c, e, body))
  {
    hide ReadCertificate, Chose;
  }

  lemma FinishedKeeps(c: Crypto, e: Core, n: u16, m: Message)
    requires m.msgType == FINISHED
    ensures SameSecrets(c, e, ClientHandle(c, e, n, m))
  {
    hide HandshakeBytes, Concat, Chose;
  }

  // ---- The server ----

  /** What a server holds has been checked. */
  ghost predicate ServerChecked(c: Crypto, cfg: Config, e: Core) {
    && (e.remoteCert.Some? ==> c.trusts(Server, e.remoteCert.value))
    && (forall bytes | CertificateVerify(bytes) in e.checks :: exists cert, sig :: SignedBytes(c, cert, bytes, sig))
    && (e.serverRandom.Some? ==> e.serverRandom.value == e.draw.random)
    && (e.ecdh.Some? ==> e.ecdh.value == e.draw.ecdh)
    && (e.keys.Some? ==>
          && e.keys.value.serverRandom == e.draw.random
          && exists pub :: DerivedFrom(c, e.keys.value, c.agree(e.draw.ecdh, pub)))
    && (e.master.Some? ==> e.keys.Some? && e.keys.value.master == e.master.value)
    && (!cfg.skipVerify && HasAnswered(e) ==> exists body :: HelloWithCookie(c, e.draw, body))
  }

  /** The server has drawn its share, holds keys, or has sent anything but a HelloVerifyRequest (3). */
  predicate HasAnswered(e: Core) {
    e.ecdh.Some? || e.keys.Some? || exists o | o in e.sent :: o.message.msgType != 3
  }

  lemma ClientHelloChecks(c: Crypto, cfg: Config, e: Core, n: u16, m: Message)
    requires e.role == Server && ServerChecked(c, cfg, e)
    ensures ServerChecked(c, cfg, TakeClientHello(c, cfg, e, n, m).0)
    ensures SameEnd(e, TakeClientHello(c, cfg, e, n, m).0)
  {
    hide ReadClientHello, MakeCookie, RefuseHello, AcceptHello, ServerChecked;
    match ReadClientHello(m.body)
    case None =>
      FailProves(c, e);
      SameIsProved(c, cfg, e, Fail(e));
    case Some(h) =>
      var expected := MakeCookie(c, e.draw, h.random);
      if !cfg.skipVerify && (h.cookie == [] || h.cookie != expected) {
        RefusalProves(c, e, h, expected);
        SameIsProved(c, cfg, e, RefuseHello(e, h, expected));
      } else {
        CookieMatches(c, e.draw, m.body);
        AcceptChecks(c, cfg, e, h, n, m);
      }
  }

  lemma FailProves(c: Crypto, e: Core)
    ensures SameProofs(c, e, Fail(e))
  {}

  lemma RefusalProves(c: Crypto, e: Core, h: Hello, expected: Buffer)
    ensures SameProofs(c, e, RefuseHello(e, h, expected))
  {
    hide VerifyRequestBody;
    assert forall o | o in RefuseHello(e, h, expected).sent :: o in e.sent || o.message.msgType == 3;
  }

  lemma AcceptDraws(c: Crypto, cfg: Config, e: Core, h: Hello, n: u16, m: Message)
    ensures var b := AcceptHello(c, cfg, e, h, n, m);
      && SameEnd(e, b) && b.remoteCert == e.remoteCert && b.keys == e.keys && b.master == e.master
      && b.checks == e.checks
      && (b.serverRandom == e.serverRandom || b.serverRandom == Some(e.draw.random))
      && (b.ecdh == e.ecdh || b.ecdh == Some(e.draw.ecdh))
  {
    hide HandshakeBytes, ServerFlightMessages, ServerSignature, PostAll;
    var a := Append(e.(renegotiation := h.renegotiation, clientRandom := Some(h.random),
                       extendedMasterSecret := h.extendedMasterSecret), n, m);
    if a.clientRandom.Some? && |ServerSignature(c, a)| <= 0xffff {
      FlightGoesOn(a.(serverRandom := Some(e.draw.random), ecdh := Some(e.draw.ecdh)),
        ServerFlightMessages(c, cfg, a));
    }
  }

  lemma AcceptChecks(c: Crypto, cfg: Config, e: Core, h: Hello, n: u16, m: Message)
    requires e.role == Server && ServerChecked(c, cfg, e)
    requires !cfg.skipVerify ==> HelloWithCookie(c, e.draw, m.body)
    ensures ServerChecked(c, cfg, AcceptHello(c, cfg, e, h, n, m)) && SameEnd(e, AcceptHello(c, cfg, e, h, n, m))
  {
    hide AcceptHello, DerivedFrom, HelloWithCookie, SignedBytes, HasAnswered;
    AcceptDraws(c, cfg, e, h, n, m);
  }

  lemma CookieMatches(c: Crypto, draw: Draw, body: Buffer)
    ensures var r := ReadClientHello(body);
      r.Some? && r.value.cookie != [] && r.value.cookie == MakeCookie(c, draw, r.value.random) ==>
        HelloWithCookie(c, draw, body)
  {
    hide ReadClientHello;
  }

  /** A step that leaves the server's secrets and its checks of signatures alone, or forgets them. */
  ghost predicate SameProofs(c: Crypto, a: Core, b: Core) {
    && SameEnd(a, b) && b.keys == a.keys
    && (b.remoteCert.Some? ==> b.remoteCert == a.remoteCert || c.trusts(b.role, b.remoteCert.value))
    && (forall bytes | CertificateVerify(bytes) in b.checks :: CertificateVerify(bytes) in a.checks)
    && (b.serverRandom.Some? ==> b.serverRandom == a.serverRandom)
    && (b.ecdh.Some? ==> b.ecdh == a.ecdh) && (b.master.Some? ==> b.master == a.master)
    && (HasAnswered(b) ==> HasAnswered(a))
  }

  lemma SameIsProved(c: Crypto, cfg: Config, a: Core, b: Core)
    requires a.role == Server && ServerChecked(c, cfg, a) && SameProofs(c, a, b)
    ensures ServerChecked(c, cfg, b)
  {
    hide SignedBytes, DerivedFrom, HelloWithCookie, HasAnswered;
  }

  lemma AppendProves(c: Crypto, e: Core, n: u16, m: Message)
    ensures SameProofs(c, e, Append(e, n, m))
  {
    hide HandshakeBytes;
  }

  lemma FinishedProves(c: Crypto, cfg: Config, e: Core, n: u16, m: Message)
    requires m.msgType == FINISHED
    ensures SameProofs(c, e, ServerHandle(c, cfg, e, n, m).0)
  {
    hide HandshakeBytes, Concat, TakeClientHello, Append, VerifyFinished, SendFinished, Finish, SameProofs;
    var e1 := VerifyFinished(c, e, Client, m.body);
    VerifyFinishedProves(c, e, m.body);
    AppendProves(c, e1, n, m);
    SendFinishedProves(c, Append(e1, n, m));
    FinishProves(c, SendFinished(c, Append(e1, n, m)));
    ProofsTrans(c, e1, Append(e1, n, m), SendFinished(c, Append(e1, n, m)));
    ProofsTrans(c, e1, SendFinished(c, Append(e1, n, m)), Finish(SendFinished(c, Append(e1, n, m))));
    ProofsTrans(c, e, e1, Finish(SendFinished(c, Append(e1, n, m))));
  }

  lemma ProofsTrans(c: Crypto, a: Core, b: Core, d: Core)
    requires SameProofs(c, a, b) && SameProofs(c, b, d)
    ensures SameProofs(c, a, d)
  {
    hide HasAnswered;
  }

  lemma VerifyFinishedProves(c: Crypto, e: Core, body: Buffer)
    ensures SameProofs(c, e, VerifyFinished(c, e, Client, body))
  {
    hide Concat;
  }

  lemma SendFinishedProves(c: Crypto, e: Core)
    ensures SameProofs(c, e, SendFinished(c, e))
  {
    hide HandshakeBytes, Concat;
  }

  lemma FinishProves(c: Crypto, e: Core)
    ensures SameProofs(c, e, Finish(e))
  {}

  lemma ServerHandleChecks(c: Crypto, cfg: Config, e: Core, n: u16, m: Message)
    requires e.role == Server && ServerChecked(c, cfg, e)
    ensures ServerChecked(c, cfg, ServerHandle(c, cfg, e, n, m).0) && SameEnd(e, ServerHandle(c, cfg, e, n, m).0)
  {
    hide HandshakeBytes, Concat, TakeClientHello, TakeCertificate, TakeClientKey, CheckCertificateVerify, Append,
         VerifyFinished, SendFinished, Finish, ServerChecked, HasAnswered;
    var a := Append(e, n, m);
    AppendProves(c, e, n, m);
    SameIsProved(c, cfg, e, a);
    if m.msgType == CLIENT_HELLO {
      ClientHelloChecks(c, cfg, e, n, m);
    } else if m.msgType == CERTIFICATE {
      CertificateKeeps(c, a, m.body);
      SameIsProved(c, cfg, a, TakeCertificate(c, a, m.body));
    } else if m.msgType == CLIENT_KEY_EXCHANGE {
      ClientKeyChecks(c, cfg, a, m.body);
    } else if m.msgType == CERTIFICATE_VERIFY {
      VerifyChecks(c, cfg, e, m.body);
      var e1 := CheckCertificateVerify(c, e, m.body);
      AppendProves(c, e1, n, m);
      SameIsProved(c, cfg, e1, Append(e1, n, m));
    } else if m.msgType == FINISHED {
      FinishedProves(c, cfg, e, n, m);
      SameIsProved(c, cfg, e, ServerHandle(c, cfg, e, n, m).0);
    }
  }

  lemma ClientKeyDerives(c: Crypto, e: Core, body: Buffer)
    ensures var b := TakeClientKey(c, e, body);
      && SameEnd(e, b) && b.remoteCert == e.remoteCert && b.serverRandom == e.serverRandom && b.ecdh == e.ecdh
      && b.sent == e.sent
      && (forall bytes | CertificateVerify(bytes) in b.checks :: CertificateVerify(bytes) in e.checks)
      && if b.keys == e.keys && b.master == e.master then true
         else
           && ReadClientKey(body).Some? && e.ecdh.Some? && e.serverRandom.Some? && b.keys.Some?
           && b.keys.value.serverRandom == e.serverRandom.value && b.master == Some(b.keys.value.master)
           && DerivedFrom(c, b.keys.value, c.agree(e.ecdh.value, ReadClientKey(body).value))
  {
    hide ReadClientKey, Concat;
  }

  lemma ClientKeyChecks(c: Crypto, cfg: Config, e: Core, body: Buffer)
    requires e.role == Server && ServerChecked(c, cfg, e)
    ensures ServerChecked(c, cfg, TakeClientKey(c, e, body))
    ensures SameEnd(e, TakeClientKey(c, e, body))
  {
    hide TakeClientKey, DerivedFrom, HelloWithCookie, SignedBytes;
    ClientKeyDerives(c, e, body);
  }

  lemma VerifyChecks(c: Crypto, cfg: Config, e: Core, body: Buffer)
    requires e.role == Server && ServerChecked(c, cfg, e)
    ensures ServerChecked(c, cfg, CheckCertificateVerify(c, e, body))
    ensures SameEnd(e, CheckCertificateVerify(c, e, body))
  {
    hide ReadVerify, HelloWithCookie, DerivedFrom, Concat;
    match ReadVerify(body)
    case None =>
    case Some(sig) =>
      assert e.remoteCert.Some? && c.verify(e.remoteCert.value, Concat(e.transcript), sig) ==>
        SignedBytes(c, e.remoteCert.value, Concat(e.transcript), sig);
  }

  // ---- Any sequence of records ----

  /** A handshake record: how it was sealed, if at all, and its bytes. */
  type Record = (Option<Seal>, Buffer)

  function Received(c: Crypto, cfg: Config, e: End, records: seq<Record>): End
    decreases |records|
  {
    if records == [] then e
    else Received(c, cfg, TakePayload(c, cfg, e, records[0].0, records[0].1), records[1..])
  }

  /** A whole message is next in line. */
  predicate Ready(e: End) {
    e.core.status != FAILED && e.next <= 0xffff && e.next in e.entries && Complete(e.entries[e.next])
  }

  function NextMessage(e: End): Message
    requires Ready(e)
  {
    Message(e.entries[e.next].msgType, e.entries[e.next].data)
  }

  /** The drain loop, one dispatch at a time. */
  lemma DrainIs(c: Crypto, cfg: Config, e: End)
    ensures DrainEnd(c, cfg, e) == if Ready(e) then DrainEnd(c, cfg, DispatchedNext(c, cfg, e)) else e
    ensures Ready(e) ==> |DispatchedNext(c, cfg, e).entries| < |e.entries|
  {
    hide HandleMessage;
    if Ready(e) {
      Shrinks(e.entries, e.next);
    }
  }

  ghost predicate Checked(c: Crypto, cfg: Config, role: Role, draw: Draw, e: Core) {
    && e.role == role && e.draw == draw
    && if role == Client then ClientChecked(c, e) else ServerChecked(c, cfg, e)
  }

  lemma DispatchChecks(c: Crypto, cfg: Config, e: End, role: Role, draw: Draw)
    requires Ready(e) && Checked(c, cfg, role, draw, e.core)
    ensures Checked(c, cfg, role, draw, DispatchedNext(c, cfg, e).core)
  {
    hide ClientChecked, ServerChecked, ClientHandle, ServerHandle;
    if role == Client {
      ClientHandleChecks(c, e.core, e.next, NextMessage(e));
    } else {
      ServerHandleChecks(c, cfg, e.core, e.next, NextMessage(e));
    }
  }

  lemma {:induction false} DrainChecks(c: Crypto, cfg: Config, e: End, role: Role, draw: Draw)
    requires Checked(c, cfg, role, draw, e.core)
    ensures Checked(c, cfg, role, draw, DrainEnd(c, cfg, e).core)
    decreases |e.entries|
  {
    hide Checked, DispatchedNext, DrainEnd;
    DrainIs(c, cfg, e);
    if Ready(e) {
      DispatchChecks(c, cfg, e, role, draw);
      DrainChecks(c, cfg, DispatchedNext(c, cfg, e), role, draw);
    }
  }

  /** Whether the record's fragment is stored: it must open, and its connection not have failed. */
  predicate Admitted(e: Core, seal: Option<Seal>) {
    e.status != FAILED && (seal.Some? ==> e.keys.Some? && seal.value == Seal(e.keys.value, PeerOf(e.role)))
  }

  function Stored(e: End, f: Fragment): End { e.(entries := Fed(e.entries, f)) }

  lemma PayloadIs(c: Crypto, cfg: Config, e: End, r: Record)
    ensures var b, f := TakePayload(c, cfg, e, r.0, r.1), ParseHandshake(r.1);
      if f.Some? && Admitted(e.core, r.0) then b == DrainEnd(c, cfg, Stored(e, f.value))
      else b == e || b == e.(core := Fail(e.core))
  {
    hide DrainEnd, ParseHandshake, Fed;
  }

  lemma PayloadChecks(c: Crypto, cfg: Config, e: End, r: Record, role: Role, draw: Draw)
    requires Checked(c, cfg, role, draw, e.core)
    ensures Checked(c, cfg, role, draw, TakePayload(c, cfg, e, r.0, r.1).core)
  {
    hide Checked, DrainEnd, ParseHandshake, Fed, TakePayload;
    PayloadIs(c, cfg, e, r);
    FailChecks(c, cfg, e.core, role, draw);
    var f := ParseHandshake(r.1);
    if f.Some? {
      DrainChecks(c, cfg, Stored(e, f.value), role, draw);
    }
  }

  lemma FailChecks(c: Crypto, cfg: Config, e: Core, role: Role, draw: Draw)
    requires Checked(c, cfg, role, draw, e)
    ensures Checked(c, cfg, role, draw, Fail(e))
  {
    hide SignedBytes, DerivedFrom, HelloWithCookie, Vouched, VouchedKeys, Chose;
  }

  /**
   * Whatever records arrive, in whatever order and from whomever: a client has only a certificate it trusts, only a
   * point signed under such a certificate together with its own random bytes, and only keys that come from such a
   * point; a server has recorded only signatures that verified under a certificate it trusts, and has sent and drawn
   * nothing beyond HelloVerifyRequests before a hello with its cookie.
   */
  lemma {:induction false} OnlyCheckedIsKept(
      c: Crypto, cfg: Config, e: End, records: seq<Record>, role: Role, draw: Draw)
    requires Checked(c, cfg, role, draw, e.core)
    ensures Checked(c, cfg, role, draw, Received(c, cfg, e, records).core)
    decreases |records|
  {
    hide Checked, TakePayload;
    if records != [] {
      PayloadChecks(c, cfg, e, records[0], role, draw);
      OnlyCheckedIsKept(c, cfg, TakePayload(c, cfg, e, records[0].0, records[0].1), records[1..], role, draw);
    }
  }

  /** Both ends begin with nothing to check. */
  lemma FreshIsChecked(c: Crypto, cfg: Config, draw: Draw)
    ensures Checked(c, cfg, Client, draw, Start(Fresh(Client, draw)))
    ensures Checked(c, cfg, Server, draw, Fresh(Server, draw))
  {
    hide HandshakeBytes, ClientHelloBody, Vouched, VouchedKeys, Chose, SignedBytes, DerivedFrom, HelloWithCookie;
  }

  // ---- Where a connection comes from ----

  /** The drain loop starting at `e` comes by `at`. */
  ghost predicate ComesBy(c: Crypto, cfg: Config, e: End, at: End)
    decreases |e.entries|
  {
    || at == e
    || (Ready(e) && |DispatchedNext(c, cfg, e).entries| < |e.entries| && ComesBy(c, cfg, DispatchedNext(c, cfg, e), at))
  }

  /** The end comes by `at` while it handles these records. */
  ghost predicate RunsBy(c: Crypto, cfg: Config, e: End, records: seq<Record>, at: End)
    decreases |records|
  {
    records != [] &&
    (|| (var f := ParseHandshake(records[0].1);
         f.Some? && Admitted(e.core, records[0].0) && ComesBy(c, cfg, Stored(e, f.value), at))
     || RunsBy(c, cfg, TakePayload(c, cfg, e, records[0].0, records[0].1), records[1..], at))
  }

  /** An end about to dispatch a Finished with the right bytes. */
  ghost predicate AboutToConnect(c: Crypto, cfg: Config, at: End) {
    && Ready(at) && at.core.status == HANDSHAKING
    && GoodFinished(c, at.core, NextMessage(at)) && CanAnswer(at.core)
    && DispatchedNext(c, cfg, at).core.status == CONNECTED
  }

  lemma DispatchConnectsIff(c: Crypto, cfg: Config, e: End)
    requires Ready(e) && e.core.status == HANDSHAKING
    ensures AboutToConnect(c, cfg, e) <==> DispatchedNext(c, cfg, e).core.status == CONNECTED
  {
    hide HandleMessage, GoodFinished, CanAnswer;
    ConnectsIff(c, cfg, e.core, e.next, NextMessage(e));
  }

  lemma {:induction false} DrainConnects(c: Crypto, cfg: Config, e: End) returns (at: End)
    requires e.core.status == HANDSHAKING && DrainEnd(c, cfg, e).core.status == CONNECTED
    ensures ComesBy(c, cfg, e, at) && AboutToConnect(c, cfg, at)
    decreases |e.entries|
  {
    hide DispatchedNext, DrainEnd, AboutToConnect;
    DrainIs(c, cfg, e);
    var b := DispatchedNext(c, cfg, e);
    DispatchConnectsIff(c, cfg, e);
    if b.core.status == CONNECTED {
      at := e;
    } else {
      FailedStays(c, cfg, b);
      at := DrainConnects(c, cfg, b);
    }
  }

  /** A failed end takes nothing more. */
  lemma FailedStays(c: Crypto, cfg: Config, e: End)
    ensures e.core.status == FAILED ==> DrainEnd(c, cfg, e) == e
    ensures e.core.status == FAILED ==> forall seal, payload :: TakePayload(c, cfg, e, seal, payload) == e
  {
    hide ParseHandshake;
  }

  /**
   * An end that has connected, on whatever records: at one moment it dispatched, under the secret and the transcript
   * it then held, a Finished that covers them; what it held had been checked.
   */
  lemma {:induction false} ConnectsOnlyOnFinished(
      c: Crypto, cfg: Config, e: End, records: seq<Record>, role: Role, draw: Draw) returns (at: End)
    requires Checked(c, cfg, role, draw, e.core)
    requires e.core.status == HANDSHAKING && Received(c, cfg, e, records).core.status == CONNECTED
    ensures RunsBy(c, cfg, e, records, at) && AboutToConnect(c, cfg, at) && Checked(c, cfg, role, draw, at.core)
    decreases |records|
  {
    hide Checked, TakePayload, AboutToConnect, DrainEnd, ParseHandshake, ComesBy, Fed;
    var r := records[0];
    var b, f := TakePayload(c, cfg, e, r.0, r.1), ParseHandshake(r.1);
    PayloadIs(c, cfg, e, r);
    if b.core.status == CONNECTED {
      var start := Stored(e, f.value);
      at := DrainConnects(c, cfg, start);
      VisitedIsChecked(c, cfg, start, at, role, draw);
    } else if b.core.status == FAILED {
      StaysFailed(c, cfg, b, records[1..]);
      assert false;
    } else {
      PayloadChecks(c, cfg, e, r, role, draw);
      at := ConnectsOnlyOnFinished(c, cfg, b, records[1..], role, draw);
    }
  }

  lemma {:induction false} VisitedIsChecked(c: Crypto, cfg: Config, e: End, at: End, role: Role, draw: Draw)
    requires Checked(c, cfg, role, draw, e.core) && ComesBy(c, cfg, e, at)
    ensures Checked(c, cfg, role, draw, at.core)
    decreases |e.entries|
  {
    hide Checked, DispatchedNext;
    if at != e {
      DispatchChecks(c, cfg, e, role, draw);
      VisitedIsChecked(c, cfg, DispatchedNext(c, cfg, e), at, role, draw);
    }
  }

  lemma {:induction false} StaysFailed(c: Crypto, cfg: Config, e: End, records: seq<Record>)
    requires e.core.status == FAILED
    ensures Received(c, cfg, e, records) == e
    decreases |records|
  {
    hide TakePayload;
    FailedStays(c, cfg, e);
    if records != [] {
      StaysFailed(c, cfg, e, records[1..]);
    }
  }

  lemma ClientStaysConnected(c: Crypto, e: Core, n: u16, m: Message)
    requires e.status == CONNECTED && e.role == Client
    ensures GoesOn(e, ClientHandle(c, e, n, m))
  {
    hide HandshakeBytes, SecondFlight, ReadVerifyRequest, SendClientHello, TakeServerHello, TakeServerKey,
         TakeCertificate, Append, VerifyFinished, Finish, Concat;
    var a := Append(e, n, m);
    AppendGoesOn(e, n, m);
    AppendGoesOn(e.(certRequested := true), n, m);
    if m.msgType == HELLO_VERIFY_REQUEST {
      if ReadVerifyRequest(m.body).Some? {
        HelloGoesOn(e.(cookie := ReadVerifyRequest(m.body).value));
      }
    } else if m.msgType == SERVER_HELLO {
      ServerHelloGoesOn(e, n, m);
    } else if m.msgType == CERTIFICATE || m.msgType == SERVER_KEY_EXCHANGE {
      KeysGoOn(c, a, m.body);
    } else if m.msgType == SERVER_HELLO_DONE {
      SecondFlightGoesOn(c, a);
    } else if m.msgType == FINISHED {
      var e1 := VerifyFinished(c, e, Server, m.body);
      VerifyGoesOn(c, e, Server, m.body);
      AppendGoesOn(e1, n, m);
      FinishGoesOn(Append(e1, n, m));
    }
  }

  lemma AnswerStaysConnected(c: Crypto, e: Core)
    ensures GoesOn(e, SendFinished(c, e))
  {
    hide HandshakeBytes, Concat;
  }

  lemma ServerStaysConnected(c: Crypto, cfg: Config, e: Core, n: u16, m: Message)
    requires e.status == CONNECTED && e.role == Server
    ensures GoesOn(e, ServerHandle(c, cfg, e, n, m).0)
  {
    hide HandshakeBytes, TakeClientHello, TakeCertificate, TakeClientKey, CheckCertificateVerify, Append,
         VerifyFinished, SendFinished, Finish, Concat;
    var a := Append(e, n, m);
    AppendGoesOn(e, n, m);
    KeysGoOn(c, a, m.body);
    KeysGoOn(c, e, m.body);
    if m.msgType == CLIENT_HELLO {
      ClientHelloGoesOn(c, cfg, e, n, m);
    } else if m.msgType == CERTIFICATE_VERIFY {
      AppendGoesOn(CheckCertificateVerify(c, e, m.body), n, m);
    } else if m.msgType == FINISHED {
      var e1 := VerifyFinished(c, e, Client, m.body);
      VerifyGoesOn(c, e, Client, m.body);
      AppendGoesOn(e1, n, m);
      AnswerStaysConnected(c, Append(e1, n, m));
      FinishGoesOn(SendFinished(c, Append(e1, n, m)));
    }
  }

  lemma DispatchNeverRestarts(c: Crypto, cfg: Config, e: End)
    requires Ready(e) && e.core.status != HANDSHAKING
    ensures DispatchedNext(c, cfg, e).core.status != HANDSHAKING
  {
    hide ClientHandle, ServerHandle;
    if e.core.role == Client {
      ClientStaysConnected(c, e.core, e.next, NextMessage(e));
    } else {
      ServerStaysConnected(c, cfg, e.core, e.next, NextMessage(e));
    }
  }

  lemma {:induction false} DrainNeverRestarts(c: Crypto, cfg: Config, e: End)
    requires e.core.status != HANDSHAKING
    ensures DrainEnd(c, cfg, e).core.status != HANDSHAKING
    decreases |e.entries|
  {
    hide DispatchedNext, DrainEnd;
    DrainIs(c, cfg, e);
    if Ready(e) {
      DispatchNeverRestarts(c, cfg, e);
      DrainNeverRestarts(c, cfg, DispatchedNext(c, cfg, e));
    }
  }

  lemma {:induction false} DrainEndsHandshake(c: Crypto, cfg: Config, e: End, at: End)
    requires ComesBy(c, cfg, e, at) && AboutToConnect(c, cfg, at)
    ensures DrainEnd(c, cfg, e).core.status != HANDSHAKING
    decreases |e.entries|
  {
    hide DispatchedNext, DrainEnd, GoodFinished, CanAnswer;
    DrainIs(c, cfg, e);
    if at == e {
      DrainNeverRestarts(c, cfg, DispatchedNext(c, cfg, e));
    } else {
      DrainEndsHandshake(c, cfg, DispatchedNext(c, cfg, e), at);
    }
  }

  lemma {:induction false} NeverRestarts(c: Crypto, cfg: Config, e: End, records: seq<Record>)
    requires e.core.status != HANDSHAKING
    ensures Received(c, cfg, e, records).core.status != HANDSHAKING
    decreases |records|
  {
    hide TakePayload, DrainEnd, ParseHandshake, Fed;
    if records != [] {
      var f := ParseHandshake(records[0].1);
      PayloadIs(c, cfg, e, records[0]);
      if f.Some? {
        DrainNeverRestarts(c, cfg, Stored(e, f.value));
      }
      NeverRestarts(c, cfg, TakePayload(c, cfg, e, records[0].0, records[0].1), records[1..]);
    }
  }

  /** And the other way: such a Finished, when its turn comes, ends the handshake; it never begins again. */
  lemma {:induction false} FinishedEndsHandshake(c: Crypto, cfg: Config, e: End, records: seq<Record>, at: End)
    requires RunsBy(c, cfg, e, records, at) && AboutToConnect(c, cfg, at)
    ensures Received(c, cfg, e, records).core.status != HANDSHAKING
    decreases |records|
  {
    hide TakePayload, AboutToConnect, DrainEnd, ParseHandshake, ComesBy, Fed, Admitted;
    var r := records[0];
    var b, f := TakePayload(c, cfg, e, r.0, r.1), ParseHandshake(r.1);
    PayloadIs(c, cfg, e, r);
    if f.Some? && Admitted(e.core, r.0) && ComesBy(c, cfg, Stored(e, f.value), at) {
      DrainEndsHandshake(c, cfg, Stored(e, f.value), at);
      NeverRestarts(c, cfg, b, records[1..]);
    } else {
      FinishedEndsHandshake(c, cfg, b, records[1..], at);
    }
  }

  // ---- What the server makes of an offer ----

  /**
   * Any client whose hello is accepted: the answer names the one suite, and takes up what the hello offered,
   * only that.
   */
  lemma ServerAnswersOffer(c: Crypto, cfg: Config, e: Core, h: Hello, n: u16, m: Message)
    requires e.status != FAILED && |e.draw.random| == 32 && e.messageSeq + 5 <= 0x1_0000
    requires forall key, data :: |c.sign(key, data)| <= 0xffff
    ensures var b := AcceptHello(c, cfg, e, h, n, m);
      && |b.sent| > |e.sent| && b.sent[..|e.sent|] == e.sent
      && var hello := b.sent[|e.sent|].message;
         && hello.msgType == 2
         && hello.body == ServerHelloBody(e.draw.random, h.extendedMasterSecret, h.renegotiation)
         && ReadServerHello(hello.body) == Some(ServerParams(e.draw.random, 0xc02b, h.extendedMasterSecret))
         && b.extendedMasterSecret == h.extendedMasterSecret && b.clientRandom == Some(h.random)
  {
    hide HandshakeBytes, ServerHelloBody, ReadServerHello, CertificateBody, KeyExchangeBody, EcdhParams, PostAll;
    var a := Append(e.(renegotiation := h.renegotiation, clientRandom := Some(h.random),
                       extendedMasterSecret := h.extendedMasterSecret), n, m);
    var ready := a.(serverRandom := Some(e.draw.random), ecdh := Some(e.draw.ecdh));
    FlightAdds(ready, ServerFlightMessages(c, cfg, a));
    ServerHelloRoundTrip(e.draw.random, h.extendedMasterSecret, h.renegotiation);
  }

  /**
   * Section 4.2.1 of RFC 6347: a hello without the cookie this server makes for its random starts nothing. One
   * HelloVerifyRequest (3) with that cookie goes out as message 0, and what is kept of the hello decides nothing later:
   * an accepted hello replaces it.
   */
  lemma HelloNeedsCookie(c: Crypto, cfg: Config, e: Core, n: u16, m: Message)
    requires !cfg.skipVerify && ReadClientHello(m.body).Some?
    ensures var h := ReadClientHello(m.body).value;
      var cookie := DtlsMessages.Slice(c.cookieMac(e.draw.cookieSecret, h.random), 0, 20);
      var (b, restart) := TakeClientHello(c, cfg, e, n, m);
      && (restart <==> h.cookie == [] || h.cookie != cookie)
      && (restart ==>
            && b.sent == e.sent + [Outgoing(None, 0, Message(3, VerifyRequestBody(cookie)))] && b.messageSeq == 1
            && b.transcript == e.transcript && b.serverRandom == e.serverRandom && b.ecdh == e.ecdh && b.keys == e.keys
            && b.status == e.status && b.renegotiation == h.renegotiation
            && b.clientRandom == if h.cookie == [] then Some(h.random) else e.clientRandom)
  {
    hide ReadClientHello, AcceptHello, VerifyRequestBody;
  }

  /** Section 3.6 of RFC 5746: renegotiation_info (0xff01) is answered if and only if it was asked for. */
  lemma RenegotiationAnswered(ems: bool, renegotiation: bool)
    ensures Extension(0xff01, [0]) in ServerExtensions(ems, renegotiation) <==> renegotiation
    ensures Extension(23, []) in ServerExtensions(ems, renegotiation) <==> ems
  {
    var es := ServerExtensions(ems, renegotiation);
    assert Vec8([]) == [0];
    if renegotiation {
      assert es[|es| - 1] == Extension(0xff01, [0]);
    }
    if ems {
      assert es[0] == Extension(23, []);
    }
  }

  // ---- Keys without the extended master secret ----

  /** `b` holds the public point of `a`'s private key, and the other way round; both saw the same randoms. */
  predicate Exchanged(c: Crypto, a: Core, b: Core) {
    && a.ecdh.Some? && b.ecdh.Some? && a.clientRandom.Some? && a.serverRandom.Some?
    && a.remotePub == Some(c.publicOf(b.ecdh.value)) && b.remotePub == Some(c.publicOf(a.ecdh.value))
    && a.clientRandom == b.clientRandom && a.serverRandom == b.serverRandom
    && a.extendedMasterSecret == b.extendedMasterSecret
    && c.agree(a.ecdh.value, c.publicOf(b.ecdh.value)) == c.agree(b.ecdh.value, c.publicOf(a.ecdh.value))
  }

  /**
   * Section 8.1 of RFC 5246, and section 4 of RFC 7627: two ends that have exchanged points get the same keys. With the
   * extended master secret they must have hashed the same messages; without it, what they hashed does not matter.
   */
  lemma DerivedKeysAgree(c: Crypto, a: Core, b: Core, hashedByA: Buffer, hashedByB: Buffer)
    requires Exchanged(c, a, b)
    requires a.extendedMasterSecret ==> hashedByA == hashedByB
    ensures var x, y := DeriveKeys(c, a, hashedByA), DeriveKeys(c, b, hashedByB);
      var pms := c.agree(a.ecdh.value, a.remotePub.value);
      && x.keys == y.keys && x.keys.Some? && x.master == y.master == Some(x.keys.value.master)
      && x.status == a.status && y.status == b.status
      && x.checks == a.checks + (if a.extendedMasterSecret then [SessionHash(hashedByA)] else [])
      && x.keys.value.clientRandom == a.clientRandom.value && x.keys.value.serverRandom == a.serverRandom.value
      && x.keys.value.master ==
        if a.extendedMasterSecret then c.extendedMaster(pms, c.sha256(hashedByA))
        else c.plainMaster(pms, a.clientRandom.value, a.serverRandom.value)
  {}
}
