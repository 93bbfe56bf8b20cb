/**
 * The four-way SCTP setup (src/sctp/association.ts:141-331; section 5.1 of RFC 4960): its handlers,
 * and what both ends agree on under loss, duplication and reordering of setup packets.
 */
module Setup {
  import opened Bytes
  import opened Serial
  import opened Chunks
  import Association

  datatype State = CLOSED | COOKIE_WAIT | COOKIE_ECHOED | ESTABLISHED

  /** HMAC-SHA256, uninterpreted: (secret, data) to a 32-byte digest. */
  type Hmac = (Buffer, Buffer) -> Buffer

  ghost predicate Digests(hmac: Hmac) {
    forall secret, data :: |hmac(secret, data)| == 32
  }

  /** The fields the setup handlers read and write. */
  datatype Peer = Peer(
    state: State, localTag: u32, remoteTag: u32,
    localTSN: u32, cumulative: u32, cookieSecret: Option<Buffer>)

  /** A chunk handed to `#emitPacket` with its verification tag. */
  datatype Outgoing = Outgoing(tag: u32, chunk: Chunk)

  const EXT_PARAMS: seq<Param> := [Param(FORWARD_TSN_SUPPORTED, [])]

  function OwnInit(p: Peer): InitBody {
    InitBody(p.localTag, Association.DEFAULT_RWND, 65535, 65535, p.localTSN)
  }

  function InitChunk(p: Peer): Chunk {
    Chunk(INIT, 0, InitBytes(OwnInit(p)) + AllParamBytes(EXT_PARAMS))
  }

  function CookieData(localTag: u32, remoteTag: u32, localTSN: u32, initialTSN: u32): (b: Buffer)
    ensures |b| == 16
  {
    U32(localTag) + U32(remoteTag) + U32(localTSN) + U32(initialTSN)
  }

  function Cookie(hmac: Hmac, secret: Buffer, data: Buffer): Buffer { data + hmac(secret, data) }

  function InitAckChunk(init: InitBody, cookie: Buffer): Chunk
    requires ParamFits(Param(STATE_COOKIE, cookie))
  {
    Chunk(INIT_ACK, 0, InitBytes(init) + AllParamBytes([Param(STATE_COOKIE, cookie)] + EXT_PARAMS))
  }

  const COOKIE_ACK_CHUNK: Chunk := Chunk(COOKIE_ACK, 0, [])

  // ---- Handlers ----

  /** `newSecret` is the secret drawn if this is the first INIT. A short body throws before anything changes. */
  function HandleInit(hmac: Hmac, newSecret: Buffer, p: Peer, chunk: Chunk): (Peer, Option<Outgoing>)
    requires Digests(hmac)
  {
    match ParseInit(chunk.body)
    case None => (p, None)
    case Some((init, _)) =>
      var secret := match p.cookieSecret case Some(s) => s case None => newSecret;
      var p' := p.(remoteTag := init.initiateTag, cumulative := ToUint32(init.initialTSN - 1),
          cookieSecret := Some(secret));
      var cookie := Cookie(hmac, secret, CookieData(p.localTag, init.initiateTag, p.localTSN, init.initialTSN));
      (p', Some(Outgoing(init.initiateTag, InitAckChunk(OwnInit(p), cookie))))
  }

  function FindCookie(params: seq<Param>): Option<Buffer> {
    if params == [] then None
    else if params[0].typ == STATE_COOKIE then Some(params[0].value)
    else FindCookie(params[1..])
  }

  function HandleInitAck(p: Peer, chunk: Chunk): (Peer, Option<Outgoing>) {
    if p.state != COOKIE_WAIT then (p, None)
    else
      match ParseInit(chunk.body)
      case None => (p, None)
      case Some((init, params)) =>
        var p' := p.(remoteTag := init.initiateTag, cumulative := ToUint32(init.initialTSN - 1));
        match FindCookie(params)
        case None => (p'.(state := CLOSED), None)
        case Some(cookie) =>
          (p'.(state := COOKIE_ECHOED), Some(Outgoing(init.initiateTag, Chunk(COOKIE_ECHO, 0, cookie))))
  }

  /** Only a full-length cookie at an end that holds a secret is checked. */
  predicate CookieRejected(hmac: Hmac, p: Peer, cookie: Buffer) {
    |cookie| >= 48 && p.cookieSecret.Some? && cookie[16..48] != hmac(p.cookieSecret.value, cookie[..16])
  }

  function HandleCookieEcho(hmac: Hmac, p: Peer, chunk: Chunk): (Peer, Option<Outgoing>) {
    if CookieRejected(hmac, p, chunk.body) then (p, None)
    else (p.(state := ESTABLISHED), Some(Outgoing(p.remoteTag, COOKIE_ACK_CHUNK)))
  }

  /** What the code in the cookie protects: both tags and both TSNs, each where the others cannot stand for it. */
  lemma CookieSaysAll(hmac: Hmac, secret: Buffer, localTag: u32, remoteTag: u32, localTSN: u32, initialTSN: u32)
    ensures var cookie := Cookie(hmac, secret, CookieData(localTag, remoteTag, localTSN, initialTSN));
      && ReadU32(cookie, 0) == localTag && ReadU32(cookie, 4) == remoteTag
      && ReadU32(cookie, 8) == localTSN && ReadU32(cookie, 12) == initialTSN
  {
    hide U32, ReadU32;
    var cookie := Cookie(hmac, secret, CookieData(localTag, remoteTag, localTSN, initialTSN));
    assert Holds(cookie, 0, U32(localTag)) && Holds(cookie, 4, U32(remoteTag));
    assert Holds(cookie, 8, U32(localTSN)) && Holds(cookie, 12, U32(initialTSN));
    ReadWritten32(cookie, 0, localTag);
    ReadWritten32(cookie, 4, remoteTag);
    ReadWritten32(cookie, 8, localTSN);
    ReadWritten32(cookie, 12, initialTSN);
  }

  /** The cookie is the first parameter of type 7, wherever it stands; without one the client gives up. */
  lemma {:induction false} FindCookieIff(params: seq<Param>)
    ensures FindCookie(params).None? ==> forall q | q in params :: q.typ != 7
    ensures FindCookie(params).Some? ==> exists i :: IsFirstCookie(params, i, FindCookie(params).value)
  {
    if params != [] && params[0].typ != 7 {
      FindCookieIff(params[1..]);
      assert params == [params[0]] + params[1..];
      var found := FindCookie(params[1..]);
      assert FindCookie(params) == found;
      if found.Some? {
        var i :| IsFirstCookie(params[1..], i, found.value);
        assert IsFirstCookie(params, i + 1, found.value);
      }
    } else if params != [] {
      assert FindCookie(params) == Some(params[0].value) && params[0] == Param(7, params[0].value);
      assert IsFirstCookie(params, 0, params[0].value);
    }
  }

  predicate IsFirstCookie(params: seq<Param>, i: int, cookie: Buffer) {
    0 <= i < |params| && params[i] == Param(7, cookie) && forall j | 0 <= j < i :: params[j].typ != 7
  }

  lemma NoCookieAborts(p: Peer, chunk: Chunk)
    requires p.state == COOKIE_WAIT && ParseInit(chunk.body).Some?
    ensures var (q, out) := HandleInitAck(p, chunk);
      if exists x | x in ParseInit(chunk.body).value.1 :: x.typ == 7 then
        q.state == COOKIE_ECHOED && out.Some? && out.value.tag == q.remoteTag && out.value.chunk.typ == 10
      else q.state == CLOSED && out == None
  {
    hide ParseInit, FindCookie;
    FindCookieIff(ParseInit(chunk.body).value.1);
  }

  /** At an end that holds a secret, a full-length cookie decides alone: the code must be that of the data before it. */
  lemma CookieDecides(hmac: Hmac, p: Peer, cookie: Buffer)
    requires p.cookieSecret.Some? && |cookie| >= 48
    ensures var (q, out) := HandleCookieEcho(hmac, p, Chunk(COOKIE_ECHO, 0, cookie));
      if cookie[16..48] == hmac(p.cookieSecret.value, cookie[..16]) then
        q == p.(state := ESTABLISHED) && out.Some? && out.value.tag == p.remoteTag && out.value.chunk.typ == 11
      else q == p && out == None
  {}

  /** Section 5.1.5 of RFC 4960: a cookie changed in any one byte does nothing, unless two cookies share a code. */
  lemma TamperedCookieRejected(hmac: Hmac, p: Peer, data: Buffer, i: nat, v: byte)
    requires Digests(hmac) && p.cookieSecret.Some? && |data| == 16
    requires forall other | other != data :: hmac(p.cookieSecret.value, other) != hmac(p.cookieSecret.value, data)
    requires i < 48 && v != Cookie(hmac, p.cookieSecret.value, data)[i]
    ensures var cookie := Cookie(hmac, p.cookieSecret.value, data);
      HandleCookieEcho(hmac, p, Chunk(COOKIE_ECHO, 0, cookie[i := v])) == (p, None)
  {
    var secret := p.cookieSecret.value;
    var cookie := Cookie(hmac, secret, data);
    var changed := cookie[i := v];
    assert cookie[..16] == data && cookie[16..48] == hmac(secret, data);
    if i < 16 {
      assert changed[..16][i] == v;
      assert changed[16..48] == cookie[16..48];
    } else {
      assert changed[..16] == data;
      assert changed[16..48][i - 16] == v;
    }
  }

  function HandleCookieAck(p: Peer): Peer {
    if p.state != COOKIE_ECHOED then p else p.(state := ESTABLISHED)
  }

  /** What an INIT_ACK built by `HandleInit` means to the end that parses it. */
  lemma InitAckRoundTrip(init: InitBody, cookie: Buffer)
    requires ParamFits(Param(STATE_COOKIE, cookie))
    ensures var r := ParseInit(InitAckChunk(init, cookie).body);
      r.Some? && r.value.0 == init && FindCookie(r.value.1) == Some(cookie)
  {
    InitRoundTrip(init, [Param(STATE_COOKIE, cookie)] + EXT_PARAMS);
  }

  /**
   * In whatever state an end is, a readable INIT is answered under the tag it names by this end's own numbers and a
   * cookie this end will accept; an earlier secret stays.
   */
  lemma InitAnswered(hmac: Hmac, newSecret: Buffer, p: Peer, chunk: Chunk)
    requires Digests(hmac) && ParseInit(chunk.body).Some?
    ensures var (q, out) := HandleInit(hmac, newSecret, p, chunk);
      && q.state == p.state && q.localTSN == p.localTSN && q.cookieSecret.Some?
      && (p.cookieSecret.Some? ==> q.cookieSecret == p.cookieSecret)
      && q.remoteTag == ParseInit(chunk.body).value.0.initiateTag
      && out.Some? && out.value.tag == q.remoteTag && out.value.chunk.typ == 2
      && var r := ParseInit(out.value.chunk.body);
         && r.Some? && r.value.0 == InitBody(p.localTag, 1048576, 65535, 65535, p.localTSN)
         && FindCookie(r.value.1).Some? && |FindCookie(r.value.1).value| == 48
         && !CookieRejected(hmac, q, FindCookie(r.value.1).value)
  {
    hide InitBytes, AllParamBytes, ParseInit, FindCookie, CookieData, InitAckChunk;
    var (q, out) := HandleInit(hmac, newSecret, p, chunk);
    var init := ParseInit(chunk.body).value.0;
    var data := CookieData(p.localTag, init.initiateTag, p.localTSN, init.initialTSN);
    var cookie := Cookie(hmac, q.cookieSecret.value, data);
    InitAckRoundTrip(OwnInit(p), cookie);
    InitAckIsOne(OwnInit(p), cookie);
    assert cookie[..16] == data && cookie[16..48] == hmac(q.cookieSecret.value, data);
  }

  lemma InitAckIsOne(init: InitBody, cookie: Buffer)
    requires ParamFits(Param(STATE_COOKIE, cookie))
    ensures InitAckChunk(init, cookie).typ == 2
  {}

  lemma InitChunkRoundTrip(p: Peer)
    ensures ParseInit(InitChunk(p).body) == Some((OwnInit(p), EXT_PARAMS))
  {
    InitRoundTrip(OwnInit(p), EXT_PARAMS);
  }

  // ---- Two honest ends and a network that keeps everything ----

  /** The packets ever sent in each direction, and the history the statements need. */
  datatype System = System(
    client: Peer, server: Peer,
    toServer: set<Outgoing>, toClient: set<Outgoing>,
    client0: Peer, server0: Peer,
    started: bool, served: bool,  // the client has called start; the server has been established
    clientConsumed: bool, serverConsumed: bool,
    clientClosed: bool, serverClosed: bool)

  ghost predicate Initial(s: System) {
    && s.client == s.client0 && s.server == s.server0
    && s.client0.state == CLOSED && s.server0.state == CLOSED
    && s.client0.cookieSecret == None && s.server0.cookieSecret == None
    && s.toServer == {} && s.toClient == {}
    && !s.started && !s.served && !s.clientConsumed && !s.serverConsumed && !s.clientClosed && !s.serverClosed
  }

  datatype Event =
    | Start                        // the client sends INIT; retransmissions repeat packets already in the network
    | ToServer(packet: Outgoing, draw: Buffer)  // any packet ever sent may arrive, any number of times, in any order
    | ToClient(packet: Outgoing)
    | ClientGivesUp                // the setup timer's last attempt
    | ClientCloses                 // `shutdown` is called, or a SHUTDOWN or ABORT arrives
    | ServerCloses
    | ClientSends(pieces: nat)     // sendData advances the TSN
    | ServerSends(pieces: nat)
    | ClientConsumes(to: u32)      // DATA moves the receive cursor
    | ServerConsumes(to: u32)

  function Emit(packets: set<Outgoing>, out: Option<Outgoing>): set<Outgoing> {
    match out case None => packets case Some(o) => packets + {o}
  }

  predicate Enabled(s: System, e: Event) {
    match e
    case Start => !s.started
    case ToServer(o, _) => o in s.toServer && (o.chunk.typ == INIT ==> !s.serverConsumed)
    case ToClient(o) => o in s.toClient
    case ClientGivesUp => s.client.state == COOKIE_WAIT || s.client.state == COOKIE_ECHOED
    case ClientCloses => true
    case ServerCloses => true
    case ClientSends(_) => s.client.state == ESTABLISHED
    case ServerSends(_) => s.server.state == ESTABLISHED
    // DATA is handled in every state, but none is sent before the other end has been established.
    case ClientConsumes(_) => s.served
    case ServerConsumes(_) => s.served
  }

  /** `draw` is what a secret drawn on this packet would be. No end looks at the verification tag. */
  function Next(hmac: Hmac, s: System, e: Event): System
    requires Digests(hmac)
  {
    match e
    case Start =>
      s.(client := s.client.(state := COOKIE_WAIT), toServer := s.toServer + {InitPacket(s.client)}, started := true)
    case ToServer(o, draw) =>
      if o.chunk.typ == INIT then
        var (server, out) := HandleInit(hmac, draw, s.server, o.chunk);
        s.(server := server, toClient := Emit(s.toClient, out))
      else if o.chunk.typ == COOKIE_ECHO then
        var (server, out) := HandleCookieEcho(hmac, s.server, o.chunk);
        s.(server := server, toClient := Emit(s.toClient, out), served := s.served || server.state == ESTABLISHED)
      else s
    case ToClient(o) =>
      if o.chunk.typ == INIT_ACK then
        var (client, out) := HandleInitAck(s.client, o.chunk);
        s.(client := client, toServer := Emit(s.toServer, out))
      else if o.chunk.typ == COOKIE_ACK then s.(client := HandleCookieAck(s.client))
      else s
    case ClientGivesUp => CloseClient(s)
    case ClientCloses => CloseClient(s)
    case ServerCloses =>
      s.(server := s.server.(state := CLOSED), serverClosed := s.serverClosed || s.server.state != CLOSED)
    case ClientSends(n) => s.(client := s.client.(localTSN := ToUint32(s.client.localTSN + n)))
    case ServerSends(n) => s.(server := s.server.(localTSN := ToUint32(s.server.localTSN + n)))
    case ClientConsumes(to) => s.(client := s.client.(cumulative := to), clientConsumed := true)
    case ServerConsumes(to) => s.(server := s.server.(cumulative := to), serverConsumed := true)
  }

  function CloseClient(s: System): System {
    s.(client := s.client.(state := CLOSED), clientClosed := s.clientClosed || s.client.state != CLOSED)
  }

  /** An INIT_ACK of this server, built when its next TSN was `tsn`. */
  function AckOf(hmac: Hmac, s: System, tsn: u32): Outgoing
    requires Digests(hmac) && s.server.cookieSecret.Some?
  {
    Outgoing(s.client0.localTag, InitAckChunk(OwnInit(s.server0.(localTSN := tsn)), CookieOf(hmac, s, tsn)))
  }

  /** The cookie of such an INIT_ACK, echoed. */
  function EchoOf(hmac: Hmac, s: System, tsn: u32): Outgoing
    requires Digests(hmac) && s.server.cookieSecret.Some?
  {
    Outgoing(s.server0.localTag, Chunk(COOKIE_ECHO, 0, CookieOf(hmac, s, tsn)))
  }

  function InitPacket(p: Peer): Outgoing { Outgoing(0, InitChunk(p)) }

  function CookieOf(hmac: Hmac, s: System, tsn: u32): (cookie: Buffer)
    requires Digests(hmac) && s.server.cookieSecret.Some?
    ensures |cookie| == 48
  {
    Cookie(hmac, s.server.cookieSecret.value,
           CookieData(s.server0.localTag, s.client0.localTag, tsn, s.client0.localTSN))
  }

  ghost predicate HasEcho(s: System) {
    exists o | o in s.toServer :: o.chunk.typ == COOKIE_ECHO
  }

  ghost predicate Inv(hmac: Hmac, s: System)
    requires Digests(hmac)
  {
    && s.client0.state == CLOSED
    && s.client.localTag == s.client0.localTag && s.server.localTag == s.server0.localTag
    // What is in the network.
    && (forall o | o in s.toServer ::
          || (s.started && o == InitPacket(s.client0))
          || (s.server.cookieSecret.Some? && exists t: u32 :: o == EchoOf(hmac, s, t)))
    && (forall o | o in s.toClient ::
          || (s.served && o == Outgoing(s.client0.localTag, COOKIE_ACK_CHUNK))
          || (s.server.cookieSecret.Some? && exists t: u32 :: o == AckOf(hmac, s, t)))
    // Until the client echoes a cookie the server cannot be established, so its TSN has not moved
    // and every INIT_ACK in the network carries the initial one.
    && (!s.started ==> s.client == s.client0 && s.toServer == {})
    && (s.started && s.client.state == COOKIE_WAIT ==> !HasEcho(s) && s.client.localTSN == s.client0.localTSN)
    && (!HasEcho(s) ==>
          && !s.served && s.server.localTSN == s.server0.localTSN && !s.clientConsumed && !s.serverConsumed
          && (forall o | o in s.toClient :: s.server.cookieSecret.Some? && o == AckOf(hmac, s, s.server0.localTSN)))
    && (HasEcho(s) ==> s.client.remoteTag == s.server0.localTag && s.server.cookieSecret.Some?)
    && (s.clientClosed ==> s.started && s.client.state == CLOSED)
    && (s.started ==> InitPacket(s.client0) in s.toServer && (s.client.state == CLOSED ==> s.clientClosed))
    // What each end has learned.
    && (s.client.state == COOKIE_ECHOED || s.client.state == ESTABLISHED ==>
          HasEcho(s) && (!s.clientConsumed ==> s.client.cumulative == ToUint32(s.server0.localTSN - 1)))
    && (s.client.state == ESTABLISHED ==> s.served)
    && (s.server.state == ESTABLISHED ==> s.served) && (s.served ==> s.server.state == ESTABLISHED || s.serverClosed)
    && (s.server.cookieSecret.Some? ==>
          && s.server.remoteTag == s.client0.localTag
          && (!s.serverConsumed ==> s.server.cumulative == ToUint32(s.client0.localTSN - 1)))
  }

  /** The secret drawn for the first INIT stays, whatever later ones would draw. */
  lemma InitArrives(hmac: Hmac, s: System, o: Outgoing, draw: Buffer)
    requires Digests(hmac) && Inv(hmac, s) && Enabled(s, ToServer(o, draw)) && o.chunk.typ == INIT
    ensures Inv(hmac, Next(hmac, s, ToServer(o, draw)))
  {
    hide InitBytes, AllParamBytes, CookieData, ParseInit;
    var s' := Next(hmac, s, ToServer(o, draw));
    InitChunkRoundTrip(s.client0);
    assert o == InitPacket(s.client0);
    assert s'.server.cookieSecret.Some?;
    assert s.server.cookieSecret.Some? ==> s'.server.cookieSecret == s.server.cookieSecret;
    assert OwnInit(s.server) == OwnInit(s.server0.(localTSN := s.server.localTSN));
    assert s'.toClient == s.toClient + {AckOf(hmac, s', s.server.localTSN)};
    assert s.server.cookieSecret.Some? ==> forall t: u32 :: AckOf(hmac, s', t) == AckOf(hmac, s, t);
    assert s.server.cookieSecret.Some? ==> forall t: u32 :: EchoOf(hmac, s', t) == EchoOf(hmac, s, t);
    assert HasEcho(s') == HasEcho(s);
  }

  lemma EchoArrives(hmac: Hmac, s: System, o: Outgoing, draw: Buffer)
    requires Digests(hmac) && Inv(hmac, s) && Enabled(s, ToServer(o, draw)) && o.chunk.typ == COOKIE_ECHO
    ensures !CookieRejected(hmac, s.server, o.chunk.body)
    ensures Inv(hmac, Next(hmac, s, ToServer(o, draw)))
  {
    hide InitBytes, AllParamBytes, CookieData;
    var s' := Next(hmac, s, ToServer(o, draw));
    assert o != InitPacket(s.client0);
    var t: u32 :| o == EchoOf(hmac, s, t);
    var data := CookieData(s.server0.localTag, s.client0.localTag, t, s.client0.localTSN);
    assert o.chunk.body[..16] == data && o.chunk.body[16..48] == hmac(s.server.cookieSecret.value, data);
    assert forall t: u32 :: AckOf(hmac, s', t) == AckOf(hmac, s, t);
    assert forall t: u32 :: EchoOf(hmac, s', t) == EchoOf(hmac, s, t);
    assert HasEcho(s) && HasEcho(s');
  }

  lemma InitAckArrives(hmac: Hmac, s: System, o: Outgoing)
    requires Digests(hmac) && Inv(hmac, s) && Enabled(s, ToClient(o)) && o.chunk.typ == INIT_ACK
    ensures Inv(hmac, Next(hmac, s, ToClient(o)))
  {
    hide InitBytes, AllParamBytes, CookieData, ParseInit, FindCookie;
    var s' := Next(hmac, s, ToClient(o));
    if s.client.state == COOKIE_WAIT {
      var t := s.server0.localTSN;
      assert o == AckOf(hmac, s, t);
      assert s.server0.(localTSN := t) == s.server0;
      InitAckRoundTrip(OwnInit(s.server0), CookieOf(hmac, s, t));
      var echo := EchoOf(hmac, s, t);
      assert s'.toServer == s.toServer + {echo};
      assert echo in s'.toServer;
      assert forall t: u32 :: AckOf(hmac, s', t) == AckOf(hmac, s, t);
      assert forall t: u32 :: EchoOf(hmac, s', t) == EchoOf(hmac, s, t);
      assert s'.client.remoteTag == s.server0.localTag;
      assert HasEcho(s');
    } else {
      assert s' == s;
    }
  }

  lemma LocalStep(hmac: Hmac, s: System, e: Event)
    requires Digests(hmac) && Inv(hmac, s) && Enabled(s, e)
    requires !e.Start? && !e.ToServer? && !e.ToClient?
    ensures Inv(hmac, Next(hmac, s, e))
  {
    hide InitPacket, AckOf, HandleInit, HandleInitAck, HandleCookieEcho, HandleCookieAck;
    var s' := Next(hmac, s, e);
    if s.server.cookieSecret.Some? {
      SamePackets(hmac, s, s');
    }
    assert HasEcho(s') == HasEcho(s);
  }

  /** The packets of a server that keeps its secret. */
  lemma SamePackets(hmac: Hmac, s: System, s': System)
    requires Digests(hmac) && s.server.cookieSecret.Some? && s'.server.cookieSecret == s.server.cookieSecret
    requires s'.server0 == s.server0 && s'.client0 == s.client0
    ensures forall t: u32 :: AckOf(hmac, s', t) == AckOf(hmac, s, t) && EchoOf(hmac, s', t) == EchoOf(hmac, s, t)
  {}

  lemma StartStep(hmac: Hmac, s: System)
    requires Digests(hmac) && Inv(hmac, s) && Enabled(s, Start)
    ensures Inv(hmac, Next(hmac, s, Start))
  {
    hide AckOf, HandleInit, HandleInitAck, HandleCookieEcho, HandleCookieAck;
    var s' := Next(hmac, s, Start);
    if s.server.cookieSecret.Some? {
      SamePackets(hmac, s, s');
    }
    assert s'.toServer == {InitPacket(s.client)};
    assert HasEcho(s') == HasEcho(s);
  }

  lemma StepKeepsInv(hmac: Hmac, s: System, e: Event)
    requires Digests(hmac) && Inv(hmac, s) && Enabled(s, e)
    ensures Inv(hmac, Next(hmac, s, e))
  {
    match e
    case ToServer(o, draw) =>
      if o.chunk.typ == INIT {
        InitArrives(hmac, s, o, draw);
      } else if o.chunk.typ == COOKIE_ECHO {
        EchoArrives(hmac, s, o, draw);
      }
    case ToClient(o) =>
      if o.chunk.typ == INIT_ACK {
        InitAckArrives(hmac, s, o);
      } else if o.chunk.typ == COOKIE_ACK {
        CookieAckArrives(hmac, s, o);
      }
    case Start => StartStep(hmac, s);
    case _ => LocalStep(hmac, s, e);
  }

  lemma CookieAckArrives(hmac: Hmac, s: System, o: Outgoing)
    requires Digests(hmac) && Inv(hmac, s) && Enabled(s, ToClient(o)) && o.chunk.typ == COOKIE_ACK
    ensures Inv(hmac, Next(hmac, s, ToClient(o)))
  {
    hide InitBytes, AllParamBytes, CookieData;
    var s' := Next(hmac, s, ToClient(o));
    assert o == Outgoing(s.client0.localTag, COOKIE_ACK_CHUNK);
    assert s.server.cookieSecret.Some? ==> forall t: u32 :: AckOf(hmac, s', t) == AckOf(hmac, s, t);
    assert s.server.cookieSecret.Some? ==> forall t: u32 :: EchoOf(hmac, s', t) == EchoOf(hmac, s, t);
    assert HasEcho(s') == HasEcho(s);
  }

  // ---- Whole runs ----

  ghost predicate Schedule(hmac: Hmac, s: System, events: seq<Event>)
    requires Digests(hmac)
    decreases |events|
  {
    events != [] ==>
      Enabled(s, events[0]) && Schedule(hmac, Next(hmac, s, events[0]), events[1..])
  }

  function Run(hmac: Hmac, s: System, events: seq<Event>): System
    requires Digests(hmac)
    decreases |events|
  {
    if events == [] then s else Run(hmac, Next(hmac, s, events[0]), events[1..])
  }

  /**
   * Section 8.5.1 of RFC 4960: INIT goes out under tag 0, and every other setup packet under the tag its
   * receiver chose.
   */
  predicate RightTags(s: System) {
    && (forall o | o in s.toServer :: o.tag == if o.chunk.typ == INIT then 0 else s.server.localTag)
    && (forall o | o in s.toClient :: o.tag == s.client.localTag)
  }

  /** What the ends have agreed on. */
  ghost predicate Agreement(hmac: Hmac, s: System) {
    && (s.client.state == ESTABLISHED ==> s.served)
    && (s.server.state == ESTABLISHED ==> s.served) && (s.served ==> s.server.state == ESTABLISHED || s.serverClosed)
    && (s.client.state == COOKIE_ECHOED || s.client.state == ESTABLISHED ==>
          && s.client.remoteTag == s.server.localTag
          && (!s.clientConsumed ==> s.client.cumulative == ToUint32(s.server0.localTSN - 1)))
    && (s.served ==>
          && s.server.remoteTag == s.client.localTag
          && (!s.serverConsumed ==> s.server.cumulative == ToUint32(s.client0.localTSN - 1)))
    // An end that has closed before the handshake was over, or after, never comes back as a client.
    && (s.clientClosed ==> s.client.state == CLOSED)
    // No honest cookie is ever rejected.
    && (forall o | o in s.toServer && o.chunk.typ == COOKIE_ECHO :: !CookieRejected(hmac, s.server, o.chunk.body))
    && RightTags(s)
  }

  lemma {:induction false} RunKeepsInv(hmac: Hmac, s: System, events: seq<Event>)
    requires Digests(hmac) && Inv(hmac, s) && Schedule(hmac, s, events)
    ensures Inv(hmac, Run(hmac, s, events))
    decreases |events|
  {
    if events != [] {
      StepKeepsInv(hmac, s, events[0]);
      RunKeepsInv(hmac, Next(hmac, s, events[0]), events[1..]);
    }
  }

  /** Whatever packets are lost, repeated or reordered. */
  lemma SetupAgrees(hmac: Hmac, s0: System, events: seq<Event>)
    requires Digests(hmac) && Initial(s0) && Schedule(hmac, s0, events)
    ensures Agreement(hmac, Run(hmac, s0, events))
  {
    assert !HasEcho(s0);
    RunKeepsInv(hmac, s0, events);
    InvAgrees(hmac, Run(hmac, s0, events));
  }

  lemma InvAgrees(hmac: Hmac, s: System)
    requires Digests(hmac) && Inv(hmac, s)
    ensures Agreement(hmac, s)
  {
    assert s.served ==> s.server.cookieSecret.Some?;
    forall o | o in s.toServer && o.chunk.typ == COOKIE_ECHO ensures !CookieRejected(hmac, s.server, o.chunk.body) {
      EchoArrives(hmac, s, o, []);
    }
    TagsAreRight(hmac, s);
  }

  lemma TagsAreRight(hmac: Hmac, s: System)
    requires Digests(hmac) && Inv(hmac, s)
    ensures RightTags(s)
  {
    hide InitBytes, AllParamBytes, CookieData;
  }

  // ---- The setup can always be finished ----

  lemma NoEvents(hmac: Hmac, s: System)
    requires Digests(hmac)
    ensures Schedule(hmac, s, []) && Run(hmac, s, []) == s
  {}

  lemma {:induction false} RunPush(hmac: Hmac, s: System, xs: seq<Event>, e: Event)
    requires Digests(hmac) && Schedule(hmac, s, xs) && Enabled(Run(hmac, s, xs), e)
    ensures Schedule(hmac, s, xs + [e]) && Run(hmac, s, xs + [e]) == Next(hmac, Run(hmac, s, xs), e)
    decreases |xs|
  {
    hide Enabled, Next, Digests;
    if xs == [] {
      assert xs + [e] == [e] && [e][1..] == [];
    } else {
      assert (xs + [e])[0] == xs[0] && (xs + [e])[1..] == xs[1..] + [e];
      RunPush(hmac, Next(hmac, s, xs[0]), xs[1..], e);
    }
  }

  /** One more event. */
  lemma Later(hmac: Hmac, s: System, xs: seq<Event>, e: Event) returns (events: seq<Event>)
    requires Digests(hmac) && Schedule(hmac, s, xs) && Enabled(Run(hmac, s, xs), e) && Inv(hmac, Run(hmac, s, xs))
    ensures Schedule(hmac, s, events) && Run(hmac, s, events) == Next(hmac, Run(hmac, s, xs), e)
    ensures Inv(hmac, Run(hmac, s, events))
  {
    hide Enabled, Next, Inv, Run, Schedule;
    RunPush(hmac, s, xs, e);
    StepKeepsInv(hmac, Run(hmac, s, xs), e);
    events := xs + [e];
  }

  /** A waiting client's INIT, delivered again, is answered by an INIT_ACK that makes it echo a cookie. */
  lemma WaitingClientEchoes(hmac: Hmac, s: System, draw: Buffer) returns (ack: Outgoing)
    requires Digests(hmac) && Inv(hmac, s) && s.client.state == COOKIE_WAIT && s.started
    ensures Enabled(s, ToServer(InitPacket(s.client0), draw))
    ensures var s1 := Next(hmac, s, ToServer(InitPacket(s.client0), draw));
      && Enabled(s1, ToClient(ack)) && s1.client == s.client
      && Next(hmac, s1, ToClient(ack)).client.state == COOKIE_ECHOED
  {
    hide InitBytes, AllParamBytes, CookieData, ParseInit, FindCookie;
    InitChunkRoundTrip(s.client0);
    var s1 := Next(hmac, s, ToServer(InitPacket(s.client0), draw));
    ack := AckOf(hmac, s1, s.server.localTSN);
    assert OwnInit(s.server) == OwnInit(s.server0.(localTSN := s.server.localTSN));
    assert s1.toClient == s.toClient + {ack};
    InitAckRoundTrip(OwnInit(s.server), CookieOf(hmac, s1, s.server.localTSN));
  }

  /** A cookie once echoed, delivered again, establishes the server, whose COOKIE_ACK establishes the client. */
  lemma EchoEstablishes(hmac: Hmac, s: System) returns (echo: Outgoing)
    requires Digests(hmac) && Inv(hmac, s) && HasEcho(s)
    requires s.client.state == COOKIE_ECHOED || s.client.state == ESTABLISHED
    ensures Enabled(s, ToServer(echo, []))
    ensures var s1 := Next(hmac, s, ToServer(echo, []));
      var ack := Outgoing(s.client0.localTag, COOKIE_ACK_CHUNK);
      && s1.server.state == ESTABLISHED && s1.client == s.client && Enabled(s1, ToClient(ack))
      && Next(hmac, s1, ToClient(ack)).client.state == ESTABLISHED
      && Next(hmac, s1, ToClient(ack)).server == s1.server
  {
    hide InitBytes, AllParamBytes, CookieData, CookieRejected;
    echo :| echo in s.toServer && echo.chunk.typ == COOKIE_ECHO;
    EchoArrives(hmac, s, echo, []);
  }

  /**
   * From every reachable state of a setup whose client has not given up or closed, however badly the network has
   * behaved, delivering packets already sent establishes both ends.
   */
  lemma {:induction false} CanAlwaysEstablish(hmac: Hmac, s: System) returns (events: seq<Event>)
    requires Digests(hmac) && Inv(hmac, s) && !s.clientClosed
    ensures Schedule(hmac, s, events)
    ensures var s' := Run(hmac, s, events); s'.client.state == ESTABLISHED && s'.server.state == ESTABLISHED
  {
    hide Digests, Run, Schedule, Next, Enabled, InitPacket, AckOf, EchoOf, HasEcho;
    NoEvents(hmac, s);
    events := [];
    if !s.started {
      assert Enabled(s, Start) by {
        StartEnabled(s);
      }
      events := Later(hmac, s, events, Start);
      StartWaits(hmac, s);
    }
    var s1 := Run(hmac, s, events);
    if s1.client.state == COOKIE_WAIT {
      var ack := WaitingClientEchoes(hmac, s1, []);
      events := Later(hmac, s, events, ToServer(InitPacket(s1.client0), []));
      events := Later(hmac, s, events, ToClient(ack));
    }
    var s2 := Run(hmac, s, events);
    var echo := EchoEstablishes(hmac, s2);
    events := Later(hmac, s, events, ToServer(echo, []));
    events := Later(hmac, s, events, ToClient(Outgoing(s2.client0.localTag, COOKIE_ACK_CHUNK)));
  }

  lemma StartEnabled(s: System)
    requires !s.started
    ensures Enabled(s, Start)
  {}

  lemma StartWaits(hmac: Hmac, s: System)
    requires Digests(hmac)
    ensures Next(hmac, s, Start).client.state == COOKIE_WAIT && Next(hmac, s, Start).started
  {}

  /**
   * The step the agreement rests on: an INIT_ACK built after the server's TSN has moved can still be in
   * the network, but the client no longer accepts it.
   */
  lemma LateInitAckIgnored(hmac: Hmac, s0: System, events: seq<Event>, o: Outgoing)
    requires Digests(hmac) && Initial(s0) && Schedule(hmac, s0, events)
    requires var s := Run(hmac, s0, events);
        s.server.localTSN != s0.server.localTSN && o in s.toClient && o.chunk.typ == INIT_ACK
    ensures var s := Run(hmac, s0, events); HandleInitAck(s.client, o.chunk) == (s.client, None)
  {
    assert !HasEcho(s0);
    RunKeepsInv(hmac, s0, events);
    KeepsHistory(hmac, s0, events);
  }

  lemma StepKeepsHistory(hmac: Hmac, s: System, e: Event)
    requires Digests(hmac)
    ensures Next(hmac, s, e).server0 == s.server0 && Next(hmac, s, e).client0 == s.client0
  {
    hide Digests, HandleInit, HandleInitAck, HandleCookieEcho, HandleCookieAck, InitPacket, Emit, ToUint32,
         CloseClient, Next;
    CloseKeepsHistory(s);
    if e.ToServer? || e.ToClient? {
      PacketKeepsHistory(hmac, s, e);
    } else {
      LocalKeepsHistory(hmac, s, e);
    }
  }

  lemma PacketKeepsHistory(hmac: Hmac, s: System, e: Event)
    requires Digests(hmac) && (e.ToServer? || e.ToClient?)
    ensures Next(hmac, s, e).server0 == s.server0 && Next(hmac, s, e).client0 == s.client0
  {
    hide Digests, HandleInit, HandleInitAck, HandleCookieEcho, HandleCookieAck, Emit;
  }

  lemma LocalKeepsHistory(hmac: Hmac, s: System, e: Event)
    requires Digests(hmac) && !e.ToServer? && !e.ToClient?
    ensures Next(hmac, s, e).server0 == s.server0 && Next(hmac, s, e).client0 == s.client0
  {
    hide Digests, InitPacket, ToUint32, CloseClient;
    CloseKeepsHistory(s);
  }

  lemma CloseKeepsHistory(s: System)
    ensures CloseClient(s).server0 == s.server0 && CloseClient(s).client0 == s.client0
  {}

  lemma {:induction false} KeepsHistory(hmac: Hmac, s: System, events: seq<Event>)
    requires Digests(hmac)
    ensures Run(hmac, s, events).server0 == s.server0 && Run(hmac, s, events).client0 == s.client0
    decreases |events|
  {
    hide Next, Digests;
    if events != [] {
      StepKeepsHistory(hmac, s, events[0]);
      KeepsHistory(hmac, Next(hmac, s, events[0]), events[1..]);
    }
  }
}
