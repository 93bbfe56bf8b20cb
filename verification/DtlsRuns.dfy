/** Runs of the handshake over a network that may lose, repeat and reorder fragments. */
module DtlsRuns {
  import opened Bytes
  import opened DtlsWire
  import opened DtlsMessages
  import opened DtlsReassembly
  import opened DtlsHandshake
  import opened DtlsAgreement

  /** `heard` and `told`: what the client and the server have taken in, in order (history). */
  datatype System = System(client: End, server: End, started: bool, heard: seq<Arrival>, told: seq<Arrival>)

  /** Any part of any message sent so far may arrive, any number of times. */
  datatype Event =
    | Begin
    | ToServer(i: nat, from: nat, length: nat)
    | ToClient(i: nat, from: nat, length: nat)
    | ResentToServer(i: nat, from: nat, length: nat)  // by the client's timer, after its ChangeCipherSpec

  function Initial(p: Setting): System {
    System(End(Fresh(Client, p.client), map[], 0), End(Fresh(Server, p.server), map[], 0), false, [], [])
  }

  function Bodies(sent: seq<Outgoing>): (r: seq<Message>)
    ensures |r| == |sent| && forall i | 0 <= i < |sent| :: r[i] == sent[i].message
  {
    seq(|sent|, i requires 0 <= i < |sent| => sent[i].message)
  }

  /** Whether the record's fragment reaches the inbox. */
  predicate Opens(to: End, seal: Option<Seal>) { to.core.status != FAILED && (seal.Some? ==> to.core.keys.Some?) }

  function Extended(to: End, before: seq<Arrival>, o: Outgoing, start: nat, length: nat): seq<Arrival> {
    if Opens(to, o.seal) then before + [Arrival(o.messageSeq, start, length)] else before
  }

  /** Sealed messages travel whole, and a message is whole by the time its turn comes. */
  ghost predicate Deliverable(from: Core, to: End, before: seq<Arrival>, i: nat, start: nat, length: nat, again: bool) {
    && i < |from.sent| && (again ==> CanResend(from, i))
    && var o := Copy(from, i, again);
       && start + length <= |o.message.body| < 0x100_0000
       && (from.sent[i].seal.Some? ==> start == 0 && length == |o.message.body|)
       && ReadyAreWhole(Bodies(from.sent), to.next, Extended(to, before, o, start, length))
  }

  /** The last flight is resent when the cipher has changed: only the client's second one, without its Finished. */
  predicate CanResend(from: Core, i: nat)
    requires i < |from.sent|
  {
    && from.keys.Some? && from.sent[|from.sent| - 1].seal.Some?
    && from.sent[i].seal == None && from.sent[i].message.msgType != CLIENT_HELLO
  }

  /** A record of the last flight goes out again under the cipher of the moment. */
  function Copy(from: Core, i: nat, again: bool): Outgoing
    requires i < |from.sent| && (again ==> CanResend(from, i))
  {
    if again then from.sent[i].(seal := Some(Seal(from.keys.value, from.role))) else from.sent[i]
  }

  ghost predicate Enabled(s: System, e: Event) {
    match e
    case Begin => !s.started
    case ToServer(i, from, length) => Deliverable(s.client.core, s.server, s.told, i, from, length, false)
    case ToClient(i, from, length) => Deliverable(s.server.core, s.client, s.heard, i, from, length, false)
    case ResentToServer(i, from, length) => Deliverable(s.client.core, s.server, s.told, i, from, length, true)
  }

  function Cut(o: Outgoing, start: nat, length: nat): Fragment
    requires start + length <= |o.message.body| < 0x100_0000
  {
    CutFrom(o.message, Arrival(o.messageSeq, start, length))
  }

  function ServerTakes(p: Setting, s: System, o: Outgoing, from: nat, length: nat): System
    requires from + length <= |o.message.body| < 0x100_0000
  {
    s.(server := TakeRecord(p.c, p.cfg, s.server, o.seal, Cut(o, from, length)),
       told := Extended(s.server, s.told, o, from, length))
  }

  function Next(p: Setting, s: System, e: Event): System
    requires Enabled(s, e)
  {
    match e
    case Begin => s.(client := s.client.(core := Start(s.client.core)), started := true)
    case ToServer(i, from, length) => ServerTakes(p, s, s.client.core.sent[i], from, length)
    case ResentToServer(i, from, length) => ServerTakes(p, s, Copy(s.client.core, i, true), from, length)
    case ToClient(i, from, length) =>
      var o := s.server.core.sent[i];
      s.(client := TakeRecord(p.c, p.cfg, s.client, o.seal, Cut(o, from, length)),
         heard := Extended(s.client, s.heard, o, from, length))
  }

  // ---- Both roles at once ----

  function After(p: Setting, role: Role, n: nat): Core
    requires Honest(p)
  {
    if role == Client then ClientAfter(p, n) else ServerAfter(p, n)
  }

  /** All that an end of this role ever hears. */
  function Heard(p: Setting, role: Role): seq<Outgoing>
    requires Honest(p)
  {
    if role == Client then ServerSends(p) else ClientSends(p)
  }

  function Said(p: Setting, role: Role): seq<Outgoing>
    requires Honest(p)
  {
    if role == Client then ClientSends(p) else ServerSends(p)
  }

  function Other(role: Role): Role { if role == Client then Server else Client }

  ghost predicate ClientStepsOn(p: Setting, n: nat)
    requires Honest(p)
  {
    n < 7 && n < |ServerSends(p)| && ClientHandle(p.c, ClientAfter(p, n), n, ServerSends(p)[n].message)
        == ClientAfter(p, n + 1)
  }

  lemma ClientStep(p: Setting, n: nat)
    requires Honest(p) && n < |ServerSends(p)|
    ensures ClientStepsOn(p, n)
  {
    hide ClientStepsOn, ServerSends, ClientSends, Honest;
    HeardLength(p);
    if n <= Off(p) {
      ClientHellos(p, n);
    } else if n <= Off(p) + 2 {
      ClientAuthenticates(p, n);
    } else if n == Off(p) + 3 && p.cfg.requestCert {
      ClientAsked(p);
    } else if n == Off(p) + 3 + Cert(p) {
      ClientSigns(p);
    } else {
      ClientFinishes(p);
    }
  }

  lemma ClientHellos(p: Setting, n: nat)
    requires Honest(p) && n <= Off(p)
    ensures ClientStepsOn(p, n)
  {
    hide ClientHandle, AtStart, AtHello, AtServerHello, AtServerCert, AtServerKey, AtRequest, AtDone, AtEnd, ServerDone,
         ServerHello, ServerCert, ServerKey, VerifyRequest, TheKeys, ServerSends;
    HeardLength(p);
    ServerMessage(p, n);
    if n == Off(p) {
      SkippedHello(p);
      ServerHelloTaken(p);
    } else {
      VerifyRequestTaken(p);
    }
  }

  lemma ClientAuthenticates(p: Setting, n: nat)
    requires Honest(p) && Off(p) < n <= Off(p) + 2
    ensures ClientStepsOn(p, n)
  {
    hide ClientHandle, AtStart, AtHello, AtServerHello, AtServerCert, AtServerKey, AtRequest, AtDone, AtEnd, ServerDone,
         ServerHello, ServerCert, ServerKey, VerifyRequest, TheKeys, ServerSends;
    HeardLength(p);
    ServerMessage(p, n);
    if n == Off(p) + 1 {
      ServerCertTaken(p);
    } else {
      ServerKeyTaken(p);
    }
  }

  lemma ClientAsked(p: Setting)
    requires Honest(p) && p.cfg.requestCert
    ensures ClientStepsOn(p, Off(p) + 3)
  {
    hide ClientHandle, AtStart, AtHello, AtServerHello, AtServerCert, AtServerKey, AtRequest, AtDone, AtEnd, ServerDone,
         ServerHello, ServerCert, ServerKey, VerifyRequest, TheKeys, ServerSends;
    var n := Off(p) + 3;
    HeardLength(p);
    ServerMessage(p, n);
    RequestTaken(p);
  }

  lemma ClientSigns(p: Setting)
    requires Honest(p)
    ensures ClientStepsOn(p, Off(p) + 3 + Cert(p))
  {
    hide ClientHandle, AtStart, AtHello, AtServerHello, AtServerCert, AtServerKey, AtRequest, AtDone, AtEnd, ServerDone,
         ServerHello, ServerCert, ServerKey, VerifyRequest, TheKeys, ServerSends;
    var n := Off(p) + 3 + Cert(p);
    HeardLength(p);
    ServerMessage(p, n);
    RequestSkipped(p);
    HelloDoneTaken(p);
  }

  lemma ClientFinishes(p: Setting)
    requires Honest(p)
    ensures ClientStepsOn(p, Off(p) + 4 + Cert(p))
  {
    hide ClientHandle, AtStart, AtHello, AtServerHello, AtServerCert, AtServerKey, AtRequest, AtDone, AtEnd, ServerDone,
         ServerHello, ServerCert, ServerKey, VerifyRequest, TheKeys, ServerSends;
    var n := Off(p) + 4 + Cert(p);
    HeardLength(p);
    ServerMessage(p, n);
    ServerDoneTaken(p);
  }

  lemma ServerMessage(p: Setting, n: nat)
    requires Honest(p) && n < |ServerSends(p)|
    ensures ServerSends(p)[n].message ==
      if !p.cfg.skipVerify && n == 0 then VerifyRequest(p)
      else if n == Off(p) then ServerHello(p)
      else if n == Off(p) + 1 then ServerCert(p)
      else if n == Off(p) + 2 then ServerKey(p)
      else if p.cfg.requestCert && n == Off(p) + 3 then CERT_REQUEST
      else if n == Off(p) + 3 + Cert(p) then HELLO_DONE
      else ServerDone(p)
  {
    hide ServerDone, ServerHello, ServerCert, ServerKey, VerifyRequest, TheKeys;
  }

  lemma SkippedHello(p: Setting)
    ensures p.cfg.skipVerify ==>
      AtHello(p) == AtStart(p) && Verifying(p) == Waiting(p) && SecondHello(p) == FirstHello(p)
  {}

  lemma RequestSkipped(p: Setting)
    requires Honest(p)
    ensures !p.cfg.requestCert ==>
      AtRequest(p) == AtServerKey(p) && Certified(p) == Greeted(p) && Verified(p) == Keyed(p)
  {
    hide ToServerKey, ToClientKey, TheMaster, ServerFlightSends;
    assert !p.cfg.requestCert ==> SignedChecks(p) == KeyChecks(p);
  }

  lemma ServerStep(p: Setting, n: nat)
    requires Honest(p) && n < |ClientSends(p)|
    ensures ServerHandle(p.c, p.cfg, ServerAfter(p, n), n, ClientSends(p)[n].message)
        == (ServerAfter(p, n + 1), n == 0 && !p.cfg.skipVerify)
  {
    hide ServerHandle, Waiting, Verifying, Greeted, Certified, Keyed, Verified, Ended,
         FirstHello, SecondHello, ClientCert, ClientKey, Verify, ClientDone, TheKeys;
    SkippedHello(p);
    RequestSkipped(p);
    if !p.cfg.skipVerify && n == 0 {
      FirstHelloTaken(p);
    } else if n == Off(p) {
      HelloTaken(p);
    } else if p.cfg.requestCert && n == Off(p) + 1 {
      ClientCertTaken(p);
    } else if n == Off(p) + 1 + Cert(p) {
      ClientKeyTaken(p);
    } else if p.cfg.requestCert && n == Off(p) + 3 {
      VerifyTaken(p);
    } else {
      ClientDoneTaken(p);
    }
  }

  lemma Step(p: Setting, role: Role, n: nat)
    requires Honest(p) && n < |Heard(p, role)|
    ensures HandleMessage(p.c, p.cfg, After(p, role, n), n, Heard(p, role)[n].message)
         == (After(p, role, n + 1), role == Server && n == 0 && !p.cfg.skipVerify)
    ensures After(p, role, n).role == role
  {
    hide ClientHandle, ServerHandle, ClientAfter, ServerAfter, ClientSends, ServerSends;
    if role == Client {
      ClientStep(p, n);
      ClientFacts(p, n);
    } else {
      ServerStep(p, n);
      ServerFacts(p, n);
    }
  }

  /** What holds of an end after any number of messages. */
  ghost predicate Facts(p: Setting, role: Role, n: nat, e: Core)
    requires Honest(p)
  {
    && e.role == role && e.status != FAILED && e.sent <= Said(p, role) && e.checks <= AllChecks(p)
    && (e.keys == None || e.keys == Some(TheKeys(p)))
    && (e.status == CONNECTED ==> e.sent == Said(p, role) && e.checks == AllChecks(p) && e.keys == Some(TheKeys(p)))
    && (e.status == CONNECTED <==> n >= |Heard(p, role)|)
    && (role == Server && e.status != CONNECTED ==> |e.sent| < |Said(p, role)|)
  }

  ghost predicate Early(p: Setting, e: Core) {
    e.role == Client && e.status == HANDSHAKING && e.sent <= Hellos(p) && e.checks == [] && e.keys == None
  }

  lemma EarlyStates(p: Setting)
    requires Honest(p)
    ensures Early(p, AtStart(p)) && Early(p, AtHello(p)) && Early(p, AtServerHello(p)) && Early(p, AtServerCert(p))
    ensures Early(p, AtServerKey(p)) && Early(p, AtRequest(p))
  {
    hide FirstHello, SecondHello, ToHello, ToServerHello, ToServerCert, ToServerKey, ToRequest, HandshakeBytes;
  }

  lemma EarlyFacts(p: Setting, e: Core, n: nat)
    requires Honest(p) && Early(p, e) && n < Off(p) + 5 + Cert(p)
    ensures Facts(p, Client, n, e)
  {
    hide ServerSends, ClientSends, TheKeys, Hellos, AllChecks, Honest;
    HeardLength(p);
    HellosFirst(p);
  }

  lemma LateFacts(p: Setting)
    requires Honest(p)
    ensures Facts(p, Client, Off(p) + 4 + Cert(p), AtDone(p))
    ensures forall n | n >= Off(p) + 5 + Cert(p) :: Facts(p, Client, n, AtEnd(p))
  {
    hide AtDone, ServerSends, ClientSends, TheKeys, TheMaster, ClientChecks, Honest;
    DoneFields(p);
    HeardLength(p);
  }

  lemma ClientFacts(p: Setting, n: nat)
    requires Honest(p)
    ensures Facts(p, Client, n, ClientAfter(p, n))
  {
    hide AtStart, AtHello, AtServerHello, AtServerCert, AtServerKey, AtRequest, AtDone, AtEnd, Facts, Early, Honest;
    EarlyStates(p);
    LateFacts(p);
    if n < Off(p) + 4 + Cert(p) {
      EarlyFacts(p, ClientAfter(p, n), n);
    }
  }

  lemma HellosFirst(p: Setting)
    requires Honest(p)
    ensures Hellos(p) <= ClientSends(p) && ServerFlightSends(p) <= ServerSends(p)
    ensures |ServerFlightSends(p)| < |ServerSends(p)|
  {
    hide Hellos, ServerFlightSends, ClientCert, ClientKey, Verify, ClientDone, ServerDone, TheKeys;
  }

  lemma HeardLength(p: Setting)
    requires Honest(p)
    ensures |ServerSends(p)| == Off(p) + 5 + Cert(p) && |ClientSends(p)| == Off(p) + 3 + 2 * Cert(p)
  {
    hide ServerHello, ServerCert, ServerKey, VerifyRequest, TheKeys, FirstHello, SecondHello, ClientCert, ClientKey,
         Verify, ClientDone, ServerDone;
  }

  ghost predicate Open(p: Setting, e: Core)
    requires Honest(p)
  {
    && e.role == Server && e.status == HANDSHAKING && e.sent <= ServerFlightSends(p) && e.checks <= SignedChecks(p)
    && (e.keys == None || e.keys == Some(TheKeys(p)))
  }

  lemma OpenStates(p: Setting)
    requires Honest(p)
    ensures Open(p, Waiting(p)) && Open(p, Verifying(p)) && Open(p, Greeted(p)) && Open(p, Certified(p))
    ensures Open(p, Keyed(p)) && Open(p, Verified(p))
  {
    hide ServerHello, ServerCert, ServerKey, VerifyRequest, TheKeys, TheMaster, FirstHello, SecondHello, ClientCert,
         ClientKey, Verify, SessionBytes, ToVerify, ToClientKey, ToClientCert, ToDone;
  }

  lemma ServerFacts(p: Setting, n: nat)
    requires Honest(p)
    ensures Facts(p, Server, n, ServerAfter(p, n))
  {
    hide Waiting, Verifying, Greeted, Certified, Keyed, Verified, Ended, Facts, Open, ClientSends, Honest;
    OpenStates(p);
    HeardLength(p);
    if n < |ClientSends(p)| {
      OpenFacts(p, ServerAfter(p, n), n);
    } else {
      EndedFacts(p, n);
    }
  }

  lemma OpenFacts(p: Setting, e: Core, n: nat)
    requires Honest(p) && Open(p, e) && n < |ClientSends(p)|
    ensures Facts(p, Server, n, e)
  {
    hide ClientSends, ServerSends, ServerFlightSends, TheKeys, SignedChecks, Honest;
    HellosFirst(p);
    ChecksGrow(p);
  }

  lemma ChecksGrow(p: Setting)
    requires Honest(p)
    ensures SignedChecks(p) <= AllChecks(p)
  {
    hide SignedChecks;
  }

  lemma EndedFacts(p: Setting, n: nat)
    requires Honest(p) && n >= |ClientSends(p)|
    ensures Facts(p, Server, n, Ended(p))
  {
    hide Verified, ClientSends, ServerSends, TheKeys, AllChecks, Honest;
    VerifiedFields(p);
  }

  // ---- Invariants of a run ----

  /** `limit`: how many messages the peer has sent; `arrivals`: what of them has been taken in. */
  ghost predicate EndInv(p: Setting, role: Role, e: End, arrivals: seq<Arrival>, limit: nat)
    requires Honest(p)
  {
    && e.core == After(p, role, e.next) && e.next <= limit <= |Heard(p, role)|
    && (forall k | k in e.entries && k >= e.next ::
          k < limit && Faithful(e.entries[k], Heard(p, role)[k].message, arrivals, k))
    && (forall k: nat | k >= e.next :: k in e.entries <==> Touched(arrivals, k))
    && (forall k: nat | k < e.next :: ReachedEnd(arrivals, k, |Heard(p, role)[k].message.body|))
    && SealedComeWhole(p, role, arrivals)
  }

  /** Of a sealed message everything or nothing has arrived. */
  ghost predicate SealedComeWhole(p: Setting, role: Role, arrivals: seq<Arrival>)
    requires Honest(p)
  {
    forall k: nat, q: nat | k < |Heard(p, role)| && Heard(p, role)[k].seal.Some? && Touched(arrivals, k)
                       && q < |Heard(p, role)[k].message.body| :: Covered(arrivals, k, q)
  }

  /** Nothing is left to dispatch. */
  ghost predicate AtRest(p: Setting, role: Role, e: End, arrivals: seq<Arrival>)
    requires Honest(p)
  {
    e.next < |Heard(p, role)| ==> !ReachedEnd(arrivals, e.next, |Heard(p, role)[e.next].message.body|)
  }

  ghost predicate Inv(p: Setting, s: System)
    requires Honest(p)
  {
    if !s.started then s == Initial(p)
    else
      && EndInv(p, Client, s.client, s.heard, |s.server.core.sent|) && AtRest(p, Client, s.client, s.heard)
      && EndInv(p, Server, s.server, s.told, |s.client.core.sent|) && AtRest(p, Server, s.server, s.told)
  }

  lemma AfterFacts(p: Setting, role: Role, n: nat)
    requires Honest(p)
    ensures Facts(p, role, n, After(p, role, n))
  {
    hide Facts, ClientAfter, ServerAfter, Honest;
    if role == Client {
      ClientFacts(p, n);
    } else {
      ServerFacts(p, n);
    }
  }

  /** Message numbers are positions. */
  lemma NumberedByPosition(p: Setting, role: Role, i: nat)
    requires Honest(p) && i < |Heard(p, role)|
    ensures Heard(p, role)[i].messageSeq == i
    ensures Heard(p, role)[i].seal == None || Heard(p, role)[i].seal == Some(Seal(TheKeys(p), Other(role)))
  {
    hide ClientSends, ServerSends, TheKeys, Honest;
    if role == Client {
      ServerNumbered(p, i);
    } else {
      ClientNumbered(p, i);
    }
  }

  lemma ServerNumbered(p: Setting, i: nat)
    requires Honest(p) && i < |ServerSends(p)|
    ensures ServerSends(p)[i].messageSeq == i
    ensures ServerSends(p)[i].seal == None || ServerSends(p)[i].seal == Some(Seal(TheKeys(p), Server))
  {
    hide ServerFlightSends, TheKeys, ServerDone, ClientSends, Honest;
    HeardLength(p);
    FlightNumbered(p, i);
  }

  lemma FlightNumbered(p: Setting, i: nat)
    requires Honest(p)
    ensures i < |ServerFlightSends(p)| ==>
      ServerFlightSends(p)[i].messageSeq == i && ServerFlightSends(p)[i].seal == None
    ensures |ServerFlightSends(p)| == Off(p) + 4 + Cert(p)
  {
    hide ServerHello, ServerCert, ServerKey, VerifyRequest;
  }

  lemma ClientNumbered(p: Setting, i: nat)
    requires Honest(p) && i < |ClientSends(p)|
    ensures ClientSends(p)[i].messageSeq == i
    ensures ClientSends(p)[i].seal == None || ClientSends(p)[i].seal == Some(Seal(TheKeys(p), Client))
  {
    hide TheKeys, Hellos, ClientCert, ClientKey, Verify, ClientDone;
    HellosNumbered(p);
  }

  lemma HellosNumbered(p: Setting)
    ensures |Hellos(p)| == 1 + Off(p)
    ensures forall j | 0 <= j < |Hellos(p)| :: Hellos(p)[j].messageSeq == j && Hellos(p)[j].seal == None
  {
    hide FirstHello, SecondHello;
  }

  /** The messages of a peer that has sent `limit` of them. */
  function Messages(p: Setting, role: Role, limit: nat): (r: seq<Message>)
    requires Honest(p) && limit <= |Heard(p, role)|
    ensures |r| == limit && forall i | 0 <= i < limit :: r[i] == Heard(p, role)[i].message
  {
    Bodies(Heard(p, role)[..limit])
  }

  /** The first hello is the only message a client has sent before the server answers it. */
  predicate RestartsFirst(p: Setting, role: Role, e: End, limit: nat) {
    role == Server && e.next == 0 && !p.cfg.skipVerify ==> limit <= 1
  }

  /** What the entry next in line says of the arrivals. */
  lemma NextReady(p: Setting, role: Role, e: End, arrivals: seq<Arrival>, limit: nat)
    requires Honest(p) && EndInv(p, role, e, arrivals, limit)
    requires ReadyAreWhole(Messages(p, role, limit), e.next, arrivals)
    ensures e.core.status != FAILED && |Heard(p, role)| <= 9
    ensures e.next < |Heard(p, role)| ==>
      (ReachedEnd(arrivals, e.next, |Heard(p, role)[e.next].message.body|) <==>
         e.next in e.entries && Complete(e.entries[e.next]))
    ensures e.next in e.entries && Complete(e.entries[e.next]) ==>
      && Whole(arrivals, e.next, Heard(p, role)[e.next].message)
      && ReadyAreWhole(Messages(p, role, limit), e.next + 1, arrivals)
  {
    hide After, ClientSends, ServerSends, Honest, ReachedEnd, Touched, SealedComeWhole, Whole, Said, AllChecks, TheKeys;
    AfterFacts(p, role, e.next);
    HeardLength(p);
    if e.next < |Heard(p, role)| {
      UnfinishedUntilTouched(arrivals, e.next, |Heard(p, role)[e.next].message.body|);
    }
  }

  /** Dispatching a whole message does what the honest handshake does next. */
  lemma Dispatched(p: Setting, role: Role, e: End, arrivals: seq<Arrival>, limit: nat)
    requires Honest(p) && EndInv(p, role, e, arrivals, limit) && e.next in e.entries
    requires Whole(arrivals, e.next, Heard(p, role)[e.next].message)
    ensures var entry := e.entries[e.next];
      HandleMessage(p.c, p.cfg, e.core, e.next, Message(entry.msgType, entry.data))
      == (After(p, role, e.next + 1), role == Server && e.next == 0 && !p.cfg.skipVerify)
    ensures After(p, role, e.next + 1).status == CONNECTED ==> e.next + 1 == limit
  {
    hide HandleMessage, After, Heard, Honest, Faithful, ReachedEnd, Touched, SealedComeWhole, Whole, Said, AllChecks,
         TheKeys;
    EntryExactIff(e.entries[e.next], Heard(p, role)[e.next].message, arrivals, e.next);
    Step(p, role, e.next);
    AfterFacts(p, role, e.next + 1);
  }

  lemma RestKeeps(p: Setting, role: Role, e: End, arrivals: seq<Arrival>, limit: nat)
    requires Honest(p) && EndInv(p, role, e, arrivals, limit) && e.next in e.entries
    requires ReachedEnd(arrivals, e.next, |Heard(p, role)[e.next].message.body|)
    ensures EndInv(p, role, End(After(p, role, e.next + 1), e.entries - {e.next}, e.next + 1), arrivals, limit)
  {
    hide After, Heard, Honest, Faithful, Touched, ReachedEnd, SealedComeWhole;
  }

  /** The inbox may be emptied when nothing beyond the message just dispatched has been sent. */
  lemma ClearedKeeps(p: Setting, role: Role, e: End, arrivals: seq<Arrival>, limit: nat)
    requires Honest(p) && EndInv(p, role, e, arrivals, limit) && limit == e.next + 1
    requires ReachedEnd(arrivals, e.next, |Heard(p, role)[e.next].message.body|)
    ensures var e' := End(After(p, role, limit), map[], limit);
      EndInv(p, role, e', arrivals, limit) && AtRest(p, role, e', arrivals)
  {
    hide After, Heard, Honest, Faithful, Touched, ReachedEnd, SealedComeWhole;
    if limit < |Heard(p, role)| {
      UnfinishedUntilTouched(arrivals, limit, |Heard(p, role)[limit].message.body|);
    }
  }

  lemma {:induction false} DrainKeeps(p: Setting, role: Role, e: End, arrivals: seq<Arrival>, limit: nat)
    requires Honest(p) && EndInv(p, role, e, arrivals, limit) && RestartsFirst(p, role, e, limit)
    requires ReadyAreWhole(Messages(p, role, limit), e.next, arrivals)
    ensures var e' := DrainEnd(p.c, p.cfg, e);
      EndInv(p, role, e', arrivals, limit) && AtRest(p, role, e', arrivals) && e.next <= e'.next
    decreases |e.entries|
  {
    hide HandleMessage, After, Heard, Honest, EndInv, ReachedEnd, ReadyAreWhole, Whole;
    NextReady(p, role, e, arrivals, limit);
    BelowLimit(p, role, e, arrivals, limit);
    if e.core.status != FAILED && e.next <= 0xffff && e.next in e.entries && Complete(e.entries[e.next]) {
      Shrinks(e.entries, e.next);
      Dispatched(p, role, e, arrivals, limit);
      var core := After(p, role, e.next + 1);
      if limit == e.next + 1 {
        ClearedKeeps(p, role, e, arrivals, limit);
      }
      RestKeeps(p, role, e, arrivals, limit);
      if !(role == Server && e.next == 0 && !p.cfg.skipVerify)
          && !(core.status == CONNECTED && e.core.status == HANDSHAKING) {
        DrainKeeps(p, role, End(core, e.entries - {e.next}, e.next + 1), arrivals, limit);
      }
    }
  }

  lemma BelowLimit(p: Setting, role: Role, e: End, arrivals: seq<Arrival>, limit: nat)
    requires Honest(p) && EndInv(p, role, e, arrivals, limit)
    ensures e.next in e.entries ==> e.next < limit <= |Heard(p, role)|
  {
    hide After, Heard, Honest, Faithful, Touched, SealedComeWhole;
  }

  /** A message of the peer's as first sent, or resent under its keys. */
  ghost predicate IsCopy(p: Setting, role: Role, o: Outgoing)
    requires Honest(p)
  {
    && o.messageSeq < |Heard(p, role)|
    && var first := Heard(p, role)[o.messageSeq];
       && o.message == first.message && first.messageSeq == o.messageSeq
       && (o.seal == first.seal || o.seal == Some(Seal(TheKeys(p), Other(role))))
  }

  lemma RecordKeeps(p: Setting, role: Role, e: End, arrivals: seq<Arrival>, limit: nat, o: Outgoing, start: nat,
      length: nat)
    requires Honest(p) && EndInv(p, role, e, arrivals, limit) && AtRest(p, role, e, arrivals)
    requires RestartsFirst(p, role, e, limit)
    requires o.messageSeq < limit && IsCopy(p, role, o)
    requires start + length <= |o.message.body| < 0x100_0000
    requires Heard(p, role)[o.messageSeq].seal.Some? ==> start == 0 && length == |o.message.body|
    requires ReadyAreWhole(Messages(p, role, limit), e.next, Extended(e, arrivals, o, start, length))
    ensures var e' := TakeRecord(p.c, p.cfg, e, o.seal, Cut(o, start, length));
      var arrivals' := Extended(e, arrivals, o, start, length);
      && EndInv(p, role, e', arrivals', limit) && AtRest(p, role, e', arrivals') && e.next <= e'.next
  {
    hide DrainEnd, After, Heard, Honest, EndInv, AtRest, Fed, ReadyAreWhole;
    RecordOpens(p, role, e, arrivals, limit, o);
    if Opens(e, o.seal) {
      FeedKeeps(p, role, e, arrivals, limit, o, start, length);
      var fed := e.(entries := Fed(e.entries, Cut(o, start, length)));
      DrainKeeps(p, role, fed, Extended(e, arrivals, o, start, length), limit);
    }
  }

  lemma FeedKeeps(p: Setting, role: Role, e: End, arrivals: seq<Arrival>, limit: nat, o: Outgoing, start: nat,
      length: nat)
    requires Honest(p) && EndInv(p, role, e, arrivals, limit)
    requires o.messageSeq < limit && IsCopy(p, role, o)
    requires start + length <= |o.message.body| < 0x100_0000
    requires Heard(p, role)[o.messageSeq].seal.Some? ==> start == 0 && length == |o.message.body|
    ensures var fed := e.(entries := Fed(e.entries, Cut(o, start, length)));
      EndInv(p, role, fed, arrivals + [Arrival(o.messageSeq, start, length)], limit)
  {
    hide After, Heard, Honest, Faithful, Filled, Covered, Touched, ReachedEnd, SealedComeWhole;
    var a, f := Arrival(o.messageSeq, start, length), Cut(o, start, length);
    var entries := Fed(e.entries, f);
    forall k: nat ensures Touched(arrivals + [a], k) <==> Touched(arrivals, k) || a.index == k {
      CoveredPush(arrivals, a, k, 0);
    }
    forall k: nat | k < e.next ensures ReachedEnd(arrivals + [a], k, |Heard(p, role)[k].message.body|) {
      CoveredPush(arrivals, a, k, |Heard(p, role)[k].message.body|);
    }
    forall k | k in entries && k >= e.next ensures k < limit
        && Faithful(entries[k], Heard(p, role)[k].message, arrivals + [a], k) {
      if k == a.index {
        if k !in e.entries {
          FreshIsFaithful(o.message, arrivals, k);
        }
        FilledIsFaithful(EntryFor(e.entries, f), o.message, arrivals, a);
      } else {
        StillFaithful(e.entries[k], Heard(p, role)[k].message, arrivals, a, k);
      }
    }
    SealedStayWhole(p, role, arrivals, a);
  }

  lemma SealedStayWhole(p: Setting, role: Role, arrivals: seq<Arrival>, a: Arrival)
    requires Honest(p) && a.index < |Heard(p, role)| && SealedComeWhole(p, role, arrivals)
    requires var o := Heard(p, role)[a.index]; o.seal.Some? ==> a.from == 0 && a.length == |o.message.body|
    ensures SealedComeWhole(p, role, arrivals + [a])
  {
    hide Heard, Honest, Covered, Touched;
    forall k: nat, q: nat | k < |Heard(p, role)| && Heard(p, role)[k].seal.Some? && Touched(arrivals + [a], k)
                       && q < |Heard(p, role)[k].message.body| ensures Covered(arrivals + [a], k, q) {
      CoveredPush(arrivals, a, k, q);
    }
  }

  /** A sealed message is dropped or opens. */
  lemma RecordOpens(p: Setting, role: Role, e: End, arrivals: seq<Arrival>, limit: nat, o: Outgoing)
    requires Honest(p) && EndInv(p, role, e, arrivals, limit) && o.messageSeq < limit && IsCopy(p, role, o)
    ensures e.core.role == role && e.core.status != FAILED
    ensures o.seal.Some? && e.core.keys.Some? ==> o.seal.value == Seal(e.core.keys.value, Other(role))
  {
    hide After, Heard, Honest, TheKeys, AllChecks, Said, Faithful;
    AfterFacts(p, role, e.next);
    NumberedByPosition(p, role, o.messageSeq);
  }

  /** How many messages an end has sent by the time it has dispatched `n`. */
  function SaidBy(p: Setting, role: Role, n: nat): nat {
    if role == Client then
      if n == 0 then 1 else if n < Off(p) + 4 + Cert(p) then 1 + Off(p) else Off(p) + 3 + 2 * Cert(p)
    else
      if n < Off(p) then 0 else if n == Off(p) then Off(p)
      else if n < Off(p) + 3 + 2 * Cert(p) then Off(p) + 4 + Cert(p) else Off(p) + 5 + Cert(p)
  }

  lemma SentGrows(p: Setting, role: Role, n: nat, m: nat)
    requires Honest(p) && n <= m
    ensures |After(p, role, n).sent| <= |After(p, role, m).sent|
  {
    hide After, Honest;
    SentIs(p, role, n);
    SentIs(p, role, m);
  }

  lemma SentIs(p: Setting, role: Role, n: nat)
    requires Honest(p)
    ensures |After(p, role, n).sent| == SaidBy(p, role, n)
  {
    hide ClientAfter, ServerAfter, Honest;
    if role == Client {
      ClientSaid(p, n);
    } else {
      ServerSaid(p, n);
    }
  }

  lemma ClientSaid(p: Setting, n: nat)
    requires Honest(p)
    ensures |ClientAfter(p, n).sent| == SaidBy(p, Client, n)
  {
    hide AtStart, AtHello, AtServerHello, AtServerCert, AtServerKey, AtRequest, AtDone, AtEnd, ClientSends, Honest;
    SentSizes(p);
    EndSent(p);
    HeardLength(p);
  }

  lemma EndSent(p: Setting)
    requires Honest(p)
    ensures AtDone(p).sent == ClientSends(p) && AtEnd(p).sent == ClientSends(p)
  {
    hide AtDone, ClientSends, AllChecks, Honest;
    DoneFields(p);
  }

  lemma ServerSaid(p: Setting, n: nat)
    requires Honest(p)
    ensures |ServerAfter(p, n).sent| == SaidBy(p, Server, n)
  {
    hide Waiting, Verifying, Greeted, Certified, Keyed, Verified, ServerSends, ServerFlightSends, AllChecks, Honest;
    SentSizes(p);
    VerifiedFields(p);
    HeardLength(p);
    FlightNumbered(p, 0);
  }

  lemma SentSizes(p: Setting)
    requires Honest(p)
    ensures |AtStart(p).sent| == 1 && |AtHello(p).sent| == 1 + Off(p)
    ensures |AtServerHello(p).sent| == |AtServerCert(p).sent| == |AtServerKey(p).sent| == |AtRequest(p).sent|
        == 1 + Off(p)
    ensures |Waiting(p).sent| == 0 && |Verifying(p).sent| == Off(p)
    ensures |Greeted(p).sent| == |Certified(p).sent| == |Keyed(p).sent| == |ServerFlightSends(p)|
  {
    hide FirstHello, SecondHello, VerifyRequest, ServerFlightSends, ToHello, ToServerHello, ToServerCert, ToServerKey,
         ToRequest, ToDone, ToClientCert, ToClientKey, TheKeys, TheMaster, KeyChecks;
  }

  lemma LimitGrows(p: Setting, role: Role, e: End, arrivals: seq<Arrival>, limit: nat, limit': nat)
    requires Honest(p) && EndInv(p, role, e, arrivals, limit) && limit <= limit' <= |Heard(p, role)|
    ensures EndInv(p, role, e, arrivals, limit')
  {
    hide Honest, After, Heard, Faithful, Touched, SealedComeWhole;
  }

  lemma SentIsHeard(p: Setting, role: Role, n: nat, i: nat)
    requires Honest(p) && i < |After(p, role, n).sent|
    ensures |After(p, role, n).sent| <= |Heard(p, Other(role))|
    ensures After(p, role, n).sent <= Heard(p, Other(role))
    ensures After(p, role, n).sent[i] == Heard(p, Other(role))[i] && After(p, role, n).sent[i].messageSeq == i
  {
    hide Honest, After, ClientSends, ServerSends, AllChecks;
    AfterFacts(p, role, n);
    NumberedByPosition(p, Other(role), i);
  }

  lemma StepKeepsInv(p: Setting, s: System, e: Event)
    requires Honest(p) && Inv(p, s) && Enabled(s, e)
    ensures Inv(p, Next(p, s, e))
  {
    hide Honest, After, Heard, EndInv, AtRest, Deliverable;
    match e
    case Begin => Begins(p, s);
    case ToServer(i, from, length) =>
      DeliverableSent(s.client.core, s.server, s.told, i, from, length, false);
      Delivers(p, Server, s.server, s.told, s.client, s.heard, i, from, length, false);
    case ResentToServer(i, from, length) =>
      DeliverableSent(s.client.core, s.server, s.told, i, from, length, true);
      Delivers(p, Server, s.server, s.told, s.client, s.heard, i, from, length, true);
    case ToClient(i, from, length) =>
      DeliverableSent(s.server.core, s.client, s.heard, i, from, length, false);
      Delivers(p, Client, s.client, s.heard, s.server, s.told, i, from, length, false);
  }

  lemma DeliverableSent(from: Core, to: End, before: seq<Arrival>, i: nat, start: nat, length: nat, again: bool)
    requires Deliverable(from, to, before, i, start, length, again)
    ensures i < |from.sent| && start + length <= |from.sent[i].message.body| < 0x100_0000
  {}

  lemma Begins(p: Setting, s: System)
    requires Honest(p) && s == Initial(p)
    ensures Inv(p, Next(p, s, Begin))
  {
    hide Honest, AtStart, ServerSends, ClientSends, Start;
    ClientStarts(p);
    HeardLength(p);
    SentSizesAtStart(p);
  }

  lemma SentSizesAtStart(p: Setting)
    ensures |AtStart(p).sent| == 1
  {}

  ghost predicate Joined(p: Setting, role: Role, to: End, toHas: seq<Arrival>, from: End, fromHas: seq<Arrival>)
    requires Honest(p)
  {
    && EndInv(p, role, to, toHas, |from.core.sent|) && AtRest(p, role, to, toHas)
    && EndInv(p, Other(role), from, fromHas, |to.core.sent|) && AtRest(p, Other(role), from, fromHas)
  }

  lemma Delivers(p: Setting, role: Role, to: End, toHas: seq<Arrival>, from: End, fromHas: seq<Arrival>, i: nat,
      start: nat, length: nat, again: bool)
    requires Honest(p) && Joined(p, role, to, toHas, from, fromHas)
    requires Deliverable(from.core, to, toHas, i, start, length, again)
    ensures var o := Copy(from.core, i, again);
      Joined(p, role, TakeRecord(p.c, p.cfg, to, o.seal, Cut(o, start, length)), Extended(to, toHas, o, start, length),
          from, fromHas)
  {
    hide Honest, After, Heard, TakeRecord, Faithful, ReadyAreWhole, Extended, SealedComeWhole, Touched, ReachedEnd,
         TheKeys;
    var o := Copy(from.core, i, again);
    SentIsHeard(p, Other(role), from.next, i);
    CopyIsCopy(p, role, from.next, i, again);
    FirstAlone(p, role, to, toHas, from, fromHas);
    assert Bodies(from.core.sent) == Messages(p, role, |from.core.sent|);
    RecordKeeps(p, role, to, toHas, |from.core.sent|, o, start, length);
    var to' := TakeRecord(p.c, p.cfg, to, o.seal, Cut(o, start, length));
    SentGrows(p, role, to.next, to'.next);
    SentBounded(p, role, to'.next);
    LimitGrows(p, Other(role), from, fromHas, |to.core.sent|, |to'.core.sent|);
  }

  lemma CopyIsCopy(p: Setting, role: Role, n: nat, i: nat, again: bool)
    requires Honest(p) && i < |After(p, Other(role), n).sent| && (again ==> CanResend(After(p, Other(role), n), i))
    ensures IsCopy(p, role, Copy(After(p, Other(role), n), i, again))
  {
    hide Honest, After, Heard, Said, TheKeys, AllChecks;
    SentIsHeard(p, Other(role), n, i);
    AfterFacts(p, Other(role), n);
  }

  lemma FirstAlone(p: Setting, role: Role, to: End, toHas: seq<Arrival>, from: End, fromHas: seq<Arrival>)
    requires Honest(p) && Joined(p, role, to, toHas, from, fromHas)
    ensures RestartsFirst(p, role, to, |from.core.sent|)
  {
    hide Honest, After, Heard, Faithful, SealedComeWhole, Touched, ReachedEnd;
    SentIs(p, role, to.next);
    SentIs(p, Other(role), from.next);
  }

  lemma SentBounded(p: Setting, role: Role, n: nat)
    requires Honest(p)
    ensures |After(p, role, n).sent| <= |Heard(p, Other(role))|
  {
    hide Honest, After, ClientSends, ServerSends, AllChecks;
    AfterFacts(p, role, n);
  }

  // ---- Main results ----

  ghost predicate Schedule(p: Setting, s: System, events: seq<Event>)
    decreases |events|
  {
    events != [] ==> Enabled(s, events[0]) && Schedule(p, Next(p, s, events[0]), events[1..])
  }

  function Run(p: Setting, s: System, events: seq<Event>): System
    requires Schedule(p, s, events)
    decreases |events|
  {
    if events == [] then s else Run(p, Next(p, s, events[0]), events[1..])
  }

  lemma {:induction false} RunKeepsInv(p: Setting, s: System, events: seq<Event>)
    requires Honest(p) && Inv(p, s) && Schedule(p, s, events)
    ensures Inv(p, Run(p, s, events))
    decreases |events|
  {
    hide Inv, Enabled, Next, Honest;
    if events != [] {
      StepKeepsInv(p, s, events[0]);
      RunKeepsInv(p, Next(p, s, events[0]), events[1..]);
    }
  }

  /**
   * Over every run: neither end fails; what each end has hashed and signed, check by check and byte by
   * byte, is a prefix of one common list; each dispatches a prefix of what the other has sent, and is
   * connected once it has dispatched all of it; the client is connected only when the server is; and two
   * connected ends made all checks over equal bytes and hold the same keys.
   */
  lemma HandshakeAgrees(p: Setting, events: seq<Event>)
    requires Honest(p) && Schedule(p, Initial(p), events)
    ensures var s := Run(p, Initial(p), events);
      var a, b := s.client.core, s.server.core;
      && a.status != FAILED && b.status != FAILED
      && a.checks <= AllChecks(p) && b.checks <= AllChecks(p)
      && a.sent <= ClientSends(p) && b.sent <= ServerSends(p)
      && s.client.next <= |b.sent| && s.server.next <= |a.sent|
      && (a.status == CONNECTED <==> s.client.next == |ServerSends(p)|)
      && (b.status == CONNECTED <==> s.server.next == |ClientSends(p)|)
      && (a.status == CONNECTED ==> b.status == CONNECTED)
      && (a.status == CONNECTED && b.status == CONNECTED ==>
            a.checks == b.checks == AllChecks(p) && a.keys == b.keys == Some(TheKeys(p)))
  {
    hide Honest, After, ClientSends, ServerSends, AllChecks, TheKeys, Faithful, Touched, ReachedEnd, SealedComeWhole,
         Run;
    RunKeepsInv(p, Initial(p), events);
    var s := Run(p, Initial(p), events);
    if s.started {
      AfterFacts(p, Client, s.client.next);
      AfterFacts(p, Server, s.server.next);
    }
    HeardLength(p);
  }

  /**
   * Section 4 of RFC 7627 and section 4.2.1 of RFC 6347: without a cookie exchange, hashing starts at the
   * first ClientHello.
   */
  lemma SkippedVerifyHashesFirstHello(p: Setting)
    requires Honest(p)
    ensures var hello := if p.cfg.skipVerify then HandshakeBytes(CLIENT_HELLO, 0, FirstHello(p).body)
                         else HandshakeBytes(CLIENT_HELLO, 1, SecondHello(p).body);
      hello <= SessionBytes(p)
  {
    hide HandshakeBytes, FirstHello, SecondHello, ToClientKey, ToHello;
    SkippedHello(p);
    TranscriptOpens(p);
    assert Concat(ToHello(p)) == ToHello(p)[0] + Concat(ToHello(p)[1..]);
    ConcatAppend(ToHello(p), ToClientKey(p)[1..]);
    assert ToHello(p) + ToClientKey(p)[1..] == ToClientKey(p);
  }

  lemma TranscriptOpens(p: Setting)
    requires Honest(p)
    ensures |ToHello(p)| == 1 && ToHello(p)[0] == HandshakeBytes(CLIENT_HELLO, Off(p), SecondHello(p).body)
    ensures ToHello(p) <= ToClientKey(p)
  {
    hide HandshakeBytes, ClientHelloBody, ServerHello, ServerCert, ServerKey, ClientCert, ClientKey;
  }

  // ---- No deadlock ----

  /** Bodies fit the 24-bit length of the handshake header. */
  ghost predicate Compact(p: Setting)
    requires Honest(p)
  {
    forall role, i: nat | i < |Heard(p, role)| :: |Heard(p, role)[i].message.body| < 0x100_0000
  }

  /** A sealed message finds its keys derived. */
  lemma KeysInTime(p: Setting, role: Role, n: nat)
    requires Honest(p) && n < |Heard(p, role)| && Heard(p, role)[n].seal.Some?
    ensures After(p, role, n).keys == Some(TheKeys(p))
  {
    hide AtStart, AtHello, AtServerHello, AtServerCert, AtServerKey, AtRequest, AtDone, Waiting, Verifying, Greeted,
         Certified, Keyed, Verified, TheKeys, Honest, ServerSends, ClientSends;
    HeardLength(p);
    if role == Client {
      ServerSealedLast(p, n);
      DoneFields(p);
    } else {
      ClientSealedLast(p, n);
      RequestSkipped(p);
      VerifiedFields(p);
    }
  }

  lemma ServerSealedLast(p: Setting, n: nat)
    requires Honest(p) && n < |ServerSends(p)| && ServerSends(p)[n].seal.Some?
    ensures n == Off(p) + 4 + Cert(p)
  {
    hide ServerFlightSends, TheKeys, ServerDone, Honest;
    FlightNumbered(p, n);
  }

  lemma ClientSealedLast(p: Setting, n: nat)
    requires Honest(p) && n < |ClientSends(p)| && ClientSends(p)[n].seal.Some?
    ensures n == Off(p) + 2 + 2 * Cert(p)
  {
    hide TheKeys, Hellos, ClientCert, ClientKey, Verify, ClientDone, Honest;
    HellosNumbered(p);
  }

  /** Delivering the next message whole gets it dispatched, whatever had arrived of it before. */
  lemma Advances(p: Setting, role: Role, to: End, toHas: seq<Arrival>, from: End, fromHas: seq<Arrival>)
    requires Honest(p) && Compact(p) && Joined(p, role, to, toHas, from, fromHas) && to.next < |from.core.sent|
    requires TouchedAreWhole(p, role, to.next + 1, toHas)
    ensures var o := from.core.sent[to.next];
      Deliverable(from.core, to, toHas, to.next, 0, |o.message.body|, false)
      && TakeRecord(p.c, p.cfg, to, o.seal, Cut(o, 0, |o.message.body|)).next > to.next
  {
    hide After, Heard, Honest, TakeRecord, Faithful, SealedComeWhole, ReadyAreWhole, Touched, ReachedEnd,
         TouchedAreWhole;
    var n := to.next;
    SentIsHeard(p, Other(role), from.next, n);
    var o := from.core.sent[n];
    assert |Heard(p, role)[n].message.body| < 0x100_0000;
    WholeIsTaken(p, role, to, toHas, |from.core.sent|);
    NextIsWhole(p, role, n, |from.core.sent|, toHas);
    assert Bodies(from.core.sent) == Messages(p, role, |from.core.sent|);
    FirstAlone(p, role, to, toHas, from, fromHas);
    RecordKeeps(p, role, to, toHas, |from.core.sent|, o, 0, |o.message.body|);
    var to' := TakeRecord(p.c, p.cfg, to, o.seal, Cut(o, 0, |o.message.body|));
    CoveredPush(toHas, Arrival(n, 0, |o.message.body|), n, |o.message.body|);
  }

  lemma WholeIsTaken(p: Setting, role: Role, to: End, toHas: seq<Arrival>, limit: nat)
    requires Honest(p) && EndInv(p, role, to, toHas, limit) && to.next < limit
    ensures Opens(to, Heard(p, role)[to.next].seal)
  {
    hide After, Heard, Honest, Faithful, SealedComeWhole, Touched, ReachedEnd, TheKeys, AllChecks, Said;
    AfterFacts(p, role, to.next);
    if Heard(p, role)[to.next].seal.Some? {
      KeysInTime(p, role, to.next);
    }
  }

  /** What has begun to arrive, from message `n` on, is whole. */
  ghost predicate TouchedAreWhole(p: Setting, role: Role, n: nat, arrivals: seq<Arrival>)
    requires Honest(p)
  {
    forall k | n <= k < |Heard(p, role)| && Touched(arrivals, k) :: Whole(arrivals, k, Heard(p, role)[k].message)
  }

  lemma NextIsWhole(p: Setting, role: Role, n: nat, limit: nat, arrivals: seq<Arrival>)
    requires Honest(p) && n < limit <= |Heard(p, role)| && TouchedAreWhole(p, role, n + 1, arrivals)
    ensures ReadyAreWhole(Messages(p, role, limit), n, arrivals + [Arrival(n, 0, |Heard(p, role)[n].message.body|)])
  {
    hide Heard, Honest, Touched, ReachedEnd, Covered, Whole, FirstUnfinished;
    var msgs, a := Messages(p, role, limit), Arrival(n, 0, |Heard(p, role)[n].message.body|);
    forall i | n <= i < FirstUnfinished(msgs, n, arrivals + [a]) ensures Whole(arrivals + [a], i, msgs[i]) {
      CoveredPush(arrivals, a, i, |msgs[i].body|);
      UnfinishedUntilTouched(arrivals, i, |msgs[i].body|);
      StaysWhole(arrivals, a, i, msgs[i]);
    }
  }

  // ---- Filling holes ----

  /** How many of the first `hi` messages are not whole. */
  ghost function Holes(msgs: seq<Message>, arrivals: seq<Arrival>, hi: nat): nat
    requires hi <= |msgs|
  {
    if hi == 0 then 0 else Holes(msgs, arrivals, hi - 1) + if Whole(arrivals, hi - 1, msgs[hi - 1]) then 0 else 1
  }

  lemma {:induction false} HolesShrink(msgs: seq<Message>, arrivals: seq<Arrival>, a: Arrival, hi: nat)
    requires hi <= |msgs|
    ensures Holes(msgs, arrivals + [a], hi) <= Holes(msgs, arrivals, hi)
    ensures
      (a.index < hi && a == Arrival(a.index, 0, |msgs[a.index].body|) && !Whole(arrivals, a.index, msgs[a.index]))
      ==> Holes(msgs, arrivals + [a], hi) < Holes(msgs, arrivals, hi)
  {
    hide Whole;
    if hi > 0 {
      HolesShrink(msgs, arrivals, a, hi - 1);
      if Whole(arrivals, hi - 1, msgs[hi - 1]) || a == Arrival(hi - 1, 0, |msgs[hi - 1].body|) {
        StaysWhole(arrivals, a, hi - 1, msgs[hi - 1]);
      }
    }
  }

  ghost function HolesAt(p: Setting, role: Role, arrivals: seq<Arrival>): nat
    requires Honest(p)
  {
    Holes(Messages(p, role, |Heard(p, role)|), arrivals, |Heard(p, role)|)
  }

  /** Delivering a later message whole dispatches nothing yet and fills its holes. */
  lemma FillsHole(p: Setting, role: Role, to: End, toHas: seq<Arrival>, from: End, fromHas: seq<Arrival>, k: nat)
    requires Honest(p) && Compact(p) && Joined(p, role, to, toHas, from, fromHas) && to.next < k < |from.core.sent|
    requires Touched(toHas, k) && !Whole(toHas, k, from.core.sent[k].message)
    ensures var o := from.core.sent[k];
      && Deliverable(from.core, to, toHas, k, 0, |o.message.body|, false)
      && TakeRecord(p.c, p.cfg, to, o.seal, Cut(o, 0, |o.message.body|)).next >= to.next
      && HolesAt(p, role, Extended(to, toHas, o, 0, |o.message.body|)) < HolesAt(p, role, toHas)
  {
    hide After, Heard, Honest, TakeRecord, Faithful, ReadyAreWhole, Covered, Touched, ReachedEnd;
    SentIsHeard(p, Other(role), from.next, k);
    var o, limit := from.core.sent[k], |from.core.sent|;
    assert |Heard(p, role)[k].message.body| < 0x100_0000;
    RecordOpens(p, role, to, toHas, limit, o);
    assert o.seal == None;
    var a := Arrival(k, 0, |o.message.body|);
    StaysUnready(p, role, to, toHas, limit, a);
    assert Bodies(from.core.sent) == Messages(p, role, limit);
    FirstAlone(p, role, to, toHas, from, fromHas);
    RecordKeeps(p, role, to, toHas, limit, o, 0, |o.message.body|);
    HolesShrink(Messages(p, role, |Heard(p, role)|), toHas, a, |Heard(p, role)|);
  }

  lemma StaysUnready(p: Setting, role: Role, to: End, toHas: seq<Arrival>, limit: nat, a: Arrival)
    requires Honest(p) && AtRest(p, role, to, toHas) && to.next < limit <= |Heard(p, role)| && a.index != to.next
    ensures ReadyAreWhole(Messages(p, role, limit), to.next, toHas + [a])
  {
    hide Heard, Honest, ReachedEnd, Whole;
    CoveredPush(toHas, a, to.next, |Heard(p, role)[to.next].message.body|);
  }

  /** When neither end has anything of the other's left to dispatch, both are connected. */
  lemma NoDeadlock(p: Setting, s: System)
    requires Honest(p) && Inv(p, s) && s.started
    requires s.client.next >= |s.server.core.sent| && s.server.next >= |s.client.core.sent|
    ensures s.client.core.status == CONNECTED && s.server.core.status == CONNECTED
  {
    hide After, Honest, ClientSends, ServerSends, AllChecks, TheKeys, Faithful;
    SentIs(p, Client, s.client.next);
    SentIs(p, Server, s.server.next);
    HeardLength(p);
    AfterFacts(p, Client, s.client.next);
    AfterFacts(p, Server, s.server.next);
  }

  function Remaining(p: Setting, s: System): int
    requires Honest(p)
  {
    |ServerSends(p)| - s.client.next + |ClientSends(p)| - s.server.next
  }

  /** What to deliver next to an end that has not dispatched all it was sent. */
  lemma NextDelivery(p: Setting, role: Role, to: End, toHas: seq<Arrival>, from: End, fromHas: seq<Arrival>)
      returns (k: nat)
    requires Honest(p) && Compact(p) && Joined(p, role, to, toHas, from, fromHas) && to.next < |from.core.sent|
    ensures k < |from.core.sent|
    ensures var o := from.core.sent[k];
      Deliverable(from.core, to, toHas, k, 0, |o.message.body|, false)
      && var to' := TakeRecord(p.c, p.cfg, to, o.seal, Cut(o, 0, |o.message.body|));
         || to'.next > to.next
         || (to'.next == to.next
             && HolesAt(p, role, Extended(to, toHas, o, 0, |o.message.body|)) < HolesAt(p, role, toHas))
  {
    hide After, Heard, Honest, TakeRecord, Faithful, SealedComeWhole, Touched, ReachedEnd, Whole, Deliverable, HolesAt,
         Compact;
    if k' :| to.next < k' < |Heard(p, role)| && Touched(toHas, k') && !Whole(toHas, k', Heard(p, role)[k'].message) {
      k := k';
      assert k in to.entries;
      SentIsHeard(p, Other(role), from.next, k);
      FillsHole(p, role, to, toHas, from, fromHas, k);
    } else {
      k := to.next;
      Advances(p, role, to, toHas, from, fromHas);
    }
  }

  /**
   * From every state a run can reach, however badly the network has treated it, delivering messages
   * already sent leads to both ends being connected.
   */
  lemma {:induction false} CanAlwaysComplete(p: Setting, s: System) returns (events: seq<Event>)
    requires Honest(p) && Compact(p) && Inv(p, s) && s.started
    ensures Schedule(p, s, events)
    ensures Run(p, s, events).client.core.status == CONNECTED && Run(p, s, events).server.core.status == CONNECTED
    decreases Remaining(p, s), HolesAt(p, Client, s.heard) + HolesAt(p, Server, s.told)
  {
    hide After, Honest, ClientSends, ServerSends, Compact, Deliverable, TakeRecord, EndInv, AtRest, HolesAt, Extended;
    Bounds(p, s);
    if s.client.next < |s.server.core.sent| || s.server.next < |s.client.core.sent| {
      var e;
      if s.client.next < |s.server.core.sent| {
        var k := NextDelivery(p, Client, s.client, s.heard, s.server, s.told);
        e := ToClient(k, 0, |s.server.core.sent[k].message.body|);
      } else {
        var k := NextDelivery(p, Server, s.server, s.told, s.client, s.heard);
        e := ToServer(k, 0, |s.client.core.sent[k].message.body|);
      }
      StepKeepsInv(p, s, e);
      Bounds(p, Next(p, s, e));
      var rest := CanAlwaysComplete(p, Next(p, s, e));
      events := [e] + rest;
    } else {
      NoDeadlock(p, s);
      events := [];
    }
  }

  lemma Bounds(p: Setting, s: System)
    requires Honest(p) && Inv(p, s) && s.started
    ensures s.client.next <= |ServerSends(p)| && s.server.next <= |ClientSends(p)|
    ensures Joined(p, Client, s.client, s.heard, s.server, s.told)
    ensures Joined(p, Server, s.server, s.told, s.client, s.heard)
  {
    hide After, ClientSends, ServerSends, Honest, Faithful, Touched, ReachedEnd, SealedComeWhole;
  }

  // ---- What retransmission cannot do ----

  /** The number of the ClientKeyExchange. */
  function KeyExchangeSeq(p: Setting): nat { Off(p) + 1 + Cert(p) }

  /** The end of the ClientKeyExchange has not reached the server. */
  ghost predicate NoKeyExchange(p: Setting, s: System)
    requires Honest(p)
  {
    !ReachedEnd(s.told, KeyExchangeSeq(p), |ClientSends(p)[KeyExchangeSeq(p)].message.body|)
  }

  lemma KeysLate(p: Setting, n: nat)
    requires Honest(p) && n <= KeyExchangeSeq(p)
    ensures ServerAfter(p, n).keys == None && ServerAfter(p, n).status != CONNECTED
  {
    hide FirstHello, SecondHello, VerifyRequest, ServerFlightSends, ToClientCert, ToClientKey, ToDone, KeyChecks,
         TheKeys;
  }

  /** Without it the server has no keys, and neither end is connected. */
  lemma WithoutKeyExchange(p: Setting, s: System)
    requires Honest(p) && Inv(p, s) && NoKeyExchange(p, s)
    ensures s.server.core.keys == None && s.server.next <= KeyExchangeSeq(p)
    ensures s.client.core.status != CONNECTED && s.server.core.status != CONNECTED
  {
    hide ClientAfter, ServerAfter, Honest, ClientSends, ServerSends, AllChecks, TheKeys, Faithful, Touched, ReachedEnd,
         SealedComeWhole;
    HeardLength(p);
    if s.started {
      KeysLate(p, s.server.next);
      AfterFacts(p, Client, s.client.next);
      AfterFacts(p, Server, s.server.next);
    }
  }

  /** What the client resends after its ChangeCipherSpec is sealed, so a server without keys drops it. */
  lemma ResentDropped(p: Setting, s: System, e: Event)
    requires Honest(p) && Inv(p, s) && NoKeyExchange(p, s) && e.ResentToServer? && Enabled(s, e)
    ensures Next(p, s, e) == s
  {
    hide Inv, Honest, ReadyAreWhole, TakeFragment, NoKeyExchange;
    WithoutKeyExchange(p, s);
  }

  /** Only the first sending of the ClientKeyExchange, in the clear, brings its end. */
  lemma StepWithoutKeyExchange(p: Setting, s: System, e: Event)
    requires Honest(p) && Inv(p, s) && Enabled(s, e) && NoKeyExchange(p, s)
    requires e.ToServer? ==> e.i != KeyExchangeSeq(p)
    ensures NoKeyExchange(p, Next(p, s, e))
  {
    hide Inv, Honest, ReadyAreWhole, TakeRecord, ReachedEnd, ClientSends;
    if e.ResentToServer? {
      ResentDropped(p, s, e);
    } else if e.ToServer? {
      NumberedInRun(p, s, e.i);
      HeardLength(p);
      CoveredPush(s.told, Arrival(s.client.core.sent[e.i].messageSeq, e.from, e.length), KeyExchangeSeq(p),
          |ClientSends(p)[KeyExchangeSeq(p)].message.body|);
    }
  }

  lemma NumberedInRun(p: Setting, s: System, i: nat)
    requires Honest(p) && Inv(p, s) && i < |s.client.core.sent|
    ensures s.client.core.sent[i].messageSeq == i
  {
    hide After, Honest, Heard, Faithful, Touched, ReachedEnd, SealedComeWhole;
    if s.started {
      SentIsHeard(p, Client, s.client.next, i);
    }
  }

  /**
   * Section 4.2.4 of RFC 6347 wants lost flights resent. The client's second one is resent sealed: over every
   * run, if no fragment of the ClientKeyExchange as first sent arrives from now on, the server never has keys,
   * drops everything the client resends, and neither end is ever connected.
   */
  lemma {:induction false} StuckWithoutKeyExchange(p: Setting, s: System, events: seq<Event>)
    requires Honest(p) && Inv(p, s) && Schedule(p, s, events) && NoKeyExchange(p, s)
    requires forall e | e in events && e.ToServer? :: e.i != KeyExchangeSeq(p)
    ensures var s' := Run(p, s, events);
      && s'.server.core.keys == None && s'.server.next <= KeyExchangeSeq(p)
      && s'.client.core.status != CONNECTED && s'.server.core.status != CONNECTED
    decreases |events|
  {
    hide Inv, Enabled, Next, Honest, NoKeyExchange;
    if events == [] {
      WithoutKeyExchange(p, s);
    } else {
      assert events[0] in events;
      StepKeepsInv(p, s, events[0]);
      StepWithoutKeyExchange(p, s, events[0]);
      StuckWithoutKeyExchange(p, Next(p, s, events[0]), events[1..]);
    }
  }

  lemma NothingTold(p: Setting)
    requires Honest(p)
    ensures Inv(p, Initial(p)) && NoKeyExchange(p, Initial(p))
  {
    hide Honest, ClientSends;
  }
}
