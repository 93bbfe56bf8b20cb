/**
 * An association from its first INIT on, both ends and both directions, whatever closes or throws on the way
 * (src/sctp/association.ts:141-552; src/transport-stack.ts:100-141).
 */
module Lifetime {
  import opened Bytes
  import opened Serial
  import opened Association
  import opened Interruption
  import opened Reception
  import Chunks
  import Delivery
  import Fragmentation
  import EndToEnd
  import Setup
  import DataChannels
  import DataChannelObjects

  /** `toClient` carries what the server sends, and `toServer` what the client sends. */
  datatype Joint = Joint(setup: Setup.System, toClient: Side, toServer: Side)

  ghost predicate Initial(j: Joint) {
    && Setup.Initial(j.setup) && Fresh(j.toClient) && Fresh(j.toServer)
    && j.toClient.link.inbound.origin == j.setup.server.localTSN
    && j.toServer.link.inbound.origin == j.setup.client.localTSN
  }

  datatype Event =
    | Setting(e: Setup.Event)                              // a setup packet, the setup timer, or a close
    | Send(byServer: bool, m: Message, unordered: bool)
    | DataIn(toClient: bool, i: nat, sorted: seq<u32>)
    | SackIn(toClient: bool, p: EndToEnd.Stamped)          // acknowledges what goes in this direction

  function SideOf(j: Joint, toClient: bool): Side { if toClient then j.toClient else j.toServer }

  function WithSide(j: Joint, toClient: bool, s: Side): Joint {
    if toClient then j.(toClient := s) else j.(toServer := s)
  }

  function Peer(j: Joint, client: bool): Setup.Peer { if client then j.setup.client else j.setup.server }

  predicate Established(j: Joint, client: bool) { Peer(j, client).state == Setup.ESTABLISHED }

  predicate HasClosed(j: Joint, client: bool) { if client then j.setup.clientClosed else j.setup.serverClosed }

  /** The data-channel manager listens; it cannot answer an OPEN before its association is established. */
  function Answering(established: bool): Listener {
    m => DataChannelObjects.AnswerThrows(m, established)
  }

  function Hearing(j: Joint, client: bool): Listener { Answering(Established(j, client)) }

  predicate IsWell(j: Joint, client: bool) { SideOf(j, client).health == Well }

  ghost predicate Enabled(j: Joint, e: Event) {
    match e
    case Setting(x) =>
      && Setup.Enabled(j.setup, x)
      && (x.Start? || x.ToServer? || x.ToClient? || x.ClientGivesUp? || x.ClientCloses? || x.ServerCloses?)
    case Send(byServer, m, unordered) =>
      && Established(j, !byServer)
      && EndToEnd.Timely(SideOf(j, byServer).link, EndToEnd.SendMessage(m, unordered))
    case DataIn(toClient, i, sorted) => CanArrive(SideOf(j, toClient), i, sorted, Hearing(j, toClient))
    case SackIn(toClient, p) =>
      IsWell(j, !toClient) ==>
        && p in SideOf(j, toClient).link.sacks
        && EndToEnd.Timely(SideOf(j, toClient).link, EndToEnd.SackArrives(p))
  }

  /** An end that was not closed drops its buffers, on both sides. */
  function Closes(j: Joint, client: bool): Joint {
    if Peer(j, client).state == Setup.CLOSED then j
    else
      var j' := WithSide(j, client, ReceiverCloses(SideOf(j, client)));
      WithSide(j', !client, SenderCloses(SideOf(j', !client)))
  }

  /** What the setup sees of the receive cursor. */
  function Consumes(j: Joint, toClient: bool, before: u32, after: u32): Option<Setup.Event> {
    if after == before then None
    else Some(if toClient then Setup.ClientConsumes(after) else Setup.ServerConsumes(after))
  }

  function Cursor(s: Side): u32 { s.link.inbound.rx.cumulative }

  function Next(hmac: Setup.Hmac, j: Joint, e: Event): Joint
    requires Setup.Digests(hmac) && (e.DataIn? ==> e.i < |SideOf(j, e.toClient).link.inbound.log|)
  {
    match e
    case Setting(x) =>
      if (x.ToServer? && !IsWell(j, false)) || (x.ToClient? && !IsWell(j, true)) then j
      else
        var j' := if x.ClientGivesUp? || x.ClientCloses? then Closes(j, true)
                  else if x.ServerCloses? then Closes(j, false)
                  else j;
        j'.(setup := Setup.Next(hmac, j.setup, x))
    case Send(byServer, m, unordered) =>
      var n := |MessagePieces(SideOf(j, byServer).link.tx, m, unordered)|;
      WithSide(j, byServer, Sends(SideOf(j, byServer), m, unordered)).(
        setup := Setup.Next(hmac, j.setup, if byServer then Setup.ServerSends(n) else Setup.ClientSends(n)))
    case DataIn(toClient, i, sorted) =>
      var s := SideOf(j, toClient);
      var s' := Arrives(s, i, sorted, Hearing(j, toClient));
      match Consumes(j, toClient, Cursor(s), Cursor(s')) {
        case None => WithSide(j, toClient, s')
        case Some(x) => WithSide(j, toClient, s').(setup := Setup.Next(hmac, j.setup, x))
      }
    case SackIn(toClient, p) => WithSide(j, toClient, Acknowledges(SideOf(j, toClient), p, IsWell(j, !toClient)))
  }

  // ---- Invariants ----

  predicate Connected(p: Setup.Peer) { p.state == Setup.COOKIE_ECHOED || p.state == Setup.ESTABLISHED }

  function FirstCursor(s: Side): u32 { ToUint32(s.link.inbound.origin - 1) }

  /** The fields the setup and the data path share, and what follows from what. */
  ghost predicate Coupled(j: Joint) {
    var s := j.setup;
    && j.toClient.link.tx.localTSN == s.server.localTSN && j.toClient.link.inbound.origin == s.server0.localTSN
    && j.toServer.link.tx.localTSN == s.client.localTSN && j.toServer.link.inbound.origin == s.client0.localTSN
    && (Connected(s.client) ==> Cursor(j.toClient) == s.client.cumulative)
    && (s.served ==> Cursor(j.toServer) == s.server.cumulative)
    && (!s.clientConsumed ==> Cursor(j.toClient) == FirstCursor(j.toClient))
    && (!s.serverConsumed ==> Cursor(j.toServer) == FirstCursor(j.toServer))
    && (j.toClient.link.inbound.log != [] || j.toServer.link.inbound.log != [] || s.serverConsumed ==> s.served)
    && (j.toClient.torn != {} ==> s.clientClosed) && (j.toServer.torn != {} ==> s.serverClosed)
  }

  ghost predicate Queues(j: Joint) {
    !j.setup.clientClosed && !j.setup.serverClosed ==>
      EndToEnd.QueueInv(j.toClient.link) && EndToEnd.QueueInv(j.toServer.link)
  }

  /** The message that a listener threw on is an OPEN, and the last to come out. */
  predicate Unanswered(s: Side) {
    s.health.AnswerFailed? ==>
      Emitted(s.link) != [] && DataChannels.IsOpenMessage(Emitted(s.link)[|Emitted(s.link)| - 1])
  }

  ghost predicate Inv(hmac: Setup.Hmac, j: Joint)
    requires Setup.Digests(hmac)
  {
    && Setup.Inv(hmac, j.setup) && Sound(j.toClient) && Sound(j.toServer) && Coupled(j) && Queues(j)
    && Unanswered(j.toClient) && Unanswered(j.toServer)
  }

  lemma InitialInv(hmac: Setup.Hmac, j: Joint)
    requires Setup.Digests(hmac) && Initial(j)
    ensures Inv(hmac, j)
  {
    hide Sound, EndToEnd.QueueInv;
    assert !Setup.HasEcho(j.setup);
    FreshIsSound(j.toClient);
    FreshIsSound(j.toServer);
  }

  /** What the setup's own steps leave as it was. */
  predicate SettingFrame(s: Setup.System, s': Setup.System, e: Setup.Event) {
    && s'.client.localTSN == s.client.localTSN && s'.server.localTSN == s.server.localTSN
    && s'.client0 == s.client0 && s'.server0 == s.server0
    && s'.clientConsumed == s.clientConsumed && s'.serverConsumed == s.serverConsumed
    && (Connected(s'.client) ==>
          || s.client.state == Setup.COOKIE_WAIT
          || (Connected(s.client) && s'.client.cumulative == s.client.cumulative))
    && (s.served ==> s'.served)
    && (s'.server.cumulative == s.server.cumulative || !s.serverConsumed)
    && (s'.clientClosed <==>
          s.clientClosed || ((e.ClientGivesUp? || e.ClientCloses?) && s.client.state != Setup.CLOSED))
    && (s'.serverClosed <==> s.serverClosed || (e.ServerCloses? && s.server.state != Setup.CLOSED))
  }

  lemma LocalKeeps(hmac: Setup.Hmac, s: Setup.System, e: Setup.Event)
    requires Setup.Digests(hmac) && (e.Start? || e.ClientGivesUp? || e.ClientCloses? || e.ServerCloses?)
    ensures SettingFrame(s, Setup.Next(hmac, s, e), e)
  {
    hide Setup.InitChunk;
  }

  lemma ToServerKeeps(hmac: Setup.Hmac, s: Setup.System, e: Setup.Event)
    requires Setup.Digests(hmac) && e.ToServer? && Setup.Enabled(s, e)
    ensures SettingFrame(s, Setup.Next(hmac, s, e), e)
  {
    hide Setup.InitAckChunk, Setup.Cookie, Setup.CookieData, Chunks.ParseInit, Setup.CookieRejected, Setup.Emit;
  }

  lemma InitAckFrame(p: Setup.Peer, c: Chunks.Chunk)
    ensures var p' := Setup.HandleInitAck(p, c).0;
      && p'.localTSN == p.localTSN
      && (Connected(p') ==> p.state == Setup.COOKIE_WAIT || p' == p)
  {
    hide Chunks.ParseInit, Setup.FindCookie;
  }

  lemma ToClientKeeps(hmac: Setup.Hmac, s: Setup.System, e: Setup.Event)
    requires Setup.Digests(hmac) && e.ToClient?
    ensures SettingFrame(s, Setup.Next(hmac, s, e), e)
  {
    hide Setup.HandleInitAck, Setup.Emit, Setup.Digests, Setup.Next, Setup.HandleInit, Setup.HandleCookieEcho;
    InitAckFrame(s.client, e.packet.chunk);
    ToClientIs(hmac, s, e.packet);
  }

  lemma ToClientIs(hmac: Setup.Hmac, s: Setup.System, o: Setup.Outgoing)
    requires Setup.Digests(hmac)
    ensures var s', c := Setup.Next(hmac, s, Setup.ToClient(o)), o.chunk;
      s' == s.(client := s'.client, toServer := s'.toServer)
      && s'.client == if c.typ == Chunks.INIT_ACK then Setup.HandleInitAck(s.client, c).0
                      else if c.typ == Chunks.COOKIE_ACK then Setup.HandleCookieAck(s.client)
                      else s.client
  {
    hide Setup.HandleInitAck, Setup.HandleCookieAck;
  }

  lemma SettingKeeps(hmac: Setup.Hmac, s: Setup.System, e: Setup.Event)
    requires Setup.Digests(hmac) && Setup.Enabled(s, e)
    requires e.Start? || e.ToServer? || e.ToClient? || e.ClientGivesUp? || e.ClientCloses? || e.ServerCloses?
    ensures SettingFrame(s, Setup.Next(hmac, s, e), e)
  {
    hide Setup.Next, SettingFrame, Setup.Digests, Setup.Enabled;
    if e.ToServer? {
      ToServerKeeps(hmac, s, e);
    } else if e.ToClient? {
      ToClientKeeps(hmac, s, e);
    } else {
      LocalKeeps(hmac, s, e);
    }
  }

  lemma SetupFacts(hmac: Setup.Hmac, s: Setup.System)
    requires Setup.Digests(hmac) && Setup.Inv(hmac, s)
    ensures Connected(s.client) && !s.clientConsumed ==> s.client.cumulative == ToUint32(s.server0.localTSN - 1)
    ensures s.served && !s.serverConsumed ==> s.server.cumulative == ToUint32(s.client0.localTSN - 1)
    ensures s.client.state == Setup.COOKIE_WAIT ==> !s.served && !s.clientConsumed
    ensures s.client.state == Setup.ESTABLISHED || s.server.state == Setup.ESTABLISHED ==> s.served
  {
    hide Setup.AckOf, Setup.CookieOf, Setup.InitChunk;
  }

  lemma ClosesKeeps(j: Joint, client: bool)
    requires Sound(j.toClient) && Sound(j.toServer)
    ensures var j' := Closes(j, client);
      && Sound(j'.toClient) && Sound(j'.toServer) && j'.setup == j.setup
      && SameNumbers(j.toClient, j'.toClient) && SameNumbers(j.toServer, j'.toServer)
      && (Peer(j, client).state == Setup.CLOSED ==> j' == j)
      && (Unanswered(j.toClient) ==> Unanswered(j'.toClient)) && (Unanswered(j.toServer) ==> Unanswered(j'.toServer))
      && SideOf(j', !client).torn == SideOf(j, !client).torn
  {
    hide Sound;
    ReceiverClosesKeeps(SideOf(j, client));
    QueueCleared(SideOf(j, !client), map[]);
  }

  /** The fields that closing leaves alone. */
  predicate SameNumbers(s: Side, s': Side) {
    && s'.link.tx.localTSN == s.link.tx.localTSN && s'.link.inbound.origin == s.link.inbound.origin
    && s'.link.inbound.log == s.link.inbound.log && Cursor(s') == Cursor(s)
  }

  lemma SettingStep(hmac: Setup.Hmac, j: Joint, e: Event)
    requires Setup.Digests(hmac) && Inv(hmac, j) && e.Setting? && Enabled(j, e)
    ensures Inv(hmac, Next(hmac, j, e))
  {
    hide Setup.Inv, Sound, Closes, EndToEnd.QueueInv, Setup.Next;
    Setup.StepKeepsInv(hmac, j.setup, e.e);
    SettingKeeps(hmac, j.setup, e.e);
    SetupFacts(hmac, j.setup);
    SetupFacts(hmac, Setup.Next(hmac, j.setup, e.e));
    ClosesKeeps(j, true);
    ClosesKeeps(j, false);
  }

  lemma SendStep(hmac: Setup.Hmac, j: Joint, e: Event)
    requires Setup.Digests(hmac) && Inv(hmac, j) && e.Send? && Enabled(j, e)
    ensures Inv(hmac, Next(hmac, j, e))
  {
    hide Setup.Inv, Setup.Next, Setup.Digests, Sound, EndToEnd.QueueInv, EndToEnd.Timely, MessagePieces, Enqueue,
         ToUint32;
    var n := |MessagePieces(SideOf(j, e.byServer).link.tx, e.m, e.unordered)|;
    SetupFacts(hmac, j.setup);
    SendsKeeps(SideOf(j, e.byServer), e.m, e.unordered);
    SendsIs(hmac, j.setup, n);
    Setup.StepKeepsInv(hmac, j.setup, if e.byServer then Setup.ServerSends(n) else Setup.ClientSends(n));
  }

  lemma ArrivalUnanswered(s: Side, i: nat, sorted: seq<u32>, established: bool)
    requires i < |s.link.inbound.log| && Unanswered(s)
    ensures Unanswered(Arrives(s, i, sorted, Answering(established)))
  {
    hide DeliverHeard, SackFor;
    DeliverHears(s.link.inbound.cmp, s.link.inbound.rx, s.link.inbound.log[i], Answering(established));
  }

  lemma ConsumeIs(hmac: Setup.Hmac, s: Setup.System, cursor: u32)
    requires Setup.Digests(hmac)
    ensures Setup.Next(hmac, s, Setup.ClientConsumes(cursor))
      == s.(client := s.client.(cumulative := cursor), clientConsumed := true)
    ensures Setup.Next(hmac, s, Setup.ServerConsumes(cursor))
      == s.(server := s.server.(cumulative := cursor), serverConsumed := true)
  {}

  lemma SendsIs(hmac: Setup.Hmac, s: Setup.System, n: nat)
    requires Setup.Digests(hmac)
    ensures Setup.Next(hmac, s, Setup.ClientSends(n))
      == s.(client := s.client.(localTSN := ToUint32(s.client.localTSN + n)))
    ensures Setup.Next(hmac, s, Setup.ServerSends(n))
      == s.(server := s.server.(localTSN := ToUint32(s.server.localTSN + n)))
  {}

  lemma DataStep(hmac: Setup.Hmac, j: Joint, e: Event)
    requires Setup.Digests(hmac) && Inv(hmac, j) && e.DataIn? && Enabled(j, e)
    ensures Inv(hmac, Next(hmac, j, e))
  {
    hide Setup.Inv, Setup.Next, Setup.Digests, Sound, EndToEnd.QueueInv, CanArrive, SackFor, DeliverHeard, ToUint32;
    ArrivalInLog(SideOf(j, e.toClient), e.i, e.sorted, Hearing(j, e.toClient));
    ArrivesKeeps(SideOf(j, e.toClient), e.i, e.sorted, Hearing(j, e.toClient));
    ArrivalUnanswered(SideOf(j, e.toClient), e.i, e.sorted, Established(j, e.toClient));
    SetupFacts(hmac, j.setup);
    var s' := Arrives(SideOf(j, e.toClient), e.i, e.sorted, Hearing(j, e.toClient));
    var x := Consumes(j, e.toClient, Cursor(SideOf(j, e.toClient)), Cursor(s'));
    ConsumeIs(hmac, j.setup, Cursor(s'));
    if x.Some? {
      Setup.StepKeepsInv(hmac, j.setup, x.value);
    }
  }

  lemma SackStep(hmac: Setup.Hmac, j: Joint, e: Event)
    requires Setup.Digests(hmac) && Inv(hmac, j) && e.SackIn? && Enabled(j, e)
    ensures Inv(hmac, Next(hmac, j, e))
  {
    hide Setup.Inv, Sound, EndToEnd.QueueInv, HandleSack;
    AcknowledgesKeeps(SideOf(j, e.toClient), e.p, IsWell(j, !e.toClient));
  }

  lemma StepKeepsInv(hmac: Setup.Hmac, j: Joint, e: Event)
    requires Setup.Digests(hmac) && Inv(hmac, j) && Enabled(j, e)
    ensures e.DataIn? ==> e.i < |SideOf(j, e.toClient).link.inbound.log|
    ensures Inv(hmac, Next(hmac, j, e))
  {
    hide Inv, Setup.Digests;
    match e
    case Setting(_) => SettingStep(hmac, j, e);
    case Send(_, _, _) => SendStep(hmac, j, e);
    case DataIn(_, _, _) => DataStep(hmac, j, e);
    case SackIn(_, _) => SackStep(hmac, j, e);
  }

  // ---- Whole runs ----

  ghost predicate Schedule(hmac: Setup.Hmac, j: Joint, events: seq<Event>)
    requires Setup.Digests(hmac)
    decreases |events|
  {
    events != [] ==>
      && Enabled(j, events[0])
      && (events[0].DataIn? ==> events[0].i < |SideOf(j, events[0].toClient).link.inbound.log|)
      && Schedule(hmac, Next(hmac, j, events[0]), events[1..])
  }

  function Run(hmac: Setup.Hmac, j: Joint, events: seq<Event>): Joint
    requires Setup.Digests(hmac) && Schedule(hmac, j, events)
    decreases |events|
  {
    if events == [] then j else Run(hmac, Next(hmac, j, events[0]), events[1..])
  }

  lemma {:induction false} RunKeepsInv(hmac: Setup.Hmac, j: Joint, events: seq<Event>)
    requires Setup.Digests(hmac) && Inv(hmac, j) && Schedule(hmac, j, events)
    ensures Inv(hmac, Run(hmac, j, events))
    decreases |events|
  {
    hide Inv, Enabled, Next, Setup.Digests;
    if events != [] {
      StepKeepsInv(hmac, j, events[0]);
      RunKeepsInv(hmac, Next(hmac, j, events[0]), events[1..]);
    }
  }

  /**
   * An end that may send DATA, and an end that DATA has been sent to, which SACKs it, send under `remoteTag`:
   * it is the tag the other end chose.
   */
  predicate RightlyTagged(j: Joint, client: bool) {
    Established(j, client) || SideOf(j, client).link.inbound.log != [] ==>
      Peer(j, client).remoteTag == Peer(j, !client).localTag
  }

  lemma TagsAreRight(hmac: Setup.Hmac, j: Joint)
    requires Setup.Digests(hmac) && Inv(hmac, j)
    ensures RightlyTagged(j, true) && RightlyTagged(j, false)
  {
    hide Sound, EndToEnd.QueueInv, Setup.AckOf, Setup.EchoOf, Setup.InitPacket;
  }

  /** What holds of both directions after any run. */
  ghost predicate Kept(hmac: Setup.Hmac, j: Joint)
    requires Setup.Digests(hmac)
  {
    && Setup.Agreement(hmac, j.setup) && Coupled(j) && Delivered(j.toClient) && Delivered(j.toServer)
    && RightlyTagged(j, true) && RightlyTagged(j, false)
    && (!j.setup.clientClosed && !j.setup.serverClosed ==>
          EndToEnd.Conserved(j.toClient.link) && EndToEnd.Conserved(j.toServer.link))
  }

  /**
   * Over every run from two closed ends, whatever setup packets, chunks and SACKs are lost, repeated or
   * reordered, in whatever state DATA finds an end, and whichever listener throws: tags, cursors and TSNs agree
   * and are those the data path uses; in both directions exactly the completed messages come out, in order,
   * but for those torn by a close, and all of them up to the first refused one under the exact conditions of
   * `Delivered`; and while neither end has closed, nothing sent is forgotten before it is taken in.
   */
  lemma SetupThenDelivery(hmac: Setup.Hmac, j0: Joint, events: seq<Event>)
    requires Setup.Digests(hmac) && Initial(j0) && Schedule(hmac, j0, events)
    ensures Kept(hmac, Run(hmac, j0, events))
  {
    hide Setup.Digests, Setup.Inv, Setup.Agreement, Coupled, Sound, Delivered, EndToEnd.Conserved, Schedule, Run,
         RightlyTagged;
    InitialInv(hmac, j0);
    RunKeepsInv(hmac, j0, events);
    var j := Run(hmac, j0, events);
    TagsAreRight(hmac, j);
    SoundDelivers(j.toClient);
    SoundDelivers(j.toServer);
    Setup.InvAgrees(hmac, j.setup);
  }

  // ---- When nothing is missing ----

  /** The state of one direction in which the conditions of `Delivered` hold. */
  ghost predicate Unbroken(s: Side) { NothingTorn(s.link, s.torn) && s.health != AnswerFailed(true) }

  /** An arrival that throws with the next chunk buffered, or completes a message torn by a close. */
  ghost predicate Breaks(hmac: Setup.Hmac, j: Joint, e: Event, toClient: bool)
    requires Setup.Digests(hmac) && (e.DataIn? ==> e.i < |SideOf(j, e.toClient).link.inbound.log|)
  {
    && e.DataIn? && e.toClient == toClient
    && var s, s' := SideOf(j, toClient), SideOf(Next(hmac, j, e), toClient);
       || (s.health == Well && s'.health == AnswerFailed(true))
       || exists t :: t in s.torn && |Finished(s.link.inbound.rx)| <= t < |Finished(s'.link.inbound.rx)|
  }

  ghost predicate Broken(hmac: Setup.Hmac, j: Joint, events: seq<Event>, toClient: bool)
    requires Setup.Digests(hmac) && Schedule(hmac, j, events)
    decreases |events|
  {
    events != [] &&
    (Breaks(hmac, j, events[0], toClient)
     || Broken(hmac, Next(hmac, j, events[0]), events[1..], toClient))
  }

  lemma StepBreaks(hmac: Setup.Hmac, j: Joint, e: Event, toClient: bool)
    requires Setup.Digests(hmac) && Inv(hmac, j) && Enabled(j, e)
    requires e.DataIn? ==> e.i < |SideOf(j, e.toClient).link.inbound.log|
    ensures var s, s' := SideOf(j, toClient), SideOf(Next(hmac, j, e), toClient);
      Unbroken(s') <==> Unbroken(s) && !Breaks(hmac, j, e, toClient)
  {
    hide Setup.Inv, Setup.Next, Setup.Digests, Sound, EndToEnd.QueueInv, DeliverHeard, SackFor, CanArrive, Whole;
    var s, s' := SideOf(j, toClient), SideOf(Next(hmac, j, e), toClient);
    if e.DataIn? && e.toClient == toClient {
      ArrivalFinishes(s, e.i, e.sorted, Hearing(j, toClient));
    } else if e.Setting? {
      ClosingFinishes(s);
    }
  }

  /** A message once torn and completed stays missing. */
  lemma TearsStay(hmac: Setup.Hmac, j: Joint, e: Event, toClient: bool)
    requires Setup.Digests(hmac) && Inv(hmac, j) && Enabled(j, e)
    requires e.DataIn? ==> e.i < |SideOf(j, e.toClient).link.inbound.log|
    ensures var s, s' := SideOf(j, toClient), SideOf(Next(hmac, j, e), toClient);
      NothingTorn(s'.link, s'.torn) ==> NothingTorn(s.link, s.torn)
  {
    hide Setup.Inv, Setup.Next, Setup.Digests, Sound, EndToEnd.QueueInv, DeliverHeard, SackFor, CanArrive, Whole;
    var s := SideOf(j, toClient);
    if e.DataIn? && e.toClient == toClient {
      ArrivalFinishes(s, e.i, e.sorted, Hearing(j, toClient));
    } else if e.Setting? {
      ReleaseFinishes(s.link.inbound.rx);
    }
  }

  /** A torn message is completed only by DATA that reaches an end that has closed. */
  lemma TearsOnlyAfterClose(hmac: Setup.Hmac, j: Joint, e: Event, toClient: bool)
    requires Setup.Digests(hmac) && Inv(hmac, j) && Enabled(j, e)
    requires e.DataIn? ==> e.i < |SideOf(j, e.toClient).link.inbound.log| && !HasClosed(j, e.toClient)
    ensures var s, s' := SideOf(j, toClient), SideOf(Next(hmac, j, e), toClient);
      NothingTorn(s.link, s.torn) ==> NothingTorn(s'.link, s'.torn)
  {
    hide Setup.Inv, Setup.Next, Setup.Digests, Sound, EndToEnd.QueueInv, DeliverHeard, SackFor, CanArrive, Whole;
    var s := SideOf(j, toClient);
    if e.DataIn? && e.toClient == toClient {
      ArrivalFinishes(s, e.i, e.sorted, Hearing(j, toClient));
    } else if e.Setting? {
      ReleaseFinishes(s.link.inbound.rx);
    }
  }

  lemma ReleaseFinishes(rx: Receiver)
    ensures Finished(Released(rx)) == Finished(rx)
  {}

  /** An arrival completes more messages, and tears none. */
  lemma ArrivalFinishes(s: Side, i: nat, sorted: seq<u32>, throws: Listener)
    requires Sound(s) && CanArrive(s, i, sorted, throws)
    ensures i < |s.link.inbound.log|
    ensures var s' := Arrives(s, i, sorted, throws);
      && s'.torn == s.torn && |Finished(s.link.inbound.rx)| <= |Finished(s'.link.inbound.rx)|
      && (s.health != Well ==> s' == s)
  {
    hide EndToEnd.Core, Contiguous, Matches, ConsumeAll, DeliverHeard, SackFor;
    if s.health == Well {
      var o := Hears(s, i, throws);
      DeliverFollows(s.link.inbound.cmp, s.link.inbound.rx, s.link.inbound.log[i], throws);
      var a, b := s.link.inbound.rx.consumed, o.rx.consumed;
      assert b[..|a|] == a;
      Fragmentation.EmittedGrows(Delivery.NOTHING, b, |a|);
    }
  }

  lemma ClosingFinishes(s: Side)
    requires Sound(s)
    ensures Unbroken(ReceiverCloses(s)) <==> Unbroken(s)
    ensures Unbroken(SenderCloses(s)) <==> Unbroken(s)
  {
    hide EndToEnd.Core, Contiguous, ConsumeAll;
    ReleaseMatches(s.link.inbound.rx, s.torn);
  }

  /**
   * A direction stays unbroken exactly if no arrival of the run breaks it; then all completed messages have
   * come out, and once every chunk sent has been taken in, everything before the first refused one.
   */
  lemma {:induction false} BrokenIff(hmac: Setup.Hmac, j: Joint, events: seq<Event>, toClient: bool)
    requires Setup.Digests(hmac) && Inv(hmac, j) && Schedule(hmac, j, events)
    ensures var s, s' := SideOf(j, toClient), SideOf(Run(hmac, j, events), toClient);
      && (Unbroken(s') <==> Unbroken(s) && !Broken(hmac, j, events, toClient))
      && Delivered(s')
    decreases |events|
  {
    hide Inv, Enabled, Next, Setup.Digests, Unbroken, Breaks, Delivered, Sound;
    if events == [] {
      InvDelivers(hmac, j);
    } else {
      StepBreaks(hmac, j, events[0], toClient);
      StepKeepsInv(hmac, j, events[0]);
      BrokenIff(hmac, Next(hmac, j, events[0]), events[1..], toClient);
    }
  }

  lemma InvDelivers(hmac: Setup.Hmac, j: Joint)
    requires Setup.Digests(hmac) && Inv(hmac, j)
    ensures Delivered(j.toClient) && Delivered(j.toServer)
  {
    hide Setup.Inv, Coupled, Queues, Sound, Delivered;
    SoundDelivers(j.toClient);
    SoundDelivers(j.toServer);
  }

  /** An arrival that could break the direction: at an end that has closed, or whose listener throws. */
  predicate Disturbs(j: Joint, e: Event, toClient: bool)
    requires e.DataIn? ==> e.i < |SideOf(j, e.toClient).link.inbound.log|
  {
    && e.DataIn? && e.toClient == toClient
    && (HasClosed(j, toClient) || Hears(SideOf(j, toClient), e.i, Hearing(j, toClient)).threw)
  }

  ghost predicate Calm(hmac: Setup.Hmac, j: Joint, events: seq<Event>, toClient: bool)
    requires Setup.Digests(hmac) && Schedule(hmac, j, events)
    decreases |events|
  {
    events != [] ==>
      && !Disturbs(j, events[0], toClient)
      && Calm(hmac, Next(hmac, j, events[0]), events[1..], toClient)
  }

  lemma CalmStep(hmac: Setup.Hmac, j: Joint, e: Event, toClient: bool)
    requires Setup.Digests(hmac) && Inv(hmac, j) && (e.DataIn? ==> e.i < |SideOf(j, e.toClient).link.inbound.log|)
    requires !Disturbs(j, e, toClient)
    ensures !Breaks(hmac, j, e, toClient)
  {
    hide Setup.Inv, Setup.Next, Setup.Digests, Sound, EndToEnd.QueueInv, DeliverHeard, SackFor, Whole;
  }

  /** No DATA after a close, and no OPEN before the association is established: then nothing is missing. */
  lemma {:induction false} CalmIsUnbroken(
      hmac: Setup.Hmac, j: Joint, events: seq<Event>, toClient: bool)
    requires Setup.Digests(hmac) && Inv(hmac, j) && Schedule(hmac, j, events)
    requires Calm(hmac, j, events, toClient)
    ensures !Broken(hmac, j, events, toClient)
    decreases |events|
  {
    hide Inv, Enabled, Next, Setup.Digests, Breaks, Disturbs;
    if events != [] {
      CalmStep(hmac, j, events[0], toClient);
      StepKeepsInv(hmac, j, events[0]);
      CalmIsUnbroken(hmac, Next(hmac, j, events[0]), events[1..], toClient);
    }
  }

  lemma {:induction false} RunPush(hmac: Setup.Hmac, j: Joint, xs: seq<Event>, e: Event)
    requires Setup.Digests(hmac) && Schedule(hmac, j, xs)
    requires var j' := Run(hmac, j, xs);
      Enabled(j', e) && (e.DataIn? ==> e.i < |SideOf(j', e.toClient).link.inbound.log|)
    ensures Schedule(hmac, j, xs + [e])
    ensures Run(hmac, j, xs + [e]) == Next(hmac, Run(hmac, j, xs), e)
    decreases |xs|
  {
    hide Enabled, Next, Setup.Digests;
    if xs == [] {
      assert xs + [e] == [e] && [e][1..] == [];
    } else {
      assert (xs + [e])[0] == xs[0] && (xs + [e])[1..] == xs[1..] + [e];
      RunPush(hmac, Next(hmac, j, xs[0]), xs[1..], e);
    }
  }
}
