/**
 * Data channels over the association, from its first INIT on: two managers, the setup, and two links that lose,
 * repeat and reorder packets (src/sctp/datachannel-manager.ts over src/sctp/association.ts).
 */
module ChannelsOverSctp {
  import opened Bytes
  import opened Serial
  import opened Association
  import opened Interruption
  import opened Reception
  import Lifetime
  import Setup
  import EndToEnd
  import ChannelRuns
  import ChannelLimits
  import DataChannels
  import DataChannelObjects

  /** `channels.a` is the client's manager and `channels.b` the server's. */
  datatype Stack = Stack(channels: ChannelRuns.System, joint: Lifetime.Joint)

  datatype Event =
    | Setting(e: Setup.Event)                                           // a setup packet, the setup timer, or a close
    | Open(byClient: bool, name: Buffer, init: DataChannels.Init)
    | Send(byClient: bool, id: nat, frame: DataChannels.Frame)
    | Packet(toClient: bool, i: nat, sorted: seq<u32>)
    | Sack(toClient: bool, p: EndToEnd.Stamped)

  ghost predicate Initial(s: Stack) { ChannelRuns.Initial(s.channels) && Lifetime.Initial(s.joint) }

  function EndOf(c: ChannelRuns.System, client: bool): DataChannels.Manager { if client then c.a else c.b }

  function LogOf(c: ChannelRuns.System, client: bool): seq<Message> { EndOf(c, client).log }

  function GotBy(c: ChannelRuns.System, client: bool): nat { if client then c.gotA else c.gotB }

  // ---- Steps ----

  /** The last message of `after`, if it is new, has gone through the end's `sendData`. */
  function Carried(hmac: Setup.Hmac, j: Lifetime.Joint, client: bool, before: seq<Message>, after: seq<Message>,
      unordered: bool): Lifetime.Joint
    requires Setup.Digests(hmac)
  {
    if |after| > |before| then
      Lifetime.Next(hmac, j, Lifetime.Send(!client, after[|after| - 1], unordered))
    else j
  }

  /** A step of one manager, with what it sends. */
  function Local(hmac: Setup.Hmac, s: Stack, c: ChannelRuns.System, client: bool, unordered: bool): Stack
    requires Setup.Digests(hmac)
  {
    Stack(c, Carried(hmac, s.joint, client, LogOf(s.channels, client), LogOf(c, client), unordered))
  }

  ghost predicate LocalInTime(s: Stack, c: ChannelRuns.System, client: bool, unordered: bool) {
    var before, after := LogOf(s.channels, client), LogOf(c, client);
    |after| > |before| ==>
      EndToEnd.Timely(Lifetime.SideOf(s.joint, !client).link, EndToEnd.SendMessage(after[|after| - 1], unordered))
  }

  /** The manager hears a message. */
  function Heard(c: ChannelRuns.System, client: bool, m: Message): ChannelRuns.System {
    if client then c.(a := DataChannels.OnMessage(c.a, m), gotA := c.gotA + 1)
    else c.(b := DataChannels.OnMessage(c.b, m), gotB := c.gotB + 1)
  }

  /** The messages one chunk completes are heard one by one; the answers go out in between. */
  function Handled(hmac: Setup.Hmac, s: Stack, client: bool, ms: seq<Message>): Stack
    requires Setup.Digests(hmac)
    decreases |ms|
  {
    if ms == [] then s
    else Handled(hmac, Local(hmac, s, Heard(s.channels, client, ms[0]), client, false), client, ms[1..])
  }

  ghost predicate AnsweredInTime(hmac: Setup.Hmac, s: Stack, client: bool, ms: seq<Message>)
    requires Setup.Digests(hmac)
    decreases |ms|
  {
    ms != [] ==>
      && LocalInTime(s, Heard(s.channels, client, ms[0]), client, false)
      && AnsweredInTime(hmac, Local(hmac, s, Heard(s.channels, client, ms[0]), client, false), client, ms[1..])
  }

  /** How many of the messages that came out the manager has dealt with: the one it threw on it has not. */
  function Due(s: Side): int { |Emitted(s.link)| - if s.health.AnswerFailed? then 1 else 0 }

  function NewlyDue(before: Side, after: Side): seq<Message> {
    var n, m := Due(before), Due(after);
    if 0 <= n <= m <= |Emitted(after.link)| then Emitted(after.link)[n..m] else []
  }

  function AfterData(hmac: Setup.Hmac, s: Stack, e: Event): Stack
    requires Setup.Digests(hmac) && e.Packet? && e.i < |Lifetime.SideOf(s.joint, e.toClient).link.inbound.log|
  {
    s.(joint := Lifetime.Next(hmac, s.joint, Lifetime.DataIn(e.toClient, e.i, e.sorted)))
  }

  function Newly(hmac: Setup.Hmac, s: Stack, e: Event): seq<Message>
    requires Setup.Digests(hmac) && e.Packet? && e.i < |Lifetime.SideOf(s.joint, e.toClient).link.inbound.log|
  {
    NewlyDue(Lifetime.SideOf(s.joint, e.toClient), Lifetime.SideOf(AfterData(hmac, s, e).joint, e.toClient))
  }

  function UnorderedFrames(s: Stack, client: bool, id: nat): bool {
    var m := EndOf(s.channels, client);
    id in m.channels && m.channels[id].init.unordered
  }

  /** An OPEN is passed to `sendData` only by an established end. */
  function Opening(s: Stack, client: bool, name: Buffer, init: DataChannels.Init): ChannelRuns.Event {
    if Lifetime.Established(s.joint, client) then ChannelRuns.Open(client, name, init)
    else ChannelRuns.OpenEarly(client, name, init)
  }

  ghost predicate Enabled(hmac: Setup.Hmac, s: Stack, e: Event)
    requires Setup.Digests(hmac)
  {
    match e
    case Setting(y) => Lifetime.Enabled(s.joint, Lifetime.Setting(y))
    case Open(client, name, init) =>
      LocalInTime(s, ChannelRuns.Next(s.channels, Opening(s, client, name, init)), client, false)
    case Send(client, id, f) =>
      && ChannelRuns.Enabled(s.channels, ChannelRuns.Send(client, id, f)) && Lifetime.Established(s.joint, client)
      && LocalInTime(s, ChannelRuns.Next(s.channels, ChannelRuns.Send(client, id, f)), client,
          UnorderedFrames(s, client, id))
    case Packet(toClient, i, sorted) =>
      && i < |Lifetime.SideOf(s.joint, toClient).link.inbound.log|
      && Lifetime.Enabled(s.joint, Lifetime.DataIn(toClient, i, sorted))
      && AnsweredInTime(hmac, AfterData(hmac, s, e), toClient, Newly(hmac, s, e))
    case Sack(toClient, p) => Lifetime.Enabled(s.joint, Lifetime.SackIn(toClient, p))
  }

  function Next(hmac: Setup.Hmac, s: Stack, e: Event): Stack
    requires Setup.Digests(hmac) && Enabled(hmac, s, e)
  {
    match e
    case Setting(y) => s.(joint := Lifetime.Next(hmac, s.joint, Lifetime.Setting(y)))
    case Open(client, name, init) =>
      Local(hmac, s, ChannelRuns.Next(s.channels, Opening(s, client, name, init)), client, false)
    case Send(client, id, f) =>
      Local(hmac, s, ChannelRuns.Next(s.channels, ChannelRuns.Send(client, id, f)), client,
          UnorderedFrames(s, client, id))
    case Packet(toClient, i, sorted) => Handled(hmac, AfterData(hmac, s, e), toClient, Newly(hmac, s, e))
    case Sack(toClient, p) => s.(joint := Lifetime.Next(hmac, s.joint, Lifetime.SackIn(toClient, p)))
  }

  // ---- Invariants ----

  /** No end has lost the rest of a message by closing in the middle of it. */
  ghost predicate Intact(j: Lifetime.Joint) {
    NothingTorn(j.toClient.link, j.toClient.torn) && NothingTorn(j.toServer.link, j.toServer.torn)
  }

  /** Each log is what went through `sendData`. */
  predicate Calls(s: Stack) {
    s.joint.toServer.link.msgs == s.channels.a.log && s.joint.toClient.link.msgs == s.channels.b.log
  }

  /** While nothing is torn, each manager has dealt with all that is due but so many messages. */
  ghost predicate Counted(s: Stack, moreA: nat, moreB: nat) {
    && Calls(s)
    && (Intact(s.joint) ==>
          && ChannelRuns.Inv(s.channels)
          && s.channels.gotA + moreA == Due(s.joint.toClient) && s.channels.gotB + moreB == Due(s.joint.toServer))
  }

  ghost predicate Inv(hmac: Setup.Hmac, s: Stack)
    requires Setup.Digests(hmac)
  {
    Lifetime.Inv(hmac, s.joint) && Counted(s, 0, 0)
  }

  /** The reception of both directions, which sending does not touch. */
  predicate SameReception(j: Lifetime.Joint, j': Lifetime.Joint) {
    && j'.toClient.link.inbound.rx == j.toClient.link.inbound.rx && j'.toClient.torn == j.toClient.torn
    && j'.toServer.link.inbound.rx == j.toServer.link.inbound.rx && j'.toServer.torn == j.toServer.torn
    && j'.toClient.health == j.toClient.health && j'.toServer.health == j.toServer.health
    && j'.setup.client.state == j.setup.client.state && j'.setup.server.state == j.setup.server.state
  }

  lemma CarriedKeeps(hmac: Setup.Hmac, j: Lifetime.Joint, client: bool, before: seq<Message>, after: seq<Message>,
      unordered: bool)
    requires Setup.Digests(hmac) && Lifetime.Inv(hmac, j) && before == Lifetime.SideOf(j, !client).link.msgs
    requires after == before || (|after| == |before| + 1 && before <= after)
    requires |after| > |before| ==>
      && Lifetime.Established(j, client)
      && EndToEnd.Timely(Lifetime.SideOf(j, !client).link, EndToEnd.SendMessage(after[|after| - 1], unordered))
    ensures var j' := Carried(hmac, j, client, before, after, unordered);
      && Lifetime.Inv(hmac, j') && SameReception(j, j')
      && Lifetime.SideOf(j', !client).link.msgs == after
      && Lifetime.SideOf(j', client) == Lifetime.SideOf(j, client)
  {
    hide Lifetime.Inv, EndToEnd.Timely, MessagePieces, Association.Send, Setup.Digests;
    if |after| > |before| {
      var m := after[|before|];
      assert before + [m] == after;
      Lifetime.StepKeepsInv(hmac, j, Lifetime.Send(!client, m, unordered));
      SendIs(hmac, j, client, m, unordered);
    }
  }

  lemma SendIs(hmac: Setup.Hmac, j: Lifetime.Joint, client: bool, m: Message, unordered: bool)
    requires Setup.Digests(hmac)
    ensures var j' := Lifetime.Next(hmac, j, Lifetime.Send(!client, m, unordered));
      && SameReception(j, j')
      && Lifetime.SideOf(j', !client).link.msgs == Lifetime.SideOf(j, !client).link.msgs + [m]
      && Lifetime.SideOf(j', client) == Lifetime.SideOf(j, client)
  {
    hide MessagePieces, Association.Send, Setup.Digests;
  }

  lemma SameReceptionIntact(j: Lifetime.Joint, j': Lifetime.Joint)
    requires SameReception(j, j')
    ensures Intact(j') <==> Intact(j)
    ensures Due(j'.toClient) == Due(j.toClient) && Due(j'.toServer) == Due(j.toServer)
  {
    hide Whole;
  }

  /** A step of one manager that is a step of the managers' own model, while that applies. */
  lemma LocalKeeps(hmac: Setup.Hmac, s: Stack, c: ChannelRuns.System, client: bool, unordered: bool,
      moreA: nat, moreB: nat, moreA': nat, moreB': nat)
    requires Setup.Digests(hmac) && Lifetime.Inv(hmac, s.joint) && Counted(s, moreA, moreB)
    requires var before, after := LogOf(s.channels, client), LogOf(c, client);
      && (after == before || (|after| == |before| + 1 && before <= after))
      && (|after| > |before| ==> Lifetime.Established(s.joint, client))
      && LogOf(c, !client) == LogOf(s.channels, !client)
    requires LocalInTime(s, c, client, unordered)
    requires Intact(s.joint) ==>
      && ChannelRuns.Inv(c)
      && c.gotA + moreA' == s.channels.gotA + moreA && c.gotB + moreB' == s.channels.gotB + moreB
    ensures var s' := Local(hmac, s, c, client, unordered);
      Lifetime.Inv(hmac, s'.joint) && Counted(s', moreA', moreB') && SameReception(s.joint, s'.joint)
  {
    hide Lifetime.Inv, ChannelRuns.Inv, Intact, Due, Carried, EndToEnd.Timely, Setup.Digests;
    CarriedKeeps(hmac, s.joint, client, LogOf(s.channels, client), LogOf(c, client), unordered);
    SameReceptionIntact(s.joint, Local(hmac, s, c, client, unordered).joint);
  }

  // ---- Hearing messages ----

  /** A message in its turn is the manager's own delivery step, and it is answered by an established end only. */
  lemma HeardIsDelivery(c: ChannelRuns.System, client: bool, m: Message, established: bool)
    requires !DataChannelObjects.AnswerThrows(m, established)
    ensures var before, after := LogOf(c, client), LogOf(Heard(c, client, m), client);
      && (after == before || (|after| == |before| + 1 && before <= after && established))
      && LogOf(Heard(c, client, m), !client) == LogOf(c, !client)
      && GotBy(Heard(c, client, m), client) == GotBy(c, client) + 1
      && GotBy(Heard(c, client, m), !client) == GotBy(c, !client)
    ensures var log, got := LogOf(c, !client), GotBy(c, client);
      ChannelRuns.Inv(c) && got < Clear(log) && log[got] == m ==> ChannelRuns.Inv(Heard(c, client, m))
  {
    hide ChannelRuns.Inv;
    var log, got := LogOf(c, !client), GotBy(c, client);
    if ChannelRuns.Inv(c) && got < Clear(log) && log[got] == m {
      ChannelRuns.StepKeepsInv(c, ChannelRuns.Deliver(client));
      assert ChannelRuns.Next(c, ChannelRuns.Deliver(client)) == Heard(c, client, m);
    }
  }

  /** These messages come next in the other end's log. */
  predicate ComeNext(log: seq<Message>, got: nat, ms: seq<Message>) {
    got + |ms| <= Clear(log) && ms == log[got..got + |ms|]
  }

  lemma {:induction false} HandledKeeps(hmac: Setup.Hmac, s: Stack, client: bool, ms: seq<Message>)
    requires Setup.Digests(hmac) && Lifetime.Inv(hmac, s.joint)
    requires if client then Counted(s, |ms|, 0) else Counted(s, 0, |ms|)
    requires Intact(s.joint) ==> ComeNext(LogOf(s.channels, !client), GotBy(s.channels, client), ms)
    requires forall m | m in ms :: !DataChannelObjects.AnswerThrows(m, Lifetime.Established(s.joint, client))
    requires AnsweredInTime(hmac, s, client, ms)
    ensures var s' := Handled(hmac, s, client, ms);
      Inv(hmac, s') && SameReception(s.joint, s'.joint) && LogOf(s'.channels, !client) == LogOf(s.channels, !client)
    decreases |ms|
  {
    hide Lifetime.Inv, ChannelRuns.Inv, Intact, Heard, LocalInTime, Setup.Digests, Local, LogOf, GotBy, Clear, Due;
    if ms != [] {
      var c := Heard(s.channels, client, ms[0]);
      var n := |ms|;
      ComesFirst(LogOf(s.channels, !client), GotBy(s.channels, client), ms);
      HeardIsDelivery(s.channels, client, ms[0], Lifetime.Established(s.joint, client));
      GotsMove(s.channels, client, ms[0]);
      if client {
        LocalKeeps(hmac, s, c, client, false, n, 0, n - 1, 0);
      } else {
        LocalKeeps(hmac, s, c, client, false, 0, n, 0, n - 1);
      }
      var s1 := Local(hmac, s, c, client, false);
      SameReceptionIntact(s.joint, s1.joint);
      LocalChannels(hmac, s, c, client);
      HandledKeeps(hmac, s1, client, ms[1..]);
    }
  }

  lemma ComesFirst(log: seq<Message>, got: nat, ms: seq<Message>)
    requires ms != []
    ensures ComeNext(log, got, ms) ==> got < Clear(log) && log[got] == ms[0] && ComeNext(log, got + 1, ms[1..])
  {
    hide Clear;
    if ComeNext(log, got, ms) {
      assert log[got + 1..got + |ms|] == log[got..got + |ms|][1..];
      assert log[got] == log[got..got + |ms|][0];
    }
  }

  lemma GotsMove(c: ChannelRuns.System, client: bool, m: Message)
    ensures var c' := Heard(c, client, m);
      && c'.gotA == c.gotA + (if client then 1 else 0) && c'.gotB == c.gotB + (if client then 0 else 1)
      && GotBy(c', client) == GotBy(c, client) + 1
  {}

  lemma LocalChannels(hmac: Setup.Hmac, s: Stack, c: ChannelRuns.System, client: bool)
    requires Setup.Digests(hmac)
    ensures Local(hmac, s, c, client, false).channels == c
  {}

  // ---- A packet ----

  /** What a chunk makes due are the next messages, and none the listener throws on. */
  lemma NewlyIs(hmac: Setup.Hmac, s: Stack, e: Event)
    requires Setup.Digests(hmac) && Inv(hmac, s) && e.Packet? && Enabled(hmac, s, e)
    ensures var ms, s1 := Newly(hmac, s, e), AfterData(hmac, s, e);
      var before, after := Lifetime.SideOf(s.joint, e.toClient), Lifetime.SideOf(s1.joint, e.toClient);
      && 0 <= Due(before) <= Due(after) <= |Emitted(after.link)| && Due(after) == Due(before) + |ms|
      && ms == Emitted(after.link)[Due(before)..Due(after)]
      && (forall m | m in ms :: !DataChannelObjects.AnswerThrows(m, Lifetime.Established(s.joint, e.toClient)))
  {
    hide Lifetime.Inv, Counted, Setup.Digests, SackFor, DeliverHeard, AnsweredInTime, CanArrive, Setup.Next, Heard;
    var side, throws := Lifetime.SideOf(s.joint, e.toClient), Lifetime.Hearing(s.joint, e.toClient);
    var l := side.link.inbound;
    DeliverHears(l.cmp, l.rx, l.log[e.i], throws);
    UnansweredIsLast(hmac, s.joint, e.toClient);
  }

  /** An end whose listener threw has a last message. */
  lemma UnansweredIsLast(hmac: Setup.Hmac, j: Lifetime.Joint, toClient: bool)
    requires Setup.Digests(hmac) && Lifetime.Inv(hmac, j)
    ensures Due(Lifetime.SideOf(j, toClient)) >= 0
  {
    hide Setup.Inv, Lifetime.Coupled, Lifetime.Queues, EndToEnd.Core, Contiguous, Matches;
  }

  lemma DataKeeps(hmac: Setup.Hmac, s: Stack, e: Event)
    requires Setup.Digests(hmac) && Inv(hmac, s) && e.Packet? && Enabled(hmac, s, e)
    ensures var s1, ms := AfterData(hmac, s, e), Newly(hmac, s, e);
      && Lifetime.Inv(hmac, s1.joint) && (if e.toClient then Counted(s1, |ms|, 0) else Counted(s1, 0, |ms|))
      && (Intact(s1.joint) ==> ComeNext(LogOf(s1.channels, !e.toClient), GotBy(s1.channels, e.toClient), ms))
      && Lifetime.Established(s1.joint, e.toClient) == Lifetime.Established(s.joint, e.toClient)
  {
    hide Lifetime.Inv, Setup.Digests, Arrives, AnsweredInTime, ChannelRuns.Inv, Lifetime.Enabled, NothingTorn, Newly;
    hide Clear, Setup.Next;
    var y := Lifetime.DataIn(e.toClient, e.i, e.sorted);
    Lifetime.StepKeepsInv(hmac, s.joint, y);
    NewlyIs(hmac, s, e);
    DataIs(hmac, s, e);
    TearsStayBoth(hmac, s.joint, y);
    var s1 := AfterData(hmac, s, e);
    if Intact(s1.joint) {
      OutIsLogged(hmac, s1.joint, e.toClient);
    }
  }

  /** What a packet leaves alone. */
  lemma DataIs(hmac: Setup.Hmac, s: Stack, e: Event)
    requires Setup.Digests(hmac) && e.Packet? && e.i < |Lifetime.SideOf(s.joint, e.toClient).link.inbound.log|
    ensures var s1 := AfterData(hmac, s, e);
      && s1.channels == s.channels
      && s1.joint.toClient.link.msgs == s.joint.toClient.link.msgs
      && s1.joint.toServer.link.msgs == s.joint.toServer.link.msgs
      && Lifetime.SideOf(s1.joint, !e.toClient) == Lifetime.SideOf(s.joint, !e.toClient)
      && s1.joint.setup.client.state == s.joint.setup.client.state
      && s1.joint.setup.server.state == s.joint.setup.server.state
  {
    hide Setup.Digests, DeliverHeard, SackFor;
  }

  lemma TearsStayBoth(hmac: Setup.Hmac, j: Lifetime.Joint, y: Lifetime.Event)
    requires Setup.Digests(hmac) && Lifetime.Inv(hmac, j) && Lifetime.Enabled(j, y)
    requires y.DataIn? ==> y.i < |Lifetime.SideOf(j, y.toClient).link.inbound.log|
    ensures Intact(Lifetime.Next(hmac, j, y)) ==> Intact(j)
  {
    hide Lifetime.Inv, Lifetime.Enabled, Lifetime.Next, NothingTorn, Setup.Digests;
    Lifetime.TearsStay(hmac, j, y, true);
    Lifetime.TearsStay(hmac, j, y, false);
  }

  /** While nothing is torn, what came out is a prefix of what went in. */
  lemma OutIsLogged(hmac: Setup.Hmac, j: Lifetime.Joint, toClient: bool)
    requires Setup.Digests(hmac) && Lifetime.Inv(hmac, j) && Intact(j)
    ensures var l := Lifetime.SideOf(j, toClient).link; Emitted(l) <= l.msgs[..Clear(l.msgs)]
  {
    hide Lifetime.Inv, Setup.Digests, EndToEnd.AllArrived, Whole, Clear;
    Lifetime.InvDelivers(hmac, j);
  }

  // ---- Every step ----

  lemma PacketStep(hmac: Setup.Hmac, s: Stack, e: Event)
    requires Setup.Digests(hmac) && Inv(hmac, s) && e.Packet? && Enabled(hmac, s, e)
    ensures Inv(hmac, Next(hmac, s, e))
  {
    hide Inv, Lifetime.Inv, Counted, Intact, ComeNext, Setup.Digests, Handled, Newly, AfterData, Lifetime.Enabled;
    DataKeeps(hmac, s, e);
    NewlyIs(hmac, s, e);
    HandledKeeps(hmac, AfterData(hmac, s, e), e.toClient, Newly(hmac, s, e));
  }

  lemma JointStep(hmac: Setup.Hmac, s: Stack, e: Event)
    requires Setup.Digests(hmac) && Inv(hmac, s) && (e.Setting? || e.Sack?) && Enabled(hmac, s, e)
    ensures Inv(hmac, Next(hmac, s, e))
  {
    hide Lifetime.Inv, ChannelRuns.Inv, Intact, Setup.Digests, Lifetime.Enabled, Setup.Next, HandleSack;
    var y := if e.Setting? then Lifetime.Setting(e.e) else Lifetime.SackIn(e.toClient, e.p);
    OnlyJointEvents(s, e);
    Lifetime.StepKeepsInv(hmac, s.joint, y);
    TearsStayBoth(hmac, s.joint, y);
  }

  lemma OnlyJointEvents(s: Stack, e: Event)
    requires (e.Setting? && Lifetime.Enabled(s.joint, Lifetime.Setting(e.e)))
          || (e.Sack? && Lifetime.Enabled(s.joint, Lifetime.SackIn(e.toClient, e.p)))
    ensures e.Setting? ==> !e.e.ServerSends? && !e.e.ClientSends? && !e.e.ClientConsumes? && !e.e.ServerConsumes?
  {}

  lemma ChannelStep(hmac: Setup.Hmac, s: Stack, e: Event)
    requires Setup.Digests(hmac) && Inv(hmac, s) && (e.Open? || e.Send?) && Enabled(hmac, s, e)
    ensures Inv(hmac, Next(hmac, s, e))
  {
    hide Lifetime.Inv, ChannelRuns.Inv, Intact, Setup.Digests, Local, LocalInTime, Due;
    var client := e.byClient;
    var y := if e.Open? then Opening(s, client, e.name, e.init) else ChannelRuns.Send(client, e.id, e.frame);
    ManagerStep(s.channels, y, client);
    if Intact(s.joint) {
      ChannelRuns.StepKeepsInv(s.channels, y);
    }
    var unordered := if e.Open? then false else UnorderedFrames(s, client, e.id);
    LocalKeeps(hmac, s, ChannelRuns.Next(s.channels, y), client, unordered, 0, 0, 0, 0);
  }

  /** A manager's own step adds at most one message to its own log. */
  lemma ManagerStep(c: ChannelRuns.System, y: ChannelRuns.Event, client: bool)
    requires ChannelRuns.Enabled(c, y) && (y.Open? || y.OpenEarly? || y.Send?) && y.byA == client
    ensures var before, after := LogOf(c, client), LogOf(ChannelRuns.Next(c, y), client);
      && (after == before || (|after| == |before| + 1 && before <= after && !y.OpenEarly?))
      && LogOf(ChannelRuns.Next(c, y), !client) == LogOf(c, !client)
      && ChannelRuns.Next(c, y).gotA == c.gotA && ChannelRuns.Next(c, y).gotB == c.gotB
  {}

  lemma StepKeepsInv(hmac: Setup.Hmac, s: Stack, e: Event)
    requires Setup.Digests(hmac) && Inv(hmac, s) && Enabled(hmac, s, e)
    ensures Inv(hmac, Next(hmac, s, e))
  {
    hide Inv, Enabled, Next, Setup.Digests;
    match e
    case Setting(_) => JointStep(hmac, s, e);
    case Sack(_, _) => JointStep(hmac, s, e);
    case Packet(_, _, _) => PacketStep(hmac, s, e);
    case _ => ChannelStep(hmac, s, e);
  }

  lemma InitialInv(hmac: Setup.Hmac, s: Stack)
    requires Setup.Digests(hmac) && Initial(s)
    ensures Inv(hmac, s)
  {
    hide Setup.Digests, ChannelRuns.Inv, Lifetime.Inv, Intact, EndToEnd.Initial, Setup.Initial;
    ChannelRuns.InitialInv(s.channels);
    Lifetime.InitialInv(hmac, s.joint);
    FreshDue(s.joint.toClient);
    FreshDue(s.joint.toServer);
  }

  lemma FreshDue(s: Side)
    requires Fresh(s)
    ensures Due(s) == 0 && s.link.msgs == []
  {}

  // ---- Whole runs ----

  ghost predicate Schedule(hmac: Setup.Hmac, s: Stack, events: seq<Event>)
    requires Setup.Digests(hmac)
    decreases |events|
  {
    events != [] ==> Enabled(hmac, s, events[0]) && Schedule(hmac, Next(hmac, s, events[0]), events[1..])
  }

  function Run(hmac: Setup.Hmac, s: Stack, events: seq<Event>): Stack
    requires Setup.Digests(hmac) && Schedule(hmac, s, events)
    decreases |events|
  {
    if events == [] then s else Run(hmac, Next(hmac, s, events[0]), events[1..])
  }

  lemma {:induction false} RunKeepsInv(hmac: Setup.Hmac, s: Stack, events: seq<Event>)
    requires Setup.Digests(hmac) && Inv(hmac, s) && Schedule(hmac, s, events)
    ensures Inv(hmac, Run(hmac, s, events))
    decreases |events|
  {
    hide Inv, Enabled, Next, Setup.Digests;
    if events != [] {
      StepKeepsInv(hmac, s, events[0]);
      RunKeepsInv(hmac, Next(hmac, s, events[0]), events[1..]);
    }
  }

  lemma StepStaysTorn(hmac: Setup.Hmac, s: Stack, e: Event)
    requires Setup.Digests(hmac) && Inv(hmac, s) && Enabled(hmac, s, e)
    ensures Intact(Next(hmac, s, e).joint) ==> Intact(s.joint)
  {
    hide Lifetime.Inv, ChannelRuns.Inv, Intact, Setup.Digests, Local, LocalInTime, Due, Handled, Newly, AfterData;
    hide AnsweredInTime, Lifetime.Enabled, ComeNext;
    match e
    case Setting(y) => TearsStayBoth(hmac, s.joint, Lifetime.Setting(y));
    case Sack(toClient, p) => TearsStayBoth(hmac, s.joint, Lifetime.SackIn(toClient, p));
    case Packet(toClient, i, sorted) =>
      DataKeeps(hmac, s, e);
      NewlyIs(hmac, s, e);
      HandledKeeps(hmac, AfterData(hmac, s, e), toClient, Newly(hmac, s, e));
      SameReceptionIntact(AfterData(hmac, s, e).joint, Next(hmac, s, e).joint);
      AfterDataIs(hmac, s, e);
      TearsStayBoth(hmac, s.joint, Lifetime.DataIn(toClient, i, sorted));
    case _ =>
      ChannelStepSame(hmac, s, e);
      SameReceptionIntact(s.joint, Next(hmac, s, e).joint);
  }

  lemma AfterDataIs(hmac: Setup.Hmac, s: Stack, e: Event)
    requires Setup.Digests(hmac) && e.Packet? && e.i < |Lifetime.SideOf(s.joint, e.toClient).link.inbound.log|
    ensures var y := Lifetime.DataIn(e.toClient, e.i, e.sorted);
      AfterData(hmac, s, e).joint == Lifetime.Next(hmac, s.joint, y)
  {}

  lemma ChannelStepSame(hmac: Setup.Hmac, s: Stack, e: Event)
    requires Setup.Digests(hmac) && Inv(hmac, s) && (e.Open? || e.Send?) && Enabled(hmac, s, e)
    ensures SameReception(s.joint, Next(hmac, s, e).joint)
  {
    hide Lifetime.Inv, ChannelRuns.Inv, Intact, Setup.Digests, Due;
    var client := e.byClient;
    var y := if e.Open? then Opening(s, client, e.name, e.init) else ChannelRuns.Send(client, e.id, e.frame);
    ManagerStep(s.channels, y, client);
    var unordered := if e.Open? then false else UnorderedFrames(s, client, e.id);
    var c := ChannelRuns.Next(s.channels, y);
    CarriedKeeps(hmac, s.joint, client, LogOf(s.channels, client), LogOf(c, client), unordered);
  }

  // ---- What is refused ----

  /** An established end tries an OPEN that can be written and whose id is above 65535. */
  predicate OpensTooHigh(s: Stack, e: Event, client: bool) {
    && e.Open? && e.byClient == client && Lifetime.Established(s.joint, client)
    && ChannelLimits.TooHigh(EndOf(s.channels, client), e.name, e.init)
  }

  ghost predicate TriedTooHigh(hmac: Setup.Hmac, s: Stack, events: seq<Event>, client: bool)
    requires Setup.Digests(hmac) && Schedule(hmac, s, events)
    decreases |events|
  {
    events != [] && (OpensTooHigh(s, events[0], client)
        || TriedTooHigh(hmac, Next(hmac, s, events[0]), events[1..], client))
  }

  predicate SendsFrame(events: seq<Event>, client: bool)
    decreases |events|
  {
    events != [] && ((events[0].Send? && events[0].byClient == client) || SendsFrame(events[1..], client))
  }

  /** At some point this end tries such an OPEN and later sends a frame. */
  ghost predicate FrameAfterTooHigh(hmac: Setup.Hmac, s: Stack, events: seq<Event>, client: bool)
    requires Setup.Digests(hmac) && Schedule(hmac, s, events)
    decreases |events|
  {
    && events != []
    && ((OpensTooHigh(s, events[0], client) && SendsFrame(events[1..], client))
        || FrameAfterTooHigh(hmac, Next(hmac, s, events[0]), events[1..], client))
  }

  /** Answering neither blocks a direction nor is held up as a frame. */
  lemma {:induction false} HandledBlocks(hmac: Setup.Hmac, s: Stack, client: bool, ms: seq<Message>, of: bool)
    requires Setup.Digests(hmac) && ChannelRuns.Inv(s.channels)
    requires ComeNext(LogOf(s.channels, !client), GotBy(s.channels, client), ms)
    ensures var before, after := LogOf(s.channels, of), LogOf(Handled(hmac, s, client, ms).channels, of);
      && (ChannelLimits.Blocked(after) <==> ChannelLimits.Blocked(before))
      && (ChannelLimits.FrameBlocked(after) <==> ChannelLimits.FrameBlocked(before))
    decreases |ms|
  {
    hide ChannelRuns.Inv, Local, Clear, ComeNext, ChannelLimits.Blocked, ChannelLimits.FrameBlocked, Setup.Digests;
    if ms != [] {
      ComesFirst(LogOf(s.channels, !client), GotBy(s.channels, client), ms);
      HeardIsNext(s.channels, client, ms[0]);
      ChannelLimits.StepBlocks(s.channels, ChannelRuns.Deliver(client), of);
      LocalChannels(hmac, s, Heard(s.channels, client, ms[0]), client);
      HandledBlocks(hmac, Local(hmac, s, Heard(s.channels, client, ms[0]), client, false), client, ms[1..], of);
    }
  }

  lemma HeardIsNext(c: ChannelRuns.System, client: bool, m: Message)
    requires ChannelRuns.Inv(c)
    requires GotBy(c, client) < Clear(LogOf(c, !client)) && LogOf(c, !client)[GotBy(c, client)] == m
    ensures var y := ChannelRuns.Deliver(client);
      && ChannelRuns.Enabled(c, y) && Heard(c, client, m) == ChannelRuns.Next(c, y)
      && ChannelRuns.Inv(Heard(c, client, m))
      && LogOf(Heard(c, client, m), !client) == LogOf(c, !client)
      && GotBy(Heard(c, client, m), client) == GotBy(c, client) + 1
  {
    hide ChannelRuns.Inv;
    ChannelRuns.StepKeepsInv(c, ChannelRuns.Deliver(client));
  }

  lemma StepBlocks(hmac: Setup.Hmac, s: Stack, e: Event, of: bool)
    requires Setup.Digests(hmac) && Inv(hmac, s) && Enabled(hmac, s, e) && Intact(Next(hmac, s, e).joint)
    ensures var before, after := LogOf(s.channels, of), LogOf(Next(hmac, s, e).channels, of);
      && (ChannelLimits.Blocked(after) <==> ChannelLimits.Blocked(before) || OpensTooHigh(s, e, of))
      && (ChannelLimits.FrameBlocked(after) <==>
            ChannelLimits.FrameBlocked(before) || (ChannelLimits.Blocked(before) && e.Send? && e.byClient == of))
  {
    hide ChannelRuns.Inv, Lifetime.Inv, Intact, Carried, ChannelLimits.Blocked, ChannelLimits.FrameBlocked;
    hide Handled, LocalInTime, AnsweredInTime, ChannelRuns.Next, Setup.Digests, Due, Newly, AfterData, Lifetime.Enabled;
    hide ComeNext, ChannelLimits.TooHigh;
    StepStaysTorn(hmac, s, e);
    match e
    case Open(client, name, init) => ChannelLimits.StepBlocks(s.channels, Opening(s, client, name, init), of);
    case Send(client, id, f) => ChannelLimits.StepBlocks(s.channels, ChannelRuns.Send(client, id, f), of);
    case Packet(toClient, i, sorted) =>
      DataKeeps(hmac, s, e);
      NewlyIs(hmac, s, e);
      HandledKeeps(hmac, AfterData(hmac, s, e), toClient, Newly(hmac, s, e));
      SameReceptionIntact(AfterData(hmac, s, e).joint, Next(hmac, s, e).joint);
      DataIs(hmac, s, e);
      HandledBlocks(hmac, AfterData(hmac, s, e), toClient, Newly(hmac, s, e), of);
    case _ =>
  }

  lemma {:induction false} RunBlocks(hmac: Setup.Hmac, s: Stack, events: seq<Event>, of: bool)
    requires Setup.Digests(hmac) && Inv(hmac, s) && Schedule(hmac, s, events) && Intact(Run(hmac, s, events).joint)
    ensures Intact(s.joint)
    ensures var before, after := LogOf(s.channels, of), LogOf(Run(hmac, s, events).channels, of);
      && (ChannelLimits.Blocked(after) <==> ChannelLimits.Blocked(before) || TriedTooHigh(hmac, s, events, of))
      && (ChannelLimits.FrameBlocked(after) <==>
            || ChannelLimits.FrameBlocked(before)
            || (ChannelLimits.Blocked(before) && SendsFrame(events, of))
            || FrameAfterTooHigh(hmac, s, events, of))
    decreases |events|
  {
    hide Inv, Next, Enabled, LogOf, ChannelLimits.Blocked, ChannelLimits.FrameBlocked, OpensTooHigh, Intact,
         Setup.Digests;
    if events != [] {
      StepKeepsInv(hmac, s, events[0]);
      RunBlocks(hmac, Next(hmac, s, events[0]), events[1..], of);
      StepBlocks(hmac, s, events[0], of);
      StepStaysTorn(hmac, s, events[0]);
    }
  }

  // ---- Main result ----

  /**
   * One direction: a prefix of the frames, whatever happens; and once every chunk sent has been taken in and
   * none was left behind by a listener that threw, every call to `sendData` has come out if and only if none was
   * refused, and every frame has been received if and only if none was sent after a refused call.
   */
  ghost predicate Survives(s: Side, from: DataChannels.Manager, to: DataChannels.Manager, tooHigh: bool,
      frameAfter: bool) {
    && (forall k: nat :: ChannelRuns.ReceivedOn(to, k) <= ChannelRuns.SentOn(from, k))
    && (EndToEnd.AllArrived(s.link) && s.health != AnswerFailed(true) ==>
          && (Emitted(s.link) == s.link.msgs <==> !tooHigh)
          && (ChannelLimits.AllReceived(from, to) <==> !frameAfter))
  }

  lemma DirectionSurvives(s: Side, from: DataChannels.Manager, to: DataChannels.Manager, got: nat, parity: nat)
    requires Reception.Delivered(s) && NothingTorn(s.link, s.torn) && Lifetime.Unanswered(s)
    requires s.link.msgs == from.log && got == Due(s) && ChannelRuns.Direction(from, to, got, parity)
    ensures Survives(s, from, to, ChannelLimits.Blocked(from.log), ChannelLimits.FrameBlocked(from.log))
  {
    hide EndToEnd.AllArrived, ChannelRuns.Direction, Clear, NothingTorn, Whole;
    hide ChannelLimits.FrameBlocked, ChannelLimits.AllReceived, ChannelRuns.ReceivedOn, ChannelRuns.SentOn;
    forall k: nat ensures ChannelRuns.ReceivedOn(to, k) <= ChannelRuns.SentOn(from, k) {
      ChannelRuns.DirectionDelivers(from, to, got, parity, k);
    }
    if EndToEnd.AllArrived(s.link) && s.health != AnswerFailed(true) {
      var e := Emitted(s.link);
      assert e == s.link.msgs[..Clear(s.link.msgs)];
      assert forall i | got <= i < |e| :: e[i].ppid == DataChannels.PPID_DCEP;
      ChannelLimits.FramesSettled(from, to, got, parity);
    }
  }

  /**
   * Frames over a lossy network, from the first INIT on, whatever is lost, repeated or reordered, whichever end
   * closes and whichever listener throws: unless an end closed in the middle of a message and went on receiving,
   * on every stream and in both directions the frames an application receives are a prefix of the frames its
   * peer sent, bytes and kind unchanged, and none before the channel opens; and `Survives` says exactly when
   * they are all of them.
   */
  lemma FramesSurviveTheNetwork(hmac: Setup.Hmac, s0: Stack, events: seq<Event>)
    requires Setup.Digests(hmac) && Initial(s0) && Schedule(hmac, s0, events)
    ensures var s := Run(hmac, s0, events);
      var a, b := s.channels.a, s.channels.b;
      Intact(s.joint) ==>
      && Survives(s.joint.toServer, a, b, TriedTooHigh(hmac, s0, events, true),
          FrameAfterTooHigh(hmac, s0, events, true))
      && Survives(s.joint.toClient, b, a, TriedTooHigh(hmac, s0, events, false),
          FrameAfterTooHigh(hmac, s0, events, false))
      && (forall k | k in a.channels :: ChannelRuns.OpensFirst(a.channels[k].events))
      && (forall k | k in b.channels :: ChannelRuns.OpensFirst(b.channels[k].events))
  {
    hide Schedule, Run, ChannelRuns.OpensFirst, ChannelRuns.Direction, Survives, TriedTooHigh, FrameAfterTooHigh,
         Setup.Digests;
    hide Due, Lifetime.Unanswered, NothingTorn, Reception.Delivered, Setup.Inv, Sound, Lifetime.Coupled,
         Lifetime.Queues;
    InitialInv(hmac, s0);
    RunKeepsInv(hmac, s0, events);
    var s := Run(hmac, s0, events);
    if Intact(s.joint) {
      RunBlocks(hmac, s0, events, true);
      RunBlocks(hmac, s0, events, false);
      NothingCalled(s0);
      ChannelLimits.NothingYet();
      Lifetime.InvDelivers(hmac, s.joint);
      DirectionSurvives(s.joint.toServer, s.channels.a, s.channels.b, s.channels.gotB, 0);
      DirectionSurvives(s.joint.toClient, s.channels.b, s.channels.a, s.channels.gotA, 1);
    }
  }

  /** No chunk reaches an end that has closed. */
  ghost predicate Quiet(hmac: Setup.Hmac, s: Stack, events: seq<Event>)
    requires Setup.Digests(hmac) && Schedule(hmac, s, events)
    decreases |events|
  {
    events != [] ==>
      && (events[0].Packet? ==> !Lifetime.HasClosed(s.joint, events[0].toClient))
      && Quiet(hmac, Next(hmac, s, events[0]), events[1..])
  }

  lemma QuietStep(hmac: Setup.Hmac, s: Stack, e: Event)
    requires Setup.Digests(hmac) && Inv(hmac, s) && Enabled(hmac, s, e) && Intact(s.joint)
    requires e.Packet? ==> !Lifetime.HasClosed(s.joint, e.toClient)
    ensures Intact(Next(hmac, s, e).joint)
  {
    hide Lifetime.Inv, ChannelRuns.Inv, Setup.Digests, Local, LocalInTime, Due, Handled, Newly, AfterData, Intact;
    hide AnsweredInTime, Lifetime.Enabled, ComeNext;
    match e
    case Setting(y) => JointStaysIntact(hmac, s.joint, Lifetime.Setting(y));
    case Sack(toClient, p) => JointStaysIntact(hmac, s.joint, Lifetime.SackIn(toClient, p));
    case Packet(toClient, i, sorted) =>
      DataKeeps(hmac, s, e);
      NewlyIs(hmac, s, e);
      HandledKeeps(hmac, AfterData(hmac, s, e), toClient, Newly(hmac, s, e));
      SameReceptionIntact(AfterData(hmac, s, e).joint, Next(hmac, s, e).joint);
      AfterDataIs(hmac, s, e);
      JointStaysIntact(hmac, s.joint, Lifetime.DataIn(toClient, i, sorted));
    case _ =>
      ChannelStepSame(hmac, s, e);
      SameReceptionIntact(s.joint, Next(hmac, s, e).joint);
  }

  lemma JointStaysIntact(hmac: Setup.Hmac, j: Lifetime.Joint, y: Lifetime.Event)
    requires Setup.Digests(hmac) && Lifetime.Inv(hmac, j) && Lifetime.Enabled(j, y) && Intact(j)
    requires y.DataIn? ==> y.i < |Lifetime.SideOf(j, y.toClient).link.inbound.log|
    requires y.DataIn? ==> !Lifetime.HasClosed(j, y.toClient)
    ensures Intact(Lifetime.Next(hmac, j, y))
  {
    hide Lifetime.Inv, Lifetime.Enabled, Lifetime.Next, NothingTorn, Setup.Digests;
    Lifetime.TearsOnlyAfterClose(hmac, j, y, true);
    Lifetime.TearsOnlyAfterClose(hmac, j, y, false);
  }

  lemma {:induction false} QuietIsIntact(hmac: Setup.Hmac, s: Stack, events: seq<Event>)
    requires Setup.Digests(hmac) && Inv(hmac, s) && Schedule(hmac, s, events) && Intact(s.joint)
    requires Quiet(hmac, s, events)
    ensures Intact(Run(hmac, s, events).joint)
    decreases |events|
  {
    hide Inv, Next, Enabled, Intact, Setup.Digests;
    if events != [] {
      StepKeepsInv(hmac, s, events[0]);
      QuietStep(hmac, s, events[0]);
      QuietIsIntact(hmac, Next(hmac, s, events[0]), events[1..]);
    }
  }

  lemma NothingCalled(s: Stack)
    requires Initial(s)
    ensures s.channels.a.log == [] && s.channels.b.log == []
  {}
}
