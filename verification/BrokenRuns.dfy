/** Runs in which something is missing: one for each way a direction can break. */
module BrokenRuns {
  import opened Bytes
  import opened Serial
  import opened Association
  import opened Delivery
  import opened Interruption
  import opened Reception
  import opened Lifetime
  import Chunks
  import EndToEnd
  import Fragmentation
  import Setup
  import DataChannels
  import DataChannelObjects
  import LiteralComparison

  // ---- The window ----

  /** The server has the client's COOKIE_ECHO, and the client does not yet have the COOKIE_ACK. */
  predicate InWindow(s: Setup.System) {
    s.client.state == Setup.COOKIE_ECHOED && s.server.state == Setup.ESTABLISHED
  }

  /** The setup up to the window, with every packet arriving once. */
  lemma WindowPackets(hmac: Setup.Hmac, s0: Setup.System)
    returns (echo: Setup.Outgoing, ack: Setup.Outgoing)
    requires Setup.Digests(hmac) && Setup.Initial(s0)
    ensures var init := Setup.InitPacket(s0.client);
      var s1 := Setup.Next(hmac, s0, Setup.Start);
      var s2 := Setup.Next(hmac, s1, Setup.ToServer(init, []));
      var s3 := Setup.Next(hmac, s2, Setup.ToClient(ack));
      var s4 := Setup.Next(hmac, s3, Setup.ToServer(echo, []));
      && Setup.Enabled(s0, Setup.Start) && Setup.Enabled(s1, Setup.ToServer(init, []))
      && Setup.Enabled(s2, Setup.ToClient(ack)) && Setup.Enabled(s3, Setup.ToServer(echo, []))
      && InWindow(s4) && s4.served
  {
    hide Setup.Inv, Chunks.InitBytes, Chunks.AllParamBytes, Setup.CookieData, Chunks.ParseInit, Setup.FindCookie;
    var init := Setup.InitPacket(s0.client);
    var s1 := Setup.Next(hmac, s0, Setup.Start);
    Setup.InitChunkRoundTrip(s0.client);
    var s2 := Setup.Next(hmac, s1, Setup.ToServer(init, []));
    var data := Setup.CookieData(s0.server.localTag, s0.client.localTag, s0.server.localTSN, s0.client.localTSN);
    var cookie := Setup.Cookie(hmac, [], data);
    ack := Setup.Outgoing(s0.client.localTag, Setup.InitAckChunk(Setup.OwnInit(s0.server), cookie));
    assert s2.toClient == {ack};
    Setup.InitAckRoundTrip(Setup.OwnInit(s0.server), cookie);
    var s3 := Setup.Next(hmac, s2, Setup.ToClient(ack));
    echo := Setup.Outgoing(s0.server.localTag, Chunks.Chunk(Chunks.COOKIE_ECHO, 0, cookie));
    assert s3.toServer == {init, echo};
    assert cookie[..16] == data && cookie[16..48] == hmac([], data);
  }

  lemma WindowOpens(hmac: Setup.Hmac, j0: Joint) returns (events: seq<Event>)
    requires Setup.Digests(hmac) && Lifetime.Initial(j0)
    ensures Schedule(hmac, j0, events) && forall e | e in events :: e.Setting?
    ensures var j := Run(hmac, j0, events);
      InWindow(j.setup) && j.toClient == j0.toClient && j.toServer == j0.toServer
  {
    hide Setup.Next, Setup.Initial, Setup.Enabled, EndToEnd.Initial, Setup.InitPacket, Run, Schedule;
    var echo, ack := WindowPackets(hmac, j0.setup);
    var init := Setup.InitPacket(j0.setup.client);
    NoEvents(hmac, j0);
    events := Later(hmac, j0, [], Setting(Setup.Start));
    events := Later(hmac, j0, events, Setting(Setup.ToServer(init, [])));
    events := Later(hmac, j0, events, Setting(Setup.ToClient(ack)));
    events := Later(hmac, j0, events, Setting(Setup.ToServer(echo, [])));
  }

  lemma NoEvents(hmac: Setup.Hmac, j: Joint)
    requires Setup.Digests(hmac)
    ensures Schedule(hmac, j, []) && Run(hmac, j, []) == j
  {}

  /** One more event. */
  lemma Later(hmac: Setup.Hmac, j: Joint, xs: seq<Event>, e: Event) returns (events: seq<Event>)
    requires Setup.Digests(hmac) && Schedule(hmac, j, xs)
    requires var j' := Run(hmac, j, xs);
      Lifetime.Enabled(j', e) && (e.DataIn? ==> e.i < |SideOf(j', e.toClient).link.inbound.log|)
    ensures events == xs + [e] && Schedule(hmac, j, events)
    ensures Run(hmac, j, events) == Lifetime.Next(hmac, Run(hmac, j, xs), e)
  {
    RunPush(hmac, j, xs, e);
    events := xs + [e];
  }

  // ---- Chunks one by one ----

  lemma NoOffset(x: int)
    ensures ToUint32(ToUint32(x) + 0) == ToUint32(x) && ToUint32(ToUint32(x - 1) + 1) == ToUint32(x)
  {
    WrapDifference(x - 1, -1);
  }

  lemma NotBeforeItself(tsn: u32)
    ensures !SnLt(Intended, tsn, tsn) && !SnLt(Literal, tsn, tsn)
  {}

  /** The next chunk arrives and nothing is buffered. */
  lemma NextArrives(s: Side, i: nat, throws: Listener)
    requires Sound(s) && s.health == Well && i == Consumed(s.link.inbound) < |s.link.inbound.log|
    requires s.link.inbound.rx.outOfOrder == map[] && Sendable(s.link.inbound.log[i])
    ensures var b, d := s.link.inbound, s.link.inbound.log[i];
      var o := AcceptHeard(b.rx, d.tsn, d, throws);
      && Hears(s, i, throws) == o && o.rx.outOfOrder == map[] && Consumed(HeardIn(b, i, throws)) == i + 1
      && HeardIn(b, i, throws) == b.(rx := o.rx, accepted := b.accepted + {i})
      && CanArrive(s, i, [], throws)
  {
    hide ConsumeAll, Consume, BufferInv, LogInv, Sendable, SnLt, EndToEnd.SentInv, EndToEnd.TakenWereSent, Contiguous,
         Matches;
    var b := s.link.inbound;
    NextTsnExpected(s, i);
    NotBeforeItself(b.log[i].tsn);
    assert Elements([]) == {};
    var o := AcceptHeard(b.rx, b.log[i].tsn, b.log[i], throws);
    assert o.rx.outOfOrder == map[] && |o.rx.consumed| == i + 1;
    assert DrainHeard(o.rx, throws) == Outcome(o.rx, false);
    assert b.log[i].tsn == Expected(b.rx) && !SnLt(b.cmp, b.log[i].tsn, Expected(b.rx)) by {
      assert b.cmp == Literal || b.cmp == Intended;
    }
    assert Hears(s, i, throws) == o;
    assert Near(b, i);
    assert IsSorting(b.cmp, {}, []);
  }

  lemma NextTsnExpected(s: Side, i: nat)
    requires Sound(s) && i == Consumed(s.link.inbound) < |s.link.inbound.log|
    ensures s.link.inbound.log[i].tsn == Expected(s.link.inbound.rx)
  {
    hide ConsumeAll, BufferInv, EndToEnd.SentInv, EndToEnd.TakenWereSent, Contiguous, Matches;
    SameTsns(s.link.inbound);
  }

  /** A message that fits one chunk is that chunk. */
  predicate IsChunkOf(d: Chunks.Data, m: Message, tsn: u32) {
    && d.beginning && d.ending && d.tsn == tsn && d.streamId == m.streamId && d.ppid == m.ppid && d.userData == m.data
    && Sendable(d)
  }

  lemma ShortPieces(tx: Sender, m: Message)
    requires Carriable(m) && |m.data| <= MAX_PAYLOAD
    ensures var ds := MessagePieces(tx, m, false); |ds| == 1 && IsChunkOf(ds[0], m, tx.localTSN)
  {
    hide ToUint32;
    assert m.data[0..|m.data|] == m.data;
    ZeroOffset(tx.localTSN);
  }

  lemma ZeroOffset(tsn: u32)
    ensures ToUint32(tsn + 0) == tsn
  {}

  lemma SendShort(s: Side, m: Message)
    requires Carriable(m) && |m.data| <= MAX_PAYLOAD
    ensures var s' := Sends(s, m, false);
      && |s'.link.inbound.log| == |s.link.inbound.log| + 1 && s.link.inbound.log <= s'.link.inbound.log
      && IsChunkOf(s'.link.inbound.log[|s.link.inbound.log|], m, s.link.tx.localTSN)
      && s'.link.tx.localTSN == ToUint32(s.link.tx.localTSN + 1) && s'.link.msgs == s.link.msgs + [m]
      && s'.link.inbound == s.link.inbound.(log := s'.link.inbound.log)
      && s'.torn == s.torn && s'.health == s.health
  {
    hide Enqueue, ToUint32, MessagePieces, IsChunkOf;
    ShortPieces(s.link.tx, m);
  }

  lemma ConsumeShort(r: Reassembly, d: Chunks.Data, m: Message, tsn: u32)
    requires IsChunkOf(d, m, tsn)
    ensures Consume(r, d) == r.(emitted := r.emitted + [m])
  {}

  /** Two chunks, the second of which arrives first. */
  lemma SecondBuffered(s: Side, tsn: u32, d: Chunks.Data, m: Message, throws: Listener)
    requires var b := s.link.inbound;
      && |b.log| == 2 && b.log[1] == d && IsChunkOf(d, m, tsn) && tsn == ToUint32(b.origin + 1)
      && b.rx == Receiver(ToUint32(b.origin - 1), map[], NOTHING, []) && b.accepted == {} && s.health == Well
    ensures CanArrive(s, 1, [tsn], throws)
    ensures var s', b := Arrives(s, 1, [tsn], throws), s.link.inbound;
      && s'.health == Well && s'.torn == s.torn && s'.link.msgs == s.link.msgs && s'.link.tx == s.link.tx
      && s'.link.inbound == b.(rx := b.rx.(outOfOrder := map[tsn := d]), accepted := {1})
  {
    hide Drain, DrainHeard, Accept, ToUint32, SnLt, SackFor, Sendable, Ahead;
    var b := s.link.inbound;
    EndToEnd.FirstExpected(b.origin);
    TwoAhead(b.origin);
    EndToEnd.OneAhead(b.cmp, b.origin, tsn);
    assert Expected(b.rx) == b.origin;
    assert Hears(s, 1, throws) == Outcome(b.rx.(outOfOrder := map[tsn := d]), false);
    assert Elements([tsn]) == {tsn};
    OneKeySack(b.rx.cumulative, tsn);
  }

  lemma TwoAhead(origin: u32)
    ensures ToUint32(ToUint32(origin - 1) + 2) == ToUint32(origin + 1)
  {
    WrapDifference(origin - 1, -2);
  }

  lemma OneKeySack(cum: u32, tsn: u32)
    requires tsn == ToUint32(cum + 2)
    ensures SackFor(cum, [tsn]).Some?
  {
    LiteralComparison.SackThrowsIff(cum, [tsn]);
  }

  /** Then the first, at which the listener throws: the second stays in the buffer for good. */
  lemma FirstThrows(s: Side, tsn: u32, d: Chunks.Data, second: Chunks.Data, m: Message, throws: Listener)
    requires var b := s.link.inbound;
      && b.log == [d, second] && IsChunkOf(d, m, b.origin) && tsn == ToUint32(b.origin + 1)
      && b.rx == Receiver(ToUint32(b.origin - 1), map[tsn := second], NOTHING, []) && b.accepted == {1}
      && s.health == Well && throws(m)
    ensures CanArrive(s, 0, [], throws)
    ensures var s' := Arrives(s, 0, [], throws);
      && s'.health == AnswerFailed(true) && Emitted(s'.link) == [m] && s'.link.msgs == s.link.msgs
      && EndToEnd.AllArrived(s'.link)
  {
    hide Drain, DrainHeard, Consume, ToUint32, SnLt, SackFor, Sendable;
    var b := s.link.inbound;
    EndToEnd.FirstExpected(b.origin);
    NotBeforeItself(b.origin);
    assert b.cmp == Literal || b.cmp == Intended;
    ConsumeShort(NOTHING, d, m, b.origin);
    var o := AcceptHeard(b.rx, d.tsn, d, throws);
    assert o.rx.reassembly.emitted == [m] && o.threw && Expected(o.rx) == tsn;
    assert Hears(s, 0, throws) == o;
  }

  /** A direction that holds these two messages, one chunk each, of which nothing has arrived. */
  predicate HoldsShort(s: Side, first: Message, second: Message) {
    var b := s.link.inbound;
    && s.health == Well && s.torn == {} && s.link.msgs == [first, second] && |b.log| == 2
    && b.rx == Receiver(ToUint32(b.origin - 1), map[], NOTHING, []) && b.accepted == {}
    && IsChunkOf(b.log[0], first, b.origin) && IsChunkOf(b.log[1], second, ToUint32(b.origin + 1))
  }

  lemma SendShorts(s: Side, first: Message, second: Message)
    requires Fresh(s) && Carriable(first) && Carriable(second)
    requires |first.data| <= MAX_PAYLOAD && |second.data| <= MAX_PAYLOAD
    ensures EndToEnd.Timely(s.link, EndToEnd.SendMessage(first, false))
    ensures EndToEnd.Timely(Sends(s, first, false).link, EndToEnd.SendMessage(second, false))
    ensures HoldsShort(Sends(Sends(s, first, false), second, false), first, second)
  {
    hide Sends, ToUint32, IsChunkOf;
    FreshSends(s, first);
    SendShort(Sends(s, first, false), second);
    ShortTimely(Sends(s, first, false), second);
  }

  lemma ShortsSent(hmac: Setup.Hmac, j0: Joint, first: Message, second: Message)
    returns (events: seq<Event>)
    requires Setup.Digests(hmac) && Lifetime.Initial(j0) && Carriable(first) && Carriable(second)
    requires |first.data| <= MAX_PAYLOAD && |second.data| <= MAX_PAYLOAD
    ensures Schedule(hmac, j0, events)
    ensures var j := Run(hmac, j0, events); InWindow(j.setup) && HoldsShort(j.toClient, first, second)
  {
    hide Setup.Initial, Lifetime.Next, Run, Schedule, Sends, HoldsShort, Fresh;
    events := WindowOpens(hmac, j0);
    SendShorts(j0.toClient, first, second);
    SendInWindow(hmac, Run(hmac, j0, events), first);
    events := Later(hmac, j0, events, Send(true, first, false));
    SendInWindow(hmac, Run(hmac, j0, events), second);
    events := Later(hmac, j0, events, Send(true, second, false));
  }

  /**
   * A run that leaves something behind: two OPENs of the server's reach a client that has not been established,
   * the second first. All chunks are taken in; one message comes out.
   */
  lemma OpensLeftBehind(hmac: Setup.Hmac, j0: Joint, first: Message, second: Message)
    returns (events: seq<Event>)
    requires Setup.Digests(hmac) && Lifetime.Initial(j0)
    requires DataChannels.IsOpenMessage(first) && DataChannels.IsOpenMessage(second)
    requires Carriable(first) && Carriable(second) && |first.data| <= MAX_PAYLOAD && |second.data| <= MAX_PAYLOAD
    ensures Schedule(hmac, j0, events)
    ensures var s := Run(hmac, j0, events).toClient;
      && s.health == AnswerFailed(true) && EndToEnd.AllArrived(s.link)
      && s.link.msgs == [first, second] && Emitted(s.link) == [first]
  {
    hide Lifetime.Next, Lifetime.Initial, Run, Schedule, Arrives, CanArrive, ToUint32, EndToEnd.AllArrived, IsChunkOf;
    events := ShortsSent(hmac, j0, first, second);
    var j2 := Run(hmac, j0, events);
    var log, tsn := j2.toClient.link.inbound.log, ToUint32(j2.toClient.link.inbound.origin + 1);
    SecondBuffered(j2.toClient, tsn, log[1], second, Hearing(j2, true));
    WellDataIn(hmac, j2, 1, [tsn]);
    events := Later(hmac, j0, events, DataIn(true, 1, [tsn]));
    var j3 := Run(hmac, j0, events);
    assert Hearing(j3, true)(first);
    FirstThrows(j3.toClient, tsn, log[0], log[1], first, Hearing(j3, true));
    WellDataIn(hmac, j3, 0, []);
    events := Later(hmac, j0, events, DataIn(true, 0, []));
  }

  lemma SendInWindow(hmac: Setup.Hmac, j: Joint, m: Message)
    requires Setup.Digests(hmac) && InWindow(j.setup)
    ensures var j' := Lifetime.Next(hmac, j, Send(true, m, false));
      && InWindow(j'.setup) && j'.toClient == Sends(j.toClient, m, false) && j'.toServer == j.toServer
      && Established(j, false) && j'.setup.client == j.setup.client
  {
    hide Sends, MessagePieces;
  }

  lemma WellDataIn(hmac: Setup.Hmac, j: Joint, i: nat, sorted: seq<u32>)
    requires Setup.Digests(hmac) && i < |j.toClient.link.inbound.log|
    ensures var j' := Lifetime.Next(hmac, j, DataIn(true, i, sorted));
      && j'.toClient == Arrives(j.toClient, i, sorted, Hearing(j, true)) && j'.toServer == j.toServer
      && j'.setup.client.state == j.setup.client.state
  {
    hide Arrives;
  }

  lemma FreshSends(s: Side, m: Message)
    requires Fresh(s) && Carriable(m) && |m.data| <= MAX_PAYLOAD
    ensures EndToEnd.Timely(s.link, EndToEnd.SendMessage(m, false))
    ensures var s' := Sends(s, m, false);
      && s'.health == Well && s'.torn == {} && s'.link.msgs == [m] && |s'.link.inbound.log| == 1
      && IsChunkOf(s'.link.inbound.log[0], m, s.link.inbound.origin)
      && s'.link.tx.localTSN == ToUint32(s.link.inbound.origin + 1)
      && s'.link.inbound == s.link.inbound.(log := s'.link.inbound.log)
  {
    hide IsChunkOf;
    SendShort(s, m);
    ShortTimely(s, m);
  }

  lemma ShortTimely(s: Side, m: Message)
    requires Carriable(m) && |m.data| <= MAX_PAYLOAD && |s.link.inbound.log| < 1000
    ensures EndToEnd.Timely(s.link, EndToEnd.SendMessage(m, false))
  {}

  // ---- DATA after a close ----

  /** The two chunks of a message that needs two. */
  predicate IsHead(d: Chunks.Data, m: Message) { d.beginning && !d.ending && d.streamId == m.streamId && Sendable(d) }

  predicate IsTail(d: Chunks.Data) { !d.beginning && d.ending && Sendable(d) }

  lemma LongPieces(tx: Sender, m: Message)
    requires Carriable(m) && MAX_PAYLOAD < |m.data| <= 2 * MAX_PAYLOAD
    ensures var ds := MessagePieces(tx, m, false); |ds| == 2 && IsHead(ds[0], m) && IsTail(ds[1])
  {
    hide ToUint32;
    var ds := MessagePieces(tx, m, false);
    assert ds[0] in ds && ds[1] in ds;
  }

  lemma SendLong(s: Side, m: Message)
    requires Fresh(s) && Carriable(m) && MAX_PAYLOAD < |m.data| <= 2 * MAX_PAYLOAD
    ensures EndToEnd.Timely(s.link, EndToEnd.SendMessage(m, false))
    ensures var s' := Sends(s, m, false);
      && |s'.link.inbound.log| == 2 && IsHead(s'.link.inbound.log[0], m) && IsTail(s'.link.inbound.log[1])
      && s'.link.inbound == s.link.inbound.(log := s'.link.inbound.log)
      && s'.link.msgs == [m] && s'.torn == {} && s'.health == Well
  {
    hide Enqueue, ToUint32, MessagePieces, IsHead, IsTail;
    LongPieces(s.link.tx, m);
  }

  lemma EmptySack(cum: u32)
    ensures SackFor(cum, []).Some?
  {}

  /** The next chunk arrives, nothing is buffered, and the listener does not throw. */
  lemma NextTaken(s: Side, i: nat, throws: Listener)
    requires Sound(s) && s.health == Well && i == Consumed(s.link.inbound) < |s.link.inbound.log|
    requires s.link.inbound.rx.outOfOrder == map[] && Sendable(s.link.inbound.log[i])
    requires !AcceptHeard(s.link.inbound.rx, s.link.inbound.log[i].tsn, s.link.inbound.log[i], throws).threw
    ensures CanArrive(s, i, [], throws)
    ensures var s', b, d := Arrives(s, i, [], throws), s.link.inbound, s.link.inbound.log[i];
      && Sound(s') && s'.health == Well && s'.torn == s.torn && s'.link.msgs == s.link.msgs
      && s'.link.inbound == b.(rx := Accept(b.rx, d.tsn, d), accepted := b.accepted + {i})
  {
    hide Sound, Hears, Accept, SackFor, CanArrive;
    NextArrives(s, i, throws);
    EmptySack(AcceptHeard(s.link.inbound.rx, s.link.inbound.log[i].tsn, s.link.inbound.log[i], throws).rx.cumulative);
    ArrivesKeeps(s, i, [], throws);
  }

  /** Half a message and a close. */
  lemma HalfOnSide(s: Side, long: Message, throws: Listener)
    requires Sound(s) && s.health == Well && s.torn == {} && 0 < |s.link.inbound.log|
    requires s.link.inbound.rx.outOfOrder == map[] && s.link.inbound.rx.reassembly == NOTHING
    requires s.link.inbound.rx.consumed == [] && s.link.inbound.accepted == {}
    requires IsHead(s.link.inbound.log[0], long)
    ensures CanArrive(s, 0, [], throws)
    ensures var s', b, d := ReceiverCloses(Arrives(s, 0, [], throws)), s.link.inbound, s.link.inbound.log[0];
      && Sound(s') && s'.torn == {0} && s'.health == Well && s'.link.msgs == s.link.msgs
      && s'.link.inbound.log == b.log && s'.link.inbound.accepted == {0} && s'.link.inbound.rx.consumed == [d]
      && s'.link.inbound.rx.outOfOrder == map[] && s'.link.inbound.rx.reassembly == NOTHING
  {
    hide Sound, Arrives, CanArrive, Expected;
    var d := s.link.inbound.log[0];
    NextTaken(s, 0, throws);
    ConsumeNone(NOTHING);
    ConsumePush(NOTHING, [], d);
    assert [] + [d] == [d];
    assert KeyOf(d) in Consume(NOTHING, d).fragments;
    ReceiverClosesKeeps(Arrives(s, 0, [], throws));
  }

  /** The other half is dropped. */
  lemma TailDropped(s: Side, throws: Listener)
    requires Sound(s) && s.health == Well && 1 < |s.link.inbound.log| && |s.link.inbound.rx.consumed| == 1
    requires s.link.inbound.rx.outOfOrder == map[] && s.link.inbound.rx.reassembly == NOTHING
    requires IsTail(s.link.inbound.log[1])
    ensures CanArrive(s, 1, [], throws)
    ensures var s', b := Arrives(s, 1, [], throws), s.link.inbound;
      && Sound(s') && s'.health == Well && s'.link.msgs == s.link.msgs && s'.link.inbound.log == b.log
      && s'.link.inbound.accepted == b.accepted + {1} && |s'.link.inbound.rx.consumed| == 2
      && s'.link.inbound.rx.outOfOrder == map[] && s'.link.inbound.rx.reassembly == NOTHING
  {
    hide Sound, Arrives, CanArrive, Expected;
    NextTaken(s, 1, throws);
  }

  /** The next message comes out. */
  lemma ShortComesOut(s: Side, short: Message, tsn: u32, throws: Listener)
    requires Sound(s) && s.health == Well && 2 < |s.link.inbound.log| && |s.link.inbound.rx.consumed| == 2
    requires s.link.inbound.rx.outOfOrder == map[] && s.link.inbound.rx.reassembly == NOTHING
    requires IsChunkOf(s.link.inbound.log[2], short, tsn) && !throws(short)
    ensures CanArrive(s, 2, [], throws)
    ensures var s' := Arrives(s, 2, [], throws);
      && Emitted(s'.link) == [short] && s'.link.msgs == s.link.msgs && s'.link.inbound.log == s.link.inbound.log
      && s'.link.inbound.accepted == s.link.inbound.accepted + {2}
  {
    hide Sound, Arrives, CanArrive, Expected, IsChunkOf;
    ConsumeShort(NOTHING, s.link.inbound.log[2], short, tsn);
    IsSendable(s.link.inbound.log[2], short, tsn);
    NextTaken(s, 2, throws);
  }

  lemma IsSendable(d: Chunks.Data, m: Message, tsn: u32)
    requires IsChunkOf(d, m, tsn)
    ensures Sendable(d)
  {}

  lemma GivingUp(hmac: Setup.Hmac, j: Joint)
    requires Setup.Digests(hmac) && j.setup.client.state == Setup.COOKIE_ECHOED
    ensures Lifetime.Enabled(j, Setting(Setup.ClientGivesUp))
    ensures var j' := Lifetime.Next(hmac, j, Setting(Setup.ClientGivesUp));
      j'.toClient == ReceiverCloses(j.toClient) && j'.setup.client.state == Setup.CLOSED
  {}

  /** A direction that holds these two messages, of which nothing has arrived. */
  ghost predicate HoldsBoth(s: Side, long: Message, short: Message) {
    var b := s.link.inbound;
    && Sound(s) && s.health == Well && s.torn == {} && s.link.msgs == [long, short] && |b.log| == 3
    && b.rx.outOfOrder == map[] && b.rx.reassembly == NOTHING && b.rx.consumed == [] && b.accepted == {}
    && IsHead(b.log[0], long) && IsTail(b.log[1]) && exists tsn :: IsChunkOf(b.log[2], short, tsn)
  }

  lemma SendBoth(s: Side, long: Message, short: Message)
    requires Fresh(s) && Carriable(long) && Carriable(short)
    requires MAX_PAYLOAD < |long.data| <= 2 * MAX_PAYLOAD && |short.data| <= MAX_PAYLOAD
    ensures EndToEnd.Timely(s.link, EndToEnd.SendMessage(long, false))
    ensures EndToEnd.Timely(Sends(s, long, false).link, EndToEnd.SendMessage(short, false))
    ensures HoldsBoth(Sends(Sends(s, long, false), short, false), long, short)
  {
    hide Sends, ToUint32, IsChunkOf, IsHead, IsTail, Sound;
    var s1 := Sends(s, long, false);
    SendLong(s, long);
    FreshIsSound(s);
    SendsKeeps(s, long, false);
    SendShort(s1, short);
    ShortTimely(s1, short);
    SendsKeeps(s1, short, false);
  }

  lemma BothSent(hmac: Setup.Hmac, j0: Joint, long: Message, short: Message)
    returns (events: seq<Event>)
    requires Setup.Digests(hmac) && Lifetime.Initial(j0) && Carriable(long) && Carriable(short)
    requires MAX_PAYLOAD < |long.data| <= 2 * MAX_PAYLOAD && |short.data| <= MAX_PAYLOAD
    ensures Schedule(hmac, j0, events)
    ensures var j := Run(hmac, j0, events);
      j.setup.client.state == Setup.COOKIE_ECHOED && HoldsBoth(j.toClient, long, short)
  {
    hide Setup.Initial, Lifetime.Next, Run, Schedule, Sends, HoldsBoth, Fresh;
    events := WindowOpens(hmac, j0);
    SendBoth(j0.toClient, long, short);
    SendInWindow(hmac, Run(hmac, j0, events), long);
    events := Later(hmac, j0, events, Send(true, long, false));
    SendInWindow(hmac, Run(hmac, j0, events), short);
    events := Later(hmac, j0, events, Send(true, short, false));
  }

  /**
   * A run that tears a message: the client's setup timer gives up when the first half of the server's first
   * message has arrived. All chunks are taken in; only the second message comes out.
   */
  lemma TornByGivingUp(hmac: Setup.Hmac, j0: Joint, long: Message, short: Message)
    returns (events: seq<Event>)
    requires Setup.Digests(hmac) && Lifetime.Initial(j0) && Carriable(long) && Carriable(short)
    requires MAX_PAYLOAD < |long.data| <= 2 * MAX_PAYLOAD && |short.data| <= MAX_PAYLOAD
    requires !DataChannels.IsOpenMessage(short)
    ensures Schedule(hmac, j0, events)
    ensures var j := Run(hmac, j0, events);
      && j.setup.client.state == Setup.CLOSED && EndToEnd.AllArrived(j.toClient.link)
      && j.toClient.link.msgs == [long, short] && Emitted(j.toClient.link) == [short]
  {
    hide Lifetime.Next, Run, Schedule, Arrives, ReceiverCloses, CanArrive, IsChunkOf, IsHead, IsTail, Sound;
    hide Lifetime.Initial, EndToEnd.AllArrived;
    events := BothSent(hmac, j0, long, short);
    var j2 := Run(hmac, j0, events);
    var tsn :| IsChunkOf(j2.toClient.link.inbound.log[2], short, tsn);
    HalfOnSide(j2.toClient, long, Hearing(j2, true));
    WellDataIn(hmac, j2, 0, []);
    events := Later(hmac, j0, events, DataIn(true, 0, []));
    GivingUp(hmac, Run(hmac, j0, events));
    events := Later(hmac, j0, events, Setting(Setup.ClientGivesUp));
    var j4 := Run(hmac, j0, events);
    TailDropped(j4.toClient, Hearing(j4, true));
    WellDataIn(hmac, j4, 1, []);
    events := Later(hmac, j0, events, DataIn(true, 1, []));
    var j5 := Run(hmac, j0, events);
    assert !Hearing(j5, true)(short);
    ShortComesOut(j5.toClient, short, tsn, Hearing(j5, true));
    WellDataIn(hmac, j5, 2, []);
    events := Later(hmac, j0, events, DataIn(true, 2, []));
    AllThree(Run(hmac, j0, events).toClient.link);
  }

  lemma AllThree(l: EndToEnd.Link)
    requires |l.inbound.log| == 3 && {0, 1, 2} <= l.inbound.accepted
    ensures EndToEnd.AllArrived(l)
  {}
}
