/**
 * Exactly when a channel opens at both ends (src/sctp/datachannel-manager.ts:75-213, with the setup of
 * src/sctp/association.ts:256-331): its OPEN has to be answered, and an end that is not established cannot.
 */
module ChannelOpening {
  import opened Bytes
  import opened Association
  import opened Interruption
  import opened Reception
  import opened ChannelsOverSctp
  import Lifetime
  import Setup
  import EndToEnd
  import ChannelRuns
  import ChannelLimits
  import DataChannels
  import DataChannelObjects
  import Dcep
  import BrokenRuns
  import Chunks
  import Delivery

  // ---- Answers that can get through ----

  /** An ACK for this stream among the messages before the first that `sendData` refused. */
  predicate AckOut(log: seq<Message>, k: nat) { ChannelRuns.AckedIn(log[..Clear(log)], k) }

  lemma AckOutPush(log: seq<Message>, m: Message, k: nat)
    ensures AckOut(log + [m], k) <==>
      AckOut(log, k) || (!ChannelLimits.Blocked(log) && Carriable(m) && DataChannels.IsAck(m) && m.streamId == k)
  {
    hide Clear, ChannelRuns.AckedIn, Carriable;
    ClearPush(log, m);
    var n := Clear(log);
    assert (log + [m])[..n] == log[..n];
    if n == |log| && Carriable(m) {
      assert (log + [m])[..n + 1] == log + [m] && log[..n] == log;
      ChannelRuns.Pushed(log, m, k, 0);
    }
  }

  /** An OPEN for stream `k` is among these. */
  ghost predicate Opens(ms: seq<Message>, k: nat) {
    exists m | m in ms :: DataChannels.IsOpenMessage(m) && m.streamId == k
  }

  lemma OpensFirst(ms: seq<Message>, k: nat)
    requires ms != []
    ensures Opens(ms, k) <==> (DataChannels.IsOpenMessage(ms[0]) && ms[0].streamId == k) || Opens(ms[1..], k)
  {
    assert ms == [ms[0]] + ms[1..];
  }

  /** The managers' own delivery step, and the ACK it sends. */
  lemma HeardAcks(c: ChannelRuns.System, client: bool, m: Message, k: nat)
    requires ChannelRuns.Inv(c)
    requires GotBy(c, client) < Clear(LogOf(c, !client)) && LogOf(c, !client)[GotBy(c, client)] == m
    ensures var before, after := LogOf(c, client), LogOf(Heard(c, client, m), client);
      && (AckOut(after, k) <==>
            || AckOut(before, k)
            || (!ChannelLimits.Blocked(before) && DataChannels.IsOpenMessage(m) && m.streamId == k))
      && (ChannelLimits.Blocked(after) <==> ChannelLimits.Blocked(before))
  {
    hide Clear, AckOut, ChannelLimits.Blocked, Dcep.DecodeOpen, Dcep.OpenBytes, ChannelRuns.Direction;
    ChannelLimits.StepBlocks(c, ChannelRuns.Deliver(client), client);
    if client {
      ChannelRuns.NextMessage(c.b, c.a, c.gotB, c.gotA, 1);
    } else {
      ChannelRuns.NextMessage(c.a, c.b, c.gotA, c.gotB, 0);
    }
    AckOutPush(LogOf(c, client), DataChannels.AckMessage(m.streamId), k);
    ChannelRuns.AckIsAck(m.streamId);
  }

  lemma {:induction false} HandledAcks(hmac: Setup.Hmac, s: Stack, client: bool, ms: seq<Message>, k: nat)
    requires Setup.Digests(hmac) && ChannelRuns.Inv(s.channels)
    requires ComeNext(LogOf(s.channels, !client), GotBy(s.channels, client), ms)
    ensures var before, after := LogOf(s.channels, client), LogOf(Handled(hmac, s, client, ms).channels, client);
      AckOut(after, k) <==> AckOut(before, k) || (!ChannelLimits.Blocked(before) && Opens(ms, k))
    decreases |ms|
  {
    hide ChannelRuns.Inv, Local, Clear, ComeNext, ChannelLimits.Blocked, AckOut, Opens, Setup.Digests;
    if ms == [] {
      OpensNone(k);
    } else {
      OpensFirst(ms, k);
      ComesFirst(LogOf(s.channels, !client), GotBy(s.channels, client), ms);
      HeardIsNext(s.channels, client, ms[0]);
      HeardAcks(s.channels, client, ms[0], k);
      LocalChannels(hmac, s, Heard(s.channels, client, ms[0]), client);
      HandledAcks(hmac, Local(hmac, s, Heard(s.channels, client, ms[0]), client, false), client, ms[1..], k);
    }
  }

  lemma OpensNone(k: nat)
    ensures !Opens([], k)
  {}

  /** What the other end hears leaves this end's log alone. */
  lemma {:induction false} HandledElsewhere(hmac: Setup.Hmac, s: Stack, client: bool, ms: seq<Message>)
    requires Setup.Digests(hmac)
    ensures LogOf(Handled(hmac, s, client, ms).channels, !client) == LogOf(s.channels, !client)
    decreases |ms|
  {
    hide Local, Setup.Digests;
    if ms != [] {
      LocalChannels(hmac, s, Heard(s.channels, client, ms[0]), client);
      HandledElsewhere(hmac, Local(hmac, s, Heard(s.channels, client, ms[0]), client, false), client, ms[1..]);
    }
  }

  // ---- An OPEN taken ----

  /**
   * A chunk brings this end, established, the OPEN for stream `k` while its own `sendData` has refused nothing
   * yet.
   */
  ghost predicate TakesOpen(hmac: Setup.Hmac, s: Stack, e: Event, client: bool, k: nat)
    requires Setup.Digests(hmac) && Enabled(hmac, s, e)
  {
    && e.Packet? && e.toClient == client && Lifetime.Established(s.joint, client)
    && Opens(Newly(hmac, s, e), k) && !ChannelLimits.Blocked(LogOf(s.channels, client))
  }

  ghost predicate TookOpen(hmac: Setup.Hmac, s: Stack, events: seq<Event>, client: bool, k: nat)
    requires Setup.Digests(hmac) && Schedule(hmac, s, events)
    decreases |events|
  {
    events != [] &&
    (TakesOpen(hmac, s, events[0], client, k) || TookOpen(hmac, Next(hmac, s, events[0]), events[1..], client, k))
  }

  lemma StepAcks(hmac: Setup.Hmac, s: Stack, e: Event, client: bool, k: nat)
    requires Setup.Digests(hmac) && Inv(hmac, s) && Enabled(hmac, s, e) && Intact(Next(hmac, s, e).joint)
    ensures var before, after := LogOf(s.channels, client), LogOf(Next(hmac, s, e).channels, client);
      AckOut(after, k) <==> AckOut(before, k) || TakesOpen(hmac, s, e, client, k)
  {
    hide ChannelRuns.Inv, Lifetime.Inv, Intact, Carried, ChannelLimits.Blocked, AckOut;
    hide Handled, LocalInTime, AnsweredInTime, ChannelRuns.Next, Setup.Digests, Due, Newly, AfterData, Lifetime.Enabled;
    hide ComeNext, Opens;
    StepStaysTorn(hmac, s, e);
    match e
    case Open(end, name, init) => OwnStepAcks(s.channels, Opening(s, end, name, init), client, k);
    case Send(end, id, f) => OwnStepAcks(s.channels, ChannelRuns.Send(end, id, f), client, k);
    case Packet(toClient, i, sorted) => PacketAcks(hmac, s, e, client, k);
    case _ =>
  }

  lemma OwnStepAcks(c: ChannelRuns.System, y: ChannelRuns.Event, client: bool, k: nat)
    requires ChannelRuns.Enabled(c, y) && !y.Deliver?
    ensures AckOut(LogOf(ChannelRuns.Next(c, y), client), k) <==> AckOut(LogOf(c, client), k)
  {
    hide AckOut, Dcep.OpenBytes, Dcep.Fits;
    var before, after := LogOf(c, client), LogOf(ChannelRuns.Next(c, y), client);
    if after != before {
      var m := after[|before|];
      assert after == before + [m];
      assert !DataChannels.IsAck(m) by {
        if y.Send? {
          DataChannels.FrameRoundTrip(y.id, y.frame);
        } else {
          OpenIsNotAck(DataChannels.OpenOf(DataChannels.Channel(y.name, y.init, false, [], [])));
        }
      }
      AckOutPush(before, m, k);
    }
  }

  lemma OpenIsNotAck(o: Dcep.Open)
    requires Dcep.Fits(o)
    ensures Dcep.MessageType(Dcep.OpenBytes(o)) != Dcep.DATA_CHANNEL_ACK
  {
    hide Dcep.OpenBytes;
    Dcep.OpenRoundTrip(o);
  }

  lemma PacketAcks(hmac: Setup.Hmac, s: Stack, e: Event, client: bool, k: nat)
    requires Setup.Digests(hmac) && Inv(hmac, s) && e.Packet? && Enabled(hmac, s, e) && Intact(Next(hmac, s, e).joint)
    requires Intact(s.joint)
    ensures var before, after := LogOf(s.channels, client), LogOf(Next(hmac, s, e).channels, client);
      AckOut(after, k) <==> AckOut(before, k) || TakesOpen(hmac, s, e, client, k)
  {
    hide ChannelRuns.Inv, Lifetime.Inv, Intact, ChannelLimits.Blocked, AckOut, Handled, AnsweredInTime, Setup.Digests;
    hide Due, Newly, AfterData, Lifetime.Enabled, ComeNext;
    var s1, ms := AfterData(hmac, s, e), Newly(hmac, s, e);
    DataKeeps(hmac, s, e);
    NewlyIs(hmac, s, e);
    DataIs(hmac, s, e);
    HandledKeeps(hmac, s1, e.toClient, ms);
    SameReceptionIntact(s1.joint, Next(hmac, s, e).joint);
    if client == e.toClient {
      HandledAcks(hmac, s1, client, ms, k);
    } else {
      HandledElsewhere(hmac, s1, e.toClient, ms);
    }
  }

  lemma {:induction false} RunAcks(hmac: Setup.Hmac, s: Stack, events: seq<Event>, client: bool, k: nat)
    requires Setup.Digests(hmac) && Inv(hmac, s) && Schedule(hmac, s, events) && Intact(Run(hmac, s, events).joint)
    ensures Intact(s.joint)
    ensures var before, after := LogOf(s.channels, client), LogOf(Run(hmac, s, events).channels, client);
      AckOut(after, k) <==> AckOut(before, k) || TookOpen(hmac, s, events, client, k)
    decreases |events|
  {
    hide Inv, Next, Enabled, LogOf, AckOut, TakesOpen, Intact, Setup.Digests;
    if events != [] {
      StepKeepsInv(hmac, s, events[0]);
      RunAcks(hmac, Next(hmac, s, events[0]), events[1..], client, k);
      StepAcks(hmac, s, events[0], client, k);
      StepStaysTorn(hmac, s, events[0]);
    }
  }

  // ---- Main results ----

  predicate OpenAtBoth(c: ChannelRuns.System, k: nat) {
    k in c.a.channels && DataChannels.IsOpen(c.a.channels[k]) && k in c.b.channels
        && DataChannels.IsOpen(c.b.channels[k])
  }

  /** The parity of the ids the other end chooses. */
  function Foreign(client: bool): nat { if client then 1 else 0 }

  /** Everything this end has passed to `sendData` that can come out has been dealt with by the other. */
  predicate Settled(c: ChannelRuns.System, client: bool) { GotBy(c, !client) == Clear(LogOf(c, client)) }

  lemma OpenIffAcked(c: ChannelRuns.System, client: bool, k: nat)
    requires ChannelRuns.Inv(c) && k % 2 == Foreign(client)
    ensures GotBy(c, !client) <= Clear(LogOf(c, client))
    ensures OpenAtBoth(c, k) <==> ChannelRuns.AckedIn(LogOf(c, client)[..GotBy(c, !client)], k)
  {
    hide ChannelRuns.FramesIn, ChannelRuns.OpenedIn, ChannelRuns.AckedIn, ChannelRuns.Orderly, ChannelRuns.OpensMatch;
    hide Clear, ChannelRuns.FramesOf;
    assert ChannelRuns.StreamInv(c.a, c.b, c.gotB, 0, k) && ChannelRuns.StreamInv(c.b, c.a, c.gotA, 1, k);
    ChannelRuns.PrefixSays(LogOf(c, client), GotBy(c, !client), k);
    ChannelRuns.PrefixSays(LogOf(c, !client), GotBy(c, client), k);
  }

  lemma AckOutAsFarAsHeard(log: seq<Message>, n: nat, k: nat)
    requires n <= Clear(log)
    ensures ChannelRuns.AckedIn(log[..n], k) ==> AckOut(log, k)
    ensures n == Clear(log) ==> (ChannelRuns.AckedIn(log[..n], k) <==> AckOut(log, k))
  {
    hide ChannelRuns.AckedIn, Clear;
    ChannelRuns.PrefixSays(log[..Clear(log)], n, k);
    assert log[..Clear(log)][..n] == log[..n];
  }

  /**
   * Over every run from two closed ends, unless an end closed in the middle of a message and went on receiving:
   * a channel of the other end's is open at both ends only if an established end took its OPEN before its own
   * `sendData` first refused anything; and once everything that end said that can arrive has, if and only if.
   */
  lemma OpensIff(hmac: Setup.Hmac, s0: Stack, events: seq<Event>, client: bool, k: nat)
    requires Setup.Digests(hmac) && Initial(s0) && Schedule(hmac, s0, events) && k % 2 == Foreign(client)
    ensures var s := Run(hmac, s0, events);
      Intact(s.joint) ==>
        && (OpenAtBoth(s.channels, k) ==> TookOpen(hmac, s0, events, client, k))
        && (Settled(s.channels, client) ==> (OpenAtBoth(s.channels, k) <==> TookOpen(hmac, s0, events, client, k)))
  {
    hide Schedule, Run, ChannelRuns.Inv, Lifetime.Inv, TookOpen, AckOut, Setup.Digests, Intact, OpenAtBoth, Due;
    hide ChannelRuns.AckedIn;
    var s := Run(hmac, s0, events);
    if Intact(s.joint) {
      InitialInv(hmac, s0);
      RunKeepsInv(hmac, s0, events);
      RunAcks(hmac, s0, events, client, k);
      NothingCalled(s0);
      NoAck(k);
      OpenIffAcked(s.channels, client, k);
      AckOutAsFarAsHeard(LogOf(s.channels, client), GotBy(s.channels, !client), k);
    }
  }

  lemma NoAck(k: nat)
    ensures !AckOut([], k)
  {}

  /** When both ends have dealt with everything and nothing was refused, every channel whose OPEN was sent is open. */
  lemma EveryChannelOpens(hmac: Setup.Hmac, s0: Stack, events: seq<Event>, client: bool, k: nat)
    requires Setup.Digests(hmac) && Initial(s0) && Schedule(hmac, s0, events) && k % 2 == Foreign(client)
    ensures var s := Run(hmac, s0, events);
      var c := s.channels;
      && Intact(s.joint) && Settled(c, true) && Settled(c, false)
      && !ChannelLimits.Blocked(LogOf(c, true)) && !ChannelLimits.Blocked(LogOf(c, false))
      && ChannelRuns.OpenedIn(LogOf(c, !client), k) ==>
        OpenAtBoth(c, k)
  {
    hide Schedule, Run, Lifetime.Inv, Setup.Digests, Intact, Due, OpenAtBoth;
    hide ChannelRuns.FramesIn, ChannelRuns.OpenedIn, ChannelRuns.AckedIn, ChannelRuns.Orderly, ChannelRuns.OpensMatch;
    hide Clear, ChannelRuns.FramesOf;
    InitialInv(hmac, s0);
    RunKeepsInv(hmac, s0, events);
    var s := Run(hmac, s0, events);
    var c := s.channels;
    if Intact(s.joint) {
      assert ChannelRuns.StreamInv(c.a, c.b, c.gotB, 0, k) && ChannelRuns.StreamInv(c.b, c.a, c.gotA, 1, k);
      OpenIffAcked(c, client, k);
      assert c.gotB == |c.a.log| ==> c.a.log[..c.gotB] == c.a.log;
      assert c.gotA == |c.b.log| ==> c.b.log[..c.gotA] == c.b.log;
    }
  }

  // ---- A channel whose OPEN went unanswered ----

  /** The end has thrown on the OPEN for stream `k`, takes no more packets, and has nothing to do with that stream. */
  ghost predicate Lost(s: Stack, client: bool, k: nat) {
    Lifetime.SideOf(s.joint, client).health.AnswerFailed? && NoTrace(s.channels, client, k)
  }

  ghost predicate NoTrace(c: ChannelRuns.System, client: bool, k: nat) {
    var mine, theirs := EndOf(c, client), EndOf(c, !client);
    && k % 2 == Foreign(client) && k < theirs.nextStreamId
    && theirs.nextStreamId % 2 == Foreign(client) && mine.nextStreamId % 2 != Foreign(client)
    && k in theirs.channels && !theirs.channels[k].acked && theirs.channels[k].events == []
    && k !in mine.channels && (forall m | m in mine.log :: m.streamId != k)
  }

  /** An arrival at which the listener throws loses the channel of the OPEN it threw on. */
  lemma ThrowLoses(hmac: Setup.Hmac, s: Stack, e: Event, k: nat)
    requires Setup.Digests(hmac) && Inv(hmac, s) && e.Packet? && Enabled(hmac, s, e) && Intact(Next(hmac, s, e).joint)
    requires var side := Lifetime.SideOf(Next(hmac, s, e).joint, e.toClient);
      side.health.AnswerFailed? && Emitted(side.link) != []
          && Emitted(side.link)[|Emitted(side.link)| - 1].streamId == k
    ensures Lost(Next(hmac, s, e), e.toClient, k)
  {
    hide Next, Enabled, Setup.Digests, Lifetime.Inv, Intact;
    StepKeepsInv(hmac, s, e);
    UnansweredLoses(hmac, Next(hmac, s, e), e.toClient, k);
  }

  lemma UnansweredLoses(hmac: Setup.Hmac, s: Stack, client: bool, k: nat)
    requires Setup.Digests(hmac) && Inv(hmac, s) && Intact(s.joint)
    requires var side := Lifetime.SideOf(s.joint, client);
      side.health.AnswerFailed? && Emitted(side.link) != []
          && Emitted(side.link)[|Emitted(side.link)| - 1].streamId == k
    ensures Lost(s, client, k)
  {
    hide Lifetime.Inv, Setup.Digests, Intact, ChannelRuns.Inv, Clear;
    OutIsLogged(hmac, s.joint, client);
    LastIsOpen(hmac, s.joint, client);
    OpenUnheard(s.channels, client, k);
  }

  lemma LastIsOpen(hmac: Setup.Hmac, j: Lifetime.Joint, client: bool)
    requires Setup.Digests(hmac) && Lifetime.Inv(hmac, j)
    ensures Lifetime.Unanswered(Lifetime.SideOf(j, client))
  {
    hide Setup.Inv, Sound, Lifetime.Coupled, Lifetime.Queues;
  }

  /** An OPEN that is next in line has left no trace. */
  lemma OpenUnheard(c: ChannelRuns.System, client: bool, k: nat)
    requires ChannelRuns.Inv(c)
    requires var log, got := LogOf(c, !client), GotBy(c, client);
      got < Clear(log) && DataChannels.IsOpenMessage(log[got]) && log[got].streamId == k
    ensures NoTrace(c, client, k)
  {
    hide ChannelRuns.FramesIn, ChannelRuns.OpenedIn, ChannelRuns.AckedIn, ChannelRuns.Orderly, ChannelRuns.OpensMatch;
    hide Clear, ChannelRuns.FramesOf;
    assert ChannelRuns.StreamInv(c.a, c.b, c.gotB, 0, k) && ChannelRuns.StreamInv(c.b, c.a, c.gotA, 1, k);
    var log, got := LogOf(c, !client), GotBy(c, client);
    ChannelRuns.OrderlyAt(log, Foreign(client), got);
    ChannelRuns.Taken(log, got, k);
    ChannelRuns.PrefixSays(log, got + 1, k);
    ChannelRuns.PrefixSays(LogOf(c, client), GotBy(c, !client), k);
    ChannelRuns.Untouched(LogOf(c, client), k, 1 - Foreign(client));
  }

  lemma {:induction false} HandledNoTrace(hmac: Setup.Hmac, s: Stack, client: bool, ms: seq<Message>, k: nat)
    requires Setup.Digests(hmac) && NoTrace(s.channels, client, k) && forall m | m in ms :: m.streamId != k
    ensures NoTrace(Handled(hmac, s, !client, ms).channels, client, k)
    decreases |ms|
  {
    hide Local, Setup.Digests, NoTrace, Heard;
    if ms != [] {
      HeardNoTrace(s.channels, client, ms[0], k);
      LocalChannels(hmac, s, Heard(s.channels, !client, ms[0]), !client);
      HandledNoTrace(hmac, Local(hmac, s, Heard(s.channels, !client, ms[0]), !client, false), client, ms[1..], k);
    }
  }

  lemma HeardNoTrace(c: ChannelRuns.System, client: bool, m: Message, k: nat)
    requires NoTrace(c, client, k) && m.streamId != k
    ensures NoTrace(Heard(c, !client, m), client, k)
  {
    hide Dcep.DecodeOpen, Dcep.MessageType;
  }

  lemma OwnStepNoTrace(c: ChannelRuns.System, y: ChannelRuns.Event, client: bool, k: nat)
    requires NoTrace(c, client, k) && ChannelRuns.Enabled(c, y) && !y.Deliver?
    ensures NoTrace(ChannelRuns.Next(c, y), client, k)
  {
    hide Dcep.OpenBytes, Dcep.Fits;
    if y.Send? {
      DataChannels.FrameRoundTrip(y.id, y.frame);
    }
  }

  lemma StepStaysLost(hmac: Setup.Hmac, s: Stack, e: Event, client: bool, k: nat)
    requires Setup.Digests(hmac) && Inv(hmac, s) && Enabled(hmac, s, e) && Lost(s, client, k)
    ensures Lost(Next(hmac, s, e), client, k)
  {
    hide Lifetime.Inv, ChannelRuns.Inv, Intact, Setup.Digests, Handled, AnsweredInTime, Newly, AfterData, LocalInTime;
    hide NoTrace, ChannelRuns.Next, Lifetime.Enabled, Carried;
    assert NoTrace(s.channels, client, k) by { LostNoTrace(s, client, k); }
    match e
    case Open(end, name, init) =>
      OwnStepNoTrace(s.channels, Opening(s, end, name, init), client, k);
      ChannelStepSame(hmac, s, e);
      StillLost(s, Next(hmac, s, e), client, k);
    case Send(end, id, f) =>
      OwnStepNoTrace(s.channels, ChannelRuns.Send(end, id, f), client, k);
      ChannelStepSame(hmac, s, e);
      StillLost(s, Next(hmac, s, e), client, k);
    case Packet(toClient, i, sorted) => PacketStaysLost(hmac, s, e, client, k);
    case _ =>
      JointHealth(hmac, s, e, client);
      StillLost(s, Next(hmac, s, e), client, k);
  }

  lemma LostNoTrace(s: Stack, client: bool, k: nat)
    requires Lost(s, client, k)
    ensures NoTrace(s.channels, client, k) && Lifetime.SideOf(s.joint, client).health.AnswerFailed?
  {}

  lemma StillLost(s: Stack, s': Stack, client: bool, k: nat)
    requires Lost(s, client, k) && NoTrace(s'.channels, client, k)
    requires Lifetime.SideOf(s'.joint, client).health == Lifetime.SideOf(s.joint, client).health
    ensures Lost(s', client, k)
  {}

  lemma JointHealth(hmac: Setup.Hmac, s: Stack, e: Event, client: bool)
    requires Setup.Digests(hmac) && (e.Setting? || e.Sack?) && Enabled(hmac, s, e)
    ensures Next(hmac, s, e).channels == s.channels
    ensures Lifetime.SideOf(Next(hmac, s, e).joint, client).health == Lifetime.SideOf(s.joint, client).health
  {
    hide Setup.Digests, Setup.Next, HandleSack, Released, TornBy;
    OnlyJointEvents(s, e);
  }

  lemma PacketStaysLost(hmac: Setup.Hmac, s: Stack, e: Event, client: bool, k: nat)
    requires Setup.Digests(hmac) && Inv(hmac, s) && e.Packet? && Enabled(hmac, s, e) && Lost(s, client, k)
    ensures Lost(Next(hmac, s, e), client, k)
  {
    hide Lifetime.Inv, Intact, ChannelRuns.Inv, Setup.Digests, AnsweredInTime, NoTrace, Handled, Newly, AfterData, Due;
    hide Lifetime.Enabled, ComeNext;
    var s1, ms := AfterData(hmac, s, e), Newly(hmac, s, e);
    LostNoTrace(s, client, k);
    DataKeeps(hmac, s, e);
    NewlyIs(hmac, s, e);
    DataIs(hmac, s, e);
    HandledKeeps(hmac, s1, e.toClient, ms);
    if e.toClient == client {
      FailedHearsNothing(hmac, s, e);
    } else {
      NewlyOnOtherStreams(hmac, s, e, k);
      HandledNoTrace(hmac, s1, client, ms, k);
    }
    StillLost(s, Next(hmac, s, e), client, k);
  }

  lemma FailedHearsNothing(hmac: Setup.Hmac, s: Stack, e: Event)
    requires Setup.Digests(hmac) && e.Packet? && e.i < |Lifetime.SideOf(s.joint, e.toClient).link.inbound.log|
    requires Lifetime.SideOf(s.joint, e.toClient).health != Well
    ensures Newly(hmac, s, e) == []
    ensures Handled(hmac, AfterData(hmac, s, e), e.toClient, Newly(hmac, s, e)) == AfterData(hmac, s, e)
    ensures Lifetime.SideOf(AfterData(hmac, s, e).joint, e.toClient) == Lifetime.SideOf(s.joint, e.toClient)
  {
    hide Setup.Digests, DeliverHeard;
  }

  /** What comes out was passed to `sendData`, torn messages or not. */
  lemma NewlyOnOtherStreams(hmac: Setup.Hmac, s: Stack, e: Event, k: nat)
    requires Setup.Digests(hmac) && Inv(hmac, s) && e.Packet? && Enabled(hmac, s, e)
    requires forall m | m in LogOf(s.channels, !e.toClient) :: m.streamId != k
    ensures forall m | m in Newly(hmac, s, e) :: m.streamId != k
  {
    hide Lifetime.Inv, Intact, ChannelRuns.Inv, Setup.Digests, AnsweredInTime, AfterData, Due, Newly, Lifetime.Enabled;
    hide ComeNext, Clear, EndToEnd.AllArrived, NothingTorn, Whole;
    DataKeeps(hmac, s, e);
    NewlyIs(hmac, s, e);
    DataIs(hmac, s, e);
    Lifetime.InvDelivers(hmac, AfterData(hmac, s, e).joint);
    var side := Lifetime.SideOf(AfterData(hmac, s, e).joint, e.toClient);
    var finished, msgs := Finished(side.link.inbound.rx), side.link.msgs;
    WithoutAdds(finished, side.torn);
    forall m | m in Newly(hmac, s, e) ensures m.streamId != k {
      assert m in Emitted(side.link) && m in finished && m in msgs;
    }
  }

  lemma {:induction false} WithoutAdds(msgs: seq<Message>, torn: set<nat>)
    ensures forall m | m in Without(msgs, torn) :: m in msgs
  {
    if msgs != [] {
      WithoutAdds(msgs[..|msgs| - 1], torn);
    }
  }

  /** Whatever both ends do afterwards, that channel never opens at either of them. */
  lemma {:induction false} LostForGood(hmac: Setup.Hmac, s: Stack, events: seq<Event>, client: bool, k: nat)
    requires Setup.Digests(hmac) && Inv(hmac, s) && Lost(s, client, k) && Schedule(hmac, s, events)
    ensures var c := Run(hmac, s, events).channels;
      && k !in EndOf(c, client).channels
      && k in EndOf(c, !client).channels && !DataChannels.IsOpen(EndOf(c, !client).channels[k])
      && EndOf(c, !client).channels[k].events == []
    decreases |events|
  {
    hide Inv, Next, Enabled, Setup.Digests;
    if events != [] {
      StepStaysLost(hmac, s, events[0], client, k);
      StepKeepsInv(hmac, s, events[0]);
      LostForGood(hmac, Next(hmac, s, events[0]), events[1..], client, k);
    }
  }

  // ---- Such a run ----

  function Settings(events: seq<Lifetime.Event>): seq<Event>
    requires forall e | e in events :: e.Setting?
  {
    if events == [] then [] else [Setting(events[0].e)] + Settings(events[1..])
  }

  lemma {:induction false} SettingsRun(hmac: Setup.Hmac, s: Stack, events: seq<Lifetime.Event>)
    requires Setup.Digests(hmac) && (forall e | e in events :: e.Setting?)
    requires Lifetime.Schedule(hmac, s.joint, events)
    ensures Schedule(hmac, s, Settings(events))
    ensures Run(hmac, s, Settings(events)) == s.(joint := Lifetime.Run(hmac, s.joint, events))
    decreases |events|
  {
    hide Setup.Digests, Lifetime.Enabled, Lifetime.Next;
    if events != [] {
      assert Settings(events)[0] == Setting(events[0].e) && Settings(events)[1..] == Settings(events[1..]);
      assert events[0] in events;
      SettingsRun(hmac, Next(hmac, s, Setting(events[0].e)), events[1..]);
    }
  }

  lemma {:induction false} RunPush(hmac: Setup.Hmac, s: Stack, es: seq<Event>, e: Event)
    requires Setup.Digests(hmac) && Schedule(hmac, s, es) && Enabled(hmac, Run(hmac, s, es), e)
    ensures Schedule(hmac, s, es + [e]) && Run(hmac, s, es + [e]) == Next(hmac, Run(hmac, s, es), e)
    decreases |es|
  {
    hide Enabled, Next, Setup.Digests;
    if es == [] {
      assert es + [e] == [e] && [e][1..] == [];
    } else {
      assert (es + [e])[0] == es[0] && (es + [e])[1..] == es[1..] + [e];
      RunPush(hmac, Next(hmac, s, es[0]), es[1..], e);
    }
  }

  /** The OPEN of a first channel of the server's. */
  function FirstOpen(name: Buffer, init: DataChannels.Init): Message
    requires Dcep.Fits(DataChannels.OpenOf(DataChannels.Channel(name, init, false, [], [])))
  {
    var o := DataChannels.OpenOf(DataChannels.Channel(name, init, false, [], []));
    Message(1, DataChannels.PPID_DCEP, Dcep.OpenBytes(o))
  }

  /** The server, established, opens its first channel. */
  lemma ServerOpens(hmac: Setup.Hmac, s: Stack, name: Buffer, init: DataChannels.Init)
    requires Setup.Digests(hmac) && s.channels.b == DataChannels.Manager(map[], 1, [])
    requires Lifetime.Established(s.joint, false)
    requires Dcep.Fits(DataChannels.OpenOf(DataChannels.Channel(name, init, false, [], [])))
    requires EndToEnd.Timely(s.joint.toClient.link, EndToEnd.SendMessage(FirstOpen(name, init), false))
    ensures Enabled(hmac, s, Open(false, name, init))
    ensures Next(hmac, s, Open(false, name, init)).joint ==
      Lifetime.Next(hmac, s.joint, Lifetime.Send(true, FirstOpen(name, init), false))
  {
    hide Dcep.OpenBytes, Dcep.Fits, Lifetime.Next, EndToEnd.Timely, Setup.Digests;
    assert DataChannels.FirstFree({}, 1) == 1;
  }

  /** The only chunk, at a client that has not been established. */
  lemma OpenThrows(s: Side, open: Message)
    requires Fresh(s) && DataChannels.IsOpenMessage(open) && Carriable(open) && |open.data| <= MAX_PAYLOAD
    ensures EndToEnd.Timely(s.link, EndToEnd.SendMessage(open, false))
    ensures var s1, throws := Sends(s, open, false), Lifetime.Answering(false);
      && |s1.link.inbound.log| == 1 && CanArrive(s1, 0, [], throws)
      && var s2 := Arrives(s1, 0, [], throws);
         s2.health.AnswerFailed? && Emitted(s2.link) == [open] && Due(s2) == 0 && s2.torn == {}
  {
    hide BrokenRuns.IsChunkOf, Sends, AcceptHeard, CanArrive;
    BrokenRuns.FreshSends(s, open);
    FreshIsSound(s);
    SendsKeeps(s, open, false);
    var s1, throws := Sends(s, open, false), Lifetime.Answering(false);
    var d := s1.link.inbound.log[0];
    BrokenRuns.IsSendable(d, open, s.link.inbound.origin);
    BrokenRuns.NextArrives(s1, 0, throws);
    BrokenRuns.ConsumeShort(Delivery.NOTHING, d, open, s.link.inbound.origin);
    FirstHeard(s1.link.inbound.rx, d, open, throws);
  }

  lemma FirstHeard(rx: Receiver, d: Chunks.Data, open: Message, throws: Listener)
    requires Consume(rx.reassembly, d) == rx.reassembly.(emitted := [open]) && rx.reassembly.emitted == []
    requires throws(open)
    ensures var o := AcceptHeard(rx, d.tsn, d, throws); o.threw && o.rx.reassembly.emitted == [open]
  {
    hide Consume;
  }

  lemma ShortOpen(name: Buffer, init: DataChannels.Init) returns (open: Message)
    requires |name| + |init.protocol| <= 1000
    ensures Dcep.Fits(DataChannels.OpenOf(DataChannels.Channel(name, init, false, [], [])))
    ensures open == FirstOpen(name, init) && open.streamId == 1
    ensures DataChannels.IsOpenMessage(open) && Carriable(open) && |open.data| <= MAX_PAYLOAD
  {
    hide Dcep.OpenHead, DataChannels.ChannelType, DataChannels.ReliabilityParam;
    open := FirstOpen(name, init);
    Dcep.OpenRoundTrip(DataChannels.OpenOf(DataChannels.Channel(name, init, false, [], [])));
  }

  /** The server's only chunk reaches the client in the window. */
  lemma PacketThrows(hmac: Setup.Hmac, s: Stack, unused: Side, open: Message)
    requires Setup.Digests(hmac) && Fresh(unused) && s.joint.toClient == Sends(unused, open, false)
    requires DataChannels.IsOpenMessage(open) && Carriable(open) && |open.data| <= MAX_PAYLOAD
    requires !Lifetime.Established(s.joint, true) && s.joint.toServer.torn == {}
    ensures var e := Packet(true, 0, []);
      && Enabled(hmac, s, e)
      && var side := Next(hmac, s, e).joint.toClient;
         side.health.AnswerFailed? && Emitted(side.link) == [open] && Intact(Next(hmac, s, e).joint)
  {
    hide Fresh, Sends, Arrives, CanArrive, Setup.Digests, Lifetime.Next, Whole;
    OpenThrows(unused, open);
    BrokenRuns.WellDataIn(hmac, s.joint, 0, []);
    NothingDue(unused, open);
  }

  lemma NothingDue(s: Side, open: Message)
    requires Fresh(s)
    ensures Due(Sends(s, open, false)) == 0
  {
    hide MessagePieces, Enqueue;
  }

  /**
   * A run from two closed ends that loses a channel: the server opens one as soon as it is established, and the
   * OPEN overtakes the COOKIE_ACK.
   */
  lemma FirstOpenLost(hmac: Setup.Hmac, s0: Stack, name: Buffer, init: DataChannels.Init) returns (events: seq<Event>)
    requires Setup.Digests(hmac) && Initial(s0) && |name| + |init.protocol| <= 1000
    ensures Schedule(hmac, s0, events)
    ensures Lost(Run(hmac, s0, events), true, 1)
  {
    hide Setup.Digests, Lifetime.Next, Lifetime.Run, Lifetime.Schedule, Setup.Initial, Run, Schedule, Sends, Fresh,
         Next, Enabled, Lost, FirstOpen, Dcep.OpenBytes, EndToEnd.Timely, Inv, Intact, EndToEnd.Initial;
    var open := ShortOpen(name, init);
    var setting := BrokenRuns.WindowOpens(hmac, s0.joint);
    SettingsRun(hmac, s0, setting);
    var es := Settings(setting);
    var s1 := Run(hmac, s0, es);
    OpenThrows(s0.joint.toClient, open);
    ServerOpens(hmac, s1, name, init);
    BrokenRuns.SendInWindow(hmac, s1.joint, open);
    RunPush(hmac, s0, es, Open(false, name, init));
    es := es + [Open(false, name, init)];
    FreshTorn(s0.joint.toServer);
    var s2 := Run(hmac, s0, es);
    PacketThrows(hmac, s2, s0.joint.toClient, open);
    RunPush(hmac, s0, es, Packet(true, 0, []));
    events := es + [Packet(true, 0, [])];
    InitialInv(hmac, s0);
    RunKeepsInv(hmac, s0, es);
    ThrowLoses(hmac, s2, Packet(true, 0, []), 1);
  }

  lemma FreshTorn(s: Side)
    requires Fresh(s)
    ensures s.torn == {}
  {}
}
