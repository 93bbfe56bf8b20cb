/**
 * Data channels over SCTP streams (src/sctp/datachannel-manager.ts): stream ids, DCEP, and the mapping
 * of frames to payload protocol identifiers, as functions on the manager's state.
 */
module DataChannels {
  import opened Bytes
  import opened Serial
  import opened Association
  import Dcep

  const PPID_DCEP: u32 := 50
  const PPID_STRING: u32 := 51
  const PPID_BINARY_PARTIAL: u32 := 52
  const PPID_BINARY: u32 := 53
  const PPID_STRING_EMPTY: u32 := 56
  const PPID_BINARY_EMPTY: u32 := 57

  datatype Frame = Frame(data: Buffer, isBinary: bool)

  /** What the application sees of a channel. */
  datatype ChannelEvent = Opened | Received(frame: Frame)

  /** `unordered` stands for `init.ordered === false`. */
  datatype Init = Init(unordered: bool, maxRetransmits: Option<int>, maxPacketLifeTime: Option<int>, protocol: Buffer)

  /** A channel with its manager entry. `events` and `sent` are history. */
  datatype Channel = Channel(name: Buffer, init: Init, acked: bool, events: seq<ChannelEvent>, sent: seq<Frame>)

  /** `log` lists the calls to the association's `sendData`, in order, those that threw included. */
  datatype Manager = Manager(channels: map<nat, Channel>, nextStreamId: nat, log: seq<Message>)

  /** A channel here is open from its OPEN event on: closing is not part of this model. */
  predicate IsOpen(c: Channel) { c.acked }

  // ---- Opening ----

  function ChannelType(init: Init): byte {
    if init.maxRetransmits.Some? then (if init.unordered then 0x81 else 0x01)
    else if init.maxPacketLifeTime.Some? then (if init.unordered then 0x82 else 0x02)
    else (if init.unordered then 0x80 else 0x00)
  }

  function ReliabilityParam(init: Init): u32 {
    if init.maxRetransmits.Some? then ToUint32(init.maxRetransmits.value)
    else if init.maxPacketLifeTime.Some? then ToUint32(init.maxPacketLifeTime.value)
    else 0
  }

  function OpenOf(c: Channel): Dcep.Open {
    Dcep.Open(ChannelType(c.init), 0, ReliabilityParam(c.init), c.name, c.init.protocol)
  }

  /** Section 5.1 of RFC 8832: what an OPEN says about ordering and reliability. */
  function InitFrom(o: Dcep.Open): Init {
    Init(o.channelType >= 0x80,
         if o.channelType % 0x80 == 1 then Some(o.reliability) else None,
         if o.channelType % 0x80 == 2 then Some(o.reliability) else None,
         o.protocol)
  }

  /**
   * What a channel's OPEN says to whoever decodes it is what the channel was opened with, if and only if not both
   * limits were given and the one given fits 32 bits.
   */
  lemma OpenTellsInitIff(c: Channel)
    requires Dcep.Fits(OpenOf(c))
    ensures var r := Dcep.DecodeOpen(Dcep.OpenBytes(OpenOf(c)));
      && r.Some? && r.value.name == c.name && r.value.priority == 0
      && (InitFrom(r.value) == c.init <==>
            && (c.init.maxRetransmits.None? || c.init.maxPacketLifeTime.None?)
            && (c.init.maxRetransmits.Some? ==> 0 <= c.init.maxRetransmits.value < 0x1_0000_0000)
            && (c.init.maxPacketLifeTime.Some? ==> 0 <= c.init.maxPacketLifeTime.value < 0x1_0000_0000))
  {
    hide Dcep.OpenBytes, Dcep.DecodeOpen;
    Dcep.OpenRoundTrip(OpenOf(c));
  }

  lemma AllTaken(taken: set<nat>, id: nat, free: nat)
    requires id in taken && forall k | id + 2 <= k < free && k % 2 == (id + 2) % 2 :: k in taken - {id}
    ensures forall k | id <= k < free && k % 2 == id % 2 :: k in taken
  {
    forall k | id <= k < free && k % 2 == id % 2 ensures k in taken {
      if k > id {
        assert k >= id + 2 && k % 2 == (id + 2) % 2 && k in taken - {id};
      }
    }
  }

  /** The first id not taken, in steps of two. */
  function FirstFree(taken: set<nat>, id: nat): (free: nat)
    ensures free >= id && free % 2 == id % 2 && free !in taken
    ensures forall k | id <= k < free && k % 2 == id % 2 :: k in taken
    decreases |taken|
  {
    if id in taken then
      var rest := taken - {id};
      var free := FirstFree(rest, id + 2);
      AllTaken(taken, id, free);
      free
    else id
  }

  /**
   * An over-long label or protocol throws before `sendData` is called, an id above 65535 inside it. Either
   * way the entry stays behind.
   */
  function OpenChannel(m: Manager, name: Buffer, init: Init): Manager {
    var id, c := FirstFree(m.channels.Keys, m.nextStreamId), Channel(name, init, false, [], []);
    Manager(m.channels[id := c], id + 2,
            if Dcep.Fits(OpenOf(c)) then m.log + [Message(id, PPID_DCEP, Dcep.OpenBytes(OpenOf(c)))] else m.log)
  }

  /** Before the association is established `sendData` refuses at once: the entry and its id stay taken. */
  function OpenUnsent(m: Manager, name: Buffer, init: Init): Manager {
    OpenChannel(m, name, init).(log := m.log)
  }

  // ---- Frames ----

  /** An empty frame still takes one byte on the wire, under its own identifier (section 6.6 of RFC 8831). */
  function FrameMessage(id: nat, f: Frame): Message {
    Message(id,
      if f.isBinary then (if f.data == [] then PPID_BINARY_EMPTY else PPID_BINARY)
      else (if f.data == [] then PPID_STRING_EMPTY else PPID_STRING),
      if f.data == [] then [0] else f.data)
  }

  function MessageFrame(x: Message): Frame {
    Frame(if x.ppid == PPID_STRING_EMPTY || x.ppid == PPID_BINARY_EMPTY then [] else x.data,
          x.ppid == PPID_BINARY || x.ppid == PPID_BINARY_EMPTY || x.ppid == PPID_BINARY_PARTIAL)
  }

  lemma FrameRoundTrip(id: nat, f: Frame)
    ensures MessageFrame(FrameMessage(id, f)) == f && FrameMessage(id, f).ppid != PPID_DCEP
    ensures FrameMessage(id, f).data != []
  {}

  /** `RTCDataChannel.send` on an open channel. */
  function SendFrame(m: Manager, id: nat, f: Frame): Manager
    requires id in m.channels
  {
    m.(channels := m.channels[id := m.channels[id].(sent := m.channels[id].sent + [f])],
       log := m.log + [FrameMessage(id, f)])
  }

  // ---- Messages from the association ----

  predicate IsOpenMessage(x: Message) { x.ppid == PPID_DCEP && Dcep.MessageType(x.data) == Dcep.DATA_CHANNEL_OPEN }

  predicate IsAck(x: Message) { x.ppid == PPID_DCEP && Dcep.MessageType(x.data) == Dcep.DATA_CHANNEL_ACK }

  function AckMessage(id: nat): Message { Message(id, PPID_DCEP, Dcep.ACK_BYTES) }

  /** `acceptChannel` runs inside the open request, before the next message is looked at. */
  function Accepted(o: Dcep.Open): Channel {
    Channel(o.name, Init(o.channelType >= 0x80, None, None, o.protocol), true, [Opened], [])
  }

  function OnMessage(m: Manager, x: Message): Manager {
    if x.ppid == PPID_DCEP then OnDcep(m, x)
    else if x.streamId !in m.channels then m
    else
      var c := m.channels[x.streamId];
      m.(channels := m.channels[x.streamId := c.(events := c.events + [Received(MessageFrame(x))])])
  }

  function OnDcep(m: Manager, x: Message): Manager {
    if Dcep.MessageType(x.data) == Dcep.DATA_CHANNEL_OPEN then
      match Dcep.DecodeOpen(x.data)
      case None => m
      case Some(o) => m.(channels := m.channels[x.streamId := Accepted(o)], log := m.log + [AckMessage(x.streamId)])
    else if Dcep.MessageType(x.data) == Dcep.DATA_CHANNEL_ACK && x.streamId in m.channels
        && !m.channels[x.streamId].acked then
      var c := m.channels[x.streamId];
      m.(channels := m.channels[x.streamId := c.(acked := true, events := c.events + [Opened])])
    else m
  }
}

/** Two managers joined by the association's in-order message delivery, over every run. */
module ChannelRuns {
  import opened Bytes
  import opened Serial
  import opened Association
  import opened DataChannels
  import Dcep

  /** The DTLS client has the even ids. `gotA` messages of `b.log` have reached `a`, and the converse. */
  datatype System = System(a: Manager, b: Manager, gotA: nat, gotB: nat)

  datatype Event =
    | Open(byA: bool, name: Buffer, init: Init)
    | OpenEarly(byA: bool, name: Buffer, init: Init)  // before this end's association is established
    | Send(byA: bool, id: nat, frame: Frame)
    | Deliver(toA: bool)

  predicate Initial(s: System) { s == System(Manager(map[], 0, []), Manager(map[], 1, []), 0, 0) }

  predicate Enabled(s: System, e: Event) {
    match e
    case Open(_, _, _) => true
    case OpenEarly(_, _, _) => true
    case Send(byA, id, _) => var m := if byA then s.a else s.b; id in m.channels && IsOpen(m.channels[id])
    case Deliver(toA) => if toA then CanArrive(s.b.log, s.gotA) else CanArrive(s.a.log, s.gotB)
  }

  /** The next message in order; one that `sendData` refused never arrives, nor does anything after it. */
  predicate CanArrive(log: seq<Message>, got: nat) { got < |log| && Carriable(log[got]) }

  function Next(s: System, e: Event): System
    requires Enabled(s, e)
  {
    match e
    case Open(byA, name, init) =>
      if byA then s.(a := OpenChannel(s.a, name, init)) else s.(b := OpenChannel(s.b, name, init))
    case OpenEarly(byA, name, init) =>
      if byA then s.(a := OpenUnsent(s.a, name, init)) else s.(b := OpenUnsent(s.b, name, init))
    case Send(byA, id, f) => if byA then s.(a := SendFrame(s.a, id, f)) else s.(b := SendFrame(s.b, id, f))
    case Deliver(toA) =>
      if toA then s.(a := OnMessage(s.a, s.b.log[s.gotA]), gotA := s.gotA + 1)
      else s.(b := OnMessage(s.b, s.a.log[s.gotB]), gotB := s.gotB + 1)
  }

  // ---- What a log says about one stream ----

  predicate OpenedIn(log: seq<Message>, k: nat) {
    log != [] && (OpenedIn(log[..|log| - 1], k) || (IsOpenMessage(log[|log| - 1]) && log[|log| - 1].streamId == k))
  }

  predicate AckedIn(log: seq<Message>, k: nat) {
    log != [] && (AckedIn(log[..|log| - 1], k) || (IsAck(log[|log| - 1]) && log[|log| - 1].streamId == k))
  }

  function FramesIn(log: seq<Message>, k: nat): seq<Frame> {
    if log == [] then []
    else
      var before, x := FramesIn(log[..|log| - 1], k), log[|log| - 1];
      if x.ppid != PPID_DCEP && x.streamId == k then before + [MessageFrame(x)] else before
  }

  function FramesOf(events: seq<ChannelEvent>): seq<Frame> {
    if events == [] then []
    else
      var before, e := FramesOf(events[..|events| - 1]), events[|events| - 1];
      match e case Opened => before case Received(f) => before + [f]
  }

  function SentOn(m: Manager, k: nat): seq<Frame> { if k in m.channels then m.channels[k].sent else [] }

  function ReceivedOn(m: Manager, k: nat): seq<Frame> { if k in m.channels then FramesOf(m.channels[k].events) else [] }

  /** What may follow `before` in the log of the end whose ids have this parity. */
  predicate MayFollow(before: seq<Message>, x: Message, parity: nat) {
    if IsOpenMessage(x) then x.streamId % 2 == parity && !OpenedIn(before, x.streamId)
    else if IsAck(x) then x.streamId % 2 != parity && !AckedIn(before, x.streamId)
    else x.ppid != PPID_DCEP
         && if x.streamId % 2 == parity then OpenedIn(before, x.streamId) else AckedIn(before, x.streamId)
  }

  predicate Orderly(log: seq<Message>, parity: nat) {
    log != [] ==> Orderly(log[..|log| - 1], parity) && MayFollow(log[..|log| - 1], log[|log| - 1], parity)
  }

  lemma {:induction false} OrderlyAt(log: seq<Message>, parity: nat, n: nat)
    requires Orderly(log, parity) && n < |log|
    ensures MayFollow(log[..n], log[n], parity)
  {
    if n < |log| - 1 {
      OrderlyAt(log[..|log| - 1], parity, n);
      assert log[..|log| - 1][..n] == log[..n];
    }
  }

  lemma Pushed(log: seq<Message>, x: Message, k: nat, parity: nat)
    ensures OpenedIn(log + [x], k) <==> OpenedIn(log, k) || (IsOpenMessage(x) && x.streamId == k)
    ensures AckedIn(log + [x], k) <==> AckedIn(log, k) || (IsAck(x) && x.streamId == k)
    ensures FramesIn(log + [x], k) ==
      FramesIn(log, k) + if x.ppid != PPID_DCEP && x.streamId == k then [MessageFrame(x)] else []
    ensures Orderly(log + [x], parity) <==> Orderly(log, parity) && MayFollow(log, x, parity)
  {
    assert (log + [x])[..|log|] == log;
  }

  lemma Taken(log: seq<Message>, n: nat, k: nat)
    requires n < |log|
    ensures OpenedIn(log[..n + 1], k) <==> OpenedIn(log[..n], k) || (IsOpenMessage(log[n]) && log[n].streamId == k)
    ensures AckedIn(log[..n + 1], k) <==> AckedIn(log[..n], k) || (IsAck(log[n]) && log[n].streamId == k)
    ensures FramesIn(log[..n + 1], k) ==
      FramesIn(log[..n], k) + if log[n].ppid != PPID_DCEP && log[n].streamId == k then [MessageFrame(log[n])] else []
  {
    Pushed(log[..n], log[n], k, 0);
    assert log[..n + 1] == log[..n] + [log[n]];
  }

  lemma {:induction false} PrefixSays(log: seq<Message>, n: nat, k: nat)
    requires n <= |log|
    ensures OpenedIn(log[..n], k) ==> OpenedIn(log, k)
    ensures AckedIn(log[..n], k) ==> AckedIn(log, k)
    ensures FramesIn(log[..n], k) <= FramesIn(log, k)
  {
    if n < |log| {
      PrefixSays(log[..|log| - 1], n, k);
      assert log[..|log| - 1][..n] == log[..n];
    } else {
      assert log[..n] == log;
    }
  }

  // ---- One message, in any state ----

  /** An OPEN that can be read. */
  predicate Requests(x: Message) { IsOpenMessage(x) && |x.data| >= 12 }

  /** What a message may do to one stream of a manager. */
  predicate Effects(m: Manager, x: Message, k: nat, after: Manager) {
    && after.log == m.log + (if Requests(x) then [Message(x.streamId, 50, [2])] else [])
    && after.nextStreamId == m.nextStreamId
    && (k in after.channels <==> k in m.channels || (Requests(x) && x.streamId == k))
    && (k in after.channels && after.channels[k].acked <==>
          || (k in m.channels && m.channels[k].acked)
          || (x.streamId == k && (Requests(x) || (IsAck(x) && k in m.channels))))
    && ReceivedOn(after, k) ==
      (if Requests(x) && x.streamId == k then []
       else if x.ppid != 50 && x.streamId == k && k in m.channels then ReceivedOn(m, k) + [MessageFrame(x)]
       else ReceivedOn(m, k))
    && SentOn(after, k) == if Requests(x) && x.streamId == k then [] else SentOn(m, k)
  }

  lemma OneMoreEvent(events: seq<ChannelEvent>, e: ChannelEvent)
    ensures FramesOf(events + [e]) == match e case Opened => FramesOf(events) case Received(f) => FramesOf(events) + [f]
  {
    assert (events + [e])[..|events|] == events;
  }

  lemma FrameEffects(m: Manager, x: Message, k: nat)
    requires x.ppid != PPID_DCEP
    ensures Effects(m, x, k, OnMessage(m, x))
  {
    hide MessageFrame, FramesOf, OnDcep;
    if x.streamId in m.channels {
      OneMoreEvent(m.channels[x.streamId].events, Received(MessageFrame(x)));
    }
  }

  lemma OpenEffects(m: Manager, x: Message, k: nat)
    requires IsOpenMessage(x)
    ensures Effects(m, x, k, OnMessage(m, x))
  {
    hide MessageFrame, FramesOf;
    OneMoreEvent([], Opened);
    assert [] + [Opened] == [Opened];
    NoFrames();
  }

  lemma NoFrames()
    ensures FramesOf([]) == []
  {}

  lemma OtherEffects(m: Manager, x: Message, k: nat)
    requires x.ppid == PPID_DCEP && !IsOpenMessage(x)
    ensures Effects(m, x, k, OnMessage(m, x))
  {
    hide MessageFrame, FramesOf, Accepted;
    if x.streamId in m.channels {
      OneMoreEvent(m.channels[x.streamId].events, Opened);
    }
  }

  /**
   * Whatever a manager holds and whatever a message says: only a readable OPEN is answered, by one ACK on its stream;
   * a stream's channel is open afterwards if it was or the message opened it; and the frames received on a stream
   * grow by the message if it is one for that stream, unless an OPEN makes a new channel there.
   */
  lemma MessageEffects(m: Manager, x: Message, k: nat)
    ensures Effects(m, x, k, OnMessage(m, x))
  {
    hide Effects, OnMessage;
    if x.ppid != PPID_DCEP {
      FrameEffects(m, x, k);
    } else if IsOpenMessage(x) {
      OpenEffects(m, x, k);
    } else {
      OtherEffects(m, x, k);
    }
  }

  // ---- Invariants ----

  predicate OpensFirst(events: seq<ChannelEvent>) {
    events != [] ==> events[0] == Opened && forall i | 1 <= i < |events| :: events[i].Received?
  }

  predicate WellFormed(m: Manager, parity: nat) {
    && m.nextStreamId % 2 == parity
    && (forall k | k in m.channels && k % 2 == parity :: k < m.nextStreamId)
    && (forall k | k in m.channels && m.channels[k].acked :: k <= 0xffff)
    && (forall k | k in m.channels :: m.channels[k].acked <==> m.channels[k].events != [])
    && (forall k | k in m.channels :: OpensFirst(m.channels[k].events))
  }

  /** The parameters the two ends of a channel share. */
  predicate Agree(mine: Channel, theirs: Channel) {
    theirs.name == mine.name && theirs.init.protocol == mine.init.protocol
        && theirs.init.unordered == mine.init.unordered
  }

  /** What one direction keeps for one stream. */
  predicate StreamInv(from: Manager, to: Manager, n: nat, parity: nat, k: nat)
    requires n <= |from.log|
  {
    && FramesIn(from.log, k) == SentOn(from, k)
    && FramesIn(from.log[..n], k) == ReceivedOn(to, k)
    && (OpenedIn(from.log, k) ==> k % 2 == parity && k in from.channels)
    && (AckedIn(from.log, k) ==> k % 2 != parity && k in from.channels)
    && (k in from.channels && from.channels[k].acked && k % 2 == parity ==> OpenedIn(from.log, k))
    && (k in from.channels && k % 2 != parity ==> AckedIn(from.log, k))
    && (k % 2 == parity ==> (k in to.channels <==> OpenedIn(from.log[..n], k)))
    && (k % 2 == parity && k in to.channels ==>
          to.channels[k].acked && k in from.channels && Agree(from.channels[k], to.channels[k]))
    && (k % 2 != parity && k in to.channels ==> (to.channels[k].acked <==> AckedIn(from.log[..n], k)))
  }

  predicate OpensMatch(m: Manager) {
    forall i | 0 <= i < |m.log| && IsOpenMessage(m.log[i]) ::
      var k := m.log[i].streamId;
      k in m.channels && Dcep.Fits(OpenOf(m.channels[k])) && m.log[i].data == Dcep.OpenBytes(OpenOf(m.channels[k]))
  }

  ghost predicate Direction(from: Manager, to: Manager, n: nat, parity: nat) {
    && n <= Clear(from.log) && Orderly(from.log, parity) && OpensMatch(from)
    && forall k: nat :: StreamInv(from, to, n, parity, k)
  }

  ghost predicate Inv(s: System) {
    && WellFormed(s.a, 0) && WellFormed(s.b, 1)
    && Direction(s.a, s.b, s.gotB, 0) && Direction(s.b, s.a, s.gotA, 1)
  }

  // ---- Opening ----

  /** A new id is taken at neither end and in neither log. */
  lemma FreshId(a: Manager, b: Manager, gotA: nat, gotB: nat, parity: nat)
    requires parity < 2 && WellFormed(a, parity)
    requires Direction(a, b, gotB, parity) && Direction(b, a, gotA, 1 - parity)
    ensures var id := FirstFree(a.channels.Keys, a.nextStreamId);
      && id == a.nextStreamId && id !in a.channels && id !in b.channels
      && !OpenedIn(a.log, id) && !OpenedIn(b.log, id) && !AckedIn(a.log, id) && !AckedIn(b.log, id)
      && FramesIn(a.log, id) == [] && FramesIn(b.log, id) == []
  {
    var id := a.nextStreamId;
    assert id !in a.channels;
    assert StreamInv(a, b, gotB, parity, id) && StreamInv(b, a, gotA, 1 - parity, id);
    PrefixSays(a.log, gotB, id);
  }

  lemma OpenKeepsStream(
      a: Manager, b: Manager, gotA: nat, gotB: nat, parity: nat, name: Buffer, init: Init, k: nat)
    requires parity < 2 && WellFormed(a, parity)
    requires Direction(a, b, gotB, parity) && Direction(b, a, gotA, 1 - parity)
    ensures gotB <= |OpenChannel(a, name, init).log| && StreamInv(OpenChannel(a, name, init), b, gotB, parity, k)
  {
    hide OpenedIn, AckedIn, FramesIn, Orderly, OpensMatch, Dcep.OpenBytes, Clear;
    FreshId(a, b, gotA, gotB, parity);
    var a', id := OpenChannel(a, name, init), a.nextStreamId;
    assert StreamInv(a, b, gotB, parity, k);
    if a'.log != a.log {
      Dcep.OpenRoundTrip(OpenOf(a'.channels[id]));
      assert a'.log[..gotB] == a.log[..gotB];
      Pushed(a.log, a'.log[|a.log|], k, parity);
    }
  }

  lemma OpenKeepsFrom(a: Manager, b: Manager, gotA: nat, gotB: nat, parity: nat, name: Buffer, init: Init)
    requires parity < 2 && WellFormed(a, parity)
    requires Direction(a, b, gotB, parity) && Direction(b, a, gotA, 1 - parity)
    ensures Direction(OpenChannel(a, name, init), b, gotB, parity)
  {
    hide OpenedIn, AckedIn, FramesIn, Orderly, StreamInv, Dcep.OpenBytes, Clear;
    forall k: nat
      ensures gotB <= |OpenChannel(a, name, init).log| && StreamInv(OpenChannel(a, name, init), b, gotB, parity, k)
    {
      OpenKeepsStream(a, b, gotA, gotB, parity, name, init, k);
    }
    FreshId(a, b, gotA, gotB, parity);
    var a', id := OpenChannel(a, name, init), a.nextStreamId;
    assert forall i | 0 <= i < |a.log| && IsOpenMessage(a.log[i]) :: a.log[i].streamId in a.channels;
    if a'.log != a.log {
      var x := a'.log[|a.log|];
      Dcep.OpenRoundTrip(OpenOf(a'.channels[id]));
      Pushed(a.log, x, id, parity);
      ClearPush(a.log, x);
    }
  }

  lemma OpenKeepsTo(a: Manager, b: Manager, gotA: nat, gotB: nat, parity: nat, name: Buffer, init: Init)
    requires parity < 2 && WellFormed(a, parity)
    requires Direction(a, b, gotB, parity) && Direction(b, a, gotA, 1 - parity)
    ensures Direction(b, OpenChannel(a, name, init), gotA, 1 - parity)
  {
    hide OpenedIn, AckedIn, FramesIn, Orderly, Dcep.OpenBytes, OpensMatch;
    FreshId(a, b, gotA, gotB, parity);
    var a', id := OpenChannel(a, name, init), a.nextStreamId;
    PrefixSays(b.log, gotA, id);
    var other := 1 - parity;
    forall k: nat ensures StreamInv(b, a', gotA, other, k) {
      assert StreamInv(b, a, gotA, other, k);
    }
  }

  lemma UnsentKeeps(a: Manager, b: Manager, gotA: nat, gotB: nat, parity: nat, name: Buffer, init: Init)
    requires parity < 2 && WellFormed(a, parity)
    requires Direction(a, b, gotB, parity) && Direction(b, a, gotA, 1 - parity)
    ensures Direction(OpenUnsent(a, name, init), b, gotB, parity)
    ensures Direction(b, OpenUnsent(a, name, init), gotA, 1 - parity)
    ensures WellFormed(OpenUnsent(a, name, init), parity)
  {
    hide OpenedIn, AckedIn, FramesIn, Orderly, Dcep.OpenBytes, Clear;
    FreshId(a, b, gotA, gotB, parity);
    var a', other := OpenUnsent(a, name, init), 1 - parity;
    forall k: nat ensures StreamInv(a', b, gotB, parity, k) {
      assert StreamInv(a, b, gotB, parity, k);
    }
    PrefixSays(b.log, gotA, a.nextStreamId);
    forall k: nat ensures StreamInv(b, a', gotA, other, k) {
      assert StreamInv(b, a, gotA, other, k);
    }
    assert forall i | 0 <= i < |a.log| && IsOpenMessage(a.log[i]) :: a.log[i].streamId in a.channels;
  }

  // ---- Sending ----

  lemma SendKeepsFrom(a: Manager, b: Manager, gotB: nat, parity: nat, id: nat, f: Frame)
    requires parity < 2 && WellFormed(a, parity) && Direction(a, b, gotB, parity)
    requires id in a.channels && IsOpen(a.channels[id])
    ensures Direction(SendFrame(a, id, f), b, gotB, parity)
  {
    hide OpenedIn, AckedIn, FramesIn, Orderly, Dcep.OpenBytes, Clear;
    var a', x := SendFrame(a, id, f), FrameMessage(id, f);
    FrameRoundTrip(id, f);
    ClearPush(a.log, x);
    assert a'.log[..gotB] == a.log[..gotB];
    assert StreamInv(a, b, gotB, parity, id);
    Pushed(a.log, x, id, parity);
    assert forall i | 0 <= i < |a.log| && IsOpenMessage(a.log[i]) :: a.log[i].streamId in a.channels;
    forall k: nat ensures StreamInv(a', b, gotB, parity, k) {
      assert StreamInv(a, b, gotB, parity, k);
      Pushed(a.log, x, k, parity);
    }
  }

  lemma SendKeepsTo(a: Manager, b: Manager, gotA: nat, parity: nat, id: nat, f: Frame)
    requires Direction(b, a, gotA, parity) && id in a.channels
    ensures Direction(b, SendFrame(a, id, f), gotA, parity)
  {
    hide OpenedIn, AckedIn, FramesIn, Orderly, Dcep.OpenBytes, OpensMatch;
    var a' := SendFrame(a, id, f);
    forall k: nat ensures StreamInv(b, a', gotA, parity, k) {
      assert StreamInv(b, a, gotA, parity, k);
    }
  }

  // ---- Delivery ----

  lemma EventPushed(events: seq<ChannelEvent>, e: ChannelEvent)
    ensures FramesOf(events + [e]) == match e case Opened => FramesOf(events) case Received(f) => FramesOf(events) + [f]
  {
    assert (events + [e])[..|events|] == events;
  }

  /** The next message finds what it needs: an OPEN a free id, and a frame an open channel. */
  lemma NextMessage(a: Manager, b: Manager, gotA: nat, gotB: nat, parity: nat)
    requires parity < 2 && Direction(a, b, gotB, parity) && Direction(b, a, gotA, 1 - parity) && CanArrive(a.log, gotB)
    ensures var x := a.log[gotB];
      && MayFollow(a.log[..gotB], x, parity)
      && (IsOpenMessage(x) ==> x.streamId !in b.channels && !AckedIn(b.log, x.streamId) && x.streamId in a.channels
                               && Dcep.DecodeOpen(x.data) == Some(OpenOf(a.channels[x.streamId])))
      && (IsAck(x) ==> x.streamId in b.channels && !b.channels[x.streamId].acked)
      && (x.ppid != PPID_DCEP ==> x.streamId in b.channels && b.channels[x.streamId].acked)
  {
    var x := a.log[gotB];
    OrderlyAt(a.log, parity, gotB);
    hide OpenedIn, AckedIn, FramesIn, Orderly, Dcep.OpenBytes, OpenOf;
    var k := x.streamId;
    assert StreamInv(a, b, gotB, parity, k) && StreamInv(b, a, gotA, 1 - parity, k);
    assert a.log[gotB] == x;
    Taken(a.log, gotB, k);
    PrefixSays(a.log, gotB + 1, k);
    PrefixSays(a.log, gotB, k);
    PrefixSays(b.log, gotA, k);
    if IsOpenMessage(x) {
      Dcep.OpenRoundTrip(OpenOf(a.channels[k]));
    }
  }

  lemma DeliverKeepsForward(a: Manager, b: Manager, gotA: nat, gotB: nat, parity: nat)
    requires parity < 2 && Direction(a, b, gotB, parity) && Direction(b, a, gotA, 1 - parity) && CanArrive(a.log, gotB)
    ensures Direction(a, OnMessage(b, a.log[gotB]), gotB + 1, parity)
  {
    hide OpenedIn, AckedIn, FramesIn, FramesOf, Orderly, MayFollow, Dcep.OpenBytes, Dcep.DecodeOpen, OpensMatch;
    NextMessage(a, b, gotA, gotB, parity);
    var x := a.log[gotB];
    var b' := OnMessage(b, x);
    var got := gotB + 1;
    forall k: nat ensures StreamInv(a, b', got, parity, k) {
      assert StreamInv(a, b, gotB, parity, k);
      Taken(a.log, gotB, k);
      FollowsByParity(a.log[..gotB], x, parity);
      assert FramesOf([Opened]) == [] by { EventPushed([], Opened); NoEvents(); assert [] + [Opened] == [Opened]; }
      if k == x.streamId && k in b.channels {
        EventPushed(b.channels[k].events, Opened);
        EventPushed(b.channels[k].events, Received(MessageFrame(x)));
      }
    }
  }

  lemma NoEvents()
    ensures FramesOf([]) == []
  {}

  lemma FollowsByParity(before: seq<Message>, x: Message, parity: nat)
    requires MayFollow(before, x, parity)
    ensures IsOpenMessage(x) ==> x.streamId % 2 == parity
    ensures IsAck(x) ==> x.streamId % 2 != parity
    ensures x.ppid == PPID_DCEP ==> IsOpenMessage(x) || IsAck(x)
  {}

  lemma DeliverKeepsBackward(a: Manager, b: Manager, gotA: nat, gotB: nat, parity: nat)
    requires parity < 2 && Direction(a, b, gotB, parity) && Direction(b, a, gotA, 1 - parity) && CanArrive(a.log, gotB)
    ensures Direction(OnMessage(b, a.log[gotB]), a, gotA, 1 - parity)
  {
    hide OpenedIn, AckedIn, FramesIn, FramesOf, Orderly, Dcep.OpenBytes, Dcep.DecodeOpen, Clear, StreamInv;
    var x, other := a.log[gotB], 1 - parity;
    var b' := OnMessage(b, x);
    NextMessage(a, b, gotA, gotB, parity);
    FollowsByParity(a.log[..gotB], x, parity);
    AckIsAck(x.streamId);
    assert IsOpenMessage(x) ==> b'.log == b.log + [AckMessage(x.streamId)];
    forall k: nat ensures StreamInv(b', a, gotA, other, k) {
      DeliverKeepsBackwardOn(a, b, gotA, gotB, parity, k);
    }
    Pushed(b.log, AckMessage(x.streamId), x.streamId, other);
    ClearPush(b.log, AckMessage(x.streamId));
  }

  lemma DeliverKeepsBackwardOn(a: Manager, b: Manager, gotA: nat, gotB: nat, parity: nat, k: nat)
    requires parity < 2 && Direction(a, b, gotB, parity) && Direction(b, a, gotA, 1 - parity) && CanArrive(a.log, gotB)
    ensures var b' := OnMessage(b, a.log[gotB]); gotA <= |b'.log| && StreamInv(b', a, gotA, 1 - parity, k)
  {
    hide OpenedIn, AckedIn, FramesIn, FramesOf, Orderly, MayFollow, Dcep.OpenBytes, Dcep.DecodeOpen, OpensMatch, Clear;
    var x, other := a.log[gotB], 1 - parity;
    var b' := OnMessage(b, x);
    NextMessage(a, b, gotA, gotB, parity);
    FollowsByParity(a.log[..gotB], x, parity);
    AckIsAck(x.streamId);
    assert b'.log[..gotA] == b.log[..gotA];
    assert StreamInv(b, a, gotA, other, k) && StreamInv(a, b, gotB, parity, k);
    Pushed(b.log, AckMessage(x.streamId), k, other);
    Taken(a.log, gotB, k);
    PrefixSays(a.log, gotB + 1, k);
    PrefixSays(b.log, gotA, k);
  }

  lemma AckIsAck(id: nat)
    ensures IsAck(AckMessage(id)) && !IsOpenMessage(AckMessage(id))
  {}

  lemma DeliverKeepsForm(a: Manager, b: Manager, gotA: nat, gotB: nat, parity: nat)
    requires parity < 2 && WellFormed(b, 1 - parity)
    requires Direction(a, b, gotB, parity) && Direction(b, a, gotA, 1 - parity) && CanArrive(a.log, gotB)
    ensures WellFormed(OnMessage(b, a.log[gotB]), 1 - parity)
  {
    hide OpenedIn, AckedIn, FramesIn, FramesOf, Orderly, Dcep.OpenBytes, Dcep.DecodeOpen, StreamInv, OpensMatch;
    NextMessage(a, b, gotA, gotB, parity);
    FollowsByParity(a.log[..gotB], a.log[gotB], parity);
  }

  lemma StepKeepsInv(s: System, e: Event)
    requires Inv(s) && Enabled(s, e)
    ensures Inv(Next(s, e))
  {
    hide Direction, OnMessage, OpenChannel, OpenUnsent, SendFrame;
    match e
    case OpenEarly(byA, name, init) =>
      if byA {
        UnsentKeeps(s.a, s.b, s.gotA, s.gotB, 0, name, init);
      } else {
        UnsentKeeps(s.b, s.a, s.gotB, s.gotA, 1, name, init);
      }
    case Open(byA, name, init) =>
      if byA {
        OpenKeepsForm(s.a, 0, name, init);
        OpenKeepsFrom(s.a, s.b, s.gotA, s.gotB, 0, name, init);
        OpenKeepsTo(s.a, s.b, s.gotA, s.gotB, 0, name, init);
      } else {
        OpenKeepsForm(s.b, 1, name, init);
        OpenKeepsFrom(s.b, s.a, s.gotB, s.gotA, 1, name, init);
        OpenKeepsTo(s.b, s.a, s.gotB, s.gotA, 1, name, init);
      }
    case Send(byA, id, f) =>
      if byA {
        SendKeepsForm(s.a, 0, id, f);
        SendKeepsFrom(s.a, s.b, s.gotB, 0, id, f);
        SendKeepsTo(s.a, s.b, s.gotA, 1, id, f);
      } else {
        SendKeepsForm(s.b, 1, id, f);
        SendKeepsFrom(s.b, s.a, s.gotA, 1, id, f);
        SendKeepsTo(s.b, s.a, s.gotB, 0, id, f);
      }
    case Deliver(toA) =>
      if toA {
        DeliverKeepsForm(s.b, s.a, s.gotB, s.gotA, 1);
        DeliverKeepsForward(s.b, s.a, s.gotB, s.gotA, 1);
        DeliverKeepsBackward(s.b, s.a, s.gotB, s.gotA, 1);
      } else {
        DeliverKeepsForm(s.a, s.b, s.gotA, s.gotB, 0);
        DeliverKeepsForward(s.a, s.b, s.gotA, s.gotB, 0);
        DeliverKeepsBackward(s.a, s.b, s.gotA, s.gotB, 0);
      }
  }

  lemma OpenKeepsForm(m: Manager, parity: nat, name: Buffer, init: Init)
    requires WellFormed(m, parity) && parity < 2
    ensures WellFormed(OpenChannel(m, name, init), parity)
  {}

  lemma SendKeepsForm(m: Manager, parity: nat, id: nat, f: Frame)
    requires WellFormed(m, parity) && id in m.channels
    ensures WellFormed(SendFrame(m, id, f), parity)
  {}

  // ---- Main results ----

  ghost predicate Schedule(s: System, events: seq<Event>)
    decreases |events|
  {
    events != [] ==> Enabled(s, events[0]) && Schedule(Next(s, events[0]), events[1..])
  }

  function Run(s: System, events: seq<Event>): System
    requires Schedule(s, events)
    decreases |events|
  {
    if events == [] then s else Run(Next(s, events[0]), events[1..])
  }

  lemma {:induction false} RunKeepsInv(s: System, events: seq<Event>)
    requires Inv(s) && Schedule(s, events)
    ensures Inv(Run(s, events))
    decreases |events|
  {
    hide Inv, Enabled, Next;
    if events != [] {
      StepKeepsInv(s, events[0]);
      RunKeepsInv(Next(s, events[0]), events[1..]);
    }
  }

  /** One direction, one stream: what arrived is a prefix of what was sent, and no more than can arrive. */
  predicate DeliversInOrder(from: Manager, to: Manager, n: nat, k: nat) {
    && n <= Clear(from.log) && ReceivedOn(to, k) <= SentOn(from, k)
    && (n == Clear(from.log) ==> ReceivedOn(to, k) == FramesIn(from.log[..n], k))
    && (n == |from.log| ==> ReceivedOn(to, k) == SentOn(from, k))
  }

  lemma DirectionDelivers(from: Manager, to: Manager, n: nat, parity: nat, k: nat)
    requires Direction(from, to, n, parity)
    ensures DeliversInOrder(from, to, n, k)
  {
    hide FramesIn, OpenedIn, AckedIn, FramesOf, Orderly, OpensMatch;
    assert StreamInv(from, to, n, parity, k);
    PrefixSays(from.log, n, k);
    assert n == |from.log| ==> from.log[..n] == from.log;
  }

  /**
   * Over every run: on every stream, in both directions, the frames delivered are a prefix of the frames
   * sent, and all of them if every message has arrived; once every message that can arrive has, they are
   * those sent before `sendData` first refused one; a channel's first event is its opening and
   * frames only follow; and a channel known to both ends has the same label, protocol and ordering.
   */
  lemma ChannelsDeliver(s0: System, events: seq<Event>, k: nat)
    requires Initial(s0) && Schedule(s0, events)
    ensures var s := Run(s0, events);
      && DeliversInOrder(s.a, s.b, s.gotB, k) && DeliversInOrder(s.b, s.a, s.gotA, k)
      && (k in s.a.channels ==> OpensFirst(s.a.channels[k].events))
      && (k in s.b.channels ==> OpensFirst(s.b.channels[k].events))
      && (k in s.a.channels && k in s.b.channels ==> Agree(s.a.channels[k], s.b.channels[k]))
  {
    hide OpensFirst, DeliversInOrder, Schedule, Run;
    InitialInv(s0);
    RunKeepsInv(s0, events);
    var s := Run(s0, events);
    DirectionDelivers(s.a, s.b, s.gotB, 0, k);
    DirectionDelivers(s.b, s.a, s.gotA, 1, k);
    assert StreamInv(s.a, s.b, s.gotB, 0, k) && StreamInv(s.b, s.a, s.gotA, 1, k);
  }

  lemma InitialInv(s: System)
    requires Initial(s)
    ensures Inv(s)
  {}

  /** Section 6 of RFC 8832: an id chosen by either end is used at neither end and by no message ever sent. */
  lemma IdsNeverReused(s0: System, events: seq<Event>, byA: bool)
    requires Initial(s0) && Schedule(s0, events)
    ensures var s := Run(s0, events);
      var m := if byA then s.a else s.b;
      var id := FirstFree(m.channels.Keys, m.nextStreamId);
      && id % 2 == (if byA then 0 else 1)
      && id !in s.a.channels && id !in s.b.channels
      && forall x | x in s.a.log + s.b.log :: x.streamId != id
  {
    InitialInv(s0);
    RunKeepsInv(s0, events);
    var s := Run(s0, events);
    hide FramesIn, OpenedIn, AckedIn, Orderly, OpensMatch, StreamInv, Run;
    var m := if byA then s.a else s.b;
    var id := FirstFree(m.channels.Keys, m.nextStreamId);
    if byA {
      FreshId(s.a, s.b, s.gotA, s.gotB, 0);
    } else {
      FreshId(s.b, s.a, s.gotB, s.gotA, 1);
    }
    Untouched(s.a.log, id, 0);
    Untouched(s.b.log, id, 1);
  }

  lemma {:induction false} Untouched(log: seq<Message>, k: nat, parity: nat)
    requires Orderly(log, parity) && !OpenedIn(log, k) && !AckedIn(log, k) && FramesIn(log, k) == []
    ensures forall x | x in log :: x.streamId != k
  {
    if log != [] {
      Untouched(log[..|log| - 1], k, parity);
    }
  }

  /** Ids of the two ends never meet, since each end only ever adds its own parity or answers the other. */
  lemma StepsKeepParity(s0: System, events: seq<Event>, k: nat)
    requires Initial(s0) && Schedule(s0, events)
    ensures var s := Run(s0, events);
      && (k in s.b.channels && k % 2 == 0 ==> k in s.a.channels)
      && (k in s.a.channels && k % 2 == 1 ==> k in s.b.channels)
  {
    InitialInv(s0);
    RunKeepsInv(s0, events);
    var s := Run(s0, events);
    hide FramesIn, OpenedIn, AckedIn, Orderly, OpensMatch, Run;
    assert StreamInv(s.a, s.b, s.gotB, 0, k) && StreamInv(s.b, s.a, s.gotA, 1, k);
  }
}
