/**
 * Opening more channels than there are stream ids (src/sctp/datachannel-manager.ts:75-105,
 * src/sctp/association.ts:352-368): exactly when a direction still brings everything out.
 */
module ChannelLimits {
  import opened Bytes
  import opened Association
  import opened DataChannels
  import opened ChannelRuns
  import Dcep

  function End(s: System, byA: bool): Manager { if byA then s.a else s.b }

  /** An OPEN that `sendData` will refuse: its id is above 65535, and it gets as far as being sent. */
  predicate TooHigh(m: Manager, name: Buffer, init: Init) {
    FirstFree(m.channels.Keys, m.nextStreamId) > 0xffff && Dcep.Fits(OpenOf(Channel(name, init, false, [], [])))
  }

  predicate OpensTooHigh(s: System, e: Event, byA: bool) {
    e.Open? && e.byA == byA && TooHigh(End(s, byA), e.name, e.init)
  }

  /** At some point of the run this end tries such an OPEN. */
  predicate TriedTooHigh(s: System, events: seq<Event>, byA: bool)
    requires Schedule(s, events)
    decreases |events|
  {
    events != [] && (OpensTooHigh(s, events[0], byA) || TriedTooHigh(Next(s, events[0]), events[1..], byA))
  }

  predicate SendsFrame(events: seq<Event>, byA: bool)
    decreases |events|
  {
    events != [] && ((events[0].Send? && events[0].byA == byA) || SendsFrame(events[1..], byA))
  }

  /** At some point this end tries such an OPEN and later sends a frame. */
  predicate FrameAfterTooHigh(s: System, events: seq<Event>, byA: bool)
    requires Schedule(s, events)
    decreases |events|
  {
    && events != []
    && ((OpensTooHigh(s, events[0], byA) && SendsFrame(events[1..], byA))
        || FrameAfterTooHigh(Next(s, events[0]), events[1..], byA))
  }

  /** `sendData` has refused a call. */
  predicate Blocked(log: seq<Message>) { Clear(log) < |log| }

  /** A frame has been sent after that. */
  predicate FrameBlocked(log: seq<Message>) {
    exists i :: Clear(log) <= i < |log| && log[i].ppid != PPID_DCEP
  }

  // ---- One step ----

  lemma AppendBlocks(log: seq<Message>, x: Message)
    ensures Blocked(log + [x]) <==> Blocked(log) || !Carriable(x)
    ensures x.ppid == PPID_DCEP || (!Blocked(log) && Carriable(x)) ==> (FrameBlocked(log + [x]) <==> FrameBlocked(log))
    ensures x.ppid != PPID_DCEP && Blocked(log) ==> FrameBlocked(log + [x])
  {
    hide Clear, Carriable;
    ClearPush(log, x);
    var all := log + [x];
    assert all[|log|] == x && forall i | 0 <= i < |log| :: all[i] == log[i];
    if FrameBlocked(log) {
      var i :| Clear(log) <= i < |log| && log[i].ppid != PPID_DCEP;
      assert all[i].ppid != PPID_DCEP && Blocked(log);
    }
  }

  /** What a step adds to this end's log. */
  lemma StepBlocks(s: System, e: Event, byA: bool)
    requires Inv(s) && Enabled(s, e)
    ensures var before, after := End(s, byA).log, End(Next(s, e), byA).log;
      && (Blocked(after) <==> Blocked(before) || OpensTooHigh(s, e, byA))
      && (FrameBlocked(after) <==> FrameBlocked(before) || (Blocked(before) && e.Send? && e.byA == byA))
  {
    hide Clear, Direction, Dcep.OpenBytes, Dcep.DecodeOpen, FirstFree, Blocked, FrameBlocked, Dcep.Fits;
    var before, after := End(s, byA).log, End(Next(s, e), byA).log;
    if after != before {
      var x := after[|after| - 1];
      assert after == before + [x];
      AppendBlocks(before, x);
      NothingBeforeBlock(before);
      match e
      case Open(_, _, _) =>
      case OpenEarly(_, _, _) =>
      case Send(_, id, f) => FrameRoundTrip(id, f);
      case Deliver(_) =>
    }
  }

  lemma NothingBeforeBlock(log: seq<Message>)
    ensures FrameBlocked(log) ==> Blocked(log)
  {}

  // ---- Whole runs ----

  lemma {:induction false} RunBlocks(s: System, events: seq<Event>, byA: bool)
    requires Inv(s) && Schedule(s, events)
    ensures var before, after := End(s, byA).log, End(Run(s, events), byA).log;
      && (Blocked(after) <==> Blocked(before) || TriedTooHigh(s, events, byA))
      && (FrameBlocked(after) <==>
            FrameBlocked(before) || (Blocked(before) && SendsFrame(events, byA)) || FrameAfterTooHigh(s, events, byA))
    decreases |events|
  {
    hide Inv, Next, Enabled, Blocked, FrameBlocked, OpensTooHigh;
    if events != [] {
      StepKeepsInv(s, events[0]);
      StepBlocks(s, events[0], byA);
      RunBlocks(Next(s, events[0]), events[1..], byA);
    }
  }

  // ---- Which frames a prefix of the log lacks ----

  lemma {:induction false} SameFrames(log: seq<Message>, n: nat, k: nat)
    requires n <= |log| && forall i | n <= i < |log| :: log[i].ppid == PPID_DCEP
    ensures FramesIn(log[..n], k) == FramesIn(log, k)
  {
    if n < |log| {
      SameFrames(log[..|log| - 1], n, k);
      assert log[..|log| - 1][..n] == log[..n];
    } else {
      assert log[..n] == log;
    }
  }

  lemma MissingFrame(log: seq<Message>, n: nat, i: nat)
    requires n <= i < |log| && log[i].ppid != PPID_DCEP
    ensures FramesIn(log[..n], log[i].streamId) != FramesIn(log, log[i].streamId)
  {
    hide FramesIn;
    var k := log[i].streamId;
    assert log[..i][..n] == log[..n];
    PrefixSays(log[..i], n, k);
    Taken(log, i, k);
    PrefixSays(log, i + 1, k);
  }

  /** Two logs agree on every stream. */
  ghost predicate AllFramesOf(log: seq<Message>, n: nat)
    requires n <= |log|
  {
    forall k: nat :: FramesIn(log[..n], k) == FramesIn(log, k)
  }

  lemma AllFramesIff(log: seq<Message>)
    ensures AllFramesOf(log, Clear(log)) <==> !FrameBlocked(log)
  {
    hide FramesIn, Clear;
    var n := Clear(log);
    if FrameBlocked(log) {
      var i :| n <= i < |log| && log[i].ppid != PPID_DCEP;
      MissingFrame(log, n, i);
    } else {
      forall k: nat ensures FramesIn(log[..n], k) == FramesIn(log, k) {
        SameFrames(log, n, k);
      }
    }
  }

  // ---- Main results ----

  /** On every stream the peer has received all this end sent. */
  ghost predicate AllReceived(from: Manager, to: Manager) {
    forall k: nat :: ReceivedOn(to, k) == SentOn(from, k)
  }

  /** What holds of one direction once every message that can arrive has. */
  ghost predicate Settled(from: Manager, to: Manager, got: nat, tooHigh: bool, frameAfter: bool) {
    got == Clear(from.log) ==>
      && (got == |from.log| <==> !tooHigh)
      && (AllReceived(from, to) <==> !frameAfter)
  }

  /**
   * Over every run and in both directions, once every message that can arrive has: every call to
   * `sendData` has come out if and only if this end never tried an OPEN whose id was above 65535; and
   * every frame has been received on every stream if and only if no frame was sent after such an OPEN.
   */
  lemma EverythingArrivesIff(s0: System, events: seq<Event>)
    requires Initial(s0) && Schedule(s0, events)
    ensures var s := Run(s0, events);
      && Settled(s.a, s.b, s.gotB, TriedTooHigh(s0, events, true), FrameAfterTooHigh(s0, events, true))
      && Settled(s.b, s.a, s.gotA, TriedTooHigh(s0, events, false), FrameAfterTooHigh(s0, events, false))
  {
    hide Schedule, Run, Direction, Settled, TriedTooHigh, FrameAfterTooHigh, SendsFrame;
    InitialInv(s0);
    RunKeepsInv(s0, events);
    RunBlocks(s0, events, true);
    RunBlocks(s0, events, false);
    NothingYet();
    var s := Run(s0, events);
    SettledDirection(s.a, s.b, s.gotB, 0);
    SettledDirection(s.b, s.a, s.gotA, 1);
  }

  lemma NothingYet()
    ensures !Blocked([]) && !FrameBlocked([])
  {}

  lemma SettledDirection(from: Manager, to: Manager, got: nat, parity: nat)
    requires Direction(from, to, got, parity)
    ensures Settled(from, to, got, Blocked(from.log), FrameBlocked(from.log))
  {
    hide FramesIn, OpenedIn, AckedIn, FramesOf, Orderly, OpensMatch, Clear, FrameBlocked;
    AllFramesIff(from.log);
    if got == Clear(from.log) {
      forall k: nat ensures ReceivedOn(to, k) == FramesIn(from.log[..got], k)
          && SentOn(from, k) == FramesIn(from.log, k) {
        assert StreamInv(from, to, got, parity, k);
      }
    }
  }

  /** As much as all frames: messages of the managers' own may still be missing. */
  lemma FramesSettled(from: Manager, to: Manager, got: nat, parity: nat)
    requires Direction(from, to, got, parity)
    requires forall i | got <= i < Clear(from.log) :: from.log[i].ppid == PPID_DCEP
    ensures AllReceived(from, to) <==> !FrameBlocked(from.log)
  {
    hide FramesIn, OpenedIn, AckedIn, FramesOf, Orderly, OpensMatch, Clear, FrameBlocked;
    AllFramesIff(from.log);
    var n := Clear(from.log);
    forall k: nat
      ensures FramesIn(from.log[..n], k) == ReceivedOn(to, k) && SentOn(from, k) == FramesIn(from.log, k)
    {
      assert StreamInv(from, to, got, parity, k);
      SameFrames(from.log[..n], got, k);
      assert from.log[..n][..got] == from.log[..got];
    }
  }

  // ---- The limit can be reached ----

  function Opens(n: nat, name: Buffer, init: Init): (events: seq<Event>)
    ensures |events| == n
  {
    if n == 0 then [] else [Event.Open(true, name, init)] + Opens(n - 1, name, init)
  }

  lemma {:induction false} OpensCount(s: System, n: nat, name: Buffer, init: Init)
    requires Inv(s)
    ensures Schedule(s, Opens(n, name, init))
    ensures var s' := Run(s, Opens(n, name, init));
      && Inv(s')
      && s'.a.nextStreamId == s.a.nextStreamId + 2 * n
      && forall k | k in s.a.channels :: k in s'.a.channels && s'.a.channels[k] == s.a.channels[k]
    decreases n
  {
    hide Inv, OpenChannel;
    if n > 0 {
      var e := Event.Open(true, name, init);
      assert Opens(n, name, init)[0] == e && Opens(n, name, init)[1..] == Opens(n - 1, name, init);
      StepKeepsInv(s, e);
      OpenTakesNext(s, name, init);
      OpensCount(Next(s, e), n - 1, name, init);
    }
  }

  lemma OpenTakesNext(s: System, name: Buffer, init: Init)
    requires Inv(s)
    ensures FirstFree(s.a.channels.Keys, s.a.nextStreamId) == s.a.nextStreamId
    ensures var a := OpenChannel(s.a, name, init);
      && a.nextStreamId == s.a.nextStreamId + 2
      && forall k | k in s.a.channels :: k in a.channels && a.channels[k] == s.a.channels[k]
  {
    hide Direction, FirstFree;
    FreshId(s.a, s.b, s.gotA, s.gotB, 0);
  }

  /** After 32768 channels the client's next OPEN is for stream 65536, and `sendData` refuses it. */
  lemma LimitIsReached(s0: System, name: Buffer, init: Init)
    requires Initial(s0) && Dcep.Fits(OpenOf(Channel(name, init, false, [], [])))
    ensures Schedule(s0, Opens(32768, name, init))
    ensures TooHigh(Run(s0, Opens(32768, name, init)).a, name, init)
  {
    hide Opens, Run, Schedule, Inv, FirstFree;
    InitialInv(s0);
    OpensCount(s0, 32768, name, init);
    OpenTakesNext(Run(s0, Opens(32768, name, init)), name, init);
  }

  lemma {:induction false} RunAppend(s: System, xs: seq<Event>, ys: seq<Event>)
    requires Schedule(s, xs) && Schedule(Run(s, xs), ys)
    ensures Schedule(s, xs + ys) && Run(s, xs + ys) == Run(Run(s, xs), ys)
    decreases |xs|
  {
    hide Enabled, Next;
    if xs == [] {
      assert xs + ys == ys;
    } else {
      RunAppend(Next(s, xs[0]), xs[1..], ys);
      assert (xs + ys)[0] == xs[0] && (xs + ys)[1..] == xs[1..] + ys;
    }
  }

  /** From every reachable state, what can still arrive at the server does, and nothing else changes at the client. */
  lemma {:induction false} CanSettle(s: System) returns (events: seq<Event>)
    requires Inv(s)
    ensures Schedule(s, events) && Inv(Run(s, events))
    ensures var s' := Run(s, events); s'.a == s.a && s'.gotB == Clear(s.a.log)
    decreases Clear(s.a.log) - s.gotB
  {
    hide Direction, Clear, OnMessage, WellFormed;
    GotIsClear(s);
    if s.gotB == Clear(s.a.log) {
      return [];
    }
    var e := Deliver(false);
    StepKeepsInv(s, e);
    var rest := CanSettle(Next(s, e));
    events := [e] + rest;
    assert events[1..] == rest;
  }

  lemma GotIsClear(s: System)
    requires Inv(s)
    ensures s.gotB <= Clear(s.a.log)
  {}

  /**
   * A run that loses a frame: channel 0 opens, 32767 more follow, the next OPEN is for stream 65536, and then
   * a frame is sent on channel 0. Once everything that can arrive has, the frame has not.
   */
  lemma FrameIsLost(s0: System, name: Buffer, init: Init, f: Frame) returns (events: seq<Event>)
    requires Initial(s0) && Dcep.Fits(OpenOf(Channel(name, init, false, [], [])))
    ensures Schedule(s0, events)
    ensures var s := Run(s0, events);
      && s.gotB == Clear(s.a.log) && SentOn(s.a, 0) == [f] && ReceivedOn(s.b, 0) == []
  {
    hide Run, Schedule, Opens, Inv, Next, Enabled, TooHigh, Clear;
    InitialInv(s0);
    var first := OpenFirst(s0, name, init);
    RunKeepsInv(s0, first);
    var s1 := Run(s0, first);
    var second := Opens(32767, name, init);
    OpensCount(s1, 32767, name, init);
    var s2 := Run(s1, second);
    var third := [Event.Open(true, name, init), Event.Send(true, 0, f)];
    TooHighThenFrame(s2, name, init, f);
    var s3 := Run(s2, third);
    var fourth := CanSettle(s3);
    RunAppend(s2, third, fourth);
    RunAppend(s1, second, third + fourth);
    RunAppend(s0, first, second + (third + fourth));
    events := first + (second + (third + fourth));
    NothingReceived(Run(s3, fourth), s2.a.log);
  }

  /** Channel 0 opens at both ends. */
  lemma OpenFirst(s0: System, name: Buffer, init: Init) returns (events: seq<Event>)
    requires Initial(s0) && Dcep.Fits(OpenOf(Channel(name, init, false, [], [])))
    ensures Schedule(s0, events)
    ensures var a := Run(s0, events).a;
      a.nextStreamId == 2 && 0 in a.channels && a.channels[0].acked && a.channels[0].sent == []
  {
    hide Dcep.OpenBytes, Dcep.DecodeOpen, Dcep.Fits, OpenOf;
    var open, toB, toA := Event.Open(true, name, init), Deliver(false), Deliver(true);
    var c := Channel(name, init, false, [], []);
    var s1 := Next(s0, open);
    assert s1.a == Manager(map[0 := c], 2, [Message(0, PPID_DCEP, Dcep.OpenBytes(OpenOf(c)))]);
    Dcep.OpenRoundTrip(OpenOf(c));
    var s2 := Next(s1, toB);
    assert s2.b.log == [AckMessage(0)];
    var s3 := Next(s2, toA);
    events := [open, toB, toA];
    assert events[1..] == [toB, toA] && [toB, toA][1..] == [toA] && [toA][1..] == [];
    assert Schedule(s2, [toA]) && Run(s2, [toA]) == s3;
    assert Schedule(s1, [toB, toA]) && Run(s1, [toB, toA]) == s3;
  }

  lemma TooHighThenFrame(s: System, name: Buffer, init: Init, f: Frame)
    requires Inv(s) && Dcep.Fits(OpenOf(Channel(name, init, false, [], [])))
    requires s.a.nextStreamId == 65536 && 0 in s.a.channels && s.a.channels[0].acked && s.a.channels[0].sent == []
    ensures var events := [Event.Open(true, name, init), Event.Send(true, 0, f)];
      && Schedule(s, events) && Inv(Run(s, events))
      && var a := Run(s, events).a;
      && s.a.log <= a.log && Clear(a.log) <= |s.a.log| && FramesIn(s.a.log, 0) == [] && SentOn(a, 0) == [f]
  {
    hide Direction, FirstFree, Clear, FramesIn, Dcep.OpenBytes, Dcep.Fits, OpenOf;
    var e, e' := Event.Open(true, name, init), Event.Send(true, 0, f);
    OpenTakesNext(s, name, init);
    var s1 := Next(s, e);
    var s2 := Next(s1, e');
    assert [e, e'][1..] == [e'] && [e'][1..] == [];
    assert Schedule(s1, [e']) && Run(s1, [e']) == s2;
    StepKeepsInv(s, e);
    StepKeepsInv(s1, e');
    ClearPush(s.a.log, s1.a.log[|s.a.log|]);
    ClearPush(s1.a.log, FrameMessage(0, f));
    FramesAreSent(s, 0);
  }

  lemma FramesAreSent(s: System, k: nat)
    requires Inv(s)
    ensures FramesIn(s.a.log, k) == SentOn(s.a, k) && s.gotB <= |s.a.log|
    ensures FramesIn(s.a.log[..s.gotB], k) == ReceivedOn(s.b, k)
  {
    hide FramesIn, OpenedIn, AckedIn, FramesOf, Orderly, OpensMatch, Clear;
    assert StreamInv(s.a, s.b, s.gotB, 0, k);
  }

  lemma NothingReceived(s: System, before: seq<Message>)
    requires Inv(s) && before <= s.a.log && s.gotB <= |before| && FramesIn(before, 0) == []
    ensures ReceivedOn(s.b, 0) == []
  {
    hide FramesIn, Inv, ReceivedOn, SentOn;
    FramesAreSent(s, 0);
    PrefixSays(before, s.gotB, 0);
    assert s.a.log[..s.gotB] == before[..s.gotB];
  }
}
