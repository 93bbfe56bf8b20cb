/**
 * Which arrivals are taken in, and what a run's arrivals alone say about what comes out
 * (src/sctp/association.ts:33, 386-424).
 */
module Acceptance {
  import opened Bytes
  import opened Serial
  import opened Association
  import opened Delivery
  import opened EndToEnd

  /** The chunks buffered, at 1200 bytes each, do not yet fill the advertised window of 2^20 bytes. */
  predicate HasRoom(l: Inbound) { |l.rx.outOfOrder| * 1200 < 1048576 }

  /** Only a full buffer turns a chunk away, and never the next one. */
  lemma TakenIff(l: Inbound, i: nat)
    requires ReceiveInv(l) && i < |l.log| && Near(l, i)
    ensures i in Received(l, i).accepted <==> i in l.accepted || i == Consumed(l) || HasRoom(l)
  {
    hide ConsumeAll, Ahead, SnLt, Drain, Consume, BufferInv, IndexOf;
    if SnLt(l.cmp, l.log[i].tsn, Expected(l.rx)) {
      StaleArrives(l, i);
      ConsumedIsAccepted(l, i);
    } else if l.log[i].tsn == Expected(l.rx) {
      InOrderArrives(l, i);
    } else {
      GapIndex(l, i);
      if l.log[i].tsn in l.rx.outOfOrder {
        BufferedIsAccepted(l, l.log[i].tsn);
      } else if i < Consumed(l) {
        ConsumedIsAccepted(l, i);
      }
    }
  }

  /** A copy of chunk `i` reaches the receiver while it is the next one or there is room. */
  ghost predicate ArrivesInTime(l: Link, events: seq<Event>, i: nat)
    decreases |events|
  {
    events != [] &&
    (|| (events[0].DataArrives? && events[0].i == i && (i == Consumed(l.inbound) || HasRoom(l.inbound)))
     || ArrivesInTime(Next(l, events[0]), events[1..], i))
  }

  lemma StepTakes(l: Link, e: Event, i: nat)
    requires Inv(l) && Enabled(l, e) && Timely(l, e)
    ensures i in Next(l, e).inbound.accepted <==>
      || i in l.inbound.accepted
      || (e.DataArrives? && e.i == i && (i == Consumed(l.inbound) || HasRoom(l.inbound)))
  {
    hide SentInv, QueueInv, TakenWereSent, Tracking, Resting, Deliver, MessagePieces, Send, HandleSack, SackFor,
         IsSorting, Sendable, HasRoom;
    if e.DataArrives? {
      assert ReceiveInv(l.inbound);
      TakenIff(l.inbound, e.i);
      OthersStay(l.inbound, e.i, i);
    }
  }

  lemma OthersStay(l: Inbound, i: nat, j: nat)
    requires i < |l.log|
    ensures j in l.accepted ==> j in Received(l, i).accepted
    ensures j != i && j in Received(l, i).accepted ==> j in l.accepted
  {
    hide Deliver;
  }

  /** The chunks taken in over a run are those that arrived in time. */
  lemma {:induction false} RunTakesIff(l: Link, events: seq<Event>, i: nat)
    requires Inv(l) && Schedule(l, events)
    ensures i in Run(l, events).inbound.accepted <==> i in l.inbound.accepted || ArrivesInTime(l, events, i)
    decreases |events|
  {
    hide Inv, Enabled, Timely, Next, HasRoom;
    if events != [] {
      StepTakes(l, events[0], i);
      RunKeepsInv(l, events[..1]) by {
        assert events[..1][1..] == [];
      }
      assert Run(l, events[..1]) == Next(l, events[0]) by {
        assert events[..1][1..] == [];
      }
      RunTakesIff(Next(l, events[0]), events[1..], i);
    }
  }

  /**
   * Over every run, by its arrivals alone: if every chunk that was sent arrived in time, exactly the messages
   * before the first refused one have come out.
   */
  lemma ArrivalsDeliver(l0: Link, events: seq<Event>)
    requires Initial(l0) && Schedule(l0, events)
    requires var log := Run(l0, events).inbound.log;
      forall i: nat | i < |log| && Sendable(log[i]) :: ArrivesInTime(l0, events, i)
    ensures var l := Run(l0, events); l.inbound.rx.reassembly.emitted == l.msgs[..Clear(l.msgs)]
  {
    hide Initial, Schedule, Run, ArrivesInTime, RefinesAcceptedSet, Conserved, AllCarriable, Clear, Sendable;
    AcceptedByArrival(l0, events);
    EndToEndDelivery(l0, events);
  }

  lemma AcceptedByArrival(l0: Link, events: seq<Event>)
    requires Initial(l0) && Schedule(l0, events)
    ensures forall i: nat :: i in Run(l0, events).inbound.accepted <==> ArrivesInTime(l0, events, i)
  {
    hide Inv, Schedule, Run, ArrivesInTime;
    InitialInv(l0);
    forall i: nat ensures i in Run(l0, events).inbound.accepted <==> ArrivesInTime(l0, events, i) {
      RunTakesIff(l0, events, i);
    }
  }

  /** No arrival but that of the next chunk finds the buffer full. */
  ghost predicate Roomy(l: Link, events: seq<Event>)
    decreases |events|
  {
    events != [] ==>
      && (events[0].DataArrives? ==> events[0].i == Consumed(l.inbound) || HasRoom(l.inbound))
      && Roomy(Next(l, events[0]), events[1..])
  }

  lemma {:induction false} RoomyIsInTime(l: Link, events: seq<Event>, i: nat)
    requires Roomy(l, events) && exists e | e in events :: e.DataArrives? && e.i == i
    ensures ArrivesInTime(l, events, i)
    decreases |events|
  {
    hide Next, HasRoom;
    if !(events[0].DataArrives? && events[0].i == i) {
      assert events == [events[0]] + events[1..];
      RoomyIsInTime(Next(l, events[0]), events[1..], i);
    }
  }

  /** While the buffer has room, one copy of every chunk sent is enough, in any order and among any others. */
  lemma OneCopyEach(l0: Link, events: seq<Event>)
    requires Initial(l0) && Schedule(l0, events) && Roomy(l0, events)
    requires var log := Run(l0, events).inbound.log;
      forall i: nat | i < |log| && Sendable(log[i]) :: exists e | e in events :: e.DataArrives? && e.i == i
    ensures var l := Run(l0, events); l.inbound.rx.reassembly.emitted == l.msgs[..Clear(l.msgs)]
  {
    hide Initial, Schedule, Run, Roomy, ArrivesInTime, Clear, Sendable;
    var log := Run(l0, events).inbound.log;
    forall i: nat | i < |log| && Sendable(log[i]) ensures ArrivesInTime(l0, events, i) {
      RoomyIsInTime(l0, events, i);
    }
    ArrivalsDeliver(l0, events);
  }
}
