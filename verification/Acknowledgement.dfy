/** What a SACK takes off the queue and what it leaves there (src/sctp/association.ts:482-497). */
module Acknowledgement {
  import opened Bytes
  import opened Serial
  import opened Chunks
  import opened Association
  import opened Delivery
  import opened EndToEnd
  import GapBlocks

  /** Some gap block names the TSN, counting from the cumulative one. */
  ghost predicate Named(sack: Sack, tsn: u32) {
    exists b | b in sack.gapBlocks :: NamedBy(sack.cumulativeTSNAck, b, tsn)
  }

  ghost predicate NamedBy(cum: u32, block: (u16, u16), tsn: u32) {
    exists i: nat | block.0 <= i <= block.1 :: tsn == GapBlocks.At(cum, i)
  }

  lemma NamedIsInBlocks(sack: Sack, tsn: u32)
    ensures Named(sack, tsn) <==> InBlocks(sack, tsn)
  {
    var cum := sack.cumulativeTSNAck;
    if Named(sack, tsn) {
      var b :| b in sack.gapBlocks && NamedBy(cum, b, tsn);
      var i: nat :| b.0 <= i <= b.1 && tsn == GapBlocks.At(cum, i);
      AheadOfSum(cum, i);
    }
    if InBlocks(sack, tsn) {
      var b :| b in sack.gapBlocks && b.0 <= Ahead(cum, tsn) <= b.1;
      var i: nat := Ahead(cum, tsn);
      SumOfAhead(cum, tsn);
      assert tsn == GapBlocks.At(cum, i);
      assert NamedBy(cum, b, tsn);
    }
  }

  /** For any queue and any SACK: what the blocks name and what the cumulative TSN covers goes, the rest stays. */
  lemma SackClears(cmp: Comparison, queue: map<u32, Buffer>, sack: Sack)
    ensures var left := HandleSack(cmp, queue, sack);
      && (forall b, i: nat | b in sack.gapBlocks && b.0 <= i <= b.1 ::
            GapBlocks.At(sack.cumulativeTSNAck, i) !in left)
      && sack.cumulativeTSNAck !in left
      && (forall tsn | tsn in queue ::
            tsn in left <==> !SnLte(cmp, tsn, sack.cumulativeTSNAck) && !Named(sack, tsn))
      && (forall tsn | tsn in left :: tsn in queue && left[tsn] == queue[tsn])
  {
    hide SnLt, InBlocks, Ahead, ToUint32;
    forall tsn: u32 ensures Named(sack, tsn) <==> InBlocks(sack, tsn) {
      NamedIsInBlocks(sack, tsn);
    }
  }

  /** The cursor covers exactly what was consumed less than 2^31 chunks ago. */
  lemma CumulativeByAge(l: Inbound, i: int)
    requires ReceiveInv(l) && l.cmp == Intended && LatestOfItsTsn(l, i)
    ensures SnLte(Intended, Tsn(l, i), Tsn(l, Consumed(l) - 1)) <==> Consumed(l) - HALF <= i < Consumed(l)
  {
    hide ToUint32, CursorInv, BufferInv, Resting, SnLt;
    LogWithin(l);
    SerialByAge(l, i, Consumed(l) - 1);
  }

  lemma LogWithin(l: Inbound)
    requires ReceiveInv(l) && l.cmp == Intended
    ensures Consumed(l) <= |l.log| <= Consumed(l) + HALF
  {
    hide BufferInv, ConsumeAll;
  }

  /** Serial order between numbers that lie less than 2^32 apart. */
  lemma SerialByAge(l: Inbound, i: int, j: int)
    requires i - HALF <= j < i + MODULUS
    ensures SnLte(Intended, Tsn(l, i), Tsn(l, j)) <==> 0 <= j - i < HALF
  {
    hide ToUint32;
    WrapDifference(l.origin + i, l.origin + j);
    Differences(j - i);
    if i != j {
      TsnsDiffer(l, i, j);
    }
  }

  lemma Differences(age: int)
    requires -HALF <= age < MODULUS
    ensures ToUint32(-age) == if age <= 0 then -age else MODULUS - age
  {}

  /** A TSN that was consumed and given to no later chunk is in no gap block. */
  lemma ConsumedIsNotBuffered(l: Inbound, i: int)
    requires ReceiveInv(l) && l.cmp == Intended && LatestOfItsTsn(l, i) && i < Consumed(l)
    ensures Tsn(l, i) !in l.rx.outOfOrder
  {
    hide ToUint32, Ahead, ConsumeAll, Resting;
    if Tsn(l, i) in l.rx.outOfOrder {
      var j := IndexOf(l, Tsn(l, i));
      assert j in l.accepted;
      BufferedTsn(l, Tsn(l, i));
      LogWithin(l);
      SameTsnSameNumber(l.origin + i, l.origin + j);
    }
  }

  /** What is acknowledged by a receiver's own SACK, in terms of what it has. */
  ghost predicate HasIt(l: Inbound, i: int) {
    if i < Consumed(l) then Consumed(l) - i <= HALF
    else GapBlocks.Reportable(l.rx.cumulative, l.rx.outOfOrder.Keys, Tsn(l, i))
  }

  lemma AcknowledgedIff(l: Inbound, sorted: seq<u32>, i: int)
    requires ReceiveInv(l) && l.cmp == Intended && IsSorting(l.cmp, l.rx.outOfOrder.Keys, sorted)
    requires LatestOfItsTsn(l, i)
    ensures var r := SackFor(l.rx.cumulative, sorted);
      r.Some? && (Acknowledged(Intended, r.value, Tsn(l, i)) <==> HasIt(l, i))
  {
    hide ReceiveInv, SackFor, InBlocks, SnLte, Consistent, GapBlocks.RunEndsAt, ToUint32, Blocks;
    SacksAreExact(l, sorted);
    SackCumulative(l.rx.cumulative, sorted);
    ReceiveInvRefines(l);
    CumulativeByAge(l, i);
    if i < Consumed(l) {
      ConsumedIsNotBuffered(l, i);
    }
  }

  /**
   * After any run under the documented comparison, the SACK for the receiver's state at that moment leaves a
   * chunk queued, with its bytes, if and only if it was queued and the receiver neither consumed it as one of its
   * last 2^31 chunks nor can report it.
   */
  lemma CurrentSackClears(l0: Link, events: seq<Event>, sorted: seq<u32>, i: int)
    requires Initial(l0) && Schedule(l0, events) && l0.inbound.cmp == Intended
    requires var l := Run(l0, events);
      IsSorting(Intended, l.inbound.rx.outOfOrder.Keys, sorted) && LatestOfItsTsn(l.inbound, i)
    ensures var l := Run(l0, events);
      var tsn, r := Tsn(l.inbound, i), SackFor(l.inbound.rx.cumulative, sorted);
      && r.Some?
      && var left := HandleSack(Intended, l.tx.sentQueue, r.value);
         && (tsn in left <==> tsn in l.tx.sentQueue && !HasIt(l.inbound, i))
         && (tsn in left ==> left[tsn] == l.tx.sentQueue[tsn])
  {
    hide Initial, Schedule, Run, SentInv, QueueInv, TakenWereSent, SackFor, Acknowledged, HasIt, IsSorting, Tsn;
    InitialInv(l0);
    RunKeepsInv(l0, events);
    InvIsCore(Run(l0, events));
    SameComparison(l0, events);
    AcknowledgedIff(Run(l0, events).inbound, sorted, i);
  }

  lemma {:induction false} SameComparison(l: Link, events: seq<Event>)
    ensures Run(l, events).inbound.cmp == l.inbound.cmp
    decreases |events|
  {
    hide Received, SackFor, HandleSack, MessagePieces, Send;
    if events != [] {
      StepSameComparison(l, events[0]);
      SameComparison(Next(l, events[0]), events[1..]);
    }
  }

  lemma StepSameComparison(l: Link, e: Event)
    ensures Next(l, e).inbound.cmp == l.inbound.cmp
  {
    hide Deliver, SackFor, HandleSack, MessagePieces, Send;
  }
}
