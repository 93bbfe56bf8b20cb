/**
 * The whole link: what the receiver emits, what the sender may forget, and what SACKs report,
 * over every run (src/sctp/association.ts:335-497).
 */
module EndToEnd {
  import opened Bytes
  import opened Serial
  import opened Chunks
  import opened Association
  import opened Delivery
  import Fragmentation
  import GapBlocks

  /** A SACK in the network, with the number of chunks consumed when it was built (history). */
  datatype Stamped = Stamped(sack: Sack, at: nat)

  /**
   * `msgs` is history: every message passed to `sendData`, in order, whether it threw or not. The log of
   * `inbound` has an entry for every TSN taken; where encoding threw, that entry is not `Sendable`.
   */
  datatype Link = Link(tx: Sender, inbound: Inbound, sacks: set<Stamped>, msgs: seq<Message>)

  /** As left by the setup: the receive cursor is the peer's initial TSN minus one. */
  ghost predicate Initial(l: Link) {
    && l.tx.sentQueue == map[] && l.tx.localTSN == l.inbound.origin
    && l.inbound.log == [] && l.inbound.accepted == {}
    && l.inbound.rx == Receiver(ToUint32(l.inbound.origin - 1), map[], NOTHING, [])
    && l.sacks == {} && l.msgs == []
  }

  datatype Event =
    | SendMessage(m: Message, unordered: bool)
    | DataArrives(i: nat, sorted: seq<u32>)  // a copy of chunk i; `sorted` is what the sort then returned
    | SackArrives(p: Stamped)

  ghost predicate Enabled(l: Link, e: Event) {
    match e
    case SendMessage(_, _) => true
    case DataArrives(i, sorted) =>
      && i < |l.inbound.log| && Sendable(l.inbound.log[i])  // a TSN spent by a throw is on no packet
      && IsSorting(l.inbound.cmp, Received(l.inbound, i).rx.outOfOrder.Keys, sorted)
    case SackArrives(p) => p in l.sacks
  }

  /**
   * What is asked of the network and the sender. With the intended comparison no copy is 2^31 chunks
   * old and the sender is not 2^31 ahead, so TSNs may wrap any number of times; with the literal one
   * fewer than 2^32 chunks are sent in all.
   */
  ghost predicate Timely(l: Link, e: Event) {
    match e
    case SendMessage(m, unordered) =>
      var sent := |l.inbound.log| + |MessagePieces(l.tx, m, unordered)|;
      if l.inbound.cmp == Literal then sent < MODULUS else sent <= Consumed(l.inbound) + HALF
    case DataArrives(i, _) => Near(l.inbound, i)
    case SackArrives(p) => l.inbound.cmp == Intended ==> |l.inbound.log| <= p.at + HALF
  }

  /** Every DATA packet is answered by a SACK, unless writing it throws. */
  function Next(l: Link, e: Event): Link {
    match e
    case SendMessage(m, unordered) =>
      var ds := MessagePieces(l.tx, m, unordered);
      l.(tx := Send(l.tx, m, unordered), inbound := l.inbound.(log := l.inbound.log + ds), msgs := l.msgs + [m])
    case DataArrives(i, sorted) =>
      if i >= |l.inbound.log| then l
      else
        var inbound := Received(l.inbound, i);
        var sacks := match SackFor(inbound.rx.cumulative, sorted)
          case None => {}
          case Some(s) => {Stamped(s, Consumed(inbound))};
        l.(inbound := inbound, sacks := l.sacks + sacks)
    case SackArrives(p) => l.(tx := l.tx.(sentQueue := HandleSack(l.inbound.cmp, l.tx.sentQueue, p.sack)))
  }

  function Run(l: Link, events: seq<Event>): Link
    decreases |events|
  {
    if events == [] then l else Run(Next(l, events[0]), events[1..])
  }

  ghost predicate Schedule(l: Link, events: seq<Event>)
    decreases |events|
  {
    events != [] ==> Enabled(l, events[0]) && Timely(l, events[0]) && Schedule(Next(l, events[0]), events[1..])
  }

  // ---- Invariants ----

  ghost predicate SentInv(l: Link) {
    && l.tx.localTSN == Tsn(l.inbound, |l.inbound.log|)
    && ConsumeAll(NOTHING, l.inbound.log[..ClearLog(l.inbound.log)]) == Reassembly(map[], l.msgs[..Clear(l.msgs)])
    && (ClearLog(l.inbound.log) == |l.inbound.log| <==> Clear(l.msgs) == |l.msgs|)
  }

  /** How many chunks come before the first that was never sent. */
  function ClearLog(log: seq<Data>): (c: nat)
    ensures c <= |log| && forall i | 0 <= i < c :: Sendable(log[i])
    ensures c < |log| ==> !Sendable(log[c])
  {
    if log == [] then 0
    else
      var n := |log| - 1;
      var c := ClearLog(log[..n]);
      if c == n && Sendable(log[n]) then n + 1 else c
  }

  /** Only chunks that were sent are taken in. */
  ghost predicate TakenWereSent(l: Link) {
    forall j | j in l.inbound.accepted :: j < |l.inbound.log| && Sendable(l.inbound.log[j])
  }

  /** Only chunks that were sent are queued. */
  ghost predicate Genuine(l: Link) {
    forall tsn | tsn in l.tx.sentQueue :: Logged(l.inbound.log, tsn)
  }

  ghost predicate Logged(log: seq<Data>, tsn: u32) {
    exists i :: 0 <= i < |log| && log[i].tsn == tsn
  }

  /** Nothing sent is forgotten: what the receiver has not taken in is still queued. */
  ghost predicate Conserved(l: Link) {
    forall i | 0 <= i < |l.inbound.log| && Sendable(l.inbound.log[i]) ::
      || i in l.inbound.accepted
      || Queued(l.tx.sentQueue, Tsn(l.inbound, i), l.inbound.log[i])
  }

  ghost predicate Queued(queue: map<u32, Buffer>, tsn: u32, d: Data) {
    tsn in queue && Sendable(d) && queue[tsn] == Encoded(d)
  }

  /** The chunk a gap-acknowledged TSN stands for. */
  function BlockIndex(l: Inbound, p: Stamped, tsn: u32): int {
    if l.cmp == Intended then p.at - 1 + Ahead(p.sack.cumulativeTSNAck, tsn) else Ahead(l.origin, tsn)
  }

  /** What a SACK acknowledges had been taken in when it was built. */
  ghost predicate Truthful(l: Inbound, p: Stamped) {
    && p.at <= Consumed(l) && p.sack.cumulativeTSNAck == Tsn(l, p.at - 1)
    && forall tsn: u32 | InBlocks(p.sack, tsn) :: BlockIndex(l, p, tsn) >= 0 && BlockIndex(l, p, tsn) in l.accepted
  }

  /** What delivery rests on. */
  ghost predicate Core(l: Link) { SentInv(l) && Tracking(l.inbound) && TakenWereSent(l) }

  /** What acknowledging rests on. */
  ghost predicate QueueInv(l: Link) {
    Conserved(l) && Genuine(l) && forall p | p in l.sacks :: Truthful(l.inbound, p)
  }

  ghost predicate Inv(l: Link) { Core(l) && Resting(l.inbound) && QueueInv(l) }

  // ---- Sending ----

  lemma {:induction false} EnqueueLooksUp(queue: map<u32, Buffer>, ds: seq<Data>, tsn: u32)
    requires forall d | d in ds :: Sendable(d)
    requires forall i, j | 0 <= i < j < |ds| :: ds[i].tsn != ds[j].tsn
    ensures forall i | 0 <= i < |ds| && ds[i].tsn == tsn ::
      tsn in Enqueue(queue, ds) && Enqueue(queue, ds)[tsn] == Encoded(ds[i])
    ensures (forall i | 0 <= i < |ds| :: ds[i].tsn != tsn) ==>
      (tsn in Enqueue(queue, ds) <==> tsn in queue) && (tsn in queue ==> Enqueue(queue, ds)[tsn] == queue[tsn])
  {
    if ds != [] {
      var n := |ds| - 1;
      assert forall i | 0 <= i < n :: ds[..n][i] == ds[i];
      EnqueueLooksUp(queue, ds[..n], tsn);
    }
  }

  lemma ReceiveLog(l: Link)
    requires Core(l)
    ensures LogInv(l.inbound) && l.tx.localTSN == Tsn(l.inbound, |l.inbound.log|)
  {
    hide ConsumeAll, BufferInv, LogInv, ClearLog, Clear;
  }

  /** Chunks are numbered from the next TSN on. */
  lemma PiecesNumbered(s: Sender, m: Message, unordered: bool)
    ensures var ds := MessagePieces(s, m, unordered);
      && Send(s, m, unordered).localTSN == ToUint32(s.localTSN + |ds|)
      && forall j | 0 <= j < |ds| :: ds[j].tsn == ToUint32(s.localTSN + j)
  {
    hide ToUint32, Enqueue, Sendable;
  }

  lemma SendKeepsLog(l: Link, m: Message, unordered: bool)
    requires Core(l) && Timely(l, SendMessage(m, unordered))
    ensures var l' := Next(l, SendMessage(m, unordered));
        LogInv(l'.inbound) && l'.tx.localTSN == Tsn(l'.inbound, |l'.inbound.log|)
  {
    hide ConsumeAll, ReceiveInv, ToUint32, ClearLog, Clear, TakenWereSent, Received, SackFor, HandleSack,
         MessagePieces, Send;
    PiecesNumbered(l.tx, m, unordered);
    ReceiveLog(l);
    var l', n, ds := Next(l, SendMessage(m, unordered)), |l.inbound.log|, MessagePieces(l.tx, m, unordered);
    forall i | 0 <= i < |l'.inbound.log| ensures l'.inbound.log[i].tsn == Tsn(l'.inbound, i) {
      if i >= n {
        assert l'.inbound.log[i] == ds[i - n];
        SumOfTsn(l.inbound, n, i - n);
      } else {
        assert l'.inbound.log[i] == l.inbound.log[i];
      }
    }
    SumOfTsn(l.inbound, n, |ds|);
  }

  lemma SendKeepsReceiver(l: Link, m: Message, unordered: bool)
    requires Core(l) && Timely(l, SendMessage(m, unordered))
    ensures Tracking(Next(l, SendMessage(m, unordered)).inbound)
    ensures Next(l, SendMessage(m, unordered)).inbound.rx == l.inbound.rx
  {
    hide ConsumeAll, Ahead, ToUint32, LogInv, MessagePieces;
    SendKeepsLog(l, m, unordered);
    var a, b := l.inbound, Next(l, SendMessage(m, unordered)).inbound;
    assert b.log[..Consumed(b)] == a.log[..Consumed(a)];
    assert forall i: int :: Tsn(b, i) == Tsn(a, i);
    assert forall k: u32 :: IndexOf(b, k) == IndexOf(a, k);
    assert BufferInv(b) by {
      forall k | k in b.rx.outOfOrder
        ensures IndexOf(b, k) < |b.log| && b.rx.outOfOrder[k] == b.log[IndexOf(b, k)] && IndexOf(b, k) in b.accepted
        ensures b.cmp == Intended ==> Ahead(Expected(b.rx), k) <= HALF
      {
        assert IndexOf(a, k) < |a.log|;
      }
      forall j | j in b.accepted ensures j < |b.log| && (j < Consumed(b) || Tsn(b, j) in b.rx.outOfOrder) {
        assert Tsn(b, j) == Tsn(a, j);
      }
    }
  }

  lemma ClearLogAppend(log: seq<Data>, ds: seq<Data>)
    ensures ClearLog(log) < |log| ==> ClearLog(log + ds) == ClearLog(log)
    ensures ClearLog(log) == |log| && (forall d | d in ds :: Sendable(d)) ==> ClearLog(log + ds) == |log| + |ds|
    ensures ClearLog(log) == |log| && ds != [] && !Sendable(ds[0]) ==> ClearLog(log + ds) == |log|
  {
    hide ClearLog, Sendable;
    var c, all := ClearLog(log + ds), log + ds;
    assert forall i | 0 <= i < |log| :: all[i] == log[i];
    assert c >= |log| && c < |all| ==> all[c] == ds[c - |log|] && all[c] in ds;
    assert ds != [] ==> all[|log|] == ds[0];
  }

  lemma SendKeepsMessages(l: Link, m: Message, unordered: bool)
    requires SentInv(l)
    ensures var l' := Next(l, SendMessage(m, unordered));
      && ConsumeAll(NOTHING, l'.inbound.log[..ClearLog(l'.inbound.log)]) == Reassembly(map[], l'.msgs[..Clear(l'.msgs)])
      && (ClearLog(l'.inbound.log) == |l'.inbound.log| <==> Clear(l'.msgs) == |l'.msgs|)
  {
    hide ConsumeAll, ClearLog, Clear, Sendable, Tsn, Enqueue, Received, SackFor, HandleSack;
    var log, ds := l.inbound.log, MessagePieces(l.tx, m, unordered);
    var n, c := |log|, ClearLog(log);
    ClearLogAppend(log, ds);
    ClearPush(l.msgs, m);
    assert (log + ds)[..c] == log[..c] && (l.msgs + [m])[..Clear(l.msgs)] == l.msgs[..Clear(l.msgs)];
    if c == n && Carriable(m) {
      assert log[..n] == log && (log + ds)[..n + |ds|] == log + ds;
      assert l.msgs[..|l.msgs|] == l.msgs && (l.msgs + [m])[..|l.msgs| + 1] == l.msgs + [m];
      Fragmentation.ConsumeAllAppend(NOTHING, log, ds);
      Fragmentation.PiecesReassemble(l.tx.localTSN, StreamSeq(l.tx, m.streamId, unordered), m, unordered,
          Reassembly(map[], l.msgs));
    }
  }

  lemma {:induction false} EnqueuedKeys(queue: map<u32, Buffer>, ds: seq<Data>, tsn: u32)
    requires forall d | d in ds :: Sendable(d)
    requires tsn in Enqueue(queue, ds)
    ensures tsn in queue || Logged(ds, tsn)
  {
    if ds != [] {
      var n := |ds| - 1;
      if ds[n].tsn != tsn {
        EnqueuedKeys(queue, ds[..n], tsn);
        if Logged(ds[..n], tsn) {
          var i :| 0 <= i < n && ds[..n][i].tsn == tsn;
          assert ds[i].tsn == tsn;
        }
      }
    }
  }

  lemma SendStaysGenuine(l: Link, m: Message, unordered: bool)
    requires Genuine(l)
    ensures Genuine(Next(l, SendMessage(m, unordered)))
  {
    hide Enqueue, Sendable;
    var l', ds := Next(l, SendMessage(m, unordered)), MessagePieces(l.tx, m, unordered);
    forall tsn | tsn in l'.tx.sentQueue ensures Logged(l'.inbound.log, tsn) {
      if Carriable(m) {
        EnqueuedKeys(l.tx.sentQueue, ds, tsn);
      }
      LoggedInBoth(l.inbound.log, ds, tsn);
    }
  }

  lemma LoggedInBoth(a: seq<Data>, b: seq<Data>, tsn: u32)
    requires Logged(a, tsn) || Logged(b, tsn)
    ensures Logged(a + b, tsn)
  {
    if Logged(a, tsn) {
      var i :| 0 <= i < |a| && a[i].tsn == tsn;
      assert (a + b)[i].tsn == tsn;
    } else {
      var i :| 0 <= i < |b| && b[i].tsn == tsn;
      assert (a + b)[|a| + i].tsn == tsn;
    }
  }

  /** What the queue holds after the pieces `log[n..]` went in under their own TSNs. */
  lemma EnqueueAll(l: Inbound, queue: map<u32, Buffer>, n: nat, i: nat)
    requires LogInv(l) && n <= |l.log| && |l.log| - n < MODULUS && i < |l.log|
    requires forall d | d in l.log[n..] :: Sendable(d)
    ensures i >= n ==> Queued(Enqueue(queue, l.log[n..]), Tsn(l, i), l.log[i])
    ensures i < n && |l.log| - i <= MODULUS && Queued(queue, Tsn(l, i), l.log[i]) ==>
        Queued(Enqueue(queue, l.log[n..]), Tsn(l, i), l.log[i])
  {
    hide ToUint32, Encoded, Enqueue;
    var ds, tsn := l.log[n..], Tsn(l, i);
    forall j, k | 0 <= j < k < |ds| ensures ds[j].tsn != ds[k].tsn {
      TsnsDiffer(l, n + j, n + k);
    }
    EnqueueLooksUp(queue, ds, tsn);
    if i >= n {
      assert ds[i - n].tsn == tsn;
    } else if |l.log| - i <= MODULUS {
      forall j | 0 <= j < |ds| ensures ds[j].tsn != tsn {
        TsnsDiffer(l, n + j, i);
      }
    }
  }

  /** Old entries that a new TSN overwrites belong to chunks long since taken in. */
  lemma SendConserves(l: Link, m: Message, unordered: bool)
    requires Core(l) && Conserved(l) && Timely(l, SendMessage(m, unordered))
    ensures Conserved(Next(l, SendMessage(m, unordered)))
  {
    hide ConsumeAll, Ahead, Enqueue, Encoded, ToUint32, BufferInv, LogInv, MessagePieces, Sendable, ClearLog, Clear,
         Genuine;
    var l', n, ds := Next(l, SendMessage(m, unordered)), |l.inbound.log|, MessagePieces(l.tx, m, unordered);
    SendKeepsLog(l, m, unordered);
    SendRange(l, m, unordered);
    assert l'.inbound.log[n..] == ds;
    forall i | 0 <= i < |l'.inbound.log| && Sendable(l'.inbound.log[i]) && i !in l.inbound.accepted
      ensures Queued(l'.tx.sentQueue, Tsn(l'.inbound, i), l'.inbound.log[i])
    {
      if Carriable(m) {
        EnqueueAll(l'.inbound, l.tx.sentQueue, n, i);
      } else if i >= n {
        OnlyFirst(l.inbound.log, ds, i);
      }
      if i < n {
        assert Queued(l.tx.sentQueue, Tsn(l.inbound, i), l.inbound.log[i]);
        if i < Consumed(l.inbound) {
          ConsumedIsAccepted(l.inbound, i);
        }
      }
    }
  }

  lemma OnlyFirst(log: seq<Data>, ds: seq<Data>, i: nat)
    requires |ds| == 1 && |log| <= i < |log + ds|
    ensures (log + ds)[i] == ds[0]
  {}

  lemma SendRange(l: Link, m: Message, unordered: bool)
    requires Core(l) && Timely(l, SendMessage(m, unordered))
    ensures var log := Next(l, SendMessage(m, unordered)).inbound.log;
      |log| < MODULUS || |log| <= Consumed(l.inbound) + HALF
    ensures |MessagePieces(l.tx, m, unordered)| < MODULUS
  {
    hide ConsumeAll, MessagePieces;
  }

  // ---- DATA and SACK arriving ----

  /** What the index of a gap-acknowledged TSN is at the receiver that reports it. */
  lemma ReportedIndex(l: Inbound, s: Sack, tsn: u32)
    requires ReceiveInv(l) && tsn in l.rx.outOfOrder && s.cumulativeTSNAck == l.rx.cumulative
    ensures BlockIndex(l, Stamped(s, Consumed(l)), tsn) == IndexOf(l, tsn) && IndexOf(l, tsn) in l.accepted
  {
    hide ConsumeAll, LogInv, Ahead;
    BufferedTsn(l, tsn);
    if l.cmp == Intended {
      assert Ahead(Expected(l.rx), tsn) <= HALF by { assert IndexOf(l, tsn) in l.accepted; }
      GapBlocks.AheadFromNext(l.rx.cumulative, tsn);
    }
  }

  lemma NewSackTruthful(l: Inbound, sorted: seq<u32>)
    requires ReceiveInv(l) && IsSorting(l.cmp, l.rx.outOfOrder.Keys, sorted)
    requires SackFor(l.rx.cumulative, sorted).Some?
    ensures Truthful(l, Stamped(SackFor(l.rx.cumulative, sorted).value, Consumed(l)))
  {
    var s := SackFor(l.rx.cumulative, sorted).value;
    hide ReceiveInv, BlockIndex, IndexOf, SackFor, Ahead, InBlocks;
    SackCumulative(l.rx.cumulative, sorted);
    ReceiveInvRefines(l);
    forall tsn: u32 | InBlocks(s, tsn)
      ensures BlockIndex(l, Stamped(s, Consumed(l)), tsn) >= 0
      ensures BlockIndex(l, Stamped(s, Consumed(l)), tsn) in l.accepted
    {
      GapBlocks.BlocksCoverKeysOnly(l.rx.cumulative, sorted, tsn);
      assert tsn in Elements(sorted);
      ReportedIndex(l, s, tsn);
    }
  }

  lemma SackCumulative(cum: u32, sorted: seq<u32>)
    requires SackFor(cum, sorted).Some?
    ensures SackFor(cum, sorted).value.cumulativeTSNAck == cum
  {}

  lemma StillTruthful(l: Inbound, l': Inbound, p: Stamped)
    requires Truthful(l, p)
    requires l' == l.(log := l'.log, rx := l'.rx, accepted := l'.accepted)
    requires l.accepted <= l'.accepted && Consumed(l) <= Consumed(l')
    ensures Truthful(l', p)
  {
    hide Ahead, InBlocks;
    forall tsn: u32 | InBlocks(p.sack, tsn) ensures BlockIndex(l', p, tsn) >= 0
        && BlockIndex(l', p, tsn) in l'.accepted {
      assert BlockIndex(l', p, tsn) == BlockIndex(l, p, tsn);
    }
  }

  /** A SACK, however stale, duplicated or reordered, takes only accepted chunks off the queue. */
  lemma SackTakesAcceptedOnly(l: Link, p: Stamped, i: nat)
    requires Core(l) && QueueInv(l) && Enabled(l, SackArrives(p)) && Timely(l, SackArrives(p))
    requires i < |l.inbound.log| && Acknowledged(l.inbound.cmp, p.sack, Tsn(l.inbound, i))
    ensures i in l.inbound.accepted
  {
    hide ConsumeAll, BufferInv, InBlocks, Ahead;
    var b := l.inbound;
    assert Truthful(b, p);
    if i < p.at {
      ConsumedIsAccepted(b, i);
    } else if SnLte(b.cmp, Tsn(b, i), p.sack.cumulativeTSNAck) {
      LiteralIsNeverLess(Tsn(b, i), p.sack.cumulativeTSNAck);
      if b.cmp == Intended {
        IntendedIsIntegerOrder(b.origin + i, b.origin + p.at - 1);
      } else {
        TsnsDiffer(b, i, p.at - 1);
      }
    } else {
      BlockNamesChunk(b, p, i);
      assert BlockIndex(b, p, Tsn(b, i)) in b.accepted;
    }
  }

  lemma BlockNamesChunk(l: Inbound, p: Stamped, i: nat)
    requires p.sack.cumulativeTSNAck == Tsn(l, p.at - 1) && i >= p.at
    requires if l.cmp == Intended then i < p.at + HALF else i < MODULUS
    ensures BlockIndex(l, p, Tsn(l, i)) == i
  {
    hide Ahead, ToUint32;
    if l.cmp == Intended {
      SumOfTsn(l, p.at - 1, i - (p.at - 1));
      AheadOfSum(Tsn(l, p.at - 1), i - (p.at - 1));
    } else {
      AheadOfSum(l.origin, i);
    }
  }

  lemma SendKeepsCore(l: Link, m: Message, unordered: bool)
    requires Core(l) && Timely(l, SendMessage(m, unordered))
    ensures Core(Next(l, SendMessage(m, unordered)))
  {
    hide ConsumeAll, Tracking, Send, MessagePieces, Tsn, ClearLog, Clear;
    SendKeepsLog(l, m, unordered);
    SendKeepsReceiver(l, m, unordered);
    SendKeepsMessages(l, m, unordered);
  }

  lemma SendKeepsQueue(l: Link, m: Message, unordered: bool)
    requires Core(l) && QueueInv(l) && Timely(l, SendMessage(m, unordered))
    ensures QueueInv(Next(l, SendMessage(m, unordered)))
  {
    hide Core, Conserved, Genuine, Truthful, Send, MessagePieces;
    var l' := Next(l, SendMessage(m, unordered));
    SendConserves(l, m, unordered);
    SendStaysGenuine(l, m, unordered);
    forall p | p in l'.sacks ensures Truthful(l'.inbound, p) {
      StillTruthful(l.inbound, l'.inbound, p);
    }
  }

  lemma SendKeepsInv(l: Link, m: Message, unordered: bool)
    requires Inv(l) && Timely(l, SendMessage(m, unordered))
    ensures Inv(Next(l, SendMessage(m, unordered)))
  {
    hide Core, Resting, QueueInv, Send, MessagePieces;
    SendKeepsCore(l, m, unordered);
    SendKeepsQueue(l, m, unordered);
    RestingIsReceiver(l.inbound, Next(l, SendMessage(m, unordered)).inbound);
  }

  lemma RestingIsReceiver(a: Inbound, b: Inbound)
    requires Resting(a) && b.rx == a.rx
    ensures Resting(b)
  {}

  lemma DataKeepsCore(l: Link, i: nat)
    requires Core(l) && Resting(l.inbound)
    requires i < |l.inbound.log| && Sendable(l.inbound.log[i]) && Near(l.inbound, i)
    ensures Core(l.(inbound := Received(l.inbound, i))) && Resting(Received(l.inbound, i))
  {
    hide ConsumeAll, Tracking, Resting, Deliver, Near, ClearLog, Clear, Sendable;
    DataArrivalKeeps(l.inbound, i);
  }

  /** Taking in more takes nothing off the queue. */
  lemma TakingKeepsQueue(l: Link, b: Inbound, sacks: set<Stamped>)
    requires QueueInv(l) && b == l.inbound.(rx := b.rx, accepted := b.accepted)
    requires l.inbound.accepted <= b.accepted && Consumed(l.inbound) <= Consumed(b)
    requires forall p | p in sacks :: p in l.sacks || Truthful(b, p)
    ensures QueueInv(l.(inbound := b, sacks := sacks))
  {
    hide Truthful, Queued, Logged, Sendable;
    forall p | p in sacks ensures Truthful(b, p) {
      if p in l.sacks {
        StillTruthful(l.inbound, b, p);
      }
    }
    assert forall i: int :: Tsn(b, i) == Tsn(l.inbound, i);
  }

  lemma DataKeepsInv(l: Link, i: nat, sorted: seq<u32>)
    requires Inv(l) && Enabled(l, DataArrives(i, sorted)) && Timely(l, DataArrives(i, sorted))
    ensures Inv(Next(l, DataArrives(i, sorted)))
  {
    hide Core, Resting, QueueInv, ReceiveInv, Truthful, Deliver, SackFor, IsSorting, Near, Sendable;
    var l', b := Next(l, DataArrives(i, sorted)), Received(l.inbound, i);
    DataKeepsCore(l, i);
    CoreReceives(l);
    CoreReceives(l.(inbound := b));
    DataArrivalKeeps(l.inbound, i);
    CoreIgnoresSacks(l.(inbound := b), l'.sacks);
    if SackFor(b.rx.cumulative, sorted).Some? {
      NewSackTruthful(b, sorted);
    }
    TakingKeepsQueue(l, b, l'.sacks);
  }

  lemma CoreIgnoresSacks(l: Link, sacks: set<Stamped>)
    ensures Core(l.(sacks := sacks)) <==> Core(l)
  {
    hide ConsumeAll, Tracking, ClearLog, Clear, Sendable;
  }

  lemma CoreReceives(l: Link)
    requires Core(l) && Resting(l.inbound)
    ensures ReceiveInv(l.inbound)
  {}

  lemma InvIsCore(l: Link)
    requires Inv(l)
    ensures Core(l) && Resting(l.inbound)
  {}

  lemma SackKeepsQueue(l: Link, p: Stamped)
    requires Core(l) && QueueInv(l) && Enabled(l, SackArrives(p)) && Timely(l, SackArrives(p))
    ensures QueueInv(Next(l, SackArrives(p)))
  {
    hide Core, Truthful, Acknowledged, Tsn, Encoded, Logged, Sendable;
    var l' := Next(l, SackArrives(p));
    forall i | 0 <= i < |l.inbound.log| && Sendable(l.inbound.log[i]) && i !in l.inbound.accepted
      ensures Queued(l'.tx.sentQueue, Tsn(l.inbound, i), l.inbound.log[i])
    {
      assert Queued(l.tx.sentQueue, Tsn(l.inbound, i), l.inbound.log[i]);
      if Acknowledged(l.inbound.cmp, p.sack, Tsn(l.inbound, i)) {
        SackTakesAcceptedOnly(l, p, i);
      }
    }
  }

  lemma CoreIgnoresQueue(l: Link, queue: map<u32, Buffer>)
    ensures Core(l.(tx := l.tx.(sentQueue := queue))) <==> Core(l)
  {
    hide ConsumeAll, Tracking, ClearLog, Clear, Sendable;
  }

  lemma SackKeepsInv(l: Link, p: Stamped)
    requires Inv(l) && Enabled(l, SackArrives(p)) && Timely(l, SackArrives(p))
    ensures Inv(Next(l, SackArrives(p)))
  {
    hide Core, Resting, QueueInv, HandleSack;
    SackKeepsQueue(l, p);
    CoreIgnoresQueue(l, HandleSack(l.inbound.cmp, l.tx.sentQueue, p.sack));
  }

  lemma {:induction false} RunKeepsInv(l: Link, events: seq<Event>)
    requires Inv(l) && Schedule(l, events)
    ensures Inv(Run(l, events))
    decreases |events|
  {
    hide Inv, Enabled, Timely, Next;
    if events != [] {
      match events[0] {
        case SendMessage(m, unordered) => SendKeepsInv(l, m, unordered);
        case DataArrives(i, sorted) => DataKeepsInv(l, i, sorted);
        case SackArrives(p) => SackKeepsInv(l, p);
      }
      RunKeepsInv(Next(l, events[0]), events[1..]);
    }
  }

  lemma InitialInv(l: Link)
    requires Initial(l)
    ensures Inv(l)
  {
    hide Tsn, ConsumeAll, Tracking, Resting, Truthful;
    assert l.inbound.log[..ClearLog(l.inbound.log)] == [] && l.msgs[..Clear(l.msgs)] == [];
    NothingConsumed();
    InitialReceiver(l);
  }

  lemma NothingConsumed()
    ensures ConsumeAll(NOTHING, []) == NOTHING
  {}

  lemma InitialReceiver(l: Link)
    requires Initial(l)
    ensures ReceiveInv(l.inbound) && l.tx.localTSN == Tsn(l.inbound, 0)
  {
    hide ConsumeAll, Ahead, IndexOf, ToUint32, Tsn;
    NothingConsumed();
    FirstExpected(l.inbound.origin);
    assert Tsn(l.inbound, 0) == l.inbound.origin by {
      ZeroTsn(l.inbound);
    }
    assert LogInv(l.inbound) && CursorInv(l.inbound);
  }

  lemma ZeroTsn(l: Inbound)
    ensures Tsn(l, 0) == l.origin
  {}

  lemma FirstExpected(origin: u32)
    ensures ToUint32(ToUint32(origin - 1) + 1) == origin
  {
    WrapDifference(origin - 1, -1);
  }

  // ---- Main results ----

  function MessagesOf(events: seq<Event>): seq<Message>
    decreases |events|
  {
    if events == [] then []
    else (if events[0].SendMessage? then [events[0].m] else []) + MessagesOf(events[1..])
  }

  lemma {:induction false} RunSends(l: Link, events: seq<Event>)
    ensures Run(l, events).msgs == l.msgs + MessagesOf(events)
    decreases |events|
  {
    hide MessagePieces, Send, Received, SackFor, HandleSack;
    if events != [] {
      RunSends(Next(l, events[0]), events[1..]);
    }
  }

  /** Every message a run sends is on a stream that a chunk can name. */
  predicate AllCarriable(events: seq<Event>) {
    forall e | e in events && e.SendMessage? :: Carriable(e.m)
  }

  lemma {:induction false} AllCarriableIff(events: seq<Event>)
    ensures AllCarriable(events) <==> forall m | m in MessagesOf(events) :: Carriable(m)
    decreases |events|
  {
    hide Carriable;
    if events != [] {
      AllCarriableIff(events[1..]);
      assert events == [events[0]] + events[1..];
    }
  }

  /** Every chunk that was sent has been taken in. */
  ghost predicate AllArrived(l: Link) {
    forall i: nat | i < |l.inbound.log| && Sendable(l.inbound.log[i]) :: i in l.inbound.accepted
  }

  /**
   * Over every run, under loss, duplication and reordering: the messages emitted are a prefix of the
   * messages passed to `sendData`, in order and unchanged; the receiver refines its simple specification;
   * and no chunk sent is forgotten by the sender before the receiver has it. Once every chunk sent has
   * been taken in, what is emitted is exactly the messages before the first that `sendData` refused: all
   * of them if and only if every message of the run was for a stream up to 65535.
   */
  lemma EndToEndDelivery(l0: Link, events: seq<Event>)
    requires Initial(l0) && Schedule(l0, events)
    ensures var l := Run(l0, events);
      && l.inbound.rx.reassembly.emitted <= l.msgs == MessagesOf(events)
      && RefinesAcceptedSet(l.inbound)
      && Conserved(l)
      && (AllArrived(l) ==> l.inbound.rx.reassembly.emitted == l.msgs[..Clear(l.msgs)])
      && (AllArrived(l) ==> (l.inbound.rx.reassembly.emitted == l.msgs <==> AllCarriable(events)))
  {
    hide ConsumeAll, ReceiveInv, RefinesAcceptedSet, Truthful, AllArrived, AllCarriable, Schedule, Next, Run, Carriable;
    InitialInv(l0);
    RunKeepsInv(l0, events);
    RunSends(l0, events);
    AllCarriableIff(events);
    PrefixOfMessages(Run(l0, events));
    var msgs := Run(l0, events).msgs;
    assert Clear(msgs) < |msgs| ==> msgs[Clear(msgs)] in msgs;
  }

  lemma PrefixOfMessages(l: Link)
    requires Core(l) && Resting(l.inbound)
    ensures l.inbound.rx.reassembly.emitted <= l.msgs[..Clear(l.msgs)] <= l.msgs
    ensures RefinesAcceptedSet(l.inbound)
    ensures AllArrived(l) ==> l.inbound.rx.reassembly.emitted == l.msgs[..Clear(l.msgs)]
  {
    hide ConsumeAll, LogInv, BufferInv, ClearLog, Clear, Conserved, Truthful;
    var log, n, c := l.inbound.log, Consumed(l.inbound), ClearLog(l.inbound.log);
    ReceiveInvRefines(l.inbound);
    ConsumedIsClear(l);
    assert log[..c][..n] == log[..n];
    Fragmentation.EmittedGrows(NOTHING, log[..c], n);
    if AllArrived(l) && n < c {
      NextNotTaken(l);
    }
  }

  /** Consumption stops before the first chunk that was never sent. */
  lemma ConsumedIsClear(l: Link)
    requires Core(l)
    ensures Consumed(l.inbound) <= ClearLog(l.inbound.log)
  {
    hide ConsumeAll, LogInv, Sendable, Conserved, Truthful;
    var c := ClearLog(l.inbound.log);
    assert c < Consumed(l.inbound) ==> c in l.inbound.accepted;
  }

  lemma NextNotTaken(l: Link)
    requires Core(l) && Resting(l.inbound) && Consumed(l.inbound) < |l.inbound.log|
    ensures Consumed(l.inbound) !in l.inbound.accepted
  {
    hide ConsumeAll, LogInv, Sendable, Conserved, Truthful, IndexOf, ClearLog, Clear;
    assert Tsn(l.inbound, Consumed(l.inbound)) == Expected(l.inbound.rx);
  }

  /**
   * From every reachable state, however badly the network has behaved, delivering chunks already sent
   * brings out every message before the first refused one, in whatever order each sort leaves the
   * buffered TSNs.
   */
  lemma {:induction false} CanAlwaysDeliver(l: Link, sort: set<u32> -> seq<u32>) returns (events: seq<Event>)
    requires Inv(l) && forall keys :: IsSorting(l.inbound.cmp, keys, sort(keys))
    ensures Schedule(l, events)
    ensures Run(l, events).msgs == l.msgs && Run(l, events).inbound.rx.reassembly.emitted == l.msgs[..Clear(l.msgs)]
    decreases ClearLog(l.inbound.log) - Consumed(l.inbound)
  {
    hide Inv, ReceiveInv, IsSorting, Received, SackFor, Near, Sendable, ClearLog, Clear;
    InvIsCore(l);
    ConsumedIsClear(l);
    NextIsInOrder(l);
    var i := Consumed(l.inbound);
    if i < ClearLog(l.inbound.log) {
      InOrderArrives(l.inbound, i);
      ReceivedKeepsLog(l.inbound, i);
      var e := DataArrives(i, sort(Received(l.inbound, i).rx.outOfOrder.Keys));
      assert Enabled(l, e) && Timely(l, e);
      DataKeepsInv(l, i, e.sorted);
      InvIsCore(Next(l, e));
      ConsumedIsClear(Next(l, e));
      var rest := CanAlwaysDeliver(Next(l, e), sort);
      events := [e] + rest;
    } else {
      AllConsumed(l);
      events := [];
    }
  }

  lemma ReceivedKeepsLog(l: Inbound, i: nat)
    requires i < |l.log|
    ensures Received(l, i).log == l.log && Received(l, i).cmp == l.cmp
  {}

  lemma NextIsInOrder(l: Link)
    requires Core(l) && Resting(l.inbound)
    ensures ReceiveInv(l.inbound) && Consumed(l.inbound) <= |l.inbound.log|
    ensures var b, i := l.inbound, Consumed(l.inbound);
      i < |b.log| ==> Near(b, i) && !SnLt(b.cmp, b.log[i].tsn, Expected(b.rx)) && b.log[i].tsn == Expected(b.rx)
  {
    hide ConsumeAll, BufferInv, Tsn, Conserved, Truthful, ClearLog, Clear;
    LiteralIsNeverLess(Expected(l.inbound.rx), Expected(l.inbound.rx));
  }

  lemma AllConsumed(l: Link)
    requires Core(l) && Consumed(l.inbound) == ClearLog(l.inbound.log)
    ensures l.inbound.rx.reassembly.emitted == l.msgs[..Clear(l.msgs)]
  {
    hide ConsumeAll, BufferInv, Tsn, Conserved, Truthful, ClearLog, Clear;
  }

  /** After a refused message nothing more ever comes out, whatever is sent and delivered from then on. */
  lemma StallsForGood(l: Link, events: seq<Event>)
    requires Inv(l) && Schedule(l, events) && Clear(l.msgs) < |l.msgs|
    ensures Run(l, events).inbound.rx.reassembly.emitted <= l.msgs[..Clear(l.msgs)]
  {
    hide Inv, Schedule, Next, Run, Carriable;
    RunKeepsInv(l, events);
    RunSends(l, events);
    InvIsCore(Run(l, events));
    PrefixOfMessages(Run(l, events));
    var all, c := Run(l, events).msgs, Clear(l.msgs);
    assert all[..|l.msgs|] == l.msgs && all[c] == l.msgs[c];
    assert Clear(all) == c by {
      assert forall i | 0 <= i < c :: all[i] == l.msgs[i];
    }
    assert all[..c] == l.msgs[..c];
  }

  /**
   * The smallest such run: an OPEN for stream 65536, which throws, and then a message for a stream in
   * use. The only chunk sent arrives and is accepted, and nothing is ever emitted.
   */
  lemma RefusedOpenStalls(l0: Link, open: Message, m: Message, tsn: u32)
    requires Initial(l0) && open.streamId == 65536 && Carriable(m) && |m.data| <= MAX_PAYLOAD
    requires tsn == ToUint32(l0.inbound.origin + 1)
    ensures var events := [SendMessage(open, false), SendMessage(m, false), DataArrives(1, [tsn])];
      var l := Run(l0, events);
      && Schedule(l0, events) && l.msgs == [open, m]
      && AllArrived(l) && 1 in l.inbound.accepted && l.inbound.rx.reassembly.emitted == []
  {
    hide Next, Enabled, Timely, Inv, RefinesAcceptedSet, Conserved, AllArrived, AllCarriable, Schedule, Run;
    var a, b, c := SendMessage(open, false), SendMessage(m, false), DataArrives(1, [tsn]);
    RunOfThree(l0, a, b, c);
    RefusedThenSent(l0, open, m, tsn);
    assert [open, m][1..] == [m];
    RefusedFirst(open, m);
    EndToEndDelivery(l0, [a, b, c]);
    ThreeMessages(a, b, c);
  }

  lemma RefusedFirst(open: Message, m: Message)
    requires !Carriable(open)
    ensures Clear([open, m]) == 0
  {}

  lemma ThreeMessages(a: Event, b: Event, c: Event)
    requires a.SendMessage? && b.SendMessage? && !c.SendMessage?
    ensures MessagesOf([a, b, c]) == [a.m, b.m]
  {
    assert [a, b, c][1..] == [b, c] && [b, c][1..] == [c] && [c][1..] == [];
    assert MessagesOf([c]) == [];
  }

  lemma RunOfThree(l: Link, a: Event, b: Event, c: Event)
    ensures Run(l, [a, b, c]) == Next(Next(Next(l, a), b), c)
    ensures Schedule(l, [a, b, c]) <==>
      && Enabled(l, a) && Timely(l, a) && Enabled(Next(l, a), b) && Timely(Next(l, a), b)
      && Enabled(Next(Next(l, a), b), c) && Timely(Next(Next(l, a), b), c)
  {
    hide Enabled, Timely, Next;
    assert [a, b, c][1..] == [b, c] && [b, c][1..] == [c] && [c][1..] == [];
    assert Run(Next(Next(l, a), b), [c]) == Next(Next(Next(l, a), b), c);
    assert Schedule(Next(Next(l, a), b), [c]) <==> Enabled(Next(Next(l, a), b), c) && Timely(Next(Next(l, a), b), c);
  }

  lemma RefusedThenSent(l0: Link, open: Message, m: Message, tsn: u32)
    requires Initial(l0) && open.streamId == 65536 && Carriable(m) && |m.data| <= MAX_PAYLOAD
    requires tsn == ToUint32(l0.inbound.origin + 1)
    ensures var l1 := Next(l0, SendMessage(open, false));
      var l2 := Next(l1, SendMessage(m, false));
      var e := DataArrives(1, [tsn]);
      && Enabled(l0, SendMessage(open, false)) && Timely(l0, SendMessage(open, false))
      && Enabled(l1, SendMessage(m, false)) && Timely(l1, SendMessage(m, false)) && Enabled(l2, e) && Timely(l2, e)
      && AllArrived(Next(l2, e)) && 1 in Next(l2, e).inbound.accepted
  {
    hide Deliver, SackFor, IsSorting, Enqueue, ToUint32;
    var l1 := Next(l0, SendMessage(open, false));
    var ds := MessagePieces(l1.tx, m, false);
    assert |ds| == 1 && ds[0].tsn == tsn by {
      NoOffset(l0.inbound.origin + 1);
    }
    var l2 := Next(l1, SendMessage(m, false));
    assert l2.inbound.log == l1.inbound.log + ds && |l1.inbound.log| == 1;
    OvertakingChunk(l2.inbound, tsn);
  }

  lemma NoOffset(x: int)
    ensures ToUint32(ToUint32(x) + 0) == ToUint32(x)
  {}

  lemma OvertakingChunk(l: Inbound, tsn: u32)
    requires |l.log| == 2 && l.log[1].tsn == tsn == ToUint32(l.origin + 1)
    requires l.rx == Receiver(ToUint32(l.origin - 1), map[], NOTHING, []) && l.accepted == {}
    ensures var l' := Received(l, 1);
      l'.accepted == {1} && l'.rx.outOfOrder.Keys == {tsn} && IsSorting(l.cmp, {tsn}, [tsn])
  {
    hide Drain, Accept, ToUint32, SnLt;
    FirstExpected(l.origin);
    OneAhead(l.cmp, l.origin, tsn);
    assert Deliver(l.cmp, l.rx, l.log[1]) == l.rx.(outOfOrder := map[tsn := l.log[1]]);
    assert Elements([tsn]) == {tsn};
  }

  lemma OneAhead(cmp: Comparison, origin: u32, tsn: u32)
    requires tsn == ToUint32(origin + 1)
    ensures tsn != origin && !SnLt(cmp, tsn, origin)
  {
    AheadOfSum(origin, 1);
    LiteralIsNeverLess(tsn, origin);
  }

  /**
   * The SACK a receiver builds in any reachable state: under the intended comparison it always fits its
   * encoding, and expanding it at the sender gives exactly the buffered TSNs in reach.
   */
  lemma SacksAreExact(l: Inbound, sorted: seq<u32>)
    requires ReceiveInv(l) && l.cmp == Intended && IsSorting(l.cmp, l.rx.outOfOrder.Keys, sorted)
    ensures var r := SackFor(l.rx.cumulative, sorted);
      && r.Some? && GapBlocks.Separated(Blocks(l.rx.cumulative, sorted))
      && forall tsn: u32 :: InBlocks(r.value, tsn) <==> GapBlocks.Reportable(l.rx.cumulative, l.rx.outOfOrder.Keys, tsn)
  {
    hide SackFor, InBlocks, Blocks, ReceiveInv, SnLt, Consistent, Ahead;
    var keys := l.rx.outOfOrder.Keys;
    BufferInWindow(l);
    GapBlocks.SortingAscends(l.rx.cumulative, keys, sorted);
    GapBlocks.SortedLength(l.cmp, keys, sorted);
    GapBlocks.BlocksExact(l.rx.cumulative, keys, sorted);
  }

  lemma BufferInWindow(l: Inbound)
    requires ReceiveInv(l) && l.cmp == Intended
    ensures |l.rx.outOfOrder| <= MAX_OOO_CHUNKS
    ensures forall k | k in l.rx.outOfOrder.Keys :: 0 < Ahead(Expected(l.rx), k) <= HALF
  {
    hide LogInv, CursorInv;
    forall k | k in l.rx.outOfOrder.Keys ensures 0 < Ahead(Expected(l.rx), k) <= HALF {
      assert IndexOf(l, k) in l.accepted;
      SumOfAhead(Expected(l.rx), k);
    }
  }

  /** Whether chunk `i` is the last to have its TSN. */
  predicate LatestOfItsTsn(l: Inbound, i: int) { 0 <= i < |l.log| <= i + MODULUS }

  /** Serial order as age: how far back a number lies decides, whatever else has the same TSN. */
  lemma AcknowledgedByAge(l: Inbound, i: int)
    requires LatestOfItsTsn(l, i)
    ensures SnLte(Intended, Tsn(l, i), Tsn(l, |l.log| - 1)) <==> |l.log| - 1 - i < HALF
  {
    hide ToUint32;
    var age := |l.log| - 1 - i;
    SumOfTsn(l, |l.log| - 1, -age);
    WrapDifference(l.origin + i, l.origin + |l.log| - 1);
    MinusAge(age);
    if age > 0 {
      TsnsDiffer(l, i, |l.log| - 1);
    }
  }

  lemma MinusAge(age: int)
    requires 0 <= age < MODULUS
    ensures ToUint32(-age) == if age == 0 then 0 else MODULUS - age
  {}

  /** A TSN in the log is the TSN of its latest bearer. */
  lemma LatestBearer(l: Inbound, tsn: u32) returns (i: int)
    requires LogInv(l) && Logged(l.log, tsn)
    ensures LatestOfItsTsn(l, i) && Tsn(l, i) == tsn
  {
    hide ToUint32;
    var j :| 0 <= j < |l.log| && l.log[j].tsn == tsn;
    var laps := (|l.log| - 1 - j) / MODULUS;
    i := j + MODULUS * laps;
    SameTsnLapsLater(l, j, laps);
  }

  lemma SameTsnLapsLater(l: Inbound, j: int, laps: int)
    ensures Tsn(l, j + MODULUS * laps) == Tsn(l, j)
  {
    AddMultiple(l.origin + j, laps);
  }

  ghost predicate YoungQueue(l: Link) {
    forall i | LatestOfItsTsn(l.inbound, i) && Tsn(l.inbound, i) in l.tx.sentQueue :: |l.inbound.log| - 1 - i < HALF
  }

  /**
   * After any run, a SACK for everything sent leaves nothing queued if and only if no queued chunk is
   * 2^31 chunks old.
   */
  lemma FullSackEmptiesQueue(l0: Link, events: seq<Event>, sack: Sack)
    requires Initial(l0) && Schedule(l0, events) && l0.inbound.cmp == Intended
    requires sack.gapBlocks == []
    requires sack.cumulativeTSNAck == Tsn(Run(l0, events).inbound, |Run(l0, events).inbound.log| - 1)
    ensures var l := Run(l0, events); HandleSack(Intended, l.tx.sentQueue, sack) == map[] <==> YoungQueue(l)
  {
    hide Initial, Schedule, Run, SentInv, CursorInv, BufferInv, Conserved, Truthful, Tsn, SnLte, LogInv, Logged;
    InitialInv(l0);
    RunKeepsInv(l0, events);
    var l := Run(l0, events);
    var left := HandleSack(Intended, l.tx.sentQueue, sack);
    if YoungQueue(l) {
      forall tsn | tsn in l.tx.sentQueue ensures Acknowledged(Intended, sack, tsn) {
        var i := LatestBearer(l.inbound, tsn);
        AcknowledgedByAge(l.inbound, i);
      }
    }
    if left == map[] {
      forall i | LatestOfItsTsn(l.inbound, i) && Tsn(l.inbound, i) in l.tx.sentQueue
          ensures |l.inbound.log| - 1 - i < HALF {
        assert Tsn(l.inbound, i) !in left;
        AcknowledgedByAge(l.inbound, i);
      }
    }
  }
}
