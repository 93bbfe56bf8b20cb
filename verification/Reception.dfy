/**
 * One direction of an association whose ends may close and whose receiver may fail: the steps of both ends,
 * and what they keep (src/sctp/association.ts:343-497 and 511-552; src/transport-stack.ts:100-118).
 */
module Reception {
  import opened Bytes
  import opened Serial
  import opened Association
  import Chunks
  import opened Delivery
  import opened EndToEnd
  import opened Interruption

  /**
   * The receiving end's DTLS connection: what its association throws fails it, and a failed connection hands on
   * nothing more. `left`: the next chunk was in the gap buffer when the listener threw.
   */
  datatype Health = Well | AnswerFailed(left: bool) | SackFailed

  /** `torn`: the positions of the messages that were half in when the receiving end closed (history). */
  datatype Side = Side(link: Link, torn: set<nat>, health: Health)

  ghost predicate Fresh(s: Side) { EndToEnd.Initial(s.link) && s.torn == {} && s.health == Well }

  // ---- Steps ----

  function Sends(s: Side, m: Message, unordered: bool): Side {
    s.(link := EndToEnd.Next(s.link, SendMessage(m, unordered)))
  }

  function Hears(s: Side, i: nat, throws: Listener): Outcome
    requires i < |s.link.inbound.log|
  {
    DeliverHeard(s.link.inbound.cmp, s.link.inbound.rx, s.link.inbound.log[i], throws)
  }

  ghost predicate CanArrive(s: Side, i: nat, sorted: seq<u32>, throws: Listener) {
    && i < |s.link.inbound.log| && Sendable(s.link.inbound.log[i])
    && (s.health == Well ==>
          && Near(s.link.inbound, i)
          && var o := Hears(s, i, throws);
             !o.threw ==> IsSorting(s.link.inbound.cmp, o.rx.outOfOrder.Keys, sorted))
  }

  /** A chunk arrives; every one that is handled without a throw is answered by a SACK, if that can be written. */
  function Arrives(s: Side, i: nat, sorted: seq<u32>, throws: Listener): Side
    requires i < |s.link.inbound.log|
  {
    if s.health != Well then s
    else
      var o, inbound := Hears(s, i, throws), HeardIn(s.link.inbound, i, throws);
      if o.threw then
        s.(link := s.link.(inbound := inbound), health := AnswerFailed(Expected(o.rx) in o.rx.outOfOrder))
      else
        match SackFor(inbound.rx.cumulative, sorted)
        case None => s.(link := s.link.(inbound := inbound), health := SackFailed)
        case Some(sack) =>
          s.(link := s.link.(inbound := inbound, sacks := s.link.sacks + {Stamped(sack, Consumed(inbound))}))
  }

  /** `well`: whether the sending end still takes packets. */
  function Acknowledges(s: Side, p: Stamped, well: bool): Side {
    if well then s.(link := EndToEnd.Next(s.link, SackArrives(p))) else s
  }

  /** The receiving end closes: what is buffered has to arrive again. */
  function ReceiverCloses(s: Side): Side {
    var b := s.link.inbound;
    s.(link := s.link.(inbound := b.(rx := Released(b.rx), accepted := set j | j in b.accepted && j < Consumed(b))),
       torn := s.torn + TornBy(b.rx))
  }

  function SenderCloses(s: Side): Side { s.(link := s.link.(tx := s.link.tx.(sentQueue := map[]))) }

  // ---- Invariants ----

  ghost predicate Sound(s: Side) {
    && Core(WholeLink(s.link)) && Contiguous(s.link.inbound.log)
    && Matches(s.link.inbound.rx.reassembly, Whole(s.link.inbound.rx).reassembly, s.torn)
    && (s.health.AnswerFailed? ==> Emitted(s.link) != [])
    && if s.health == AnswerFailed(true) then Consumed(s.link.inbound) < ClearLog(s.link.inbound.log)
       else Resting(s.link.inbound)
  }

  lemma FreshIsSound(s: Side)
    requires Fresh(s)
    ensures Sound(s) && QueueInv(s.link)
  {
    hide Core, QueueInv, Contiguous;
    EndToEnd.InitialInv(s.link);
    NothingConsumed();
    assert WholeLink(s.link) == s.link;
    NothingLogged(s.link.inbound.log);
  }

  lemma NothingLogged(log: seq<Chunks.Data>)
    requires log == []
    ensures Contiguous(log)
  {}

  lemma SendsKeeps(s: Side, m: Message, unordered: bool)
    requires Sound(s) && EndToEnd.Timely(s.link, SendMessage(m, unordered))
    ensures Sound(Sends(s, m, unordered))
    ensures QueueInv(s.link) ==> QueueInv(Sends(s, m, unordered).link)
  {
    hide Core, QueueInv, Contiguous, ConsumeAll, Matches, Send, MessagePieces, Resting;
    var s', w := Sends(s, m, unordered), WholeLink(s.link);
    SameRange(s.link, m, unordered);
    SendKeepsCore(w, m, unordered);
    assert WholeLink(s'.link) == EndToEnd.Next(w, SendMessage(m, unordered));
    CoreSends(w);
    SendContiguous(w, m, unordered);
    if Resting(s.link.inbound) {
      RestingIsReceiver(s.link.inbound, s'.link.inbound);
    }
    ClearLogGrows(s.link.inbound.log, MessagePieces(s.link.tx, m, unordered));
    QueueIgnoresWhole(s.link);
    QueueIgnoresWhole(s'.link);
    if QueueInv(s.link) {
      SendKeepsQueue(w, m, unordered);
    }
  }

  lemma SameRange(l: Link, m: Message, unordered: bool)
    ensures EndToEnd.Timely(WholeLink(l), SendMessage(m, unordered)) <==> EndToEnd.Timely(l, SendMessage(m, unordered))
  {
    hide MessagePieces;
  }

  lemma CoreSends(l: Link)
    requires Core(l)
    ensures SentInv(l)
  {}

  lemma ClearLogGrows(log: seq<Chunks.Data>, ds: seq<Chunks.Data>)
    ensures ClearLog(log + ds) >= ClearLog(log)
  {
    hide ClearLog, Sendable;
    assert forall i | 0 <= i < |log| :: (log + ds)[i] == log[i];
  }

  /** The queue's promises do not mention fragments. */
  lemma QueueIgnoresWhole(l: Link)
    ensures QueueInv(WholeLink(l)) <==> QueueInv(l)
  {
    hide Conserved, Genuine, Truthful;
    ConservedIgnoresWhole(l);
    forall p ensures Truthful(AsWhole(l.inbound), p) <==> Truthful(l.inbound, p) {
      TruthfulIgnoresWhole(l.inbound, p);
    }
  }

  lemma ConservedIgnoresWhole(l: Link)
    ensures Conserved(WholeLink(l)) <==> Conserved(l)
    ensures Genuine(WholeLink(l)) <==> Genuine(l)
  {
    hide Queued, Sendable, Tsn;
    assert forall i: int :: Tsn(AsWhole(l.inbound), i) == Tsn(l.inbound, i) by {
      SameTsns(l.inbound);
    }
  }

  lemma SameTsns(l: Inbound)
    ensures forall i: int :: Tsn(AsWhole(l), i) == Tsn(l, i)
  {}

  lemma TruthfulIgnoresWhole(l: Inbound, p: Stamped)
    ensures Truthful(AsWhole(l), p) <==> Truthful(l, p)
  {
    hide InBlocks, Ahead, Tsn;
    SameTsns(l);
    assert forall tsn: u32 :: BlockIndex(AsWhole(l), p, tsn) == BlockIndex(l, p, tsn);
  }

  /** The link after the chunk, before its SACK. */
  function Taken(s: Side, i: nat, throws: Listener): Link
    requires i < |s.link.inbound.log|
  {
    s.link.(inbound := HeardIn(s.link.inbound, i, throws))
  }

  lemma TakenKeeps(s: Side, i: nat, sorted: seq<u32>, throws: Listener)
    requires Sound(s) && CanArrive(s, i, sorted, throws) && s.health == Well
    ensures var l := Taken(s, i, throws);
      && Core(WholeLink(l)) && Matches(l.inbound.rx.reassembly, Whole(l.inbound.rx).reassembly, s.torn)
  {
    hide Core, Contiguous, ConsumeAll, Matches, DeliverHeard, Resting, SackFor, IsSorting, Near, Sendable;
    var b := HeardIn(s.link.inbound, i, throws);
    RestingEither(s.link.inbound);
    CoreReceives(WholeLink(s.link));
    HeardKeeps(s.link.inbound, i, throws);
    ArrivalCore(s.link, i, throws);
    ConsumedIsClear(WholeLink(Taken(s, i, throws)));
    ArrivalMatches(s.link.inbound, i, throws, s.torn);
  }

  /** What is left in the buffer. */
  lemma TakenRests(s: Side, i: nat, sorted: seq<u32>, throws: Listener)
    requires Sound(s) && CanArrive(s, i, sorted, throws) && s.health == Well
    ensures var b := HeardIn(s.link.inbound, i, throws);
      if Hears(s, i, throws).threw && Expected(b.rx) in b.rx.outOfOrder then Consumed(b) < ClearLog(b.log)
      else Resting(b)
  {
    hide Core, Contiguous, ConsumeAll, Matches, DeliverHeard, SackFor, IsSorting, Near, Sendable;
    var b := HeardIn(s.link.inbound, i, throws);
    RestingEither(s.link.inbound);
    CoreReceives(WholeLink(s.link));
    HeardKeeps(s.link.inbound, i, throws);
    if Expected(b.rx) in b.rx.outOfOrder {
      TakenKeeps(s, i, sorted, throws);
      LeftMeansUnfinished(Taken(s, i, throws));
    }
  }

  lemma ArrivesKeeps(s: Side, i: nat, sorted: seq<u32>, throws: Listener)
    requires Sound(s) && CanArrive(s, i, sorted, throws)
    ensures Sound(Arrives(s, i, sorted, throws))
    ensures QueueInv(s.link) ==> QueueInv(Arrives(s, i, sorted, throws).link)
  {
    hide Core, QueueInv, Contiguous, ConsumeAll, Matches, DeliverHeard, CanArrive, SackFor, Resting;
    if s.health == Well {
      ArrivalInLog(s, i, sorted, throws);
      DeliverHears(s.link.inbound.cmp, s.link.inbound.rx, s.link.inbound.log[i], throws);
      TakenKeeps(s, i, sorted, throws);
      TakenRests(s, i, sorted, throws);
      var s' := Arrives(s, i, sorted, throws);
      CoreIgnoresSacks(WholeLink(Taken(s, i, throws)), s'.link.sacks);
      assert WholeLink(s'.link) == WholeLink(Taken(s, i, throws)).(sacks := s'.link.sacks);
      if QueueInv(s.link) {
        ArrivesKeepsQueue(s, i, sorted, throws);
      }
    }
  }

  lemma ArrivalInLog(s: Side, i: nat, sorted: seq<u32>, throws: Listener)
    requires CanArrive(s, i, sorted, throws)
    ensures i < |s.link.inbound.log|
  {}

  lemma ArrivesKeepsQueue(s: Side, i: nat, sorted: seq<u32>, throws: Listener)
    requires Sound(s) && CanArrive(s, i, sorted, throws) && s.health == Well && QueueInv(s.link)
    ensures QueueInv(Arrives(s, i, sorted, throws).link)
  {
    hide Core, QueueInv, Contiguous, ConsumeAll, Matches, DeliverHeard, Resting, SackFor, IsSorting, Near, Sendable,
         Truthful;
    var l, b, s' := s.link, HeardIn(s.link.inbound, i, throws), Arrives(s, i, sorted, throws);
    RestingEither(l.inbound);
    CoreReceives(WholeLink(l));
    HeardKeeps(l.inbound, i, throws);
    if s'.health == Well {
      RestingEither(b);
      NewSackTruthful(AsWhole(b), sorted);
      TruthfulIgnoresWhole(b, Stamped(SackFor(b.rx.cumulative, sorted).value, Consumed(b)));
    }
    TakingKeepsQueue(l, b, s'.link.sacks);
  }

  lemma ArrivalCore(l: Link, i: nat, throws: Listener)
    requires Core(WholeLink(l)) && i < |l.inbound.log| && Sendable(l.inbound.log[i])
    requires Tracking(AsWhole(HeardIn(l.inbound, i, throws)))
    requires HeardIn(l.inbound, i, throws).accepted <= l.inbound.accepted + {i}
    ensures Core(WholeLink(l.(inbound := HeardIn(l.inbound, i, throws))))
  {
    hide Tracking, DeliverHeard, ConsumeAll, ClearLog, Clear, Sendable;
    SameTsns(l.inbound);
  }

  lemma LeftMeansUnfinished(l: Link)
    requires Core(WholeLink(l)) && Expected(l.inbound.rx) in l.inbound.rx.outOfOrder
    ensures Consumed(l.inbound) < ClearLog(l.inbound.log)
  {
    hide ConsumeAll, Sendable;
    var b, n := AsWhole(l.inbound), Consumed(l.inbound);
    ConsumedIsClear(WholeLink(l));
    assert Tsn(b, n) == Expected(b.rx);
    IndexOfTsn(b, n);
    BufferedIsAccepted(b, Expected(b.rx));
  }

  lemma AcknowledgesKeeps(s: Side, p: Stamped, well: bool)
    requires Sound(s) && (well ==> p in s.link.sacks && EndToEnd.Timely(s.link, SackArrives(p)))
    ensures Sound(Acknowledges(s, p, well))
    ensures QueueInv(s.link) ==> QueueInv(Acknowledges(s, p, well).link)
  {
    hide Core, QueueInv, Contiguous, ConsumeAll, Matches, HandleSack, Resting;
    if well {
      var queue := HandleSack(s.link.inbound.cmp, s.link.tx.sentQueue, p.sack);
      QueueCleared(s, queue);
      if QueueInv(s.link) {
        QueueIgnoresWhole(s.link);
        SackKeepsQueue(WholeLink(s.link), p);
        QueueIgnoresWhole(EndToEnd.Next(s.link, SackArrives(p)));
      }
    }
  }

  lemma QueueCleared(s: Side, queue: map<u32, Buffer>)
    requires Sound(s)
    ensures Sound(s.(link := s.link.(tx := s.link.tx.(sentQueue := queue))))
  {
    hide Core, Contiguous, ConsumeAll, Matches, Resting;
    CoreIgnoresQueue(WholeLink(s.link), queue);
    assert WholeLink(s.link.(tx := s.link.tx.(sentQueue := queue)))
        == WholeLink(s.link).(tx := s.link.tx.(sentQueue := queue));
  }

  lemma ReceiverClosesKeeps(s: Side)
    requires Sound(s)
    ensures Sound(ReceiverCloses(s))
  {
    hide Contiguous, ConsumeAll, Matches, SentInv, LogInv, ClearLog, Sendable;
    ReleaseMatches(s.link.inbound.rx, s.torn);
    ReleasedTracks(s.link.inbound);
    var s' := ReceiverCloses(s);
    assert SentInv(WholeLink(s'.link)) by {
      SentIgnoresReceiver(WholeLink(s.link), WholeLink(s'.link));
    }
  }

  lemma SentIgnoresReceiver(l: Link, l': Link)
    requires SentInv(l) && l'.tx.localTSN == l.tx.localTSN && l'.msgs == l.msgs
    requires l'.inbound.log == l.inbound.log && l'.inbound.origin == l.inbound.origin
    ensures SentInv(l')
  {
    hide ConsumeAll, ClearLog, Clear;
  }

  lemma ReleasedTracks(b: Inbound)
    requires Tracking(AsWhole(b))
    ensures var b' := b.(rx := Released(b.rx), accepted := set j | j in b.accepted && j < Consumed(b));
      Tracking(AsWhole(b')) && Resting(b') && Consumed(b') == Consumed(b)
  {
    hide ConsumeAll;
    var b' := b.(rx := Released(b.rx), accepted := set j | j in b.accepted && j < Consumed(b));
    var w, w' := AsWhole(b), AsWhole(b');
    assert forall i: int :: Tsn(w', i) == Tsn(w, i);
    assert LogInv(w') && CursorInv(w');
    assert BufferInv(w') by {
      assert w'.rx.outOfOrder == map[];
      forall j: nat | j < Consumed(w') ensures j in w'.accepted {
        assert j in w.accepted;
      }
    }
  }

  // ---- What a direction promises ----

  /**
   * What comes out is what is complete but for the messages torn by a close. It is all that is complete exactly
   * if no torn message has been completed since; and once every chunk sent has been taken in, it is everything
   * before the first refused message exactly if, besides, no listener threw with the next chunk in the buffer.
   */
  ghost predicate Delivered(s: Side) {
    var l, finished := s.link, Finished(s.link.inbound.rx);
    && finished <= l.msgs[..Clear(l.msgs)] && Emitted(l) == Without(finished, s.torn)
    && (Emitted(l) == finished <==> NothingTorn(l, s.torn))
    && (AllArrived(l) ==>
          (Emitted(l) == l.msgs[..Clear(l.msgs)] <==> NothingTorn(l, s.torn) && s.health != AnswerFailed(true)))
  }

  lemma SoundDelivers(s: Side)
    requires Sound(s)
    ensures Delivered(s)
  {
    hide ConsumeAll, Contiguous, Core, AllArrived, Matches, Without, Clear, ClearLog, NothingTorn;
    LinkDelivers(s.link, s.torn);
    if AllArrived(s.link) {
      AllArrivedWhole(s.link);
      AllTakenIff(s.link);
    }
  }

  lemma AllArrivedWhole(l: Link)
    ensures AllArrived(l) <==> AllArrived(WholeLink(l))
  {}
}
