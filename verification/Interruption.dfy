/**
 * What cuts reception short (src/sctp/association.ts:390-444 and 511-552): a 'message' listener that throws, which
 * leaves the drain loop after the cursor has moved, and a closing association, which drops its buffers although
 * later DATA is still handled.
 */
module Interruption {
  import opened Bytes
  import opened Serial
  import opened Chunks
  import opened Association
  import opened Delivery
  import Fragmentation
  import EndToEnd

  // ---- A listener that throws ----

  /** A listener that does not throw makes no difference. */
  lemma {:induction false} DrainUndisturbed(rx: Receiver, throws: Listener)
    ensures !DrainHeard(rx, throws).threw ==> DrainHeard(rx, throws).rx == Drain(rx)
    decreases |rx.outOfOrder|
  {
    hide Consume;
    var next := Expected(rx);
    if next in rx.outOfOrder {
      Shrinks(rx.outOfOrder, next);
      DrainUndisturbed(Accept(rx.(outOfOrder := rx.outOfOrder - {next}), next, rx.outOfOrder[next]), throws);
    }
  }

  lemma DeliverUndisturbed(cmp: Comparison, rx: Receiver, d: Data, throws: Listener)
    ensures var o := DeliverHeard(cmp, rx, d, throws); !o.threw ==> o.rx == Deliver(cmp, rx, d)
  {
    hide Drain, DrainHeard, SnLt, Consume;
    DrainUndisturbed(Accept(rx, d.tsn, d), throws);
  }

  /** Only the last message to come out can be one at which the listener throws. */
  predicate HeardAllBut(before: seq<Message>, o: Outcome, throws: Listener) {
    var after := o.rx.reassembly.emitted;
    && before <= after
    && (o.threw ==> |after| > |before| && throws(after[|after| - 1]))
    && forall k | |before| <= k < |after| - (if o.threw then 1 else 0) :: !throws(after[k])
  }

  lemma AcceptHears(rx: Receiver, tsn: u32, d: Data, throws: Listener)
    ensures HeardAllBut(rx.reassembly.emitted, AcceptHeard(rx, tsn, d, throws), throws)
  {}

  lemma HearsOn(before: seq<Message>, o: Outcome, o': Outcome, throws: Listener)
    requires HeardAllBut(before, o, throws) && !o.threw && HeardAllBut(o.rx.reassembly.emitted, o', throws)
    ensures HeardAllBut(before, o', throws)
  {}

  lemma {:induction false} DrainHears(rx: Receiver, throws: Listener)
    ensures HeardAllBut(rx.reassembly.emitted, DrainHeard(rx, throws), throws)
    decreases |rx.outOfOrder|
  {
    hide HeardAllBut, AcceptHeard;
    var next := Expected(rx);
    if next in rx.outOfOrder {
      Shrinks(rx.outOfOrder, next);
      var rest := rx.(outOfOrder := rx.outOfOrder - {next});
      var o := AcceptHeard(rest, next, rx.outOfOrder[next], throws);
      AcceptHears(rest, next, rx.outOfOrder[next], throws);
      if !o.threw {
        AcceptHeardShrinks(rest, next, rx.outOfOrder[next], throws);
        DrainHears(o.rx, throws);
        HearsOn(rx.reassembly.emitted, o, DrainHeard(o.rx, throws), throws);
      }
    } else {
      NothingHeard(rx, throws);
    }
  }

  lemma AcceptHeardShrinks(rx: Receiver, tsn: u32, d: Data, throws: Listener)
    ensures AcceptHeard(rx, tsn, d, throws).rx.outOfOrder == rx.outOfOrder
  {}

  lemma NothingHeard(rx: Receiver, throws: Listener)
    ensures HeardAllBut(rx.reassembly.emitted, Outcome(rx, false), throws)
  {}

  lemma DeliverHears(cmp: Comparison, rx: Receiver, d: Data, throws: Listener)
    ensures HeardAllBut(rx.reassembly.emitted, DeliverHeard(cmp, rx, d, throws), throws)
  {
    hide AcceptHeard, DrainHeard, SnLt, Drain;
    var o := AcceptHeard(rx, d.tsn, d, throws);
    AcceptHears(rx, d.tsn, d, throws);
    DrainHears(o.rx, throws);
    if !o.threw {
      HearsOn(rx.reassembly.emitted, o, DrainHeard(o.rx, throws), throws);
    }
  }

  /** With the next chunk left in the buffer, only another copy of it moves the cursor or completes anything. */
  lemma OnlyNextMoves(cmp: Comparison, rx: Receiver, d: Data, throws: Listener)
    requires d.tsn != Expected(rx)
    ensures var rx' := DeliverHeard(cmp, rx, d, throws).rx;
      rx'.cumulative == rx.cumulative && rx'.reassembly == rx.reassembly && rx'.consumed == rx.consumed
  {}

  // ---- Closing ----

  /** `#releaseBuffers` on the receiving side. */
  function Released(rx: Receiver): Receiver {
    rx.(outOfOrder := map[], reassembly := rx.reassembly.(fragments := map[]))
  }

  /** The receiver that had consumed the same chunks and never dropped a fragment. */
  function Whole(rx: Receiver): Receiver { rx.(reassembly := ConsumeAll(NOTHING, rx.consumed)) }

  /** The messages complete so far, whether all of them came out or not. */
  function Finished(rx: Receiver): seq<Message> { Whole(rx).reassembly.emitted }

  /** A message has begun to arrive and is not complete. */
  predicate HalfIn(rx: Receiver) { Whole(rx).reassembly.fragments != map[] }

  /** `torn`: the positions of the messages that were half in when the end closed. */
  function TornBy(rx: Receiver): set<nat> { if HalfIn(rx) then {|Finished(rx)|} else {} }

  function Without(msgs: seq<Message>, torn: set<nat>): seq<Message> {
    if msgs == [] then []
    else
      var n := |msgs| - 1;
      Without(msgs[..n], torn) + if n in torn then [] else [msgs[n]]
  }

  /** What came out is what is complete, but for the torn messages. */
  predicate Matches(r: Reassembly, whole: Reassembly, torn: set<nat>) {
    && r.emitted == Without(whole.emitted, torn)
    && (forall t | t in torn :: t <= |whole.emitted|)
    && if |whole.emitted| in torn then r.fragments == map[] && whole.fragments != map[]
       else r.fragments == whole.fragments
  }

  /** A chunk that begins a message finds none under way, and one that continues a message finds that one. */
  predicate Fits(whole: Reassembly, d: Data) {
    if d.beginning then whole.fragments == map[] else whole.fragments.Keys == {KeyOf(d)}
  }

  lemma WithoutPush(msgs: seq<Message>, m: Message, torn: set<nat>)
    ensures Without(msgs + [m], torn) == Without(msgs, torn) + if |msgs| in torn then [] else [m]
  {
    assert (msgs + [m])[..|msgs|] == msgs;
  }

  lemma ConsumeMatches(r: Reassembly, whole: Reassembly, torn: set<nat>, d: Data)
    requires Matches(r, whole, torn) && Fits(whole, d)
    ensures Matches(Consume(r, d), Consume(whole, d), torn)
  {
    hide Without;
    var whole' := Consume(whole, d);
    if |whole'.emitted| > |whole.emitted| {
      WithoutPush(whole.emitted, whole'.emitted[|whole.emitted|], torn);
    }
  }

  /** The whole log fits: messages are cut into pieces one after the other. */
  ghost predicate Contiguous(log: seq<Data>) {
    forall n: nat | n < EndToEnd.ClearLog(log) :: Fits(ConsumeAll(NOTHING, log[..n]), log[n])
  }

  lemma ConsumeNone(r: Reassembly)
    ensures ConsumeAll(r, []) == r
  {}

  lemma ConsumePush(r: Reassembly, ds: seq<Data>, d: Data)
    ensures ConsumeAll(r, ds + [d]) == Consume(ConsumeAll(r, ds), d)
  {
    hide Consume;
    assert (ds + [d])[..|ds|] == ds;
  }

  lemma {:induction false} ConsumeAllMatches(log: seq<Data>, n: nat, r: Reassembly, torn: set<nat>, m: nat)
    requires Contiguous(log) && n <= m <= EndToEnd.ClearLog(log)
    requires Matches(r, ConsumeAll(NOTHING, log[..n]), torn)
    ensures Matches(ConsumeAll(r, log[n..m]), ConsumeAll(NOTHING, log[..m]), torn)
    decreases m
  {
    hide Matches, Fits, Consume, ConsumeAll;
    if m == n {
      assert log[n..m] == [];
      ConsumeNone(r);
    } else {
      ConsumeAllMatches(log, n, r, torn, m - 1);
      assert log[n..m] == log[n..m - 1] + [log[m - 1]] && log[..m] == log[..m - 1] + [log[m - 1]];
      ConsumePush(r, log[n..m - 1], log[m - 1]);
      ConsumePush(NOTHING, log[..m - 1], log[m - 1]);
      ConsumeMatches(ConsumeAll(r, log[n..m - 1]), ConsumeAll(NOTHING, log[..m - 1]), torn, log[m - 1]);
    }
  }

  lemma ReleaseMatches(rx: Receiver, torn: set<nat>)
    requires Matches(rx.reassembly, Whole(rx).reassembly, torn)
    ensures Whole(Released(rx)).reassembly == Whole(rx).reassembly
    ensures Matches(Released(rx).reassembly, Whole(rx).reassembly, torn + TornBy(rx))
  {
    hide Without;
    WithoutMore(Finished(rx), torn, TornBy(rx));
  }

  lemma {:induction false} WithoutMore(msgs: seq<Message>, torn: set<nat>, more: set<nat>)
    requires forall t | t in more :: t >= |msgs|
    ensures Without(msgs, torn + more) == Without(msgs, torn)
  {
    if msgs != [] {
      WithoutMore(msgs[..|msgs| - 1], torn, more);
    }
  }

  /** What came out is all that is complete exactly if no torn message has been completed since. */
  lemma {:induction false} NothingMissingIff(msgs: seq<Message>, torn: set<nat>)
    ensures |Without(msgs, torn)| <= |msgs|
    ensures Without(msgs, torn) == msgs <==> forall t | t in torn :: t >= |msgs|
  {
    if msgs != [] {
      var n := |msgs| - 1;
      NothingMissingIff(msgs[..n], torn);
      if n !in torn && Without(msgs[..n], torn) == msgs[..n] {
        assert msgs == msgs[..n] + [msgs[n]];
      }
    }
  }

  // ---- Arrivals ----

  /** The inbound side as it would be had no fragment been dropped. */
  function AsWhole(l: Inbound): Inbound { l.(rx := Whole(l.rx)) }

  /** A copy of chunk `i` arrives. */
  function HeardIn(l: Inbound, i: nat, throws: Listener): Inbound
    requires i < |l.log|
  {
    var rx := DeliverHeard(l.cmp, l.rx, l.log[i], throws).rx;
    l.(rx := rx, accepted := l.accepted + if i < |rx.consumed| || l.log[i].tsn in rx.outOfOrder then {i} else {})
  }

  lemma WholeAccept(rx: Receiver, tsn: u32, d: Data)
    ensures Whole(Accept(rx, tsn, d)) == Accept(Whole(rx), tsn, d)
  {
    hide Consume;
    assert (rx.consumed + [d])[..|rx.consumed|] == rx.consumed;
  }

  lemma {:induction false} WholeDrain(rx: Receiver)
    ensures Whole(Drain(rx)) == Drain(Whole(rx))
    decreases |rx.outOfOrder|
  {
    hide ConsumeAll, Consume, Accept;
    var next := Expected(rx);
    if next in rx.outOfOrder {
      Shrinks(rx.outOfOrder, next);
      var rest := rx.(outOfOrder := rx.outOfOrder - {next});
      WholeAccept(rest, next, rx.outOfOrder[next]);
      AcceptShrinks(rest, next, rx.outOfOrder[next]);
      WholeDrain(Accept(rest, next, rx.outOfOrder[next]));
    }
  }

  lemma AcceptShrinks(rx: Receiver, tsn: u32, d: Data)
    ensures Accept(rx, tsn, d).outOfOrder == rx.outOfOrder && Accept(rx, tsn, d).consumed == rx.consumed + [d]
  {}

  lemma WholeDeliver(cmp: Comparison, rx: Receiver, d: Data)
    ensures Whole(Deliver(cmp, rx, d)) == Deliver(cmp, Whole(rx), d)
  {
    hide ConsumeAll, Accept, Drain, SnLt;
    WholeAccept(rx, d.tsn, d);
    WholeDrain(Accept(rx, d.tsn, d));
  }

  /** However early the loop is left, the cursor and the buffer agree with what was taken in. */
  lemma {:induction false} DrainHeardKeeps(l: Inbound, throws: Listener)
    requires Tracking(AsWhole(l))
    ensures var l' := l.(rx := DrainHeard(l.rx, throws).rx);
      && Tracking(AsWhole(l')) && Consumed(l') >= Consumed(l)
      && |l'.rx.outOfOrder| <= |l.rx.outOfOrder|
    decreases |l.rx.outOfOrder|
  {
    hide ConsumeAll, Consume, LogInv, CursorInv, BufferInv;
    var next := Expected(l.rx);
    if next in l.rx.outOfOrder {
      Shrinks(l.rx.outOfOrder, next);
      DrainOnceKeeps(AsWhole(l));
      var rest := l.rx.(outOfOrder := l.rx.outOfOrder - {next});
      WholeAccept(rest, next, l.rx.outOfOrder[next]);
      var l1 := l.(rx := Accept(rest, next, l.rx.outOfOrder[next]));
      assert AsWhole(l1) == DrainOnce(AsWhole(l));
      DrainHeardKeeps(l1, throws);
    }
  }

  lemma HeardKeeps(l: Inbound, i: nat, throws: Listener)
    requires ReceiveInv(AsWhole(l)) && i < |l.log| && Near(l, i)
    ensures var l' := HeardIn(l, i, throws);
      && Tracking(AsWhole(l')) && Consumed(l') >= Consumed(l) && l.accepted <= l'.accepted <= l.accepted + {i}
      && (!DeliverHeard(l.cmp, l.rx, l.log[i], throws).threw ==> Resting(l'))
      && |l'.rx.outOfOrder| <= MAX_OOO_CHUNKS
  {
    hide Tracking, Resting, DeliverHeard, Deliver, ConsumeAll, Near;
    var o, l' := DeliverHeard(l.cmp, l.rx, l.log[i], throws), HeardIn(l, i, throws);
    DeliverUndisturbed(l.cmp, l.rx, l.log[i], throws);
    if o.threw {
      CutShortKeeps(l, i, throws);
    } else {
      WholeDeliver(l.cmp, l.rx, l.log[i]);
      NearEither(l, i);
      DataArrivalKeeps(AsWhole(l), i);
      assert AsWhole(l') == Received(AsWhole(l), i);
      RestingEither(l');
    }
  }

  lemma NearEither(l: Inbound, i: nat)
    ensures Near(AsWhole(l), i) <==> Near(l, i)
  {}

  lemma RestingEither(l: Inbound)
    ensures Resting(AsWhole(l)) <==> Resting(l)
    ensures Resting(l) ==> |l.rx.outOfOrder| <= MAX_OOO_CHUNKS
  {}

  lemma CutShortKeeps(l: Inbound, i: nat, throws: Listener)
    requires ReceiveInv(AsWhole(l)) && i < |l.log| && Near(l, i) && DeliverHeard(l.cmp, l.rx, l.log[i], throws).threw
    ensures var l' := HeardIn(l, i, throws);
      && Tracking(AsWhole(l')) && Consumed(l') >= Consumed(l) && l'.accepted == l.accepted + {i}
      && |l'.rx.outOfOrder| <= MAX_OOO_CHUNKS
  {
    hide ConsumeAll, Consume, CursorInv, BufferInv, SnLt, DrainHeard, Resting, Near;
    RestingEither(l);
    ThrowsInOrder(l, i);
    var n := Consumed(l);
    var mid := l.(rx := Accept(l.rx, Expected(l.rx), l.log[i]), accepted := l.accepted + {i});
    WholeAccept(l.rx, Expected(l.rx), l.log[i]);
    InOrderAccepted(AsWhole(l), AsWhole(mid));
    DrainHeardKeeps(mid, throws);
    assert HeardIn(l, i, throws).rx == mid.rx || HeardIn(l, i, throws).rx == DrainHeard(mid.rx, throws).rx;
  }

  lemma ThrowsInOrder(l: Inbound, i: nat)
    requires ReceiveInv(AsWhole(l)) && i < |l.log| && Near(l, i)
    ensures l.log[i].tsn == Expected(l.rx) && !SnLt(l.cmp, l.log[i].tsn, Expected(l.rx)) ==> i == Consumed(l)
    ensures i == Consumed(l) ==> l.log[i].tsn == Expected(l.rx)
  {
    hide ConsumeAll, BufferInv;
    if l.log[i].tsn == Expected(l.rx) && !SnLt(l.cmp, l.log[i].tsn, Expected(l.rx)) {
      InOrderArrives(AsWhole(l), i);
    }
  }

  // ---- What an arrival consumes ----

  /** One receiver comes from another by consuming chunks. */
  predicate Follows(rx: Receiver, rx': Receiver) {
    && rx.consumed <= rx'.consumed
    && rx'.reassembly == ConsumeAll(rx.reassembly, rx'.consumed[|rx.consumed|..])
  }

  lemma FollowsOne(rx: Receiver, tsn: u32, d: Data)
    ensures Follows(rx, Accept(rx, tsn, d))
  {
    hide Consume;
    assert (rx.consumed + [d])[|rx.consumed|..] == [d] && [d][..0] == [];
    assert ConsumeAll(rx.reassembly, [d][..0]) == rx.reassembly;
  }

  lemma FollowsBoth(a: Receiver, b: Receiver, c: Receiver)
    requires Follows(a, b) && Follows(b, c)
    ensures Follows(a, c)
  {
    hide ConsumeAll;
    var n, m := |a.consumed|, |b.consumed|;
    assert c.consumed[n..] == b.consumed[n..] + c.consumed[m..];
    Fragmentation.ConsumeAllAppend(a.reassembly, b.consumed[n..], c.consumed[m..]);
  }

  lemma {:induction false} DrainFollows(rx: Receiver, throws: Listener)
    ensures Follows(rx, DrainHeard(rx, throws).rx)
    decreases |rx.outOfOrder|
  {
    hide Follows, Consume;
    var next := Expected(rx);
    if next in rx.outOfOrder {
      Shrinks(rx.outOfOrder, next);
      var rest := rx.(outOfOrder := rx.outOfOrder - {next});
      var rx' := Accept(rest, next, rx.outOfOrder[next]);
      FollowsOne(rest, next, rx.outOfOrder[next]);
      FollowsBuffer(rx, rest, rx');
      DrainFollows(rx', throws);
      FollowsBoth(rx, rx', DrainHeard(rx', throws).rx);
    } else {
      FollowsItself(rx);
    }
  }

  lemma FollowsItself(rx: Receiver)
    ensures Follows(rx, rx)
  {}

  lemma FollowsBuffer(rx: Receiver, rest: Receiver, rx': Receiver)
    requires Follows(rest, rx') && rest.consumed == rx.consumed && rest.reassembly == rx.reassembly
    ensures Follows(rx, rx')
  {}

  lemma DeliverFollows(cmp: Comparison, rx: Receiver, d: Data, throws: Listener)
    ensures Follows(rx, DeliverHeard(cmp, rx, d, throws).rx)
  {
    hide DrainHeard, SnLt, Consume, ConsumeAll, Drain;
    if !SnLt(cmp, d.tsn, Expected(rx)) && d.tsn == Expected(rx) {
      var rx' := Accept(rx, d.tsn, d);
      FollowsOne(rx, d.tsn, d);
      DrainFollows(rx', throws);
      FollowsBoth(rx, rx', DrainHeard(rx', throws).rx);
    } else {
      FollowsItself(rx);
      FollowsBuffer(DeliverHeard(cmp, rx, d, throws).rx, rx, rx);
    }
  }

  /** Whatever arrives, what came out stays what is complete but for the torn messages. */
  lemma ArrivalMatches(l: Inbound, i: nat, throws: Listener, torn: set<nat>)
    requires ReceiveInv(AsWhole(l)) && i < |l.log| && Near(l, i) && Contiguous(l.log)
    requires Matches(l.rx.reassembly, Whole(l.rx).reassembly, torn)
    requires Consumed(HeardIn(l, i, throws)) <= EndToEnd.ClearLog(l.log)
    ensures var rx' := HeardIn(l, i, throws).rx; Matches(rx'.reassembly, Whole(rx').reassembly, torn)
  {
    hide DeliverHeard, ConsumeAll, Matches, Near, Contiguous, BufferInv, LogInv, Resting;
    var l' := HeardIn(l, i, throws);
    HeardKeeps(l, i, throws);
    DeliverFollows(l.cmp, l.rx, l.log[i], throws);
    var n, m := Consumed(l), Consumed(l');
    assert l.rx.consumed == l.log[..n] && l'.rx.consumed == l.log[..m];
    assert l.log[..m][n..] == l.log[n..m];
    ConsumeAllMatches(l.log, n, l.rx.reassembly, torn, m);
  }

  // ---- What a link then promises ----

  function WholeLink(l: EndToEnd.Link): EndToEnd.Link { l.(inbound := AsWhole(l.inbound)) }

  lemma SendContiguous(l: EndToEnd.Link, m: Message, unordered: bool)
    requires EndToEnd.SentInv(l) && Contiguous(l.inbound.log)
    ensures Contiguous(EndToEnd.Next(l, EndToEnd.SendMessage(m, unordered)).inbound.log)
  {
    hide ConsumeAll, EndToEnd.ClearLog, Clear, Sendable, Enqueue, Fits, Pieces;
    var log, ds := l.inbound.log, MessagePieces(l.tx, m, unordered);
    var c := EndToEnd.ClearLog(log);
    EndToEnd.ClearLogAppend(log, ds);
    forall n: nat | n < EndToEnd.ClearLog(log + ds) ensures Fits(ConsumeAll(NOTHING, (log + ds)[..n]), (log + ds)[n]) {
      if n < |log| {
        assert (log + ds)[..n] == log[..n];
      } else {
        var j := n - |log|;
        assert log[..|log|] == log && (log + ds)[..n] == log + ds[..j] && (log + ds)[n] == ds[j];
        Fragmentation.ConsumeAllAppend(NOTHING, log, ds[..j]);
        PieceFits(l.tx.localTSN, StreamSeq(l.tx, m.streamId, unordered), m, unordered, l.msgs[..Clear(l.msgs)], j);
      }
    }
  }

  lemma PieceFits(first: u32, ssn: u16, m: Message, unordered: bool, emitted: seq<Message>, j: nat)
    requires j < PieceCount(|m.data|)
    ensures var ds := Pieces(first, ssn, m, unordered);
      Fits(ConsumeAll(Reassembly(map[], emitted), ds[..j]), ds[j])
  {
    hide ToUint32, Consume;
    var ds := Pieces(first, ssn, m, unordered);
    if j == 0 {
      assert ds[..0] == [];
    } else {
      Fragmentation.PartialPieces(first, ssn, m, unordered, Reassembly(map[], emitted), j);
    }
  }

  /** A chunk after which nothing is half in completes a message. */
  lemma LastCompletes(whole: Reassembly, d: Data)
    requires Fits(whole, d) && Consume(whole, d).fragments == map[]
    ensures |Consume(whole, d).emitted| == |whole.emitted| + 1
  {
    assert !d.beginning ==> KeyOf(d) in whole.fragments.Keys;
    assert !d.ending ==> KeyOf(d) in Consume(whole, d).fragments;
  }

  lemma FinishedIsPrefix(l: EndToEnd.Link)
    requires EndToEnd.Core(WholeLink(l)) && Contiguous(l.inbound.log)
    ensures Finished(l.inbound.rx) <= l.msgs[..Clear(l.msgs)]
    ensures Consumed(l.inbound) <= EndToEnd.ClearLog(l.inbound.log)
    ensures Consumed(l.inbound) < EndToEnd.ClearLog(l.inbound.log) <==> |Finished(l.inbound.rx)| < Clear(l.msgs)
  {
    hide ConsumeAll, Consume, LogInv, BufferInv, EndToEnd.ClearLog, Clear, Fits;
    var log, n, c := l.inbound.log, Consumed(l.inbound), EndToEnd.ClearLog(l.inbound.log);
    EndToEnd.ConsumedIsClear(WholeLink(l));
    assert log[..c][..n] == log[..n];
    Fragmentation.EmittedGrows(NOTHING, log[..c], n);
    if n < c {
      assert log[..c][..c - 1] == log[..c - 1] && log[..c - 1][..n] == log[..n];
      Fragmentation.EmittedGrows(NOTHING, log[..c - 1], n);
      assert log[..c] == log[..c - 1] + [log[c - 1]];
      ConsumePush(NOTHING, log[..c - 1], log[c - 1]);
      LastCompletes(ConsumeAll(NOTHING, log[..c - 1]), log[c - 1]);
    }
  }

  /** A listener threw while the next chunk was in the buffer. */
  predicate Stuck(l: EndToEnd.Link) { Expected(l.inbound.rx) in l.inbound.rx.outOfOrder }

  /** No message that was half in at a close has been completed since. */
  predicate NothingTorn(l: EndToEnd.Link, torn: set<nat>) { forall t | t in torn :: t >= |Finished(l.inbound.rx)| }

  function Emitted(l: EndToEnd.Link): seq<Message> { l.inbound.rx.reassembly.emitted }

  /** Exactly what comes out, exactly when nothing is missing from it, and exactly when it is everything. */
  ghost predicate DeliversExactly(l: EndToEnd.Link, torn: set<nat>) {
    && Finished(l.inbound.rx) <= l.msgs[..Clear(l.msgs)]
    && Emitted(l) == Without(Finished(l.inbound.rx), torn)
    && (Emitted(l) == Finished(l.inbound.rx) <==> NothingTorn(l, torn))
    && (EndToEnd.AllArrived(l) ==>
          (Emitted(l) == l.msgs[..Clear(l.msgs)] <==> NothingTorn(l, torn) && !Stuck(l)))
  }

  lemma LinkDelivers(l: EndToEnd.Link, torn: set<nat>)
    requires EndToEnd.Core(WholeLink(l)) && Contiguous(l.inbound.log)
    requires Matches(l.inbound.rx.reassembly, Whole(l.inbound.rx).reassembly, torn)
    ensures DeliversExactly(l, torn)
  {
    hide ConsumeAll, Contiguous, EndToEnd.Core, EndToEnd.AllArrived, Without, Clear;
    FinishedIsPrefix(l);
    NothingMissingIff(Finished(l.inbound.rx), torn);
    if EndToEnd.AllArrived(l) {
      AllTakenIff(l);
    }
  }

  lemma AllTakenIff(l: EndToEnd.Link)
    requires EndToEnd.Core(WholeLink(l)) && EndToEnd.AllArrived(l)
    ensures Consumed(l.inbound) <= EndToEnd.ClearLog(l.inbound.log)
    ensures Consumed(l.inbound) == EndToEnd.ClearLog(l.inbound.log) <==> !Stuck(l)
  {
    hide ConsumeAll, Sendable;
    var b, n := AsWhole(l.inbound), Consumed(l.inbound);
    EndToEnd.ConsumedIsClear(WholeLink(l));
    assert Tsn(b, n) == Expected(b.rx);
    if Stuck(l) {
      IndexOfTsn(b, n);
      BufferedIsAccepted(b, Expected(b.rx));
    }
  }
}
