/**
 * What the comparison as written (constantly false, src/sctp/association.ts:71-73) changes on the
 * receive and acknowledge paths, with the exact conditions.
 */
module LiteralComparison {
  import opened Bytes
  import opened Serial
  import opened Chunks
  import opened Association
  import GapBlocks
  import Delivery
  import EndToEnd

  // ---- Stale duplicates ----

  /** A chunk the documented comparison drops as already delivered enters the gap buffer. */
  lemma StaleDuplicateIsBuffered(d: Data, r: Reassembly)
    requires d.tsn == 5
    ensures var rx := Receiver(10, map[], r, []);
      && Deliver(Intended, rx, d) == rx
      && Deliver(Literal, rx, d) == rx.(outOfOrder := map[5 := d])
  {}

  /**
   * The two forms treat an arriving chunk differently exactly when it is stale, new to the buffer, and there
   * is room.
   */
  lemma DeliverDiffersIff(rx: Receiver, d: Data)
    ensures Deliver(Literal, rx, d) != Deliver(Intended, rx, d) <==>
      SnLt(Intended, d.tsn, Expected(rx)) && d.tsn !in rx.outOfOrder && |rx.outOfOrder| < MAX_OOO_CHUNKS
  {
    hide Drain, SnLtIntended;
    LiteralIsNeverLess(d.tsn, Expected(rx));
    assert SnLt(Intended, d.tsn, Expected(rx)) ==> d.tsn != Expected(rx) by {
      Irreflexive(d.tsn);
    }
    if d.tsn !in rx.outOfOrder {
      assert d.tsn in rx.outOfOrder[d.tsn := d];
    }
  }

  lemma Irreflexive(a: u32)
    ensures !SnLt(Intended, a, a)
  {}

  // ---- SACKs that cannot be written ----

  /** Duplicates of the last two delivered chunks make the SACK's start offset 0xffffffff. */
  lemma StaleRunThrows()
    ensures Blocks(7, [6, 7]) == [(0xffff_ffff, 0)] && SackFor(7, [6, 7]) == None
  {
    var keys: seq<u32>, run: seq<(u32, u32)> := [6, 7], [(6, 7)];
    assert keys[..1] == [6];
    assert Runs([6]) == [(6, 6)] by { assert keys[..1][..0] == []; }
    assert Runs(keys) == run;
    assert run[..0] == [];
    assert Offsets(7, run) == [(0xffff_ffff, 0)];
    assert (0xffff_ffff, 0) in Blocks(7, keys);
  }

  /** The cumulative TSN directly follows its predecessor in the order the sort left. */
  ghost predicate CrossesCursor(cum: u32, sorted: seq<u32>) {
    exists i :: 0 <= i < |sorted| - 1 && sorted[i] == ToUint32(cum - 1) && sorted[i + 1] == cum
  }

  predicate Crossing(cum: u32, run: (u32, u32)) { run.1 == cum && run.0 != cum }

  /** A run of at most `length` TSNs stays on one side of the cursor, or ends at it. */
  predicate Shaped(cum: u32, run: (u32, u32), length: nat) {
    if Crossing(cum, run) then MODULUS - length < Ahead(cum, run.0)
    else Ahead(cum, run.0) <= Ahead(cum, run.1) < Ahead(cum, run.0) + length
  }

  predicate AnyCrossing(cum: u32, runs: seq<(u32, u32)>) {
    exists i :: 0 <= i < |runs| && Crossing(cum, runs[i])
  }

  /**
   * With the next expected TSN not among them, runs are shaped; one ends at the cursor exactly when the
   * two TSNs up to the cursor stand next to each other.
   */
  lemma {:induction false} RunShapes(cum: u32, sorted: seq<u32>)
    requires ToUint32(cum + 1) !in sorted && |sorted| < MODULUS
    ensures forall i | 0 <= i < |Runs(sorted)| :: Shaped(cum, Runs(sorted)[i], |sorted|)
    ensures CrossesCursor(cum, sorted) <==> AnyCrossing(cum, Runs(sorted))
  {
    hide Shaped, Crossing, CrossesCursor, AnyCrossing, ToUint32;
    if sorted == [] {
      NoRuns(cum, sorted);
    } else {
      var n, tsn := |sorted| - 1, sorted[|sorted| - 1];
      RunShapes(cum, sorted[..n]);
      CrossesPush(cum, sorted);
      PushShapes(cum, Runs(sorted[..n]), Runs(sorted), tsn, n);
    }
  }

  lemma NoRuns(cum: u32, sorted: seq<u32>)
    requires sorted == []
    ensures Runs(sorted) == [] && !CrossesCursor(cum, sorted) && !AnyCrossing(cum, Runs(sorted))
  {}

  /** One more TSN, as an extension of the last run or as a run of its own. */
  lemma PushShapes(cum: u32, runs: seq<(u32, u32)>, runs': seq<(u32, u32)>, tsn: u32, length: nat)
    requires forall i | 0 <= i < |runs| :: Shaped(cum, runs[i], length)
    requires tsn != ToUint32(cum + 1) && length < MODULUS
    requires var m := |runs| - 1;
      if runs != [] && tsn == ToUint32(runs[m].1 as int + 1) then runs' == runs[..m] + [(runs[m].0, tsn)]
      else runs' == runs + [(tsn, tsn)]
    ensures forall i | 0 <= i < |runs'| :: Shaped(cum, runs'[i], length + 1)
    ensures AnyCrossing(cum, runs') <==>
      AnyCrossing(cum, runs) || (runs != [] && tsn == cum && runs[|runs| - 1].1 == ToUint32(cum - 1))
  {
    hide Ahead;
    var m := |runs| - 1;
    if runs != [] && tsn == ToUint32(runs[m].1 as int + 1) {
      ExtendShape(cum, runs[m], tsn, length);
      assert runs'[m] == (runs[m].0, tsn) && forall i | 0 <= i < m :: runs'[i] == runs[i];
      assert tsn == cum <==> runs[m].1 == ToUint32(cum - 1) by {
        Predecessor(cum, runs[m].1);
      }
    } else {
      assert runs'[|runs|] == (tsn, tsn) && forall i | 0 <= i < |runs| :: runs'[i] == runs[i];
      if runs != [] {
        Predecessor(cum, runs[m].1);
      }
    }
  }

  lemma Predecessor(cum: u32, tsn: u32)
    ensures cum == ToUint32(tsn as int + 1) <==> tsn == ToUint32(cum - 1)
  {}

  lemma CrossesPush(cum: u32, sorted: seq<u32>)
    requires sorted != []
    ensures var n := |sorted| - 1;
      CrossesCursor(cum, sorted) <==>
        CrossesCursor(cum, sorted[..n]) || (n > 0 && sorted[n - 1] == ToUint32(cum - 1) && sorted[n] == cum)
  {
    var n := |sorted| - 1;
    if CrossesCursor(cum, sorted[..n]) {
      var i :| 0 <= i < n - 1 && sorted[..n][i] == ToUint32(cum - 1) && sorted[..n][i + 1] == cum;
      assert sorted[i] == ToUint32(cum - 1) && sorted[i + 1] == cum;
    }
    if CrossesCursor(cum, sorted) {
      var i :| 0 <= i < n && sorted[i] == ToUint32(cum - 1) && sorted[i + 1] == cum;
      if i < n - 1 {
        assert sorted[..n][i] == ToUint32(cum - 1) && sorted[..n][i + 1] == cum;
      }
    }
  }

  lemma ExtendShape(cum: u32, run: (u32, u32), tsn: u32, length: nat)
    requires tsn == ToUint32(run.1 as int + 1) && tsn != ToUint32(cum + 1)
    requires Shaped(cum, run, length) && length < MODULUS
    ensures !Crossing(cum, run) && Shaped(cum, (run.0, tsn), length + 1)
    ensures tsn == cum <==> Crossing(cum, (run.0, tsn))
  {
    hide Ahead;
    AheadByCases(cum, run.0);
    AheadByCases(cum, run.1);
    AheadByCases(cum, tsn);
    assert run.1 != cum;
  }

  lemma {:induction false} OffsetKept(cum: u32, runs: seq<(u32, u32)>, i: nat)
    requires i < |runs| && Ahead(cum, runs[i].1) <= 0xffff
    ensures (Ahead(cum, runs[i].0), Ahead(cum, runs[i].1)) in Offsets(cum, runs)
  {
    var n := |runs| - 1;
    if i < n {
      OffsetKept(cum, runs[..n], i);
    }
  }

  /**
   * Writing the SACK throws exactly when a stale run ends at the cursor. The receive path keeps the next
   * expected TSN out of the buffer and its size within bounds, so this covers every order a sort may
   * leave and every state the literal comparison can reach.
   */
  lemma SackThrowsIff(cum: u32, sorted: seq<u32>)
    requires ToUint32(cum + 1) !in sorted && |sorted| <= MAX_OOO_CHUNKS
    ensures SackFor(cum, sorted) == None <==> CrossesCursor(cum, sorted)
  {
    hide Runs, Offsets, Ahead;
    var runs, blocks := Runs(sorted), Blocks(cum, sorted);
    RunShapes(cum, sorted);
    if AnyCrossing(cum, runs) {
      var i :| 0 <= i < |runs| && Crossing(cum, runs[i]);
      AheadByCases(cum, cum);
      OffsetKept(cum, runs, i);
      assert Shaped(cum, runs[i], |sorted|);
    } else {
      forall b | b in blocks ensures b.0 <= 0xffff {
        GapBlocks.OffsetsComeFromRuns(cum, runs, b);
        var i :| 0 <= i < |runs| && b == (Ahead(cum, runs[i].0), Ahead(cum, runs[i].1));
        assert Shaped(cum, runs[i], |sorted|);
      }
    }
  }

  /** The keys in some order. */
  lemma ListKeys(keys: set<u32>) returns (listed: seq<u32>)
    ensures Elements(listed) == keys
    ensures forall i, j | 0 <= i < j < |listed| :: listed[i] != listed[j]
  {
    if keys == {} {
      return [];
    }
    var k :| k in keys;
    var rest := ListKeys(keys - {k});
    listed := [k] + rest;
    ElementsOfBoth([k], rest);
    assert keys == {k} + (keys - {k});
    assert forall i | 0 <= i < |rest| :: rest[i] in Elements(rest);
  }

  lemma ElementsOfBoth(a: seq<u32>, b: seq<u32>)
    ensures Elements(a + b) == Elements(a) + Elements(b)
  {
    assert forall k: u32 :: k in a + b <==> k in a || k in b;
  }

  /** The literal comparison orders no two keys, so their sort may leave any order. */
  lemma NeverConsistent(keys: set<u32>, a: u32, b: u32)
    requires a in keys && b in keys && a != b
    ensures !Consistent(Literal, keys)
  {
    LiteralIsNeverLess(a, b);
    LiteralIsNeverLess(b, a);
  }

  /** The two TSNs up to the cursor, then the rest. */
  lemma ThrowingOrder(cum: u32, keys: set<u32>) returns (sorted: seq<u32>)
    requires ToUint32(cum + 1) !in keys && |keys| <= MAX_OOO_CHUNKS && ToUint32(cum - 1) in keys && cum in keys
    ensures IsSorting(Literal, keys, sorted) && SackFor(cum, sorted) == None
  {
    hide SackFor, ToUint32, Consistent;
    var prev := ToUint32(cum - 1);
    PreviousDiffers(cum);
    NeverConsistent(keys, prev, cum);
    var rest := ListKeys(keys - {prev, cum});
    sorted := [prev, cum] + rest;
    ElementsOfBoth([prev, cum], rest);
    assert keys == {prev, cum} + (keys - {prev, cum});
    assert forall i | 0 <= i < |rest| :: rest[i] in Elements(rest);
    GapBlocks.SortedLength(Literal, keys, sorted);
    NotListed(keys, sorted, ToUint32(cum + 1));
    assert sorted[0] == prev && sorted[1] == cum;
    SackThrowsIff(cum, sorted);
  }

  /** A list that makes it throw has both. */
  lemma ThrowHasBoth(cum: u32, keys: set<u32>, sorted: seq<u32>)
    requires ToUint32(cum + 1) !in keys && |keys| <= MAX_OOO_CHUNKS
    requires IsSorting(Literal, keys, sorted) && SackFor(cum, sorted) == None
    ensures ToUint32(cum - 1) in keys && cum in keys
  {
    hide SackFor, ToUint32, Consistent, CrossesCursor;
    GapBlocks.SortedLength(Literal, keys, sorted);
    NotListed(keys, sorted, ToUint32(cum + 1));
    SackThrowsIff(cum, sorted);
    Crossed(cum, keys, sorted);
  }

  /**
   * Whether the SACK can throw depends on the buffered TSNs alone: some order the sort may leave makes
   * writing it throw if and only if the last two delivered TSNs are both buffered again.
   */
  lemma SomeOrderThrowsIff(cum: u32, keys: set<u32>)
    requires ToUint32(cum + 1) !in keys && |keys| <= MAX_OOO_CHUNKS
    ensures (exists sorted :: IsSorting(Literal, keys, sorted) && SackFor(cum, sorted) == None)
       <==> ToUint32(cum - 1) in keys && cum in keys
  {
    hide SackFor, ToUint32, IsSorting;
    if ToUint32(cum - 1) in keys && cum in keys {
      var sorted := ThrowingOrder(cum, keys);
    }
    if sorted :| IsSorting(Literal, keys, sorted) && SackFor(cum, sorted) == None {
      ThrowHasBoth(cum, keys, sorted);
    }
  }

  lemma PreviousDiffers(cum: u32)
    ensures ToUint32(cum - 1) != cum
  {}

  /** Two deliveries reach it: copies of the last two chunks, after everything up to 7 has been delivered. */
  lemma StaleCopiesThrow(rx: Receiver, six: Data, seven: Data)
    requires rx.cumulative == 7 && rx.outOfOrder == map[] && six.tsn == 6 && seven.tsn == 7
    ensures var rx' := Deliver(Literal, Deliver(Literal, rx, six), seven);
      && rx' == rx.(outOfOrder := map[6 := six, 7 := seven])
      && exists sorted :: IsSorting(Literal, rx'.outOfOrder.Keys, sorted) && SackFor(7, sorted) == None
  {
    hide SackFor, Consistent, Drain;
    LiteralIsNeverLess(6, 8);
    LiteralIsNeverLess(7, 8);
    var keys := {6, 7};
    assert Deliver(Literal, Deliver(Literal, rx, six), seven).outOfOrder.Keys == keys;
    SomeOrderThrowsIff(7, keys);
  }

  // ---- Runs in which no SACK throws ----

  /** What is buffered behind the cursor had been consumed before it came again. */
  ghost predicate StaleAre(l: Delivery.Inbound, late: set<nat>) {
    forall k | k in l.rx.outOfOrder :: Delivery.IndexOf(l, k) >= Delivery.Consumed(l) || Delivery.IndexOf(l, k) in late
  }

  lemma OnlyTsnHasIndex(l: Delivery.Inbound, k: u32, n: nat)
    requires l.cmp == Literal && Delivery.IndexOf(l, k) == n
    ensures k == Delivery.Tsn(l, n)
  {
    SumOfAhead(l.origin, k);
  }

  lemma {:induction false} DrainLeavesStale(l: Delivery.Inbound, late: set<nat>)
    requires Delivery.Tracking(l) && l.cmp == Literal && StaleAre(l, late)
    ensures StaleAre(l.(rx := Drain(l.rx)), late)
    decreases |l.rx.outOfOrder|
  {
    hide ConsumeAll, Consume, Delivery.LogInv, Delivery.BufferInv, Ahead;
    if Expected(l.rx) in l.rx.outOfOrder {
      Delivery.DrainOnceKeeps(l);
      var l' := Delivery.DrainOnce(l);
      forall k | k in l'.rx.outOfOrder
        ensures Delivery.IndexOf(l', k) >= Delivery.Consumed(l') || Delivery.IndexOf(l', k) in late
      {
        assert k in l.rx.outOfOrder;
        if Delivery.IndexOf(l, k) == Delivery.Consumed(l) {
          OnlyTsnHasIndex(l, k, Delivery.Consumed(l));
        }
      }
      DrainLeavesStale(l', late);
      assert Drain(l.rx) == Drain(l'.rx);
    } else {
      assert l.(rx := Drain(l.rx)) == l;
    }
  }

  /** A chunk that has been consumed and comes again. */
  function LateAt(l: Delivery.Inbound, i: nat): set<nat> { if i < Delivery.Consumed(l) then {i} else {} }

  lemma ArrivalStale(l: Delivery.Inbound, i: nat, late: set<nat>)
    requires Delivery.ReceiveInv(l) && i < |l.log| && l.cmp == Literal && StaleAre(l, late)
    ensures StaleAre(Delivery.Received(l, i), late + LateAt(l, i))
  {
    hide ConsumeAll, Consume, Delivery.BufferInv, Drain, Ahead;
    LiteralIsNeverLess(l.log[i].tsn, Expected(l.rx));
    if l.log[i].tsn == Expected(l.rx) {
      Delivery.InOrderArrives(l, i);
      var mid := l.(rx := Accept(l.rx, Expected(l.rx), l.log[i]), accepted := l.accepted + {i});
      Delivery.InOrderAccepted(l, mid);
      forall k | k in mid.rx.outOfOrder
        ensures Delivery.IndexOf(mid, k) >= Delivery.Consumed(mid) || Delivery.IndexOf(mid, k) in late
      {
        if Delivery.IndexOf(l, k) == Delivery.Consumed(l) {
          OnlyTsnHasIndex(l, k, Delivery.Consumed(l));
        }
      }
      DrainLeavesStale(mid, late);
    } else {
      Delivery.GapIndex(l, i);
    }
  }

  lemma Crossed(cum: u32, keys: set<u32>, sorted: seq<u32>)
    requires CrossesCursor(cum, sorted) && Elements(sorted) == keys
    ensures ToUint32(cum - 1) in keys && cum in keys
  {
    hide ToUint32;
    var i :| 0 <= i < |sorted| - 1 && sorted[i] == ToUint32(cum - 1) && sorted[i + 1] == cum;
    assert sorted[i] in Elements(sorted) && sorted[i + 1] in Elements(sorted);
  }

  /** Both of the last two chunks are back in the buffer. */
  lemma ThrowMeansBothLate(l: Delivery.Inbound, sorted: seq<u32>, late: set<nat>)
    requires Delivery.ReceiveInv(l) && l.cmp == Literal && StaleAre(l, late)
    requires IsSorting(Literal, l.rx.outOfOrder.Keys, sorted) && SackFor(l.rx.cumulative, sorted) == None
    ensures exists i :: i in late && i + 1 in late
  {
    hide ConsumeAll, SackFor, Consistent, Ahead, ToUint32, StaleAre, Delivery.IndexOf, CrossesCursor;
    var keys := l.rx.outOfOrder.Keys;
    var n: int := Delivery.Consumed(l);
    Delivery.ReceiveInvRefines(l);
    GapBlocks.SortedLength(Literal, keys, sorted);
    NotListed(keys, sorted, Expected(l.rx));
    SackThrowsIff(l.rx.cumulative, sorted);
    Crossed(l.rx.cumulative, keys, sorted);
    BufferedIsLate(l, l.rx.cumulative, n - 1, late);
    PreviousTsn(l, n - 1);
    BufferedIsLate(l, Delivery.Tsn(l, n - 2), n - 2, late);
    assert n - 2 in late && n - 2 + 1 in late;
  }

  lemma NotListed(keys: set<u32>, sorted: seq<u32>, k: u32)
    requires Elements(sorted) == keys && k !in keys
    ensures k !in sorted
  {
    assert k in sorted <==> k in Elements(sorted);
  }

  lemma PreviousTsn(l: Delivery.Inbound, i: int)
    ensures ToUint32(Delivery.Tsn(l, i) - 1) == Delivery.Tsn(l, i - 1)
  {
    Delivery.SumOfTsn(l, i, -1);
  }

  lemma BufferedIsLate(l: Delivery.Inbound, k: u32, i: int, late: set<nat>)
    requires Delivery.ReceiveInv(l) && l.cmp == Literal && StaleAre(l, late)
    requires k in l.rx.outOfOrder && k == Delivery.Tsn(l, i) && -1 <= i < Delivery.Consumed(l)
    ensures i >= 0 && i in late
  {
    hide ConsumeAll, Ahead, Delivery.Tsn, Delivery.CursorInv, Delivery.IndexOf;
    Delivery.BufferedTsn(l, k);
    var j := Delivery.IndexOf(l, k);
    Delivery.BufferedIsAccepted(l, k);
    assert j < |l.log| < MODULUS;
    if i != j {
      Delivery.TsnsDiffer(l, i, j);
    }
  }

  /** The chunks that come again after they have been consumed. */
  function Late(l: EndToEnd.Link, events: seq<EndToEnd.Event>): set<nat>
    decreases |events|
  {
    if events == [] then {}
    else
      (if events[0].DataArrives? then LateAt(l.inbound, events[0].i) else {})
          + Late(EndToEnd.Next(l, events[0]), events[1..])
  }

  /** Every SACK of the run can be written. */
  ghost predicate AllSacksWritten(l: EndToEnd.Link, events: seq<EndToEnd.Event>)
    decreases |events|
  {
    events != [] ==>
      && (events[0].DataArrives? && events[0].i < |l.inbound.log| ==>
            SackFor(Delivery.Received(l.inbound, events[0].i).rx.cumulative, events[0].sorted).Some?)
      && AllSacksWritten(EndToEnd.Next(l, events[0]), events[1..])
  }

  lemma {:induction false} NoNeighboursNoThrow(l: EndToEnd.Link, events: seq<EndToEnd.Event>, before: set<nat>)
    requires EndToEnd.Inv(l) && EndToEnd.Schedule(l, events) && l.inbound.cmp == Literal
    requires StaleAre(l.inbound, before)
    requires forall i | i in before + Late(l, events) :: i + 1 !in before + Late(l, events)
    ensures AllSacksWritten(l, events)
    decreases |events|
  {
    hide EndToEnd.Inv, EndToEnd.Next, EndToEnd.Enabled, EndToEnd.Timely, StaleAre, SackFor, IsSorting,
         Delivery.Received;
    if events != [] {
      var e := events[0];
      var late := if e.DataArrives? then LateAt(l.inbound, e.i) else {};
      StepWritten(l, e, before);
      assert before + late + Late(EndToEnd.Next(l, e), events[1..]) == before + Late(l, events);
      NoNeighboursNoThrow(EndToEnd.Next(l, e), events[1..], before + late);
    }
  }

  /**
   * Under the comparison as written, whatever each sort leaves: a run in which no two neighbouring chunks both
   * come again after they have been consumed never makes writing a SACK throw.
   */
  lemma LiteralNeverThrows(l0: EndToEnd.Link, events: seq<EndToEnd.Event>)
    requires EndToEnd.Initial(l0) && EndToEnd.Schedule(l0, events) && l0.inbound.cmp == Literal
    requires forall i | i in Late(l0, events) :: i + 1 !in Late(l0, events)
    ensures AllSacksWritten(l0, events)
  {
    hide Late, EndToEnd.Schedule, EndToEnd.Inv, AllSacksWritten;
    EndToEnd.InitialInv(l0);
    assert {} + Late(l0, events) == Late(l0, events);
    NoNeighboursNoThrow(l0, events, {});
  }

  lemma StepWritten(l: EndToEnd.Link, e: EndToEnd.Event, before: set<nat>)
    requires EndToEnd.Inv(l) && EndToEnd.Enabled(l, e) && EndToEnd.Timely(l, e) && l.inbound.cmp == Literal
    requires StaleAre(l.inbound, before)
    ensures var late := if e.DataArrives? then LateAt(l.inbound, e.i) else {};
      && EndToEnd.Inv(EndToEnd.Next(l, e)) && EndToEnd.Next(l, e).inbound.cmp == Literal
      && StaleAre(EndToEnd.Next(l, e).inbound, before + late)
      && (e.DataArrives? && (forall i | i in before + late :: i + 1 !in before + late) ==>
            e.i < |l.inbound.log| && SackFor(Delivery.Received(l.inbound, e.i).rx.cumulative, e.sorted).Some?)
  {
    hide EndToEnd.Core, EndToEnd.QueueInv, Delivery.Resting, SackFor, IsSorting, Deliver, HandleSack, MessagePieces,
         Send;
    hide Sendable, Delivery.Near, Delivery.ReceiveInv;
    match e
    case SendMessage(m, unordered) =>
      EndToEnd.SendKeepsInv(l, m, unordered);
      assert before + {} == before;
    case SackArrives(p) =>
      EndToEnd.SackKeepsInv(l, p);
      assert before + {} == before;
    case DataArrives(i, sorted) =>
      EndToEnd.DataKeepsInv(l, i, sorted);
      EndToEnd.CoreReceives(l);
      ArrivalStale(l.inbound, i, before);
      var b := Delivery.Received(l.inbound, i);
      EndToEnd.DataKeepsCore(l, i);
      EndToEnd.CoreReceives(l.(inbound := b));
      if SackFor(b.rx.cumulative, sorted) == None {
        ThrowMeansBothLate(b, sorted, before + LateAt(l.inbound, i));
      }
  }

  // ---- The sender's side ----

  /** A gapless SACK removes only the chunk it names, not those before it. */
  lemma GaplessSack(queue: map<u32, Buffer>, sack: Sack)
    requires sack.gapBlocks == []
    ensures HandleSack(Literal, queue, sack) == queue - {sack.cumulativeTSNAck}
  {
    assert forall tsn: u32 :: Acknowledged(Literal, sack, tsn) <==> tsn == sack.cumulativeTSNAck;
  }

  /** So a SACK for everything empties the queue exactly when nothing but its own TSN is queued. */
  lemma GaplessSackEmptiesIff(queue: map<u32, Buffer>, sack: Sack)
    requires sack.gapBlocks == []
    ensures HandleSack(Literal, queue, sack) == map[] <==> queue.Keys <= {sack.cumulativeTSNAck}
  {
    GaplessSack(queue, sack);
    var left := HandleSack(Literal, queue, sack);
    if left == map[] {
      forall k | k in queue.Keys ensures k == sack.cumulativeTSNAck {
        assert k !in left;
      }
    }
  }

  lemma EarlierChunkStaysQueued(chunk: Buffer)
    ensures var queue, sack := map[5 := chunk, 6 := chunk], Sack(6, DEFAULT_RWND, [], []);
      && HandleSack(Intended, queue, sack) == map[]
      && HandleSack(Literal, queue, sack) == map[5 := chunk]
  {
    var queue: map<u32, Buffer>, sack := map[5 := chunk, 6 := chunk], Sack(6, DEFAULT_RWND, [], []);
    GaplessSack(queue, sack);
    LiteralMissesNeighbours();
  }
}
