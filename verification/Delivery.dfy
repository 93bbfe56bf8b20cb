/**
 * One direction between two established ends: a sender, a receiver, and a network that keeps every
 * DATA and SACK packet ever sent and may deliver any of them any number of times, in any order.
 */
module Delivery {
  import opened Bytes
  import opened Serial
  import opened Chunks
  import opened Association

  // ---- The receiving end ----

  /** A receiver, with the history of what was ever sent to it and which chunks it took in. */
  datatype Inbound = Inbound(cmp: Comparison, origin: u32, log: seq<Data>, rx: Receiver, accepted: set<nat>)

  function Consumed(l: Inbound): nat { |l.rx.consumed| }

  function Tsn(l: Inbound, i: int): u32 { ToUint32(l.origin + i) }

  const NOTHING: Reassembly := Reassembly(map[], [])

  /** The index of the chunk buffered under `tsn`. */
  function IndexOf(l: Inbound, tsn: u32): nat {
    if l.cmp == Intended then Consumed(l) + Ahead(Expected(l.rx), tsn) else Ahead(l.origin, tsn)
  }

  /** TSNs count up from the origin, and the sender keeps within the range they can distinguish. */
  ghost predicate LogInv(l: Inbound) {
    && (forall i | 0 <= i < |l.log| :: l.log[i].tsn == Tsn(l, i))
    && (if l.cmp == Literal then |l.log| < MODULUS else |l.log| <= Consumed(l) + HALF)
  }

  /** The cursor stands after a prefix of the log, and that prefix is what was consumed. */
  ghost predicate CursorInv(l: Inbound) {
    && Consumed(l) <= |l.log| && l.rx.consumed == l.log[..Consumed(l)]
    && Expected(l.rx) == Tsn(l, Consumed(l))
    && l.rx.reassembly == ConsumeAll(NOTHING, l.log[..Consumed(l)])
  }

  /** The gap buffer holds accepted chunks only, under their own TSNs, and all that are not consumed. */
  ghost predicate BufferInv(l: Inbound) {
    && (forall k {:trigger IndexOf(l, k)} | k in l.rx.outOfOrder ::
          && IndexOf(l, k) < |l.log| && l.rx.outOfOrder[k] == l.log[IndexOf(l, k)]
          && IndexOf(l, k) in l.accepted
          && (l.cmp == Intended ==> Ahead(Expected(l.rx), k) <= HALF))
    && (forall j {:trigger Tsn(l, j)} | j in l.accepted ::
          j < |l.log| && (j < Consumed(l) || Tsn(l, j) in l.rx.outOfOrder))
    && (forall j: nat | j < Consumed(l) :: j in l.accepted)
  }

  ghost predicate Resting(l: Inbound) {
    Expected(l.rx) !in l.rx.outOfOrder && |l.rx.outOfOrder| <= MAX_OOO_CHUNKS
  }

  ghost predicate Tracking(l: Inbound) { LogInv(l) && CursorInv(l) && BufferInv(l) }

  ghost predicate ReceiveInv(l: Inbound) { Tracking(l) && Resting(l) }

  /** The simple specification: which chunks were taken in determines everything else. */
  ghost predicate RefinesAcceptedSet(l: Inbound) {
    var n := Consumed(l);
    && (forall j | j in l.accepted :: j < |l.log|)
    // The cursor ends the longest contiguous run of accepted chunks...
    && (forall j: nat | j < n :: j in l.accepted) && n !in l.accepted
    && l.rx.cumulative == Tsn(l, n - 1)
    // ...which were consumed once each, in order...
    && n <= |l.log| && l.rx.consumed == l.log[..n]
    // ...and the gap buffer is the rest, bounded; under the intended comparison nothing else is in it.
    && (forall j | j in l.accepted && j > n :: Tsn(l, j) in l.rx.outOfOrder && l.rx.outOfOrder[Tsn(l, j)] == l.log[j])
    && (l.cmp == Intended ==> forall k | k in l.rx.outOfOrder :: exists j :: j in l.accepted && j > n && k == Tsn(l, j))
    && |l.rx.outOfOrder| <= MAX_OOO_CHUNKS
  }

  lemma TsnsDiffer(l: Inbound, i: int, j: int)
    requires i != j && -MODULUS < i - j < MODULUS
    ensures Tsn(l, i) != Tsn(l, j)
  {
    if Tsn(l, i) == Tsn(l, j) {
      SameTsnSameNumber(l.origin + i, l.origin + j);
    }
  }

  lemma NextTsn(l: Inbound, i: int)
    ensures ToUint32(Tsn(l, i) + 1) == Tsn(l, i + 1)
  {
    WrapDifference(l.origin + i, -1);
    assert ToUint32(-1) == MODULUS - 1;
    AddMultiple(l.origin + i + 1, -1);
  }

  /** A chunk of the log is buffered under its own index. */
  lemma IndexOfTsn(l: Inbound, j: nat)
    requires CursorInv(l)
    requires if l.cmp == Literal then j < MODULUS else Consumed(l) <= j <= Consumed(l) + HALF
    ensures IndexOf(l, Tsn(l, j)) == j
  {
    if l.cmp == Literal {
      AheadOfSum(l.origin, j);
    } else {
      var n := Consumed(l);
      WrapDifference(l.origin + j, l.origin + n);
      assert ToUint32(j - n) == j - n;
    }
  }

  /** One round of the drain loop. */
  function DrainOnce(l: Inbound): Inbound
    requires Expected(l.rx) in l.rx.outOfOrder
  {
    var next := Expected(l.rx);
    l.(rx := Accept(l.rx.(outOfOrder := l.rx.outOfOrder - {next}), next, l.rx.outOfOrder[next]))
  }

  lemma AcceptKeepsCursor(l: Inbound, l': Inbound)
    requires LogInv(l) && CursorInv(l) && Consumed(l) < |l.log|
    requires l' == l.(rx := l'.rx)
    requires l'.rx == Accept(l.rx.(outOfOrder := l'.rx.outOfOrder), Expected(l.rx), l.log[Consumed(l)])
    ensures LogInv(l') && CursorInv(l') && Consumed(l') == Consumed(l) + 1
  {
    var n := Consumed(l);
    NextTsn(l, n);
    assert l.log[..n + 1][..n] == l.log[..n];
    assert Tsn(l', n + 1) == Tsn(l, n + 1);
    assert forall i | 0 <= i < |l.log| :: Tsn(l', i) == Tsn(l, i);
  }

  lemma AheadAfterStep(e: u32, k: u32)
    requires k != e
    ensures Ahead(ToUint32(e + 1), k) == Ahead(e, k) - 1
  {}

  lemma DrainOnceKeeps(l: Inbound)
    requires LogInv(l) && CursorInv(l) && BufferInv(l)
    requires Expected(l.rx) in l.rx.outOfOrder
    ensures var l' := DrainOnce(l);
      && LogInv(l') && CursorInv(l') && BufferInv(l')
      && Consumed(l') == Consumed(l) + 1 && |l'.rx.outOfOrder| == |l.rx.outOfOrder| - 1
  {
    hide Consume;
    var n, next, l' := Consumed(l), Expected(l.rx), DrainOnce(l);
    Shrinks(l.rx.outOfOrder, next);
    IndexOfTsn(l, n);
    assert l.rx.outOfOrder[next] == l.log[n];
    AcceptKeepsCursor(l, l');
    assert l.accepted + {n} == l.accepted;
    StepKeepsBuffer(l, l');
  }

  lemma StepKeepsBuffer(l: Inbound, l': Inbound)
    requires LogInv(l) && CursorInv(l) && BufferInv(l)
    requires l' == l.(rx := l'.rx, accepted := l.accepted + {Consumed(l)})
    requires l'.rx.outOfOrder == l.rx.outOfOrder - {Expected(l.rx)}
    requires Consumed(l') == Consumed(l) + 1 <= |l.log| && l'.rx.cumulative == Expected(l.rx)
    ensures BufferInv(l')
  {
    hide ConsumeAll, Ahead;
    SameIndicesAfterStep(l, l');
    forall j | j in l'.accepted ensures j < |l'.log| && (j < Consumed(l') || Tsn(l', j) in l'.rx.outOfOrder) {
      assert Tsn(l', j) == Tsn(l, j);
      if j > Consumed(l) {
        TsnsDiffer(l, j, Consumed(l));
      }
    }
    forall k | k in l'.rx.outOfOrder
      ensures IndexOf(l', k) == IndexOf(l, k) && k in l.rx.outOfOrder && k != Expected(l.rx)
    {}
  }

  /** Moving the cursor by one does not change which index a remaining key stands for. */
  lemma SameIndicesAfterStep(l: Inbound, l': Inbound)
    requires l'.cmp == l.cmp && l'.origin == l.origin && Consumed(l') == Consumed(l) + 1
    requires Expected(l'.rx) == ToUint32(Expected(l.rx) + 1)
    ensures forall k: u32 | k != Expected(l.rx) ::
      IndexOf(l', k) == IndexOf(l, k) && Ahead(Expected(l'.rx), k) < Ahead(Expected(l.rx), k)
  {
    forall k: u32 | k != Expected(l.rx)
      ensures IndexOf(l', k) == IndexOf(l, k) && Ahead(Expected(l'.rx), k) < Ahead(Expected(l.rx), k)
    {
      AheadAfterStep(Expected(l.rx), k);
    }
  }

  lemma {:induction false} DrainKeeps(l: Inbound)
    requires LogInv(l) && CursorInv(l) && BufferInv(l)
    ensures var l' := l.(rx := Drain(l.rx));
      && LogInv(l') && CursorInv(l') && BufferInv(l')
      && Expected(l'.rx) !in l'.rx.outOfOrder
      && |l'.rx.outOfOrder| <= |l.rx.outOfOrder| && Consumed(l') >= Consumed(l)
    decreases |l.rx.outOfOrder|
  {
    if Expected(l.rx) in l.rx.outOfOrder {
      DrainOnceKeeps(l);
      DrainKeeps(DrainOnce(l));
      assert Drain(l.rx) == Drain(DrainOnce(l).rx);
    }
  }

  /** The receiver after a copy of chunk `i`, and what that does to the set of accepted chunks. */
  function Received(l: Inbound, i: nat): Inbound
    requires i < |l.log|
  {
    var rx := Deliver(l.cmp, l.rx, l.log[i]);
    l.(rx := rx, accepted := l.accepted + if i < |rx.consumed| || l.log[i].tsn in rx.outOfOrder then {i} else {})
  }

  ghost predicate Near(l: Inbound, i: nat) { l.cmp == Intended ==> Consumed(l) < i + HALF }

  lemma InOrderArrives(l: Inbound, i: nat)
    requires ReceiveInv(l) && i < |l.log| && Near(l, i)
    requires !SnLt(l.cmp, l.log[i].tsn, Expected(l.rx)) && l.log[i].tsn == Expected(l.rx)
    ensures i == Consumed(l) && ReceiveInv(Received(l, i)) && Consumed(Received(l, i)) > i
  {
    hide ConsumeAll, Ahead, SnLt;
    var n := Consumed(l);
    SameTsnSameNumber(l.origin + i, l.origin + n);
    var mid := l.(rx := Accept(l.rx, Expected(l.rx), l.log[i]), accepted := l.accepted + {i});
    InOrderAccepted(l, mid);
    DrainKeeps(mid);
  }

  lemma InOrderAccepted(l: Inbound, mid: Inbound)
    requires ReceiveInv(l) && Consumed(l) < |l.log|
    requires mid == l.(rx := Accept(l.rx, Expected(l.rx), l.log[Consumed(l)]), accepted := l.accepted + {Consumed(l)})
    ensures LogInv(mid) && CursorInv(mid) && BufferInv(mid) && Consumed(mid) == Consumed(l) + 1
  {
    hide ConsumeAll, Consume, Ahead, ToUint32, BufferInv, IndexOf;
    var n := Consumed(l);
    AcceptKeepsCursor(l, l.(rx := mid.rx));
    assert l.rx.outOfOrder - {Expected(l.rx)} == l.rx.outOfOrder;
    StepKeepsBuffer(l, mid);
  }

  lemma GapArrives(l: Inbound, i: nat)
    requires ReceiveInv(l) && i < |l.log| && Near(l, i)
    requires !SnLt(l.cmp, l.log[i].tsn, Expected(l.rx)) && l.log[i].tsn != Expected(l.rx)
    ensures ReceiveInv(Received(l, i)) && Consumed(Received(l, i)) == Consumed(l)
  {
    hide BufferInv, IndexOf, ConsumeAll, ToUint32, Drain, Accept, Ahead, SnLt;
    GapIndex(l, i);
    var tsn := l.log[i].tsn;
    if tsn in l.rx.outOfOrder {
      BufferedIsAccepted(l, tsn);
      assert Received(l, i) == l.(accepted := l.accepted + {i}) && l.accepted + {i} == l.accepted;
    } else if |l.rx.outOfOrder| < MAX_OOO_CHUNKS {
      var l' := l.(rx := l.rx.(outOfOrder := l.rx.outOfOrder[tsn := l.log[i]]), accepted := l.accepted + {i});
      assert Received(l, i) == l';
      GapKeepsBuffer(l, l', i);
      assert LogInv(l') by {
        assert forall j: int :: Tsn(l', j) == Tsn(l, j);
      }
    } else if i < Consumed(l) {
      ConsumedIsAccepted(l, i);
      assert Received(l, i) == l.(accepted := l.accepted + {i}) && l.accepted + {i} == l.accepted;
    } else {
      assert Received(l, i) == l.(accepted := l.accepted + {}) && l.accepted + {} == l.accepted;
    }
  }

  lemma BufferedIsAccepted(l: Inbound, k: u32)
    requires BufferInv(l) && k in l.rx.outOfOrder
    ensures IndexOf(l, k) in l.accepted
  {}

  lemma ConsumedIsAccepted(l: Inbound, i: nat)
    requires BufferInv(l) && i < Consumed(l)
    ensures i in l.accepted
  {}

  lemma GapKeepsBuffer(l: Inbound, l': Inbound, i: nat)
    requires BufferInv(l) && i < |l.log| && Tsn(l, i) == l.log[i].tsn && IndexOf(l, l.log[i].tsn) == i
    requires l.cmp == Intended ==> Ahead(Expected(l.rx), l.log[i].tsn) <= HALF
    requires l' == l.(rx := l.rx.(outOfOrder := l.rx.outOfOrder[l.log[i].tsn := l.log[i]]),
        accepted := l.accepted + {i})
    ensures BufferInv(l')
  {
    hide Ahead, ToUint32;
    forall k | k in l'.rx.outOfOrder
      ensures IndexOf(l', k) == IndexOf(l, k)
      ensures IndexOf(l, k) < |l.log| && l'.rx.outOfOrder[k] == l.log[IndexOf(l, k)] && IndexOf(l, k) in l'.accepted
    {
      assert k == l.log[i].tsn || k in l.rx.outOfOrder;
    }
    forall j | j in l'.accepted ensures j < |l'.log| && (j < Consumed(l') || Tsn(l', j) in l'.rx.outOfOrder) {
      assert Tsn(l', j) == Tsn(l, j);
    }
  }

  lemma GapIndex(l: Inbound, i: nat)
    requires ReceiveInv(l) && i < |l.log| && Near(l, i)
    requires !SnLt(l.cmp, l.log[i].tsn, Expected(l.rx)) && l.log[i].tsn != Expected(l.rx)
    ensures IndexOf(l, l.log[i].tsn) == i && i != Consumed(l)
    ensures l.cmp == Intended ==> i > Consumed(l) && Ahead(Expected(l.rx), l.log[i].tsn) <= HALF
  {
    hide BufferInv, Ahead;
    var n := Consumed(l);
    assert l.log[i].tsn == Tsn(l, i) && Expected(l.rx) == Tsn(l, n);
    assert i != n;
    if l.cmp == Intended {
      IntendedIsIntegerOrder(l.origin + i, l.origin + n);
      assert n < i <= n + HALF;
    }
    IndexOfTsn(l, i);
  }

  lemma StaleArrives(l: Inbound, i: nat)
    requires ReceiveInv(l) && i < |l.log| && Near(l, i)
    requires SnLt(l.cmp, l.log[i].tsn, Expected(l.rx))
    ensures i < Consumed(l) && Received(l, i) == l
  {
    hide ConsumeAll, Ahead;
    LiteralIsNeverLess(l.log[i].tsn, Expected(l.rx));
    IntendedIsIntegerOrder(l.origin + i, l.origin + Consumed(l));
    assert Tsn(l, i) == l.log[i].tsn;
    assert i in l.accepted;
    assert l.accepted + {i} == l.accepted;
  }

  lemma DataArrivalKeeps(l: Inbound, i: nat)
    requires ReceiveInv(l) && i < |l.log| && Near(l, i)
    ensures ReceiveInv(Received(l, i)) && Consumed(Received(l, i)) >= Consumed(l)
  {
    hide ReceiveInv, SnLt, Deliver;
    if SnLt(l.cmp, l.log[i].tsn, Expected(l.rx)) {
      StaleArrives(l, i);
    } else if l.log[i].tsn == Expected(l.rx) {
      InOrderArrives(l, i);
    } else {
      GapArrives(l, i);
    }
  }

  lemma ReceiveInvRefines(l: Inbound)
    requires ReceiveInv(l)
    ensures RefinesAcceptedSet(l)
  {
    hide ConsumeAll, Ahead;
    var n := Consumed(l);
    assert n !in l.accepted by {
      assert Tsn(l, n) == Expected(l.rx);
    }
    CumulativeIsLast(l);
    forall j | j in l.accepted ensures j < |l.log|
        && (j > n ==> Tsn(l, j) in l.rx.outOfOrder && l.rx.outOfOrder[Tsn(l, j)] == l.log[j]) {
      assert Tsn(l, j) in l.rx.outOfOrder || j < n;
      if j > n {
        IndexOfTsn(l, j);
      }
    }
    if l.cmp == Intended {
      forall k | k in l.rx.outOfOrder ensures exists j :: j in l.accepted && j > n && k == Tsn(l, j) {
        var j := IndexOf(l, k);
        BufferedTsn(l, k);
      }
    }
  }

  lemma CumulativeIsLast(l: Inbound)
    requires Expected(l.rx) == Tsn(l, Consumed(l))
    ensures l.rx.cumulative == Tsn(l, Consumed(l) - 1)
  {
    NextTsn(l, Consumed(l) - 1);
    var a, b := l.rx.cumulative, Tsn(l, Consumed(l) - 1);
    assert (a as int + 1) % MODULUS == (b as int + 1) % MODULUS;
  }

  /** A buffered key is the TSN of the chunk it stands for, and that chunk is not the next one. */
  lemma BufferedTsn(l: Inbound, k: u32)
    requires ReceiveInv(l) && k in l.rx.outOfOrder
    ensures IndexOf(l, k) in l.accepted && Tsn(l, IndexOf(l, k)) == k && IndexOf(l, k) != Consumed(l)
    ensures l.cmp == Intended ==> IndexOf(l, k) > Consumed(l)
  {
    hide ConsumeAll;
    var j := IndexOf(l, k);
    if l.cmp == Intended {
      var d := Ahead(Expected(l.rx), k);
      SumOfAhead(Expected(l.rx), k);
      SumOfTsn(l, Consumed(l), d);
    } else {
      SumOfAhead(l.origin, k);
    }
  }

  lemma SumOfTsn(l: Inbound, i: int, d: int)
    ensures ToUint32(Tsn(l, i) + d) == Tsn(l, i + d)
  {
    var q := (l.origin + i) / MODULUS;
    assert Tsn(l, i) + d == l.origin + i + d + MODULUS * -q;
    AddMultiple(l.origin + i + d, -q);
  }
}
