/**
 * Handshake fragmentation and reassembly (src/dtls/connection.ts:223-252,380-401; section 4.2.3 of RFC 6347).
 * The receiver keeps only a high-water mark per message, so a message counts as complete once its last byte
 * is there. What is dispatched is exact if and only if each message is whole by the time its turn comes.
 */
module DtlsReassembly {
  import opened Bytes
  import opened DtlsWire

  const MAX_FRAGMENT: nat := 1200

  datatype Entry = Entry(msgType: byte, length: nat, data: Buffer, received: nat)

  /** A handshake message: its type and body. */
  datatype Message = Message(msgType: byte, body: Buffer)

  datatype Inbox = Inbox(entries: map<nat, Entry>, next: nat, dispatched: seq<Message>)

  /** `source.copy(target, at)`: what falls outside the target is dropped. */
  function Copied(target: Buffer, at: nat, source: Buffer): (r: Buffer)
    ensures |r| == |target|
  {
    seq(|target|, i requires 0 <= i < |target| => if at <= i < at + |source| then source[i - at] else target[i])
  }

  function Max(a: nat, b: nat): nat { if a >= b then a else b }

  function EntryFor(entries: map<nat, Entry>, f: Fragment): Entry {
    if f.messageSeq in entries then entries[f.messageSeq] else Entry(f.msgType, f.length, Zeros(f.length), 0)
  }

  function Filled(e: Entry, f: Fragment): Entry {
    e.(data := Copied(e.data, f.fragmentOffset, f.data),
        received := Max(e.received, f.fragmentOffset + f.fragmentLength))
  }

  function Fed(entries: map<nat, Entry>, f: Fragment): map<nat, Entry> {
    entries[f.messageSeq as nat := Filled(EntryFor(entries, f), f)]
  }

  predicate Complete(e: Entry) { e.received >= e.length }

  function Drain(b: Inbox): Inbox
    decreases |b.entries|
  {
    if b.next in b.entries && Complete(b.entries[b.next]) then
      var e := b.entries[b.next];
      Shrinks(b.entries, b.next);
      Drain(Inbox(b.entries - {b.next}, b.next + 1, b.dispatched + [Message(e.msgType, e.data)]))
    else b
  }

  lemma Shrinks<T>(m: map<nat, T>, k: nat)
    requires k in m
    ensures |m - {k}| == |m| - 1
  {
    assert (m - {k}).Keys == m.Keys - {k};
    assert |m.Keys - {k}| == |m.Keys| - 1;
  }

  function Handle(b: Inbox, f: Fragment): Inbox { Drain(b.(entries := Fed(b.entries, f))) }

  // ---- Fragments of honest messages ----

  /** Bytes `from..from + length` of message `index`, in one record. */
  datatype Arrival = Arrival(index: nat, from: nat, length: nat)

  predicate Sendable(msgs: seq<Message>) {
    |msgs| <= 0x1_0000 && forall m | m in msgs :: |m.body| < 0x100_0000
  }

  predicate Piece(msgs: seq<Message>, a: Arrival) {
    a.index < |msgs| && a.from + a.length <= |msgs[a.index].body|
  }

  function FragmentOf(msgs: seq<Message>, a: Arrival): Fragment
    requires Sendable(msgs) && Piece(msgs, a)
  {
    assert msgs[a.index] in msgs;
    CutFrom(msgs[a.index], a)
  }

  /** What the header of a fragment can say. */
  predicate Fits(m: Message, a: Arrival) { a.index <= 0xffff && a.from + a.length <= |m.body| < 0x100_0000 }

  function CutFrom(m: Message, a: Arrival): Fragment
    requires Fits(m, a)
  {
    Fragment(m.msgType, |m.body|, a.index, a.from, a.length, m.body[a.from..a.from + a.length])
  }

  predicate Covered(arrivals: seq<Arrival>, index: nat, p: nat) {
    arrivals != [] &&
    (Covered(arrivals[..|arrivals| - 1], index, p)
     || (arrivals[|arrivals| - 1].index == index && InPiece(arrivals[|arrivals| - 1], p)))
  }

  predicate InPiece(a: Arrival, p: nat) { a.from <= p < a.from + a.length }

  predicate Touched(arrivals: seq<Arrival>, index: nat) {
    arrivals != [] && (Touched(arrivals[..|arrivals| - 1], index) || arrivals[|arrivals| - 1].index == index)
  }

  /** A fragment with the last byte of a message of this length has arrived. */
  predicate ReachedEnd(arrivals: seq<Arrival>, index: nat, length: nat) {
    arrivals != [] &&
    (ReachedEnd(arrivals[..|arrivals| - 1], index, length)
     || (arrivals[|arrivals| - 1].index == index
         && arrivals[|arrivals| - 1].from + arrivals[|arrivals| - 1].length == length))
  }

  /** The first message from `n` on whose last byte has not arrived. */
  function FirstUnfinished(msgs: seq<Message>, n: nat, arrivals: seq<Arrival>): (k: nat)
    ensures n <= k <= Max(n, |msgs|)
    ensures k < |msgs| ==> !ReachedEnd(arrivals, k, |msgs[k].body|)
    ensures forall i | n <= i < k :: ReachedEnd(arrivals, i, |msgs[i].body|)
    decreases |msgs| - n
  {
    if n < |msgs| && ReachedEnd(arrivals, n, |msgs[n].body|) then FirstUnfinished(msgs, n + 1, arrivals) else n
  }

  /** Every byte has arrived that is not zero: the buffer starts out as zeros. */
  ghost predicate Whole(arrivals: seq<Arrival>, index: nat, m: Message) {
    forall p: nat | p < |m.body| :: Covered(arrivals, index, p) || m.body[p] == 0
  }

  /** Every message whose turn comes, from `n` on, is whole. */
  ghost predicate ReadyAreWhole(msgs: seq<Message>, n: nat, arrivals: seq<Arrival>) {
    forall i | n <= i < FirstUnfinished(msgs, n, arrivals) :: Whole(arrivals, i, msgs[i])
  }

  function HandleAll(b: Inbox, msgs: seq<Message>, arrivals: seq<Arrival>): Inbox
    requires Sendable(msgs) && forall a | a in arrivals :: Piece(msgs, a)
  {
    if arrivals == [] then b
    else Handle(HandleAll(b, msgs, arrivals[..|arrivals| - 1]), FragmentOf(msgs, arrivals[|arrivals| - 1]))
  }

  /** The entry holds what arrived of message `m`, and zeros elsewhere. */
  ghost predicate Faithful(e: Entry, m: Message, arrivals: seq<Arrival>, index: nat) {
    && e.msgType == m.msgType && e.length == |m.body| == |e.data| && e.received <= e.length
    && (forall p: nat | p < e.length :: e.data[p] == if Covered(arrivals, index, p) then m.body[p] else 0)
    && (forall p: nat | Covered(arrivals, index, p) :: p < e.received)
    && (Complete(e) && Touched(arrivals, index) <==> ReachedEnd(arrivals, index, |m.body|))
  }

  ghost predicate InboxInv(b: Inbox, msgs: seq<Message>, start: nat, arrivals: seq<Arrival>) {
    && start <= b.next <= Max(start, |msgs|) && |b.dispatched| == b.next - start
    && (forall k | k in b.entries :: k < |msgs|)
    && (forall k | k in b.entries && k >= b.next :: Faithful(b.entries[k], msgs[k], arrivals, k))
    && (forall k: nat | k >= b.next :: k in b.entries <==> Touched(arrivals, k))
    && (forall j | 0 <= j < |b.dispatched| ::
          b.dispatched[j].msgType == msgs[start + j].msgType && |b.dispatched[j].body| == |msgs[start + j].body|)
  }

  ghost predicate Resting(b: Inbox) { b.next in b.entries ==> !Complete(b.entries[b.next]) }

  lemma CoveredPush(arrivals: seq<Arrival>, a: Arrival, index: nat, p: nat)
    ensures Covered(arrivals + [a], index, p) <==> Covered(arrivals, index, p) || (a.index == index && InPiece(a, p))
    ensures Touched(arrivals + [a], index) <==> Touched(arrivals, index) || a.index == index
    ensures ReachedEnd(arrivals + [a], index, p) <==>
        ReachedEnd(arrivals, index, p) || (a.index == index && a.from + a.length == p)
  {
    assert (arrivals + [a])[..|arrivals|] == arrivals;
  }

  /** One fragment goes into its own entry only. */
  lemma FilledIsFaithful(e: Entry, m: Message, arrivals: seq<Arrival>, a: Arrival)
    requires Fits(m, a)
    requires Faithful(e, m, arrivals, a.index) && (Touched(arrivals, a.index) || e.received == 0)
    ensures Faithful(Filled(e, CutFrom(m, a)), m, arrivals + [a], a.index)
  {
    hide Covered, Touched, ReachedEnd;
    CoveredPush(arrivals, a, a.index, |m.body|);
    UnfinishedUntilTouched(arrivals, a.index, |m.body|);
    forall p: nat ensures Covered(arrivals + [a], a.index, p) <==> Covered(arrivals, a.index, p) || InPiece(a, p) {
      CoveredPush(arrivals, a, a.index, p);
    }
    CopiedIn(e, m, a);
  }

  lemma CopiedIn(e: Entry, m: Message, a: Arrival)
    requires Fits(m, a) && |e.data| == |m.body|
    ensures var data := Filled(e, CutFrom(m, a)).data;
      |data| == |m.body| && forall p: nat | p < |m.body| :: data[p] == if InPiece(a, p) then m.body[p] else e.data[p]
  {
    forall p: nat | p < |m.body| && InPiece(a, p) ensures CutFrom(m, a).data[p - a.from] == m.body[p] {
    }
  }

  lemma FreshIsFaithful(m: Message, arrivals: seq<Arrival>, index: nat)
    requires !Touched(arrivals, index)
    ensures Faithful(Entry(m.msgType, |m.body|, Zeros(|m.body|), 0), m, arrivals, index)
  {
    hide Covered, Touched, ReachedEnd;
    UntouchedUnfinished(arrivals, index, |m.body|);
    forall p: nat ensures !Covered(arrivals, index, p) {
      UntouchedUncovered(arrivals, index, p);
    }
  }

  lemma {:induction false} UntouchedUncovered(arrivals: seq<Arrival>, index: nat, p: nat)
    requires !Touched(arrivals, index)
    ensures !Covered(arrivals, index, p)
  {
    if arrivals != [] {
      UntouchedUncovered(arrivals[..|arrivals| - 1], index, p);
    }
  }

  lemma {:induction false} UntouchedUnfinished(arrivals: seq<Arrival>, index: nat, length: nat)
    requires !Touched(arrivals, index)
    ensures !ReachedEnd(arrivals, index, length)
  {
    if arrivals != [] {
      UntouchedUnfinished(arrivals[..|arrivals| - 1], index, length);
    }
  }

  lemma UnfinishedUntilTouched(arrivals: seq<Arrival>, index: nat, length: nat)
    ensures ReachedEnd(arrivals, index, length) ==> Touched(arrivals, index)
  {
    if !Touched(arrivals, index) {
      UntouchedUnfinished(arrivals, index, length);
    }
  }

  lemma StaysWhole(arrivals: seq<Arrival>, a: Arrival, index: nat, m: Message)
    requires Whole(arrivals, index, m) || a == Arrival(index, 0, |m.body|)
    ensures Whole(arrivals + [a], index, m)
  {
    hide Covered;
    forall p: nat | p < |m.body| ensures Covered(arrivals + [a], index, p) || m.body[p] == 0 {
      CoveredPush(arrivals, a, index, p);
    }
  }

  lemma StillFaithful(e: Entry, m: Message, arrivals: seq<Arrival>, a: Arrival, index: nat)
    requires Faithful(e, m, arrivals, index) && a.index != index
    ensures Faithful(e, m, arrivals + [a], index)
  {
    hide Covered, Touched, ReachedEnd;
    CoveredPush(arrivals, a, index, |m.body|);
    forall p: nat ensures Covered(arrivals + [a], index, p) <==> Covered(arrivals, index, p) {
      CoveredPush(arrivals, a, index, p);
    }
  }

  lemma FedKeeps(b: Inbox, msgs: seq<Message>, start: nat, arrivals: seq<Arrival>, a: Arrival)
    requires Sendable(msgs) && Piece(msgs, a) && InboxInv(b, msgs, start, arrivals)
    ensures InboxInv(b.(entries := Fed(b.entries, FragmentOf(msgs, a))), msgs, start, arrivals + [a])
  {
    hide Faithful, Filled, Covered, Touched;
    var b' := b.(entries := Fed(b.entries, FragmentOf(msgs, a)));
    forall k: nat ensures Touched(arrivals + [a], k) <==> Touched(arrivals, k) || a.index == k {
      CoveredPush(arrivals, a, k, 0);
    }
    forall k | k in b'.entries && k >= b'.next
        ensures k < |msgs| && Faithful(b'.entries[k], msgs[k], arrivals + [a], k) {
      if k == a.index {
        if k !in b.entries {
          FreshIsFaithful(msgs[k], arrivals, k);
        }
        FilledIsFaithful(EntryFor(b.entries, FragmentOf(msgs, a)), msgs[k], arrivals, a);
      } else {
        StillFaithful(b.entries[k], msgs[k], arrivals, a, k);
      }
    }
  }

  /** The inbox after the entry next in line has been dispatched. */
  function DispatchNext(b: Inbox): Inbox
    requires b.next in b.entries
  {
    var e := b.entries[b.next];
    Inbox(b.entries - {b.next}, b.next + 1, b.dispatched + [Message(e.msgType, e.data)])
  }

  lemma DispatchKeeps(b: Inbox, msgs: seq<Message>, start: nat, arrivals: seq<Arrival>)
    requires InboxInv(b, msgs, start, arrivals) && b.next in b.entries
    ensures InboxInv(DispatchNext(b), msgs, start, arrivals)
    ensures start <= b.next < |msgs| && |b.dispatched| == b.next - start
    ensures Faithful(b.entries[b.next], msgs[b.next], arrivals, b.next)
  {
    hide Covered, Touched, ReachedEnd;
  }

  lemma {:induction false} DrainKeeps(b: Inbox, msgs: seq<Message>, start: nat, arrivals: seq<Arrival>)
    requires InboxInv(b, msgs, start, arrivals)
    ensures InboxInv(Drain(b), msgs, start, arrivals) && Resting(Drain(b))
    decreases |b.entries|
  {
    hide InboxInv, Faithful;
    if b.next in b.entries && Complete(b.entries[b.next]) {
      Shrinks(b.entries, b.next);
      DispatchKeeps(b, msgs, start, arrivals);
      DrainKeeps(DispatchNext(b), msgs, start, arrivals);
    }
  }

  lemma {:induction false} HandleAllKeeps(b: Inbox, msgs: seq<Message>, start: nat, arrivals: seq<Arrival>)
    requires b == Inbox(map[], start, []) && Sendable(msgs) && forall a | a in arrivals :: Piece(msgs, a)
    ensures InboxInv(HandleAll(b, msgs, arrivals), msgs, start, arrivals) && Resting(HandleAll(b, msgs, arrivals))
  {
    hide InboxInv, Drain, Fed;
    if arrivals == [] {
      Nothing(b, msgs, start);
    } else {
      var before, a := arrivals[..|arrivals| - 1], arrivals[|arrivals| - 1];
      HandleAllKeeps(b, msgs, start, before);
      FedKeeps(HandleAll(b, msgs, before), msgs, start, before, a);
      assert before + [a] == arrivals;
      DrainKeeps(HandleAll(b, msgs, before).(entries := Fed(HandleAll(b, msgs, before).entries, FragmentOf(msgs, a))),
          msgs, start, arrivals);
    }
  }

  lemma Nothing(b: Inbox, msgs: seq<Message>, start: nat)
    requires b == Inbox(map[], start, [])
    ensures InboxInv(b, msgs, start, [])
  {}

  // ---- Main results ----

  /** A dispatched entry equals its message exactly if the message is whole. */
  lemma EntryExactIff(e: Entry, m: Message, arrivals: seq<Arrival>, index: nat)
    requires Faithful(e, m, arrivals, index)
    ensures Message(e.msgType, e.data) == m <==> Whole(arrivals, index, m)
  {
    hide Covered;
    if Whole(arrivals, index, m) {
      assert forall p: nat | p < |m.body| :: e.data[p] == m.body[p];
      assert e.data == m.body;
    }
  }

  lemma CompleteIffReached(b: Inbox, msgs: seq<Message>, start: nat, arrivals: seq<Arrival>)
    requires InboxInv(b, msgs, start, arrivals)
    ensures b.next < |msgs| ==>
      (ReachedEnd(arrivals, b.next, |msgs[b.next].body|) <==> b.next in b.entries && Complete(b.entries[b.next]))
  {
    hide Covered, Touched, ReachedEnd;
    if b.next < |msgs| {
      UnfinishedUntilTouched(arrivals, b.next, |msgs[b.next].body|);
    }
  }

  /** One drain: how far it goes, and whether what it adds is exact. */
  lemma {:induction false} DrainExactIff(b: Inbox, msgs: seq<Message>, start: nat, arrivals: seq<Arrival>)
    requires InboxInv(b, msgs, start, arrivals) && start <= |msgs|
    ensures var b' := Drain(b);
      && b'.next == FirstUnfinished(msgs, b.next, arrivals)
      && (b'.dispatched == msgs[start..b'.next] <==>
          b.dispatched == msgs[start..b.next] && ReadyAreWhole(msgs, b.next, arrivals))
    decreases |b.entries|
  {
    hide InboxInv, Faithful, ReachedEnd, Whole;
    CompleteIffReached(b, msgs, start, arrivals);
    if b.next in b.entries && Complete(b.entries[b.next]) {
      var e := b.entries[b.next];
      Shrinks(b.entries, b.next);
      DispatchKeeps(b, msgs, start, arrivals);
      EntryExactIff(e, msgs[b.next], arrivals, b.next);
      ExtendsExactly(msgs, start, b.dispatched, b.next, Message(e.msgType, e.data));
      DrainExactIff(DispatchNext(b), msgs, start, arrivals);
    } else {
      NoneReady(msgs, b.next, arrivals);
    }
  }

  lemma NoneReady(msgs: seq<Message>, n: nat, arrivals: seq<Arrival>)
    requires n < |msgs| ==> !ReachedEnd(arrivals, n, |msgs[n].body|)
    ensures FirstUnfinished(msgs, n, arrivals) == n && ReadyAreWhole(msgs, n, arrivals)
  {}

  lemma ExtendsExactly(msgs: seq<Message>, start: nat, dispatched: seq<Message>, next: nat, m: Message)
    requires start <= next < |msgs| && |dispatched| == next - start
    ensures dispatched + [m] == msgs[start..next + 1] <==> dispatched == msgs[start..next] && m == msgs[next]
  {
    assert msgs[start..next + 1] == msgs[start..next] + [msgs[next]];
    if dispatched + [m] == msgs[start..next + 1] {
      assert (dispatched + [m])[..next - start] == dispatched && (dispatched + [m])[next - start] == m;
    }
  }

  /** How far dispatching gets depends on the arrivals alone, not on their order. */
  lemma {:induction false} FirstUnfinishedGrows(msgs: seq<Message>, n: nat, arrivals: seq<Arrival>, a: Arrival)
    ensures var k := FirstUnfinished(msgs, n, arrivals);
      FirstUnfinished(msgs, k, arrivals + [a]) == FirstUnfinished(msgs, n, arrivals + [a])
    decreases |msgs| - n
  {
    hide ReachedEnd;
    if n < |msgs| && ReachedEnd(arrivals, n, |msgs[n].body|) {
      CoveredPush(arrivals, a, n, |msgs[n].body|);
      FirstUnfinishedGrows(msgs, n + 1, arrivals, a);
    }
  }

  /** Each message whose turn comes is whole when it does: the arrival that completes it or lets it through. */
  ghost predicate WholeInTurn(msgs: seq<Message>, start: nat, arrivals: seq<Arrival>) {
    arrivals != [] ==>
      var before := arrivals[..|arrivals| - 1];
      && WholeInTurn(msgs, start, before)
      && ReadyAreWhole(msgs, FirstUnfinished(msgs, start, before), arrivals)
  }

  /**
   * For every flight and every sequence of fragments, lost, repeated, reordered, interleaved or left over
   * from before: dispatching stops at the first message whose last byte has not arrived, and the messages
   * dispatched are the messages sent, once each and in order, if and only if each was whole when its turn
   * came.
   */
  lemma {:induction false} DispatchedExactlyIff(msgs: seq<Message>, start: nat, arrivals: seq<Arrival>)
    requires Sendable(msgs) && start <= |msgs| && forall a | a in arrivals :: Piece(msgs, a)
    ensures var b := HandleAll(Inbox(map[], start, []), msgs, arrivals);
      && b.next == FirstUnfinished(msgs, start, arrivals) <= |msgs|
      && (b.dispatched == msgs[start..b.next] <==> WholeInTurn(msgs, start, arrivals))
  {
    hide InboxInv, Drain, Fed, ReachedEnd, ReadyAreWhole;
    if arrivals == [] {
      NothingFinished(msgs, start);
    } else {
      var b0, before, a := Inbox(map[], start, []), arrivals[..|arrivals| - 1], arrivals[|arrivals| - 1];
      DispatchedExactlyIff(msgs, start, before);
      var b := HandleAll(b0, msgs, before);
      HandleAllKeeps(b0, msgs, start, before);
      FedKeeps(b, msgs, start, before, a);
      assert before + [a] == arrivals;
      FirstUnfinishedGrows(msgs, start, before, a);
      DrainExactIff(b.(entries := Fed(b.entries, FragmentOf(msgs, a))), msgs, start, arrivals);
    }
  }

  lemma NothingFinished(msgs: seq<Message>, start: nat)
    ensures FirstUnfinished(msgs, start, []) == start
  {}

  /** Nothing is held back: once every byte of the messages below `m` has arrived, all of them have been dispatched. */
  lemma DispatchedWhenAllArrived(msgs: seq<Message>, start: nat, arrivals: seq<Arrival>, m: nat)
    requires Sendable(msgs) && start <= m <= |msgs| && forall a | a in arrivals :: Piece(msgs, a)
    requires forall i, p: nat | start <= i < m && p < |msgs[i].body| :: Covered(arrivals, i, p)
    requires forall i | start <= i < m :: Touched(arrivals, i)
    ensures HandleAll(Inbox(map[], start, []), msgs, arrivals).next >= m
  {
    hide Covered, Touched;
    var b := HandleAll(Inbox(map[], start, []), msgs, arrivals);
    HandleAllKeeps(Inbox(map[], start, []), msgs, start, arrivals);
    if b.next < m {
      FullyCovered(b.entries[b.next], msgs[b.next], arrivals, b.next);
    }
  }

  lemma FullyCovered(e: Entry, m: Message, arrivals: seq<Arrival>, index: nat)
    requires Faithful(e, m, arrivals, index) && forall p: nat | p < |m.body| :: Covered(arrivals, index, p)
    ensures Complete(e)
  {
    hide Covered;
    assert e.received < |m.body| ==> Covered(arrivals, index, e.received);
  }

  /** A last fragment that overtakes the first makes the receiver dispatch a body with zeros in it. */
  lemma HoleDispatchesZeros(x: byte, y: byte)
    ensures var msgs := [Message(1, [x, y])];
      HandleAll(Inbox(map[], 0, []), msgs, [Arrival(0, 1, 1)]).dispatched == [Message(1, [0, y])]
  {
    var msgs, a, b := [Message(1, [x, y])], Arrival(0, 1, 1), Inbox(map[], 0, []);
    assert [a][..0] == [];
    var f := FragmentOf(msgs, a);
    assert f.data == [y];
    var e := Filled(EntryFor(map[], f), f);
    assert e.data == [0, y];
    assert HandleAll(b, msgs, [a][..0]) == b;
    assert HandleAll(b, msgs, [a]) == Handle(b, f);
    var b1 := Inbox(map[0 := e], 0, []);
    assert Fed(map[], f) == b1.entries;
    assert b1.entries - {0} == map[];
    assert Drain(b1) == Drain(Inbox(map[], 1, [Message(1, e.data)]));
  }

  /** Second, first, third: a body cut in three is dispatched exactly although its middle comes first. */
  lemma MiddleFirstIsExact(m: Message)
    requires |m.body| == 3
    ensures HandleAll(Inbox(map[], 0, []), [m], [Arrival(0, 1, 1), Arrival(0, 0, 1), Arrival(0, 2, 1)]).dispatched
        == [m]
  {
    hide HandleAll, FirstUnfinished, ReadyAreWhole, WholeInTurn;
    var msgs, a, b, c := [m], Arrival(0, 1, 1), Arrival(0, 0, 1), Arrival(0, 2, 1);
    DispatchedExactlyIff(msgs, 0, [a, b, c]);
    NothingFinished(msgs, 0);
    ThreeArrivals(m, a, b, c);
    assert msgs[0..1] == msgs && [a, b, c][..2] == [a, b] && [a, b][..1] == [a] && [a][..0] == [];
    NoneReady(msgs, 0, [a]);
    NoneReady(msgs, 0, [a, b]);
    InTurnPush(msgs, 0, [], a);
    InTurnPush(msgs, 0, [a], b);
    InTurnPush(msgs, 0, [a, b], c);
    assert [] + [a] == [a] && [a] + [b] == [a, b] && [a, b] + [c] == [a, b, c];
  }

  lemma InTurnPush(msgs: seq<Message>, start: nat, arrivals: seq<Arrival>, a: Arrival)
    ensures WholeInTurn(msgs, start, [])
    ensures WholeInTurn(msgs, start, arrivals + [a]) <==>
      WholeInTurn(msgs, start, arrivals)
      && ReadyAreWhole(msgs, FirstUnfinished(msgs, start, arrivals), arrivals + [a])
  {
    hide ReadyAreWhole, FirstUnfinished;
    assert (arrivals + [a])[..|arrivals|] == arrivals;
  }

  /** Middle, first, last: nothing is finished before the last, and then everything is there. */
  lemma ThreeArrivals(m: Message, a: Arrival, b: Arrival, c: Arrival)
    requires |m.body| == 3 && a == Arrival(0, 1, 1) && b == Arrival(0, 0, 1) && c == Arrival(0, 2, 1)
    ensures !ReachedEnd([a], 0, 3) && !ReachedEnd([a, b], 0, 3)
    ensures FirstUnfinished([m], 0, [a, b, c]) == 1 && ReadyAreWhole([m], 0, [a, b, c])
  {
    hide Covered, ReachedEnd, Touched;
    NothingReached(3);
    CoveredPush([], a, 0, 3);
    CoveredPush([a], b, 0, 3);
    CoveredPush([a, b], c, 0, 3);
    assert [] + [a] == [a] && [a] + [b] == [a, b] && [a, b] + [c] == [a, b, c];
    forall p: nat | p < 3 ensures Covered([a, b, c], 0, p) {
      CoveredPush([], a, 0, p);
      CoveredPush([a], b, 0, p);
      CoveredPush([a, b], c, 0, p);
    }
    assert Whole([a, b, c], 0, m);
  }

  lemma NothingReached(length: nat)
    ensures !ReachedEnd([], 0, length)
  {}

  // ---- Conditions on the arrivals alone ----

  /** Whatever precedes a fragment in its message has arrived up to it. */
  predicate Gapless(arrivals: seq<Arrival>) {
    arrivals != [] ==>
      var before, a := arrivals[..|arrivals| - 1], arrivals[|arrivals| - 1];
      Gapless(before) && (a.from == 0 || Covered(before, a.index, a.from - 1))
  }

  /** Without gaps all that precedes a byte that arrived has arrived. */
  lemma {:induction false} GaplessCovers(arrivals: seq<Arrival>, index: nat, p: nat, q: nat)
    requires Gapless(arrivals) && Covered(arrivals, index, p) && q <= p
    ensures Covered(arrivals, index, q)
  {
    var before, a := arrivals[..|arrivals| - 1], arrivals[|arrivals| - 1];
    if Covered(before, index, p) {
      GaplessCovers(before, index, p, q);
    } else if q < a.from {
      GaplessCovers(before, index, a.from - 1, q);
    }
  }

  lemma {:induction false} GaplessReachesEnd(arrivals: seq<Arrival>, index: nat, length: nat, q: nat)
    requires Gapless(arrivals) && ReachedEnd(arrivals, index, length) && q < length
    ensures Covered(arrivals, index, q)
  {
    var before, a := arrivals[..|arrivals| - 1], arrivals[|arrivals| - 1];
    if ReachedEnd(before, index, length) {
      GaplessReachesEnd(before, index, length, q);
    } else if q < a.from {
      GaplessCovers(before, index, a.from - 1, q);
    }
  }

  lemma {:induction false} GaplessIsWholeInTurn(msgs: seq<Message>, start: nat, arrivals: seq<Arrival>)
    requires Gapless(arrivals)
    ensures WholeInTurn(msgs, start, arrivals)
  {
    hide Covered, ReachedEnd, FirstUnfinished;
    if arrivals != [] {
      var before := arrivals[..|arrivals| - 1];
      GaplessIsWholeInTurn(msgs, start, before);
      var n := FirstUnfinished(msgs, start, before);
      forall i, p: nat | n <= i < FirstUnfinished(msgs, n, arrivals) && p < |msgs[i].body|
          ensures Covered(arrivals, i, p) {
        GaplessReachesEnd(arrivals, i, |msgs[i].body|, p);
      }
    }
  }

  /** Fragments a message of this length is sent in: one if it is empty. */
  function PieceCount(total: nat): (n: nat)
    ensures n >= 1 && MAX_FRAGMENT * (n - 1) <= total <= MAX_FRAGMENT * n
  {
    if total == 0 then 1 else (total + MAX_FRAGMENT - 1) / MAX_FRAGMENT
  }

  function Min(a: nat, b: nat): nat { if a <= b then a else b }

  function PieceOf(index: nat, total: nat, j: nat): Arrival
    requires MAX_FRAGMENT * j <= total
  {
    Arrival(index, MAX_FRAGMENT * j, Min(MAX_FRAGMENT, total - MAX_FRAGMENT * j))
  }

  /** Everything sent up to piece `j` of message `index`, from message `start` on. */
  function Sent(msgs: seq<Message>, start: nat, index: nat, j: nat): (sent: seq<Arrival>)
    requires start <= index <= |msgs|
    requires if index < |msgs| then MAX_FRAGMENT * (j - 1) <= |msgs[index].body| else j == 0
    decreases index, j
  {
    if j > 0 then Sent(msgs, start, index, j - 1) + [PieceOf(index, |msgs[index].body|, j - 1)]
    else if index > start then Sent(msgs, start, index - 1, PieceCount(|msgs[index - 1].body|))
    else []
  }

  lemma {:induction false} SentCovers(msgs: seq<Message>, start: nat, index: nat, j: nat, i: nat, p: nat)
    requires start <= index <= |msgs| && start <= i <= index && i < |msgs| && p < |msgs[i].body|
    requires if index < |msgs| then MAX_FRAGMENT * (j - 1) <= |msgs[index].body| else j == 0
    requires i == index ==> p < MAX_FRAGMENT * j
    ensures Covered(Sent(msgs, start, index, j), i, p)
    decreases index, j
  {
    if j > 0 {
      if i < index || p < MAX_FRAGMENT * (j - 1) {
        SentCovers(msgs, start, index, j - 1, i, p);
      }
      CoveredPush(Sent(msgs, start, index, j - 1), PieceOf(index, |msgs[index].body|, j - 1), i, p);
    } else {
      SentCovers(msgs, start, index - 1, PieceCount(|msgs[index - 1].body|), i, p);
    }
  }

  lemma {:induction false} SentIsGapless(msgs: seq<Message>, start: nat, index: nat, j: nat)
    requires start <= index <= |msgs|
    requires if index < |msgs| then MAX_FRAGMENT * (j - 1) <= |msgs[index].body| else j == 0
    ensures Gapless(Sent(msgs, start, index, j))
    ensures forall a | a in Sent(msgs, start, index, j) :: Piece(msgs, a)
    ensures forall i | start <= i < index || (i == index && j > 0) :: Touched(Sent(msgs, start, index, j), i)
    decreases index, j
  {
    hide Covered;
    if j > 0 {
      var before, a := Sent(msgs, start, index, j - 1), PieceOf(index, |msgs[index].body|, j - 1);
      SentIsGapless(msgs, start, index, j - 1);
      assert (before + [a])[..|before|] == before;
      if j > 1 {
        SentCovers(msgs, start, index, j - 1, index, a.from - 1);
      }
    } else if index > start {
      SentIsGapless(msgs, start, index - 1, PieceCount(|msgs[index - 1].body|));
    }
  }

  /** Fragmenting a flight and putting it back together in order gives every message back, empty ones included. */
  lemma FlightRoundTrip(msgs: seq<Message>, start: nat)
    requires Sendable(msgs) && start <= |msgs|
    ensures forall a | a in Sent(msgs, start, |msgs|, 0) :: Piece(msgs, a)
    ensures HandleAll(Inbox(map[], start, []), msgs, Sent(msgs, start, |msgs|, 0)).dispatched == msgs[start..]
  {
    hide Covered, Touched, Gapless, WholeInTurn, FirstUnfinished, HandleAll, Sent;
    var arrivals := Sent(msgs, start, |msgs|, 0);
    SentIsGapless(msgs, start, |msgs|, 0);
    GaplessIsWholeInTurn(msgs, start, arrivals);
    DispatchedExactlyIff(msgs, start, arrivals);
    forall i, p: nat | start <= i < |msgs| && p < |msgs[i].body| ensures Covered(arrivals, i, p) {
      SentCovers(msgs, start, |msgs|, 0, i, p);
    }
    DispatchedWhenAllArrived(msgs, start, arrivals, |msgs|);
  }
}
