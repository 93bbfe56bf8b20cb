/** The gap-ack blocks of a SACK (src/sctp/association.ts:446-497; section 3.3.4 of RFC 4960). */
module GapBlocks {
  import opened Bytes
  import opened Serial
  import opened Chunks
  import opened Association

  // ---- Soundness, for any order of the keys: a block covers listed TSNs only ----

  lemma {:induction false} RunsCoverListed(tsns: seq<u32>, i: nat, tsn: u32)
    requires i < |Runs(tsns)|
    requires Ahead(Runs(tsns)[i].0, tsn) <= Ahead(Runs(tsns)[i].0, Runs(tsns)[i].1)
    ensures tsn in tsns
  {
    var n, runs := |tsns| - 1, Runs(tsns[..|tsns| - 1]);
    var last := |Runs(tsns)| - 1;
    if i < last {
      RunsCoverListed(tsns[..n], i, tsn);
    } else if runs != [] && tsns[n] == ToUint32(runs[|runs| - 1].1 as int + 1) {
      if tsn != tsns[n] {
        RunExtended(runs[last].0, runs[last].1, tsn);
        RunsCoverListed(tsns[..n], i, tsn);
      }
    } else {
      assert tsn == tsns[n];
    }
  }

  lemma RunExtended(first: u32, last: u32, tsn: u32)
    requires Ahead(first, tsn) <= Ahead(first, ToUint32(last as int + 1)) && tsn != ToUint32(last as int + 1)
    ensures Ahead(first, tsn) <= Ahead(first, last)
  {}

  lemma {:induction false} OffsetsComeFromRuns(cum: u32, runs: seq<(u32, u32)>, b: (u32, u32))
    requires b in Offsets(cum, runs)
    ensures exists i :: 0 <= i < |runs| && b == (Ahead(cum, runs[i].0), Ahead(cum, runs[i].1))
  {
    var n := |runs| - 1;
    if b in Offsets(cum, runs[..n]) {
      OffsetsComeFromRuns(cum, runs[..n], b);
      var i :| 0 <= i < |runs[..n]| && b == (Ahead(cum, runs[..n][i].0), Ahead(cum, runs[..n][i].1));
      assert runs[i] == runs[..n][i];
    } else {
      assert b == (Ahead(cum, runs[n].0), Ahead(cum, runs[n].1));
    }
  }

  lemma AheadOfBoth(cum: u32, first: u32, last: u32, tsn: u32)
    requires Ahead(cum, first) <= Ahead(cum, tsn) <= Ahead(cum, last)
    ensures Ahead(first, tsn) <= Ahead(first, last)
  {
    hide Ahead;
    AheadByCases(cum, first);
    AheadByCases(cum, last);
    AheadByCases(cum, tsn);
    AheadByCases(first, tsn);
    AheadByCases(first, last);
  }

  /** Under either comparison and whatever order the sort left, a SACK acknowledges buffered TSNs only. */
  lemma BlocksCoverKeysOnly(cum: u32, sorted: seq<u32>, tsn: u32)
    requires SackFor(cum, sorted).Some? && InBlocks(SackFor(cum, sorted).value, tsn)
    ensures tsn in sorted
  {
    var blocks, sack := Blocks(cum, sorted), SackFor(cum, sorted).value;
    var i :| 0 <= i < |sack.gapBlocks| && sack.gapBlocks[i].0 <= Ahead(cum, tsn) <= sack.gapBlocks[i].1;
    assert blocks[i] in blocks;
    OffsetsComeFromRuns(cum, Runs(sorted), blocks[i]);
    var k :| 0 <= k < |Runs(sorted)| && blocks[i] == (Ahead(cum, Runs(sorted)[k].0), Ahead(cum, Runs(sorted)[k].1));
    AheadOfBoth(cum, Runs(sorted)[k].0, Runs(sorted)[k].1, tsn);
    RunsCoverListed(sorted, k, tsn);
  }

  // ---- Exactness, for keys sorted by their distance from the cumulative TSN ----

  ghost predicate Ascending(cum: u32, tsns: seq<u32>) {
    && (forall i | 0 <= i < |tsns| :: Ahead(cum, tsns[i]) >= 2)
    && (forall i, j | 0 <= i < j < |tsns| :: Ahead(cum, tsns[i]) < Ahead(cum, tsns[j]))
  }

  /** Increasing, disjoint and not even adjacent. */
  ghost predicate Separated(blocks: seq<(u32, u32)>) {
    && (forall i | 0 <= i < |blocks| :: 2 <= blocks[i].0 <= blocks[i].1)
    && (forall i, j | 0 <= i < j < |blocks| :: blocks[i].1 as int + 1 < blocks[j].0)
  }

  /** The TSN at offset `o` from the cumulative one. */
  function At(cum: u32, o: int): u32 { ToUint32(cum + o) }

  ghost predicate Covered(blocks: seq<(u32, u32)>, o: int) {
    exists i :: 0 <= i < |blocks| && blocks[i].0 <= o <= blocks[i].1
  }

  function AllOffsets(cum: u32, runs: seq<(u32, u32)>): (blocks: seq<(u32, u32)>)
    ensures |blocks| == |runs|
  {
    if runs == [] then []
    else AllOffsets(cum, runs[..|runs| - 1]) + [(Ahead(cum, runs[|runs| - 1].0), Ahead(cum, runs[|runs| - 1].1))]
  }

  lemma NextOffset(cum: u32, prev: u32, tsn: u32)
    requires Ahead(cum, prev) < Ahead(cum, tsn)
    ensures tsn == ToUint32(prev as int + 1) <==> Ahead(cum, tsn) == Ahead(cum, prev) + 1
  {}

  ghost predicate Lists(cum: u32, tsns: seq<u32>, o: int) {
    exists i :: 0 <= i < |tsns| && Ahead(cum, tsns[i]) == o
  }

  /** The maximal runs of an ascending list are separated and cover exactly the listed offsets. */
  lemma {:induction false} RunsExact(cum: u32, tsns: seq<u32>)
    requires Ascending(cum, tsns)
    ensures var blocks := AllOffsets(cum, Runs(tsns));
      && Separated(blocks)
      && (forall o: int :: Covered(blocks, o) <==> Lists(cum, tsns, o))
  {
    hide Ahead, Runs, AllOffsets, Lists, Grown;
    if tsns == [] {
      NoRuns(cum, tsns);
    } else {
      var n := |tsns| - 1;
      RunsExact(cum, tsns[..n]);
      var shorter, blocks, o := AllOffsets(cum, Runs(tsns[..n])), AllOffsets(cum, Runs(tsns)), Ahead(cum, tsns[n]);
      LastRun(cum, tsns);
      CoverStep(shorter, blocks, o);
      forall x: int ensures Covered(blocks, x) <==> Lists(cum, tsns, x) {
        ListsPush(cum, tsns, x);
      }
    }
  }

  lemma NoRuns(cum: u32, tsns: seq<u32>)
    requires tsns == []
    ensures AllOffsets(cum, Runs(tsns)) == [] && forall o: int :: !Lists(cum, tsns, o)
  {}

  lemma ListsPush(cum: u32, tsns: seq<u32>, x: int)
    requires tsns != []
    ensures Lists(cum, tsns, x) <==> Lists(cum, tsns[..|tsns| - 1], x) || x == Ahead(cum, tsns[|tsns| - 1])
  {
    hide Ahead;
    var n := |tsns| - 1;
    if Lists(cum, tsns[..n], x) {
      var i :| 0 <= i < n && Ahead(cum, tsns[..n][i]) == x;
      assert Ahead(cum, tsns[i]) == x;
    }
    if Lists(cum, tsns, x) && x != Ahead(cum, tsns[n]) {
      var i :| 0 <= i < |tsns| && Ahead(cum, tsns[i]) == x;
      assert Ahead(cum, tsns[..n][i]) == x;
    }
  }

  /** Appending a TSN either lengthens the last run by one or opens a new run beyond a hole. */
  lemma LastRun(cum: u32, tsns: seq<u32>)
    requires tsns != [] && Ascending(cum, tsns)
    ensures var shorter, blocks := AllOffsets(cum, Runs(tsns[..|tsns| - 1])), AllOffsets(cum, Runs(tsns));
      Grown(shorter, blocks, Ahead(cum, tsns[|tsns| - 1]))
  {
    hide Ahead, ToUint32;
    var n := |tsns| - 1;
    var runs := Runs(tsns[..n]);
    var m := |runs| - 1;
    if runs == [] {
      assert tsns[..n] == [];
      AllOffsetsPush(cum, runs, (tsns[n], tsns[n]));
    } else {
      assert runs[m].1 == tsns[n - 1];
      NextOffset(cum, tsns[n - 1], tsns[n]);
      AllOffsetsPush(cum, runs, (tsns[n], tsns[n]));
      AllOffsetsPush(cum, runs[..m], (runs[m].0, tsns[n]));
    }
  }

  lemma AllOffsetsPush(cum: u32, runs: seq<(u32, u32)>, run: (u32, u32))
    ensures AllOffsets(cum, runs + [run]) == AllOffsets(cum, runs) + [(Ahead(cum, run.0), Ahead(cum, run.1))]
  {
    assert (runs + [run])[..|runs|] == runs;
  }

  ghost predicate Grown(shorter: seq<(u32, u32)>, blocks: seq<(u32, u32)>, o: u32) {
    var m := |shorter| - 1;
    || (m >= 0 && o == shorter[m].1 as int + 1 && blocks == shorter[..m] + [(shorter[m].0, o)])
    || ((m >= 0 ==> o > shorter[m].1 as int + 1) && o >= 2 && blocks == shorter + [(o, o)])
  }

  lemma CoverStep(shorter: seq<(u32, u32)>, blocks: seq<(u32, u32)>, o: u32)
    requires Separated(shorter) && Grown(shorter, blocks, o)
    ensures Separated(blocks)
    ensures forall x: int :: Covered(blocks, x) <==> Covered(shorter, x) || x == o
  {
    forall x: int ensures Covered(blocks, x) <==> Covered(shorter, x) || x == o {
      CoverStepAt(shorter, blocks, o, x);
    }
  }

  lemma CoverStepAt(shorter: seq<(u32, u32)>, blocks: seq<(u32, u32)>, o: u32, x: int)
    requires Separated(shorter) && Grown(shorter, blocks, o)
    ensures Covered(blocks, x) <==> Covered(shorter, x) || x == o
  {
    var n := |blocks| - 1;
    if Covered(shorter, x) {
      var i :| 0 <= i < |shorter| && shorter[i].0 <= x <= shorter[i].1;
      assert blocks[i].0 <= x <= blocks[i].1;
    }
    if Covered(blocks, x) && x != o {
      var i :| 0 <= i < |blocks| && blocks[i].0 <= x <= blocks[i].1;
      assert shorter[i].0 <= x <= shorter[i].1;
    }
    assert blocks[n].0 <= o <= blocks[n].1;
  }

  /** Skipping the runs that end too far ahead keeps a prefix of them. */
  lemma {:induction false} OffsetsArePrefix(cum: u32, runs: seq<(u32, u32)>)
    requires Separated(AllOffsets(cum, runs))
    ensures var all, kept := AllOffsets(cum, runs), Offsets(cum, runs);
      && kept <= all
      && forall i | |kept| <= i < |all| :: all[i].1 > 0xffff
  {
    if runs != [] {
      var n, all := |runs| - 1, AllOffsets(cum, runs);
      assert all[..n] == AllOffsets(cum, runs[..n]);
      assert forall i | 0 <= i < n :: all[..n][i] == all[i];
      OffsetsArePrefix(cum, runs[..n]);
      var kept := Offsets(cum, runs[..n]);
      if |kept| < n {
        assert all[n].1 > all[|kept|].1 > 0xffff;
      }
    }
  }

  /** `tsn` is buffered and the run of buffered TSNs it lies in ends at most 0xffff ahead. */
  ghost predicate Reportable(cum: u32, keys: set<u32>, tsn: u32) {
    tsn in keys && exists e :: RunEndsAt(cum, keys, Ahead(cum, tsn), e)
  }

  ghost predicate RunEndsAt(cum: u32, keys: set<u32>, from: int, e: int) {
    && from <= e <= 0xffff
    && (forall o | from <= o <= e :: At(cum, o) in keys)
    && At(cum, e + 1) !in keys
  }

  lemma ListsIsMember(cum: u32, sorted: seq<u32>, keys: set<u32>, o: int)
    requires Elements(sorted) == keys && 0 <= o < MODULUS
    ensures Lists(cum, sorted, o) <==> At(cum, o) in keys
  {
    AheadOfSum(cum, o);
    if Lists(cum, sorted, o) {
      var i :| 0 <= i < |sorted| && Ahead(cum, sorted[i]) == o;
      SumOfAhead(cum, sorted[i]);
    }
    if At(cum, o) in keys {
      var i :| 0 <= i < |sorted| && sorted[i] == At(cum, o);
      assert Ahead(cum, sorted[i]) == o;
    }
  }

  /**
   * The blocks of a SACK are increasing, disjoint, non-adjacent and encodable, and expanding them
   * gives exactly the buffered TSNs whose run ends within reach of a 16-bit offset.
   */
  lemma BlocksExact(cum: u32, keys: set<u32>, sorted: seq<u32>)
    requires Elements(sorted) == keys && Ascending(cum, sorted) && |sorted| <= 0xffff
    ensures SackFor(cum, sorted).Some? && Separated(Blocks(cum, sorted))
    ensures forall tsn: u32 :: InBlocks(SackFor(cum, sorted).value, tsn) <==> Reportable(cum, keys, tsn)
  {
    hide Runs, AllOffsets, Offsets, Lists, RunEndsAt, Ascending, Ahead, InBlocks;
    RunsExact(cum, sorted);
    OffsetsArePrefix(cum, Runs(sorted));
    assert forall b | b in Blocks(cum, sorted) :: b.0 <= b.1;
    forall tsn: u32 ensures InBlocks(SackFor(cum, sorted).value, tsn) <==> Reportable(cum, keys, tsn) {
      InBlocksIsCovered(cum, sorted, tsn);
      CoveredIsReportable(cum, keys, sorted, tsn);
    }
  }

  lemma InBlocksIsCovered(cum: u32, sorted: seq<u32>, tsn: u32)
    requires SackFor(cum, sorted).Some?
    ensures InBlocks(SackFor(cum, sorted).value, tsn) <==> Covered(Blocks(cum, sorted), Ahead(cum, tsn))
  {
    hide Runs, Offsets, Ahead;
    var sack, blocks := SackFor(cum, sorted).value, Blocks(cum, sorted);
    if Covered(blocks, Ahead(cum, tsn)) {
      var i :| 0 <= i < |blocks| && blocks[i].0 <= Ahead(cum, tsn) <= blocks[i].1;
      assert sack.gapBlocks[i] in sack.gapBlocks;
    }
    if InBlocks(sack, tsn) {
      var i :| 0 <= i < |sack.gapBlocks| && sack.gapBlocks[i].0 <= Ahead(cum, tsn) <= sack.gapBlocks[i].1;
      assert blocks[i].0 <= Ahead(cum, tsn) <= blocks[i].1;
    }
  }

  lemma CoveredIsReportable(cum: u32, keys: set<u32>, sorted: seq<u32>, tsn: u32)
    requires Elements(sorted) == keys && Ascending(cum, sorted)
    ensures Covered(Blocks(cum, sorted), Ahead(cum, tsn)) <==> Reportable(cum, keys, tsn)
  {
    hide Blocks, RunEndsAt, Ascending, Ahead;
    var o, blocks := Ahead(cum, tsn), Blocks(cum, sorted);
    SumOfAhead(cum, tsn);
    assert At(cum, o) == tsn;
    if Covered(blocks, o) {
      var i :| 0 <= i < |blocks| && blocks[i].0 <= o <= blocks[i].1;
      BlockIsRun(cum, keys, sorted, i, o);
    }
    if Reportable(cum, keys, tsn) {
      var e :| RunEndsAt(cum, keys, o, e);
      RunIsBlock(cum, keys, sorted, o, e);
    }
  }

  lemma BlockIsRun(cum: u32, keys: set<u32>, sorted: seq<u32>, i: nat, o: int)
    requires Elements(sorted) == keys && Ascending(cum, sorted)
    requires i < |Blocks(cum, sorted)| && Blocks(cum, sorted)[i].0 <= o <= Blocks(cum, sorted)[i].1
    ensures At(cum, o) in keys && RunEndsAt(cum, keys, o, Blocks(cum, sorted)[i].1)
  {
    hide Ahead, Runs, AllOffsets, Offsets, Lists, At, Ascending;
    var all, e := AllOffsets(cum, Runs(sorted)), Blocks(cum, sorted)[i].1;
    RunsExact(cum, sorted);
    OffsetsArePrefix(cum, Runs(sorted));
    assert all[i] == Blocks(cum, sorted)[i];
    assert Blocks(cum, sorted)[i] in Blocks(cum, sorted);
    forall x | o <= x <= e ensures At(cum, x) in keys {
      assert Covered(all, x);
      ListsIsMember(cum, sorted, keys, x);
    }
    NotCovered(all, i);
    ListsIsMember(cum, sorted, keys, e as int + 1);
  }

  lemma NotCovered(all: seq<(u32, u32)>, i: nat)
    requires Separated(all) && i < |all|
    ensures !Covered(all, all[i].1 as int + 1)
  {}

  lemma RunIsBlock(cum: u32, keys: set<u32>, sorted: seq<u32>, o: int, e: int)
    requires Elements(sorted) == keys && Ascending(cum, sorted)
    requires 0 <= o && RunEndsAt(cum, keys, o, e)
    ensures Covered(Blocks(cum, sorted), o)
  {
    hide Ahead, Runs, AllOffsets, Offsets, Lists, At, Ascending;
    var all := AllOffsets(cum, Runs(sorted));
    RunsExact(cum, sorted);
    OffsetsArePrefix(cum, Runs(sorted));
    ListsIsMember(cum, sorted, keys, o);
    var i :| 0 <= i < |all| && all[i].0 <= o <= all[i].1;
    if all[i].1 > e {
      assert Covered(all, e + 1);
      ListsIsMember(cum, sorted, keys, e + 1);
    }
    assert Blocks(cum, sorted)[i] == all[i];
  }

  // ---- The sort delivers such keys under the intended comparison ----

  lemma SortingAscends(cum: u32, keys: set<u32>, sorted: seq<u32>)
    requires IsSorting(Intended, keys, sorted)
    requires forall k | k in keys :: 0 < Ahead(ToUint32(cum + 1), k) <= HALF
    ensures Ascending(cum, sorted)
  {
    var e := ToUint32(cum + 1);
    WindowIsConsistent(e, keys);
    forall i | 0 <= i < |sorted| ensures Ahead(cum, sorted[i]) == Ahead(e, sorted[i]) + 1 && sorted[i] in keys {
      assert sorted[i] in keys;
      AheadFromNext(cum, sorted[i]);
    }
    forall i, j | 0 <= i < j < |sorted| ensures Ahead(cum, sorted[i]) < Ahead(cum, sorted[j]) {
      InWindow(e, sorted[i], sorted[j]);
    }
  }

  lemma WindowIsConsistent(e: u32, keys: set<u32>)
    requires forall k | k in keys :: 0 < Ahead(e, k) <= HALF
    ensures Consistent(Intended, keys)
  {
    hide Ahead, SnLt;
    forall a, b | a in keys && b in keys ensures SnLt(Intended, a, b) <==> a != b && !SnLt(Intended, b, a) {
      ComparatorIsTotalOrder(e, a, b, a);
      ComparatorIsTotalOrder(e, b, a, b);
    }
    forall a, b, c | a in keys && b in keys && c in keys && SnLt(Intended, a, b) && SnLt(Intended, b, c)
        ensures SnLt(Intended, a, c) {
      ComparatorIsTotalOrder(e, a, b, c);
    }
  }

  // ---- Buffered TSNs always lie in that window, whatever arrives ----

  ghost predicate Windowed(rx: Receiver) {
    forall k | k in rx.outOfOrder :: 0 < Ahead(Expected(rx), k) <= HALF
  }

  lemma AheadAfterNext(e: u32, k: u32)
    requires k != e
    ensures Ahead(ToUint32(e as int + 1), k) == Ahead(e, k) - 1
  {
    hide Ahead;
    AheadByCases(e, k);
    AheadByCases(ToUint32(e as int + 1), k);
    assert ToUint32(e as int + 1) == if e == MODULUS - 1 then 0 else e + 1;
  }

  lemma {:induction false} DrainStaysWindowed(rx: Receiver)
    requires forall k | k in rx.outOfOrder :: Ahead(Expected(rx), k) <= HALF
    ensures Windowed(Drain(rx))
    decreases |rx.outOfOrder|
  {
    hide Ahead, Consume;
    var e := Expected(rx);
    if e in rx.outOfOrder {
      Shrinks(rx.outOfOrder, e);
      var rx' := Accept(rx.(outOfOrder := rx.outOfOrder - {e}), e, rx.outOfOrder[e]);
      forall k | k in rx'.outOfOrder ensures Ahead(Expected(rx'), k) <= HALF {
        AheadAfterNext(e, k);
      }
      DrainStaysWindowed(rx');
    } else {
      forall k | k in rx.outOfOrder ensures Ahead(e, k) != 0 {
        SumOfAhead(e, k);
      }
    }
  }

  /** No network assumption is needed: any chunk at all may arrive. */
  lemma StaysWindowed(rx: Receiver, d: Data)
    requires Windowed(rx)
    ensures Windowed(Deliver(Intended, rx, d))
  {
    hide Ahead, Consume, Drain, SnLtIntended;
    var e := Expected(rx);
    NotBeforeIsInWindow(e, d.tsn);
    if !SnLt(Intended, d.tsn, e) {
      if d.tsn == e {
        var rx' := Accept(rx, d.tsn, d);
        forall k | k in rx'.outOfOrder ensures Ahead(Expected(rx'), k) <= HALF {
          AheadByCases(e, e);
          AheadAfterNext(e, k);
        }
        DrainStaysWindowed(rx');
      } else {
        SumOfAhead(e, d.tsn);
      }
    }
  }

  lemma AheadFromNext(cum: u32, k: u32)
    requires Ahead(ToUint32(cum + 1), k) <= HALF
    ensures Ahead(cum, k) == Ahead(ToUint32(cum + 1), k) + 1
  {
    hide Ahead;
    AheadByCases(cum, k);
    AheadByCases(ToUint32(cum + 1), k);
    assert ToUint32(cum + 1) == if cum == MODULUS - 1 then 0 else cum + 1;
  }

  lemma SortedLength(cmp: Comparison, keys: set<u32>, sorted: seq<u32>)
    requires IsSorting(cmp, keys, sorted)
    ensures |sorted| == |keys|
  {
    DistinctLength(sorted);
  }

  lemma {:induction false} DistinctLength(s: seq<u32>)
    requires forall i, j | 0 <= i < j < |s| :: s[i] != s[j]
    ensures |Elements(s)| == |s|
  {
    if s == [] {
      assert Elements(s) == {};
    } else {
      var n := |s| - 1;
      DistinctLength(s[..n]);
      assert s == s[..n] + [s[n]];
      assert Elements(s) == Elements(s[..n]) + {s[n]};
    }
  }
}
