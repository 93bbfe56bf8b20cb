/** A queue of byte buffers read across their boundaries (src/foundation/ByteBufferQueue.ts). */
module ByteBufferQueues {
  import opened Bytes

  function TotalSize(buffers: seq<Buffer>): nat {
    if buffers == [] then 0 else |buffers[0]| + TotalSize(buffers[1..])
  }

  lemma {:induction false} ConcatLength(buffers: seq<Buffer>)
    ensures |Concat(buffers)| == TotalSize(buffers)
  {
    if buffers != [] {
      ConcatLength(buffers[1..]);
    }
  }

  function Min(a: int, b: int): int { if a <= b then a else b }

  /** What is left of the buffers from `index` on, the first of them read up to `offset`. */
  function Rest(buffers: seq<Buffer>, index: nat, offset: nat): Buffer
    requires index <= |buffers| && (if index < |buffers| then offset <= |buffers[index]| else offset == 0)
  {
    if index == |buffers| then [] else buffers[index][offset..] + Concat(buffers[index + 1..])
  }

  predicate Tidy(buffers: seq<Buffer>, offset: nat) {
    && (forall b | b in buffers :: b != [])
    && if buffers == [] then offset == 0 else offset < |buffers[0]|
  }

  class ByteBufferQueue {
    var size: nat
    var buffers: seq<Buffer>
    var frontBufferOffset: nat

    /** The four documented invariants. */
    ghost predicate Valid()
      reads this
    {
      && size == TotalSize(buffers) - frontBufferOffset
      && Tidy(buffers, frontBufferOffset)
    }

    /** The bytes that can be read, in order. */
    ghost function Contents(): (bytes: Buffer)
      requires Valid()
      reads this
      ensures |bytes| == size
    {
      ConcatLength(buffers);
      Concat(buffers)[frontBufferOffset..]
    }

    constructor ()
      ensures Valid() && Contents() == []
    {
      size, buffers, frontBufferOffset := 0, [], 0;
    }

    method Append(buffer: Buffer)
      requires Valid()
      modifies this
      ensures Valid() && Contents() == old(Contents()) + buffer
    {
      if |buffer| == 0 {
        return;
      }
      ConcatPush(buffers, buffer);
      ConcatLength(buffers);
      ConcatLength(buffers + [buffer]);
      size := size + |buffer|;
      buffers := buffers + [buffer];
      assert buffers[0] == if old(buffers) == [] then buffer else old(buffers)[0];
    }

    method Clear()
      requires Valid()
      modifies this
      ensures Valid() && Contents() == []
    {
      buffers, frontBufferOffset, size := [], 0, 0;
    }

    /** The development check throws exactly when an invariant is broken. */
    method CheckInvariants() returns (threw: bool)
      ensures threw <==> !Valid()
    {
      var sum := 0;
      for i := 0 to |buffers|
        invariant forall j | 0 <= j < i :: buffers[j] != []
        invariant sum + TotalSize(buffers[i..]) == TotalSize(buffers)
      {
        assert buffers[i] in buffers;
        if |buffers[i]| == 0 {
          return true;
        }
        assert buffers[i..][1..] == buffers[i + 1..];
        sum := sum + |buffers[i]|;
      }
      if size != sum - frontBufferOffset {
        return true;
      }
      return if |buffers| == 0 then frontBufferOffset != 0 else frontBufferOffset >= |buffers[0]|;
    }

    /** Moves as many bytes as fit from the front of the queue into `out`. */
    method ReadInto(out: array<byte>) returns (readAmount: nat)
      requires Valid()
      modifies this, out
      ensures Valid()
      ensures readAmount == Min(out.Length, |old(Contents())|)
      ensures out[..readAmount] == old(Contents())[..readAmount]
      ensures out[readAmount..] == old(out[readAmount..])
      ensures Contents() == old(Contents())[readAmount..]
    {
      hide Concat, Rest;
      ghost var all, initial := Contents(), out[..];
      WholeRest(buffers, frontBufferOffset);
      readAmount := 0;
      while readAmount < out.Length && |buffers| > 0
        invariant readAmount <= out.Length && readAmount <= |all|
        invariant Tidy(buffers, frontBufferOffset)
        invariant Rest(buffers, 0, frontBufferOffset) == all[readAmount..]
        invariant out[..] == all[..readAmount] + initial[readAmount..]
        invariant size == |all|
        decreases |buffers|, out.Length - readAmount
      {
        var front := buffers[0];
        var available := |front| - frontBufferOffset;
        var toCopy: nat := Min(available, out.Length - readAmount);
        FrontTaken(buffers, frontBufferOffset, toCopy, all, readAmount);
        ghost var before := out[..];
        WriteAll(out, readAmount, front[frontBufferOffset..frontBufferOffset + toCopy]);
        Overwritten(before, out[..], all, initial, readAmount, toCopy);
        readAmount := readAmount + toCopy;
        if toCopy < available {
          frontBufferOffset := frontBufferOffset + toCopy;
        } else {
          buffers := buffers[1..];
          frontBufferOffset := 0;
        }
      }
      size := size - readAmount;
      SizeOfRest(buffers, frontBufferOffset);
    }

    /** None is the RangeError of asking for more than there is, or of a negative count. */
    method Read(n: int) returns (r: Option<array<byte>>)
      requires Valid()
      modifies this
      ensures Valid()
      ensures r.None? <==> n < 0 || n > |old(Contents())|
      ensures r.None? ==> Contents() == old(Contents())
      ensures r.Some? ==> fresh(r.value) && r.value[..] == old(Contents())[..n] && Contents() == old(Contents())[n..]
    {
      if n > size || n < 0 {
        return None;
      }
      var result := new byte[n](_ => 0);
      if n == 0 {
        return Some(result);
      }
      var bytesRead := ReadInto(result);
      assert result[..] == result[..n];
      r := Some(result);
    }

    /** Copies without consuming; fewer bytes come back when fewer are there. */
    method Peek(n: int) returns (r: Option<array<byte>>)
      requires Valid()
      ensures r.None? <==> n < 0
      ensures r.Some? ==> fresh(r.value) && r.value[..] == Contents()[..Min(n, |Contents()|)]
    {
      if n < 0 {
        return None;
      }
      hide Concat, Rest;
      var amount: nat := Min(n, size);
      var result := new byte[amount](_ => 0);
      WholeRest(buffers, frontBufferOffset);
      assert Contents() == Rest(buffers, 0, frontBufferOffset);
      CopyOut(buffers, frontBufferOffset, result);
      r := Some(result);
    }
  }

  /** The copying loop of `peek`. */
  method CopyOut(buffers: seq<Buffer>, frontOffset: nat, result: array<byte>)
    requires Tidy(buffers, frontOffset) && result.Length <= |Rest(buffers, 0, frontOffset)|
    modifies result
    ensures result[..] == Rest(buffers, 0, frontOffset)[..result.Length]
  {
    hide Concat, Rest;
    ghost var all, initial := Rest(buffers, 0, frontOffset), result[..];
    var written: nat, index: nat, offset: nat := 0, 0, frontOffset;
    while written < result.Length && index < |buffers|
      invariant written <= result.Length && index <= |buffers|
      invariant if index < |buffers| then offset <= |buffers[index]| else offset == 0
      invariant written < result.Length ==> Rest(buffers, index, offset) == all[written..]
      invariant result[..] == all[..written] + initial[written..]
      decreases |buffers| - index
    {
      var buffer := buffers[index];
      var available := |buffer| - offset;
      var toCopy: nat := Min(available, result.Length - written);
      PieceTaken(buffers, index, offset, toCopy, all, written);
      ghost var before := result[..];
      WriteAll(result, written, buffer[offset..offset + toCopy]);
      Overwritten(before, result[..], all, initial, written, toCopy);
      written := written + toCopy;
      index := index + 1;
      offset := 0;
    }
    NoneLeft(buffers);
  }

  /** `peek(n)` returns what a following `read(n)` does, and changes nothing. */
  method PeekThenRead(q: ByteBufferQueue, n: int) returns (peeked: Option<array<byte>>, taken: Option<array<byte>>)
    requires q.Valid() && 0 <= n <= q.size
    modifies q
    ensures peeked.Some? && taken.Some? && peeked.value[..] == taken.value[..] == old(q.Contents())[..n]
  {
    peeked := q.Peek(n);
    taken := q.Read(n);
  }

  lemma NoneLeft(buffers: seq<Buffer>)
    ensures Rest(buffers, |buffers|, 0) == []
  {}

  lemma WholeRest(buffers: seq<Buffer>, offset: nat)
    requires Tidy(buffers, offset)
    ensures Rest(buffers, 0, offset) == Concat(buffers)[offset..]
  {}

  lemma ConcatOne(buffers: seq<Buffer>)
    ensures Concat(buffers) == if buffers == [] then [] else buffers[0] + Concat(buffers[1..])
  {}

  lemma RestSplits(buffers: seq<Buffer>, index: nat, offset: nat, k: nat)
    requires index < |buffers| && offset + k <= |buffers[index]|
    ensures Rest(buffers, index, offset) == buffers[index][offset..offset + k] + Rest(buffers, index, offset + k)
  {
    hide Concat;
    var left := buffers[index][offset..];
    assert left[..k] == buffers[index][offset..offset + k] && left[k..] == buffers[index][offset + k..];
    SplitSum(left, Concat(buffers[index + 1..]), k);
  }

  lemma SplitSum(a: Buffer, b: Buffer, k: nat)
    requires k <= |a|
    ensures a + b == a[..k] + (a[k..] + b)
  {}

  lemma NextBuffer(buffers: seq<Buffer>, index: nat)
    requires index < |buffers|
    ensures Rest(buffers, index, |buffers[index]|) == Rest(buffers, index + 1, 0)
  {
    hide Concat;
    var later := buffers[index + 1..];
    ConcatOne(later);
    assert Rest(buffers, index, |buffers[index]|) == [] + Concat(later);
    if later != [] {
      assert later[0] == buffers[index + 1] && later[1..] == buffers[index + 2..];
    }
  }

  /** Taking `k` bytes of one buffer takes the next `k` bytes of everything left. */
  lemma PieceTaken(buffers: seq<Buffer>, index: nat, offset: nat, k: nat, all: Buffer, read: nat)
    requires index < |buffers| && offset + k <= |buffers[index]| && read <= |all|
    requires Rest(buffers, index, offset) == all[read..]
    ensures read + k <= |all| && all[read..read + k] == buffers[index][offset..offset + k]
    ensures Rest(buffers, index, offset + k) == all[read + k..]
    ensures offset + k == |buffers[index]| ==> Rest(buffers, index + 1, 0) == all[read + k..]
  {
    hide Rest;
    RestSplits(buffers, index, offset, k);
    NextBuffer(buffers, index);
    assert all[read..][..k] == all[read..read + k];
    assert all[read..][k..] == all[read + k..];
  }

  /** What is left when `k` bytes of the front buffer go, and the buffer with its last byte. */
  lemma FrontTaken(buffers: seq<Buffer>, offset: nat, k: nat, all: Buffer, read: nat)
    requires buffers != [] && Tidy(buffers, offset) && offset + k <= |buffers[0]| && read <= |all|
    requires Rest(buffers, 0, offset) == all[read..]
    ensures read + k <= |all| && all[read..read + k] == buffers[0][offset..offset + k]
    ensures var (buffers', offset') := if offset + k < |buffers[0]| then (buffers, offset + k) else (buffers[1..], 0);
      Tidy(buffers', offset') && Rest(buffers', 0, offset') == all[read + k..]
  {
    PieceTaken(buffers, 0, offset, k, all, read);
    Shifted(buffers);
    hide Rest;
    assert forall b | b in buffers[1..] :: b in buffers;
    assert |buffers| > 1 ==> buffers[1..][0] == buffers[1] && buffers[1] in buffers;
  }

  lemma Shifted(buffers: seq<Buffer>)
    requires buffers != []
    ensures Rest(buffers[1..], 0, 0) == Rest(buffers, 1, 0)
  {
    if |buffers| > 1 {
      assert buffers[1..][1..] == buffers[2..];
    }
  }

  lemma SizeOfRest(buffers: seq<Buffer>, offset: nat)
    requires Tidy(buffers, offset)
    ensures |Rest(buffers, 0, offset)| == TotalSize(buffers) - offset
    ensures Rest(buffers, 0, offset) == Concat(buffers)[offset..]
  {
    ConcatLength(buffers);
    WholeRest(buffers, offset);
  }
}
