/** Re-framing a byte stream into STUN messages (src/stun/stun-client.ts:322-332; section 7.2.2 of RFC 5389). */
module StunStream {
  import opened Bytes

  const HEADER: nat := 20

  /** A 20-byte header and the body length it declares. */
  predicate Complete(m: Buffer) { |m| >= HEADER && |m| == HEADER + ReadU16(m, 2) }

  /** Too short for a header, or for the body its header declares. */
  predicate Incomplete(b: Buffer) { |b| < HEADER || |b| < HEADER + ReadU16(b, 2) }

  /** The messages at the front of a stream, and the residue. */
  function Framing(b: Buffer): (r: (seq<Buffer>, Buffer))
    decreases |b|
  {
    if Incomplete(b) then ([], b)
    else
      var total := HEADER + ReadU16(b, 2);
      var (messages, rest) := Framing(b[total..]);
      ([b[..total]] + messages, rest)
  }

  /** Nothing is lost, every message is complete, and the residue is not yet one. */
  lemma {:induction false} FramingPartitions(b: Buffer)
    ensures var (messages, rest) := Framing(b);
      Concat(messages) + rest == b && Incomplete(rest) && forall m | m in messages :: Complete(m)
    decreases |b|
  {
    if !Incomplete(b) {
      var total := HEADER + ReadU16(b, 2);
      FramingPartitions(b[total..]);
      var (messages, rest) := Framing(b[total..]);
      assert ([b[..total]] + messages)[1..] == messages;
      assert b == b[..total] + b[total..];
      assert Complete(b[..total]);
    }
  }

  /** Framing is the only such partition. */
  lemma {:induction false} FramingIsUnique(messages: seq<Buffer>, rest: Buffer)
    requires Incomplete(rest) && forall m | m in messages :: Complete(m)
    ensures Framing(Concat(messages) + rest) == (messages, rest)
    decreases |messages|
  {
    if messages == [] {
      assert Concat(messages) + rest == rest;
    } else {
      var b, m := Concat(messages) + rest, messages[0];
      assert m in messages && Complete(m);
      assert b == m + (Concat(messages[1..]) + rest);
      assert ReadU16(b, 2) == ReadU16(m, 2);
      assert b[..|m|] == m && b[|m|..] == Concat(messages[1..]) + rest;
      assert !Incomplete(b) && HEADER + ReadU16(b, 2) == |m|;
      FramingIsUnique(messages[1..], rest);
      assert messages == [m] + messages[1..];
      hide Concat, ReadU16;
      assert Framing(b) == ([m] + Framing(b[|m|..]).0, Framing(b[|m|..]).1);
    }
  }

  /** Bytes that arrive later join the residue. */
  lemma FramingContinues(a: Buffer, b: Buffer)
    ensures var (first, rest) := Framing(a);
      var (second, last) := Framing(rest + b);
      Framing(a + b) == (first + second, last)
  {
    hide Framing;
    FramingPartitions(a);
    var (first, rest) := Framing(a);
    FramingPartitions(rest + b);
    var (second, last) := Framing(rest + b);
    ConcatAppend(first, second);
    FramingIsUnique(first + second, last);
    assert Concat(first + second) + last == a + b by {
      assert Concat(first + second) + last == Concat(first) + (Concat(second) + last);
      assert Concat(first) + (rest + b) == (Concat(first) + rest) + b;
    }
  }

  /** Feeding a stream in chunks, as `(messages so far, residue)`. */
  function Feed(state: (seq<Buffer>, Buffer), chunks: seq<Buffer>): (seq<Buffer>, Buffer)
    decreases |chunks|
  {
    if chunks == [] then state
    else
      var (messages, rest) := Framing(state.1 + chunks[0]);
      Feed((state.0 + messages, rest), chunks[1..])
  }

  /** However the stream is cut into reads, the messages dispatched are those of the whole stream. */
  lemma {:induction false} ChunkingDoesNotMatter(before: Buffer, chunks: seq<Buffer>)
    ensures Feed(Framing(before), chunks) == Framing(before + Concat(chunks))
    decreases |chunks|
  {
    hide Framing;
    if chunks == [] {
      assert before + [] == before;
    } else {
      FramingContinues(before, chunks[0]);
      ChunkingDoesNotMatter(before + chunks[0], chunks[1..]);
      assert before + chunks[0] + Concat(chunks[1..]) == before + Concat(chunks);
    }
  }

  /** The same from the start, for any two ways of cutting the same stream. */
  lemma SameStreamSameMessages(a: seq<Buffer>, b: seq<Buffer>)
    requires Concat(a) == Concat(b)
    ensures Feed(([], []), a) == Feed(([], []), b)
  {
    assert Framing([]) == ([], []);
    ChunkingDoesNotMatter([], a);
    ChunkingDoesNotMatter([], b);
  }

  lemma FrameNext(b: Buffer)
    ensures Incomplete(b) ==> Framing(b) == ([], b)
    ensures !Incomplete(b) ==>
      var total := HEADER + ReadU16(b, 2);
      Framing(b) == ([b[..total]] + Framing(b[total..]).0, Framing(b[total..]).1)
  {}

  lemma FeedOne(handled: seq<Buffer>, rest: Buffer, chunk: Buffer)
    ensures Feed((handled, rest), [chunk]) == (handled + Framing(rest + chunk).0, Framing(rest + chunk).1)
  {
    hide Framing;
    assert [chunk][1..] == [];
    var (messages, last) := Framing(rest + chunk);
    assert Feed((handled + messages, last), []) == (handled + messages, last);
  }

  class StreamReader {
    var streamBuffer: Buffer
    var handled: seq<Buffer>  // calls to #handleMessage

    constructor ()
      ensures streamBuffer == [] && handled == []
    {
      streamBuffer, handled := [], [];
    }

    method OnStreamData(chunk: Buffer)
      modifies this
      ensures (handled, streamBuffer) == Feed((old(handled), old(streamBuffer)), [chunk])
    {
      hide Feed, Framing, ReadU16;
      ghost var goal := Feed((handled, streamBuffer), [chunk]);
      FeedOne(handled, streamBuffer, chunk);
      assert [] + chunk == chunk;
      streamBuffer := if |streamBuffer| > 0 then streamBuffer + chunk else chunk;
      while |streamBuffer| >= 20
        invariant Leads(handled, streamBuffer, goal)
        decreases |streamBuffer|
      {
        var total := 20 + ReadU16(streamBuffer, 2);
        if |streamBuffer| < total {
          break;
        }
        LeadsOn(handled, streamBuffer, goal);
        var message := streamBuffer[..total];
        streamBuffer := streamBuffer[total..];
        handled := handled + [message];
      }
      LeadsNoFurther(handled, streamBuffer, goal);
    }
  }

  /** Framing the rest of the buffer completes `handled` to `goal`. */
  ghost predicate Leads(handled: seq<Buffer>, b: Buffer, goal: (seq<Buffer>, Buffer)) {
    (handled + Framing(b).0, Framing(b).1) == goal
  }

  lemma LeadsOn(handled: seq<Buffer>, b: Buffer, goal: (seq<Buffer>, Buffer))
    requires Leads(handled, b, goal) && !Incomplete(b)
    ensures Leads(handled + [b[..HEADER + ReadU16(b, 2)]], b[HEADER + ReadU16(b, 2)..], goal)
  {
    var total := HEADER + ReadU16(b, 2);
    FrameNext(b);
    hide Framing, ReadU16;
    assert handled + ([b[..total]] + Framing(b[total..]).0) == handled + [b[..total]] + Framing(b[total..]).0;
  }

  lemma LeadsNoFurther(handled: seq<Buffer>, b: Buffer, goal: (seq<Buffer>, Buffer))
    requires Leads(handled, b, goal) && Incomplete(b)
    ensures (handled, b) == goal
  {
    FrameNext(b);
    assert handled + [] == handled;
  }
}
