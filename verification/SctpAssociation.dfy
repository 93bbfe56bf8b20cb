/** The association object: its fields, and the methods that update them (src/sctp/association.ts:88-497). */
module SctpAssociation {
  import opened Bytes
  import opened Serial
  import opened Chunks
  import opened Association
  import opened Setup
  import Crc
  import GapBlocks

  const HEARTBEAT: byte := 4
  const HEARTBEAT_ACK: byte := 5
  const ABORT: byte := 6
  const SHUTDOWN: byte := 7
  const SHUTDOWN_ACK: byte := 8

  /** The packets that carry these DATA chunks, one each. */
  function DataPackets(tag: u32, ds: seq<Data>): (ps: seq<Buffer>)
    requires forall d | d in ds :: Sendable(d)
  {
    if ds == [] then [] else DataPackets(tag, ds[..|ds| - 1]) + [DataPacket(tag, ds[|ds| - 1])]
  }

  function DataPacket(tag: u32, d: Data): Buffer
    requires Sendable(d)
  {
    DataFits(d);
    Packet(tag, [DataChunk(d)])
  }

  function SackChunk(s: Sack): Chunk
    requires SackFits(s)
  {
    Chunk(SACK, 0, SackBytes(s))
  }

  lemma DataFits(d: Data)
    requires Sendable(d)
    ensures Fits(DataChunk(d))
  {}

  lemma InitAckFits(init: InitBody, cookie: Buffer)
    requires |cookie| == 48
    ensures Fits(InitAckChunk(init, cookie))
  {
    hide InitBytes, ParamBytes;
    var q, qs := Param(STATE_COOKIE, cookie), [Param(STATE_COOKIE, cookie)] + EXT_PARAMS;
    assert qs[1..] == EXT_PARAMS && EXT_PARAMS[1..] == [];
    assert AllParamBytes([]) == [];
    assert |AllParamBytes(EXT_PARAMS)| == |ParamBytes(EXT_PARAMS[0])|;
    assert |AllParamBytes(qs)| == |ParamBytes(q)| + |AllParamBytes(EXT_PARAMS)|;
  }

  lemma {:induction false} ParsedParamsFit(b: Buffer, off: nat)
    ensures forall q | q in ParamsFrom(b, off) :: ParamFits(q)
    decreases |b| - off
  {
    if Framed(b, off) {
      ParsedParamsFit(b, FrameEnd(b, off));
    }
  }

  /** A parsed chunk is never too long to be sent back. */
  lemma {:induction false} ParsedChunksFit(b: Buffer, off: nat)
    ensures forall c | c in ChunksFrom(b, off) :: Fits(c)
    decreases |b| - off
  {
    if Framed(b, off) {
      ParsedChunksFit(b, FrameEnd(b, off));
    }
  }

  lemma {:induction false} FoundCookieFits(params: seq<Param>)
    requires forall q | q in params :: ParamFits(q)
    ensures FindCookie(params).Some? ==> |FindCookie(params).value| <= 0xffff - 4
  {
    if params != [] {
      assert ParamFits(params[0]);
      FoundCookieFits(params[1..]);
    }
  }

  lemma InitAckCookieFits(chunk: Chunk)
    ensures var r := ParseInit(chunk.body);
      r.Some? && FindCookie(r.value.1).Some? ==> |FindCookie(r.value.1).value| <= 0xffff - 4
  {
    if |chunk.body| >= 16 {
      ParsedParamsFit(chunk.body[16..], 0);
      FoundCookieFits(ParamsFrom(chunk.body[16..], 0));
    }
  }

  // ---- The receive loop's specification ----

  /** All of the object's state as a value. `output` lists the packets handed to DTLS. */
  datatype World = World(peer: Peer, nextSSN: map<nat, u16>, sentQueue: map<u32, Buffer>, rx: Receiver,
      output: seq<Buffer>)

  /** The setup fields and the receiver share the cursor. */
  function WithPeer(w: World, p: Peer): World { w.(peer := p, rx := w.rx.(cumulative := p.cumulative)) }

  function WithRx(w: World, rx: Receiver): World { w.(peer := w.peer.(cumulative := rx.cumulative), rx := rx) }

  function Released(w: World): World {
    w.(peer := w.peer.(state := CLOSED), sentQueue := map[],
       rx := w.rx.(outOfOrder := map[], reassembly := w.rx.reassembly.(fragments := map[])))
  }

  function Closed(w: World): World { if w.peer.state == CLOSED then w else Released(w) }

  function Handed(output: seq<Buffer>, out: Option<Outgoing>): seq<Buffer>
    requires out.Some? ==> Fits(out.value.chunk)
  {
    match out case None => output case Some(o) => output + [Packet(o.tag, [o.chunk])]
  }

  /** The new state, and whether the handler threw. */
  ghost predicate ChunkHandled(cmp: Comparison, answers: Answers, hmac: Hmac, newSecret: Buffer, w: World, c: Chunk,
      w': World, threw: bool)
    requires Digests(hmac) && Fits(c)
  {
    if c.typ == INIT then
      var (p, out) := Setup.HandleInit(hmac, newSecret, w.peer, c);
      && threw == (ParseInit(c.body) == None) && (out.Some? ==> Fits(out.value.chunk))
      && w' == WithPeer(w, p).(output := Handed(w.output, out))
    else if c.typ == INIT_ACK then
      var (p, out) := Setup.HandleInitAck(w.peer, c);
      && threw == (w.peer.state == COOKIE_WAIT && ParseInit(c.body) == None) && (out.Some? ==> Fits(out.value.chunk))
      && w' == (if p.state == CLOSED && w.peer.state != CLOSED then Released(WithPeer(w, p))
          else WithPeer(w, p)).(output := Handed(w.output, out))
    else if c.typ == COOKIE_ECHO then
      var (p, out) := Setup.HandleCookieEcho(hmac, w.peer, c);
      && !threw && w' == WithPeer(w, p).(output := Handed(w.output, out))
    else if c.typ == COOKIE_ACK then !threw && w' == WithPeer(w, Setup.HandleCookieAck(w.peer))
    else if c.typ == DATA then
      (match ParseData(c.flags, c.body)
       case None => threw && w' == w
       case Some(d) =>
         var o := DeliverHeard(cmp, w.rx, d, Hearing(answers, w.peer.state == ESTABLISHED));
         DataHandled(cmp, WithRx(w, o.rx), o.threw, w', threw))
    else if c.typ == SACK then
      (match SackOf(c.body)
       case None => threw && w' == w
       case Some(sack) => !threw && w' == w.(sentQueue := Association.HandleSack(cmp, w.sentQueue, sack)))
    else if c.typ == HEARTBEAT then
      !threw && w' == w.(output := w.output + [Packet(w.peer.remoteTag, [Chunk(HEARTBEAT_ACK, 0, c.body)])])
    else if c.typ == ABORT then !threw && w' == Closed(w)
    else if c.typ == SHUTDOWN then
      !threw && w' == Closed(w.(output := w.output + [Packet(w.peer.remoteTag, [Chunk(SHUTDOWN_ACK, 0, [])])]))
    else !threw && w' == w
  }

  /** A SACK goes out for what was received, unless a listener threw or writing it throws. */
  ghost predicate DataHandled(cmp: Comparison, w: World, cut: bool, w': World, threw: bool) {
    if cut then threw && w' == w
    else exists sorted :: IsSorting(cmp, w.rx.outOfOrder.Keys, sorted) && SackSent(w, sorted, w', threw)
  }

  /** Whether the 'message' listener throws on a message, given whether the association is established. */
  type Answers = (Message, bool) -> bool

  function Hearing(answers: Answers, established: bool): Listener { m => answers(m, established) }

  ghost predicate SackSent(w: World, sorted: seq<u32>, w': World, threw: bool) {
    match SackFor(w.rx.cumulative, sorted)
    case None => threw && w' == w
    case Some(s) =>
      && !threw && SackFits(s) && Fits(SackChunk(s))
      && w' == w.(output := w.output + [Packet(w.peer.remoteTag, [SackChunk(s)])])
  }

  /** The chunks of a packet in order, up to the first that throws. */
  ghost predicate ChunksHandled(cmp: Comparison, answers: Answers, hmac: Hmac, newSecret: Buffer, w: World,
      cs: seq<Chunk>, w': World, threw: bool)
    requires Digests(hmac) && forall c | c in cs :: Fits(c)
    decreases |cs|
  {
    if cs == [] then !threw && w' == w
    else
      var n := |cs| - 1;
      || (threw && ChunksHandled(cmp, answers, hmac, newSecret, w, cs[..n], w', true))
      || exists w1 :: ChunksHandled(cmp, answers, hmac, newSecret, w, cs[..n], w1, false)
                      && ChunkHandled(cmp, answers, hmac, newSecret, w1, cs[n], w', threw)
  }

  // ---- Sorting the buffered TSNs ----

  method SortKeys(cmp: Comparison, keys: set<u32>) returns (sorted: seq<u32>)
    ensures IsSorting(cmp, keys, sorted)
  {
    var rest := keys;
    sorted := [];
    while rest != {}
      invariant Elements(sorted) + rest == keys && Elements(sorted) !! rest
      invariant forall i, j | 0 <= i < j < |sorted| :: sorted[i] != sorted[j]
      invariant Consistent(cmp, keys) ==>
        && (forall i, j | 0 <= i < j < |sorted| :: SnLt(cmp, sorted[i], sorted[j]))
        && (forall i, k | 0 <= i < |sorted| && k in rest :: SnLt(cmp, sorted[i], k))
    {
      var least := Least(cmp, keys, rest);
      assert Elements(sorted + [least]) == Elements(sorted) + {least};
      rest := rest - {least};
      sorted := sorted + [least];
    }
  }

  method Least(cmp: Comparison, ghost keys: set<u32>, rest: set<u32>) returns (least: u32)
    requires rest != {} && rest <= keys
    ensures least in rest
    ensures Consistent(cmp, keys) ==> forall k | k in rest && k != least :: SnLt(cmp, least, k)
  {
    hide SnLt;
    least :| least in rest;
    var todo := rest - {least};
    while todo != {}
      invariant todo <= rest && least in rest - todo
      invariant Consistent(cmp, keys) ==> forall k | k in rest - todo && k != least :: SnLt(cmp, least, k)
    {
      var k :| k in todo;
      todo := todo - {k};
      if SnLt(cmp, k, least) {
        least := k;
      }
    }
  }

  class Endpoint {
    const cmp: Comparison
    const answers: Answers
    const hmac: Hmac
    const isClient: bool
    const localTag: u32
    var state: State
    var remoteTag: u32
    var localTSN: u32
    var nextSSN: map<nat, u16>
    var sentQueue: map<u32, Buffer>
    var peerCumulativeTSN: u32  // null before setup, which every use of it converts to 0
    var receivedOutOfOrder: map<u32, Data>
    var fragments: map<FragmentKey, FragmentBuffer>
    var cookieSecret: Option<Buffer>
    var output: seq<Buffer>     // 'output' events
    var messages: seq<Message>  // 'message' events
    ghost var consumed: seq<Data>

    ghost predicate Valid()
      reads this
    {
      Digests(hmac) && |receivedOutOfOrder| <= MAX_OOO_CHUNKS
    }

    ghost function SetupView(): Peer
      reads this
    {
      Peer(state, localTag, remoteTag, localTSN, peerCumulativeTSN, cookieSecret)
    }

    ghost function Tx(): Sender
      reads this
    {
      Sender(localTSN, nextSSN, sentQueue)
    }

    ghost function Rx(): Receiver
      reads this
    {
      Receiver(peerCumulativeTSN, receivedOutOfOrder, Reassembly(fragments, messages), consumed)
    }

    ghost function Snapshot(): World
      reads this
    {
      World(SetupView(), nextSSN, sentQueue, Rx(), output)
    }

    constructor (cmp: Comparison, answers: Answers, hmac: Hmac, isClient: bool, localTag: u32, localTSN: u32)
      requires Digests(hmac)
      ensures Valid() && this.cmp == cmp && this.answers == answers && this.hmac == hmac && this.isClient == isClient
      ensures this.localTag == localTag
      ensures SetupView() == Peer(CLOSED, localTag, 0, localTSN, 0, None)
      ensures Tx() == Sender(localTSN, map[], map[])
      ensures Rx() == Receiver(0, map[], Reassembly(map[], []), []) && output == []
    {
      this.cmp, this.answers, this.hmac, this.isClient := cmp, answers, hmac, isClient;
      this.localTag, this.localTSN := localTag, localTSN;
      state, remoteTag, peerCumulativeTSN, cookieSecret := CLOSED, 0, 0, None;
      nextSSN, sentQueue, receivedOutOfOrder, fragments := map[], map[], map[], map[];
      output, messages, consumed := [], [], [];
    }

    method EmitPacket(tag: u32, chunk: Chunk)
      requires Fits(chunk)
      modifies this`output
      ensures output == old(output) + [Packet(tag, [chunk])]
    {
      output := output + [Packet(tag, [chunk])];
    }

    // ---- Sending ----

    /**
     * Throws unless the association is established and the stream id fits its field. In the second case
     * the throw comes from the encoder, when a stream number and a TSN have already been taken.
     */
    method SendData(streamId: nat, ppid: u32, data: Buffer, unordered: bool) returns (threw: bool)
      modifies this`localTSN, this`nextSSN, this`sentQueue, this`output
      ensures threw <==> state != ESTABLISHED || streamId > 0xffff
      ensures state != ESTABLISHED ==> Tx() == old(Tx()) && output == old(output)
      ensures state == ESTABLISHED ==>
        var m := Message(streamId, ppid, data);
        && Tx() == Send(old(Tx()), m, unordered)
        && output == if threw then old(output)
                     else old(output) + DataPackets(remoteTag, MessagePieces(old(Tx()), m, unordered))
    {
      hide Send, MessagePieces, DataPackets, Pieces, Piece, PieceCount, Enqueue, ToUint32, StreamSeq, Sendable;
      if state != ESTABLISHED {
        return true;
      }
      ghost var m := Message(streamId, ppid, data);
      var ssn := TakeStreamSeq(streamId, unordered);
      var chunks;
      threw, chunks := QueuePieces(streamId, ppid, data, unordered, ssn);
      SendIs(old(Tx()), m, unordered, chunks);
      if !threw {
        EmitPieces(chunks);
      }
    }

    method TakeStreamSeq(streamId: nat, unordered: bool) returns (ssn: u16)
      modifies this`nextSSN
      ensures ssn == StreamSeq(old(Tx()), streamId, unordered)
      ensures nextSSN == if unordered then old(nextSSN) else old(nextSSN)[streamId := (ssn + 1) % 0x1_0000]
    {
      ssn := 0;
      if !unordered {
        ssn := if streamId in nextSSN then nextSSN[streamId] else 0;
        nextSSN := nextSSN[streamId := (ssn + 1) % 0x1_0000];
      }
    }

    method EmitPieces(chunks: seq<Data>)
      requires forall d | d in chunks :: Sendable(d)
      modifies this`output
      ensures output == old(output) + DataPackets(remoteTag, chunks)
    {
      hide Packet;
      for i := 0 to |chunks|
        invariant output == old(output) + DataPackets(remoteTag, chunks[..i])
      {
        assert chunks[..i + 1][..i] == chunks[..i];
        DataFits(chunks[i]);
        EmitPacket(remoteTag, DataChunk(chunks[i]));
      }
      assert chunks[..|chunks|] == chunks;
    }

    /** The fragmentation loop: a do-while, so an empty message takes one piece. */
    method QueuePieces(streamId: nat, ppid: u32, data: Buffer, unordered: bool, ssn: u16)
      returns (threw: bool, chunks: seq<Data>)
      modifies this`localTSN, this`sentQueue
      ensures threw <==> streamId > 0xffff
      ensures threw ==> chunks == [] && localTSN == ToUint32(old(localTSN) + 1) && sentQueue == old(sentQueue)
      ensures !threw ==>
        && chunks == Pieces(old(localTSN), ssn, Message(streamId, ppid, data), unordered)
        && (forall d | d in chunks :: Sendable(d))
        && localTSN == ToUint32(old(localTSN) + |chunks|)
        && sentQueue == Enqueue(old(sentQueue), chunks)
    {
      hide Encoded, Pieces, Enqueue, ToUint32, Piece;
      ghost var first, m := localTSN, Message(streamId, ppid, data);
      ghost var total := PieceCount(|data|);
      NothingQueued(localTSN, sentQueue);
      var offset := 0;
      chunks := [];
      while true
        invariant |chunks| < total && offset == MAX_PAYLOAD * |chunks|
        invariant chunks == Pieces(first, ssn, m, unordered)[..|chunks|]
        invariant forall d | d in chunks :: Sendable(d)
        invariant localTSN == ToUint32(first + |chunks|)
        invariant sentQueue == Enqueue(old(sentQueue), chunks)
        invariant chunks != [] ==> streamId <= 0xffff
        decreases total - |chunks|
      {
        var slice := data[offset..Min(offset + MAX_PAYLOAD, |data|)];
        var d := Data(unordered, offset == 0, offset + |slice| >= |data|, localTSN, streamId, ssn, ppid, slice);
        NextNumber(first, |chunks|);
        localTSN := ToUint32(localTSN + 1);
        if streamId > 0xffff {  // the encoder's 16-bit write
          return true, [];
        }
        PieceAt(first, ssn, m, unordered, |chunks|, d);
        sentQueue := sentQueue[d.tsn := Encoded(d)];
        EnqueuePush(old(sentQueue), chunks, d);
        chunks := chunks + [d];
        offset := offset + |slice|;
        if offset >= |data| {
          break;
        }
      }
      threw := false;
    }

    // ---- Receiving ----

    method HandleData(chunk: Chunk) returns (threw: bool)
      requires Valid()
      modifies this`peerCumulativeTSN, this`receivedOutOfOrder, this`fragments, this`messages, this`consumed,
               this`output
      ensures Valid()
      ensures match ParseData(chunk.flags, chunk.body)
        case None => threw && Snapshot() == old(Snapshot())
        case Some(d) =>
          var o := DeliverHeard(cmp, old(Rx()), d, Hearing(answers, state == ESTABLISHED));
          DataHandled(cmp, WithRx(old(Snapshot()), o.rx), o.threw, Snapshot(), threw)
    {
      hide DeliverHeard, IsSorting, SackFor, SackSent;
      var parsed := ParseData(chunk.flags, chunk.body);
      if parsed == None {
        return true;
      }
      threw := DeliverData(parsed.value);
      if threw {
        return;
      }
      ghost var mid := Snapshot();
      ghost var sorted;
      threw, sorted := SendSack();
      assert IsSorting(cmp, mid.rx.outOfOrder.Keys, sorted) && SackSent(mid, sorted, Snapshot(), threw);
    }

    /** A listener that throws leaves the loop after the cursor has moved. */
    method DeliverData(d: Data) returns (threw: bool)
      requires Valid()
      modifies this`peerCumulativeTSN, this`receivedOutOfOrder, this`fragments, this`messages, this`consumed
      ensures Valid()
      ensures var o := DeliverHeard(cmp, old(Rx()), d, Hearing(answers, state == ESTABLISHED));
        Rx() == o.rx && threw == o.threw
    {
      hide SnLt, AcceptHeard, DrainHeard, Drain;
      ghost var throws := Hearing(answers, state == ESTABLISHED);
      var expected := ToUint32(peerCumulativeTSN + 1);
      threw := false;
      if SnLt(cmp, d.tsn, expected) {
        return;
      }
      if d.tsn == expected {
        threw := AcceptData(d.tsn, d);
        if threw {
          return;
        }
        ghost var start := Rx();
        var next := ToUint32(peerCumulativeTSN + 1);
        while next in receivedOutOfOrder
          invariant Valid() && !threw && next == Expected(Rx())
          invariant DrainHeard(Rx(), throws) == DrainHeard(start, throws)
          decreases |receivedOutOfOrder|
        {
          Shrinks(receivedOutOfOrder, next);
          DrainRound(Rx(), throws);
          var buffered := receivedOutOfOrder[next];
          receivedOutOfOrder := receivedOutOfOrder - {next};
          threw := AcceptData(next, buffered);
          if threw {
            return;
          }
          next := ToUint32(peerCumulativeTSN + 1);
        }
        DrainRound(Rx(), throws);
      } else if d.tsn !in receivedOutOfOrder && |receivedOutOfOrder| < MAX_OOO_CHUNKS {
        receivedOutOfOrder := receivedOutOfOrder[d.tsn := d];
      }
    }

    /** The cursor moves first. */
    method AcceptData(tsn: u32, d: Data) returns (threw: bool)
      modifies this`peerCumulativeTSN, this`fragments, this`messages, this`consumed
      ensures var o := AcceptHeard(old(Rx()), tsn, d, Hearing(answers, state == ESTABLISHED));
        Rx() == o.rx && threw == o.threw
    {
      hide Association.Consume;
      peerCumulativeTSN := tsn;
      threw := this.Consume(d);
    }

    /** Reassemble fragments and emit complete user messages. */
    method Consume(d: Data) returns (threw: bool)
      modifies this`fragments, this`messages, this`consumed
      ensures Reassembly(fragments, messages) == Association.Consume(old(Reassembly(fragments, messages)), d)
      ensures consumed == old(consumed) + [d]
      ensures threw == (|messages| > |old(messages)|
                        && Hearing(answers, state == ESTABLISHED)(messages[|messages| - 1]))
    {
      consumed := consumed + [d];
      threw := false;
      var key := KeyOf(d);
      if d.beginning && d.ending {
        threw := EmitMessage(Message(d.streamId, d.ppid, d.userData));
        return;
      }
      if d.beginning {
        fragments := fragments[key := FragmentBuffer(d.ppid, [d.userData])];
      } else if key in fragments {
        fragments := fragments[key := FragmentBuffer(fragments[key].ppid, fragments[key].parts + [d.userData])];
      } else {
        return;
      }
      if d.ending {
        var buf := fragments[key];
        fragments := fragments - {key};
        threw := EmitMessage(Message(d.streamId, buf.ppid, Concat(buf.parts)));
        assert fragments == old(fragments) - {key};
      }
    }

    method EmitMessage(m: Message) returns (threw: bool)
      modifies this`messages
      ensures messages == old(messages) + [m] && threw == answers(m, state == ESTABLISHED)
    {
      messages := messages + [m];
      threw := answers(m, state == ESTABLISHED);
    }

    /** One pass over the sorted TSNs, closing a run whenever the next TSN does not continue it. */
    method SendSack() returns (threw: bool, ghost sorted: seq<u32>)
      requires Valid()
      modifies this`output
      ensures IsSorting(cmp, receivedOutOfOrder.Keys, sorted)
      ensures SackSent(old(Snapshot()), sorted, Snapshot(), threw)
    {
      hide IsSorting, Packet, SackBytes, Runs, Ahead;
      var keys := SortKeys(cmp, receivedOutOfOrder.Keys);
      sorted := keys;
      var gapBlocks := RunBlocks(keys);
      KeysAreFew(cmp, receivedOutOfOrder.Keys, keys);
      if exists b | b in gapBlocks :: b.0 > 0xffff {
        assert !Encodable(gapBlocks);
        return true, sorted;
      }
      assert Encodable(gapBlocks);
      var sack := Sack(peerCumulativeTSN, DEFAULT_RWND, Narrow(gapBlocks), []);
      SackChunkFits(sack);
      EmitPacket(remoteTag, SackChunk(sack));
      threw := false;
    }

    method RunBlocks(sorted: seq<u32>) returns (gapBlocks: seq<(u32, u32)>)
      ensures gapBlocks == Blocks(peerCumulativeTSN, sorted)
    {
      hide Ahead, ToUint32, Runs, Offsets;
      gapBlocks := [];
      NoBlocks(peerCumulativeTSN);
      var start, prev: Option<u32> := None, None;
      ghost var closed: seq<(u32, u32)> := [];
      for i := 0 to |sorted|
        invariant start.Some? == prev.Some? == (i > 0)
        invariant i == 0 ==> closed == []
        invariant i > 0 ==> Runs(sorted[..i]) == closed + [(start.value, prev.value)]
        invariant gapBlocks == Offsets(peerCumulativeTSN, closed)
      {
        var tsn := sorted[i];
        assert sorted[..i + 1] == sorted[..i] + [tsn];
        if start == None {
          FirstRun(tsn);
          assert sorted[..i + 1] == [tsn];
          start, prev := Some(tsn), Some(tsn);
        } else {
          RunsPush(sorted[..i], closed, start.value, prev.value, tsn);
          if tsn == ToUint32(prev.value + 1) {
            prev := Some(tsn);
          } else {
            OffsetsPush(peerCumulativeTSN, closed, start.value, prev.value);
            gapBlocks := PushBlock(gapBlocks, start.value, prev.value);
            closed := closed + [(start.value, prev.value)];
            start, prev := Some(tsn), Some(tsn);
          }
        }
      }
      assert sorted[..|sorted|] == sorted;
      if start.Some? {
        OffsetsPush(peerCumulativeTSN, closed, start.value, prev.value);
        gapBlocks := PushBlock(gapBlocks, start.value, prev.value);
      }
    }

    method PushBlock(blocks: seq<(u32, u32)>, start: u32, end: u32) returns (pushed: seq<(u32, u32)>)
      ensures pushed == if Ahead(peerCumulativeTSN, end) <= 0xffff
        then blocks + [(Ahead(peerCumulativeTSN, start), Ahead(peerCumulativeTSN, end))] else blocks
    {
      var s, e := ToUint32(start - peerCumulativeTSN), ToUint32(end - peerCumulativeTSN);
      pushed := if e <= 0xffff then blocks + [(s, e)] else blocks;
    }

    method HandleSack(chunk: Chunk) returns (threw: bool)
      modifies this`sentQueue
      ensures threw <==> SackOf(chunk.body) == None
      ensures threw ==> sentQueue == old(sentQueue)
      ensures !threw ==> sentQueue == Association.HandleSack(cmp, old(sentQueue), SackOf(chunk.body).value)
    {
      var parsed := ParseSack(chunk.body);
      if parsed == None {
        return true;
      }
      var sack := parsed.value;
      DropCumulative(sack.cumulativeTSNAck);
      for n := 0 to |sack.gapBlocks|
        invariant forall tsn :: tsn in sentQueue <==>
          tsn in old(sentQueue) && !SnLte(cmp, tsn, sack.cumulativeTSNAck)
              && !InBlocks(sack.(gapBlocks := sack.gapBlocks[..n]), tsn)
        invariant forall tsn | tsn in sentQueue :: sentQueue[tsn] == old(sentQueue)[tsn]
      {
        ghost var before := sentQueue;
        DropBlock(sack.cumulativeTSNAck, sack.gapBlocks[n].0, sack.gapBlocks[n].1);
        forall tsn: u32
          ensures InBlocks(sack.(gapBlocks := sack.gapBlocks[..n + 1]), tsn) <==>
            InBlocks(sack.(gapBlocks := sack.gapBlocks[..n]), tsn)
            || sack.gapBlocks[n].0 <= Ahead(sack.cumulativeTSNAck, tsn) <= sack.gapBlocks[n].1
        {
          OneMoreBlock(sack, n, tsn);
        }
      }
      assert sack.(gapBlocks := sack.gapBlocks[..|sack.gapBlocks|]) == sack;
      return false;
    }

    method DropCumulative(cumulative: u32)
      modifies this`sentQueue
      ensures forall tsn :: tsn in sentQueue <==> tsn in old(sentQueue) && !SnLte(cmp, tsn, cumulative)
      ensures forall tsn | tsn in sentQueue :: sentQueue[tsn] == old(sentQueue)[tsn]
    {
      hide SnLte;
      var keys := sentQueue.Keys;
      while keys != {}
        invariant keys <= old(sentQueue).Keys
        invariant forall tsn :: tsn in sentQueue <==>
            tsn in old(sentQueue) && (tsn in keys || !SnLte(cmp, tsn, cumulative))
        invariant forall tsn | tsn in sentQueue :: sentQueue[tsn] == old(sentQueue)[tsn]
      {
        var tsn :| tsn in keys;
        keys := keys - {tsn};
        if SnLte(cmp, tsn, cumulative) {
          sentQueue := sentQueue - {tsn};
        }
      }
    }

    method DropBlock(cumulative: u32, start: u16, end: u16)
      modifies this`sentQueue
      ensures forall tsn :: tsn in sentQueue <==> tsn in old(sentQueue) && !(start <= Ahead(cumulative, tsn) <= end)
      ensures forall tsn | tsn in sentQueue :: sentQueue[tsn] == old(sentQueue)[tsn]
    {
      hide Ahead, ToUint32;
      var base := ToUint32(cumulative + 1);
      var i: nat := start;
      while i <= end
        invariant start <= i && (i <= end as int + 1 || i == start)
        invariant forall tsn :: tsn in sentQueue <==> tsn in old(sentQueue) && !(start <= Ahead(cumulative, tsn) < i)
        invariant forall tsn | tsn in sentQueue :: sentQueue[tsn] == old(sentQueue)[tsn]
        decreases end - i
      {
        BlockTsn(cumulative, i);
        forall tsn: u32 ensures Ahead(cumulative, tsn) == i <==> tsn == ToUint32(base + i - 1) {
          SumOfAhead(cumulative, tsn);
        }
        sentQueue := sentQueue - {ToUint32(base + i - 1)};
        i := i + 1;
      }
    }

    // ---- Setup ----

    method Start()
      requires Valid()
      modifies this`state, this`output
      ensures Valid()
      ensures if old(state) == CLOSED && isClient
        then state == COOKIE_WAIT && Fits(InitChunk(SetupView()))
            && output == old(output) + [Packet(0, [InitChunk(SetupView())])]
        else state == old(state) && output == old(output)
    {
      if state != CLOSED {
        return;
      }
      if isClient {
        InitFits(SetupView());
        EmitPacket(0, Chunk(INIT, 0,
          InitBytes(InitBody(localTag, DEFAULT_RWND, 65535, 65535, localTSN)) + AllParamBytes(EXT_PARAMS)));
        state := COOKIE_WAIT;
        InitFits(SetupView());
      }
    }

    method HandleInit(chunk: Chunk, newSecret: Buffer) returns (threw: bool)
      requires Valid()
      modifies this`remoteTag, this`peerCumulativeTSN, this`cookieSecret, this`output
      ensures Valid() && threw == (ParseInit(chunk.body) == None)
      ensures var (p, out) := Setup.HandleInit(hmac, newSecret, old(SetupView()), chunk);
        && SetupView() == p && (out.Some? ==> Fits(out.value.chunk)) && output == Handed(old(output), out)
    {
      hide InitBytes, AllParamBytes, Packet, ParamsFrom, CookieData;
      var parsed := ParseInit(chunk.body);
      if parsed == None {
        return true;
      }
      var init := parsed.value.0;
      remoteTag := init.initiateTag;
      peerCumulativeTSN := ToUint32(init.initialTSN - 1);
      if cookieSecret == None {
        cookieSecret := Some(newSecret);
      }
      var cookieData := CookieData(localTag, remoteTag, localTSN, init.initialTSN);
      var cookie := cookieData + hmac(cookieSecret.value, cookieData);
      var own := InitBody(localTag, DEFAULT_RWND, 65535, 65535, localTSN);
      InitAckFits(own, cookie);
      EmitPacket(remoteTag, InitAckChunk(own, cookie));
      return false;
    }

    method HandleInitAck(chunk: Chunk) returns (threw: bool)
      requires Valid()
      modifies this`state, this`remoteTag, this`peerCumulativeTSN, this`sentQueue, this`receivedOutOfOrder,
               this`fragments, this`output
      ensures Valid() && threw == (old(state) == COOKIE_WAIT && ParseInit(chunk.body) == None)
      ensures var (p, out) := Setup.HandleInitAck(old(SetupView()), chunk);
        && (out.Some? ==> Fits(out.value.chunk))
        && Snapshot() == (if p.state == CLOSED && old(state) != CLOSED then Released(WithPeer(old(Snapshot()), p))
                          else WithPeer(old(Snapshot()), p)).(output := Handed(old(output), out))
    {
      hide ParamsFrom, Packet, ParseInit, FindCookie, ToUint32;
      if state != COOKIE_WAIT {
        return false;
      }
      var parsed := ParseInit(chunk.body);
      if parsed == None {
        return true;
      }
      var (initAck, params) := parsed.value;
      remoteTag := initAck.initiateTag;
      peerCumulativeTSN := ToUint32(initAck.initialTSN - 1);
      var cookie := FirstCookie(params);
      if cookie == None {
        Close();
        return false;
      }
      InitAckCookieFits(chunk);
      state := COOKIE_ECHOED;
      EmitPacket(remoteTag, Chunk(COOKIE_ECHO, 0, cookie.value));
      return false;
    }

    method FirstCookie(params: seq<Param>) returns (cookie: Option<Buffer>)
      ensures cookie == FindCookie(params)
    {
      for i := 0 to |params|
        invariant FindCookie(params) == FindCookie(params[i..])
      {
        if params[i].typ == STATE_COOKIE {
          return Some(params[i].value);
        }
      }
      return None;
    }

    method HandleCookieEcho(chunk: Chunk)
      requires Valid()
      modifies this`state, this`output
      ensures Valid()
      ensures var (p, out) := Setup.HandleCookieEcho(hmac, old(SetupView()), chunk);
        SetupView() == p && output == Handed(old(output), out)
    {
      hide Packet;
      var cookie := chunk.body;
      if |cookie| >= 48 && cookieSecret.Some? {
        var data, mac := cookie[..16], cookie[16..48];
        if mac != hmac(cookieSecret.value, data) {
          return;
        }
      }
      EmitPacket(remoteTag, COOKIE_ACK_CHUNK);
      state := ESTABLISHED;
    }

    method HandleCookieAck()
      modifies this`state
      ensures SetupView() == Setup.HandleCookieAck(old(SetupView()))
    {
      if state == COOKIE_ECHOED {
        state := ESTABLISHED;
      }
    }

    // ---- Closing ----

    /** Both `#abort` and `#close`: only the events emitted differ. */
    method Close()
      requires Valid()
      modifies this`state, this`sentQueue, this`receivedOutOfOrder, this`fragments
      ensures Valid() && Snapshot() == Closed(old(Snapshot()))
    {
      if state != CLOSED {
        state := CLOSED;
        sentQueue, receivedOutOfOrder, fragments := map[], map[], map[];
      }
    }

    method Shutdown()
      requires Valid()
      modifies this`state, this`sentQueue, this`receivedOutOfOrder, this`fragments, this`output
      ensures Valid()
      ensures Snapshot() == Closed(if old(state) != ESTABLISHED then old(Snapshot())
        else old(Snapshot()).(output := old(output)
            + [Packet(remoteTag, [Chunk(SHUTDOWN, 0, U32(peerCumulativeTSN))])]))
    {
      hide Packet;
      if state == ESTABLISHED {
        EmitPacket(remoteTag, Chunk(SHUTDOWN, 0, U32(peerCumulativeTSN)));
      }
      Close();
    }

    // ---- Dispatch ----

    method HandleChunk(chunk: Chunk, newSecret: Buffer) returns (threw: bool)
      requires Valid() && Fits(chunk)
      modifies this
      ensures Valid() && ChunkHandled(cmp, answers, hmac, newSecret, old(Snapshot()), chunk, Snapshot(), threw)
    {
      hide Packet, DeliverHeard, DataHandled, Association.HandleSack, ParseInit, ParseData, SackOf, Setup.HandleInit,
           Setup.HandleInitAck;
      threw := false;
      if chunk.typ == INIT {
        threw := HandleInit(chunk, newSecret);
      } else if chunk.typ == INIT_ACK {
        threw := HandleInitAck(chunk);
      } else if chunk.typ == COOKIE_ECHO {
        HandleCookieEcho(chunk);
      } else if chunk.typ == COOKIE_ACK {
        HandleCookieAck();
      } else if chunk.typ == DATA {
        threw := HandleData(chunk);
      } else if chunk.typ == SACK {
        threw := HandleSack(chunk);
      } else if chunk.typ == HEARTBEAT {
        EmitPacket(remoteTag, Chunk(HEARTBEAT_ACK, 0, chunk.body));
      } else if chunk.typ == ABORT {
        Close();
      } else if chunk.typ == SHUTDOWN {
        EmitPacket(remoteTag, Chunk(SHUTDOWN_ACK, 0, []));
        Close();
      }
    }

    /**
     * Short or corrupt packets change nothing. The verification tag is never checked. An exception
     * leaves the chunks before it handled.
     */
    method ReceivePacket(table: array<Crc.Word>, packet: array<byte>, newSecret: Buffer) returns (threw: bool)
      requires Valid() && Crc.IsTable(Crc.CASTAGNOLI, table)
      modifies this, packet
      ensures Valid() && packet[..] == old(packet[..])
      ensures packet.Length < 12 || !Crc.Accepts(packet[..]) ==> !threw && Snapshot() == old(Snapshot())
      ensures packet.Length >= 12 && Crc.Accepts(packet[..]) ==>
        && (forall c | c in ChunksFrom(packet[..], 12) :: Fits(c))
        && ChunksHandled(cmp, answers, hmac, newSecret, old(Snapshot()), ChunksFrom(packet[..], 12), Snapshot(), threw)
    {
      hide ChunkHandled, Crc.Accepts;
      if packet.Length < 12 {
        return false;
      }
      var ok := Crc.VerifyChecksum(table, packet);
      if !ok {
        return false;
      }
      var chunks := ParseChunks(packet[..]);
      ParsedChunksFit(packet[..], 12);
      threw := HandleChunks(chunks, newSecret);
    }

    method HandleChunks(chunks: seq<Chunk>, newSecret: Buffer) returns (threw: bool)
      requires Valid() && forall c | c in chunks :: Fits(c)
      modifies this
      ensures Valid() && ChunksHandled(cmp, answers, hmac, newSecret, old(Snapshot()), chunks, Snapshot(), threw)
    {
      hide ChunkHandled;
      for i := 0 to |chunks|
        invariant Valid()
        invariant ChunksHandled(cmp, answers, hmac, newSecret, old(Snapshot()), chunks[..i], Snapshot(), false)
      {
        assert chunks[..i + 1][..i] == chunks[..i];
        ghost var before := Snapshot();
        threw := HandleChunk(chunks[i], newSecret);
        if threw {
          assert ChunksHandled(cmp, answers, hmac, newSecret, old(Snapshot()), chunks[..i + 1], Snapshot(), true);
          RestSkipped(cmp, answers, hmac, newSecret, old(Snapshot()), chunks, i + 1, Snapshot());
          return;
        }
      }
      assert chunks[..|chunks|] == chunks;
      return false;
    }
  }

  lemma {:induction false} RestSkipped(cmp: Comparison, answers: Answers, hmac: Hmac, newSecret: Buffer, w: World,
      cs: seq<Chunk>, i: nat, w': World)
    requires Digests(hmac) && i <= |cs| && forall c | c in cs :: Fits(c)
    requires ChunksHandled(cmp, answers, hmac, newSecret, w, cs[..i], w', true)
    ensures ChunksHandled(cmp, answers, hmac, newSecret, w, cs, w', true)
    decreases |cs|
  {
    if i < |cs| {
      var n := |cs| - 1;
      assert cs[..n][..i] == cs[..i];
      RestSkipped(cmp, answers, hmac, newSecret, w, cs[..n], i, w');
    } else {
      assert cs[..i] == cs;
    }
  }

  lemma PieceAt(first: u32, ssn: u16, m: Message, unordered: bool, j: nat, d: Data)
    requires j < PieceCount(|m.data|) && Carriable(m)
    requires var slice := m.data[MAX_PAYLOAD * j..Min(MAX_PAYLOAD * j + MAX_PAYLOAD, |m.data|)];
      d == Data(unordered, MAX_PAYLOAD * j == 0, MAX_PAYLOAD * j + |slice| >= |m.data|, ToUint32(first + j),
          m.streamId, ssn, m.ppid, slice)
    ensures d == Pieces(first, ssn, m, unordered)[j] && Sendable(d)
    ensures d.ending ==> j + 1 == PieceCount(|m.data|)
    ensures !d.ending ==> |d.userData| == MAX_PAYLOAD && j + 1 < PieceCount(|m.data|)
  {
    hide ToUint32;
  }

  lemma NextNumber(first: u32, j: nat)
    ensures ToUint32(ToUint32(first + j) + 1) == ToUint32(first + (j + 1))
  {
    WrapDifference(first + j, -1);
  }

  lemma SendIs(s: Sender, m: Message, unordered: bool, ds: seq<Data>)
    requires Carriable(m) ==> ds == Pieces(s.localTSN, StreamSeq(s, m.streamId, unordered), m, unordered)
    ensures Carriable(m) ==> ds == MessagePieces(s, m, unordered)
    ensures Send(s, m, unordered).localTSN == ToUint32(s.localTSN + if Carriable(m) then |ds| else 1)
    ensures Send(s, m, unordered).nextSSN ==
      if unordered then s.nextSSN else s.nextSSN[m.streamId := (StreamSeq(s, m.streamId, unordered) + 1) % 0x1_0000]
    ensures Carriable(m) ==>
      (forall d | d in ds :: Sendable(d)) && Send(s, m, unordered).sentQueue == Enqueue(s.sentQueue, ds)
    ensures !Carriable(m) ==> Send(s, m, unordered).sentQueue == s.sentQueue
  {
    hide ToUint32, Enqueue, Pieces;
  }

  lemma NothingQueued(first: u32, queue: map<u32, Buffer>)
    ensures ToUint32(first + 0) == first && Enqueue(queue, []) == queue
  {}

  lemma EnqueuePush(queue: map<u32, Buffer>, ds: seq<Data>, d: Data)
    requires Sendable(d) && forall x | x in ds :: Sendable(x)
    ensures Enqueue(queue, ds + [d]) == Enqueue(queue, ds)[d.tsn := Encoded(d)]
  {
    hide Encoded;
    assert (ds + [d])[..|ds|] == ds;
  }

  lemma KeysAreFew(cmp: Comparison, keys: set<u32>, sorted: seq<u32>)
    requires IsSorting(cmp, keys, sorted) && |keys| <= MAX_OOO_CHUNKS
    ensures |sorted| <= MAX_OOO_CHUNKS
  {
    GapBlocks.SortedLength(cmp, keys, sorted);
  }

  lemma SackChunkFits(s: Sack)
    requires |s.gapBlocks| <= MAX_OOO_CHUNKS && s.dupTSNs == []
    ensures SackFits(s) && Fits(SackChunk(s))
  {}

  lemma InitFits(p: Peer)
    ensures Fits(InitChunk(p))
  {
    hide InitBytes;
    assert EXT_PARAMS[1..] == [];
    assert AllParamBytes([]) == [];
  }

  lemma OneMoreBlock(sack: Sack, n: nat, tsn: u32)
    requires n < |sack.gapBlocks|
    ensures InBlocks(sack.(gapBlocks := sack.gapBlocks[..n + 1]), tsn) <==>
      InBlocks(sack.(gapBlocks := sack.gapBlocks[..n]), tsn)
      || sack.gapBlocks[n].0 <= Ahead(sack.cumulativeTSNAck, tsn) <= sack.gapBlocks[n].1
  {
    hide Ahead;
    assert sack.gapBlocks[..n + 1] == sack.gapBlocks[..n] + [sack.gapBlocks[n]];
  }

  lemma NoBlocks(cum: u32)
    ensures Runs([]) == [] && Offsets(cum, []) == []
  {}

  lemma FirstRun(tsn: u32)
    ensures Runs([tsn]) == [(tsn, tsn)]
  {
    assert [tsn][..0] == [];
  }

  lemma RunsPush(tsns: seq<u32>, closed: seq<(u32, u32)>, start: u32, prev: u32, tsn: u32)
    requires Runs(tsns) == closed + [(start, prev)]
    ensures Runs(tsns + [tsn]) ==
      if tsn == ToUint32(prev as int + 1) then closed + [(start, tsn)] else closed + [(start, prev)] + [(tsn, tsn)]
  {
    hide ToUint32;
    var runs := Runs(tsns);
    assert (tsns + [tsn])[..|tsns|] == tsns;
    assert runs[|closed|] == (start, prev) && runs[..|closed|] == closed;
  }

  lemma OffsetsPush(cum: u32, closed: seq<(u32, u32)>, start: u32, prev: u32)
    ensures Offsets(cum, closed + [(start, prev)]) ==
      if Ahead(cum, prev) <= 0xffff then Offsets(cum, closed) + [(Ahead(cum, start), Ahead(cum, prev))]
          else Offsets(cum, closed)
  {
    hide Ahead;
    assert (closed + [(start, prev)])[..|closed|] == closed;
  }

  lemma BlockTsn(cumulative: u32, i: nat)
    requires i <= 0xffff
    ensures ToUint32(ToUint32(cumulative + 1) + i - 1) == ToUint32(cumulative + i)
    ensures Ahead(cumulative, ToUint32(ToUint32(cumulative + 1) + i - 1)) == i
  {
    assert ToUint32(cumulative + 1) == if cumulative as int + 1 == MODULUS then 0 else cumulative + 1;
    hide Ahead;
    AddMultiple(i - 1, 1);
    AheadOfSum(cumulative, i);
  }
}
