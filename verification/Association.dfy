/**
 * The data path of an SCTP association (src/sctp/association.ts:335-497): what sending,
 * receiving and acknowledging do to the state, and the class whose methods do it.
 */
module Association {
  import opened Bytes
  import opened Serial
  import opened Chunks
  import Crc

  const DEFAULT_RWND: u32 := 1024 * 1024
  const MAX_PAYLOAD: nat := 1200
  /** `Math.ceil(DEFAULT_RWND / MAX_PAYLOAD)`. */
  const MAX_OOO_CHUNKS: nat := 874

  /** A complete user message, as emitted by the 'message' event. */
  datatype Message = Message(streamId: nat, ppid: u32, data: Buffer)

  datatype FragmentBuffer = FragmentBuffer(ppid: u32, parts: seq<Buffer>)

  /** `${streamId}:${unordered ? 'u' : 'o'}`. */
  type FragmentKey = (nat, bool)

  // ---- Receiving ----

  datatype Reassembly = Reassembly(fragments: map<FragmentKey, FragmentBuffer>, emitted: seq<Message>)

  function KeyOf(d: Data): FragmentKey { (d.streamId, d.unordered) }

  function Consume(r: Reassembly, d: Data): Reassembly {
    var key := KeyOf(d);
    if d.beginning && d.ending then
      r.(emitted := r.emitted + [Message(d.streamId, d.ppid, d.userData)])
    else if !d.beginning && key !in r.fragments then
      r
    else
      var buf := if d.beginning then FragmentBuffer(d.ppid, [d.userData])
                 else FragmentBuffer(r.fragments[key].ppid, r.fragments[key].parts + [d.userData]);
      if d.ending then
        Reassembly(r.fragments - {key}, r.emitted + [Message(d.streamId, buf.ppid, Concat(buf.parts))])
      else
        r.(fragments := r.fragments[key := buf])
  }

  function ConsumeAll(r: Reassembly, ds: seq<Data>): Reassembly {
    if ds == [] then r else Consume(ConsumeAll(r, ds[..|ds| - 1]), ds[|ds| - 1])
  }

  /** `consumed` is history: the chunks handed to `#consume`, in order. */
  datatype Receiver = Receiver(
    cumulative: u32, outOfOrder: map<u32, Data>, reassembly: Reassembly, consumed: seq<Data>)

  function Expected(rx: Receiver): u32 { ToUint32(rx.cumulative + 1) }

  function Accept(rx: Receiver, tsn: u32, d: Data): Receiver {
    rx.(cumulative := tsn, reassembly := Consume(rx.reassembly, d), consumed := rx.consumed + [d])
  }

  /** Consume buffered chunks as long as the next TSN is among them. */
  function Drain(rx: Receiver): Receiver
    decreases |rx.outOfOrder|
  {
    var next := Expected(rx);
    if next in rx.outOfOrder then
      Shrinks(rx.outOfOrder, next);
      Drain(Accept(rx.(outOfOrder := rx.outOfOrder - {next}), next, rx.outOfOrder[next]))
    else rx
  }

  lemma Shrinks<T>(m: map<u32, T>, k: u32)
    requires k in m
    ensures |m - {k}| == |m| - 1
  {
    assert (m - {k}).Keys == m.Keys - {k};
    assert |m.Keys - {k}| == |m.Keys| - 1;
  }

  function Deliver(cmp: Comparison, rx: Receiver, d: Data): Receiver {
    if SnLt(cmp, d.tsn, Expected(rx)) then rx
    else if d.tsn == Expected(rx) then Drain(Accept(rx, d.tsn, d))
    else if d.tsn !in rx.outOfOrder && |rx.outOfOrder| < MAX_OOO_CHUNKS then
      rx.(outOfOrder := rx.outOfOrder[d.tsn := d])
    else rx
  }

  // ---- Receiving with a listener that may throw ----

  /** Whether handling a message throws. */
  type Listener = Message -> bool

  /** A receiver, and whether the listener threw. */
  datatype Outcome = Outcome(rx: Receiver, threw: bool)

  /** One chunk consumed; if it completes a message, the listener hears it. */
  function AcceptHeard(rx: Receiver, tsn: u32, d: Data, throws: Listener): Outcome {
    var rx' := Accept(rx, tsn, d);
    var before, after := rx.reassembly.emitted, rx'.reassembly.emitted;
    Outcome(rx', |after| > |before| && throws(after[|after| - 1]))
  }

  function DrainHeard(rx: Receiver, throws: Listener): Outcome
    decreases |rx.outOfOrder|
  {
    var next := Expected(rx);
    if next in rx.outOfOrder then
      Shrinks(rx.outOfOrder, next);
      var o := AcceptHeard(rx.(outOfOrder := rx.outOfOrder - {next}), next, rx.outOfOrder[next], throws);
      if o.threw then o else DrainHeard(o.rx, throws)
    else Outcome(rx, false)
  }

  /** One round of the drain loop. */
  lemma DrainRound(rx: Receiver, throws: Listener)
    ensures var next := Expected(rx);
      if next in rx.outOfOrder then
        var o := AcceptHeard(rx.(outOfOrder := rx.outOfOrder - {next}), next, rx.outOfOrder[next], throws);
        DrainHeard(rx, throws) == if o.threw then o else DrainHeard(o.rx, throws)
      else DrainHeard(rx, throws) == Outcome(rx, false)
  {
    hide AcceptHeard;
  }

  function DeliverHeard(cmp: Comparison, rx: Receiver, d: Data, throws: Listener): Outcome {
    if SnLt(cmp, d.tsn, Expected(rx)) then Outcome(rx, false)
    else if d.tsn == Expected(rx) then
      var o := AcceptHeard(rx, d.tsn, d, throws);
      if o.threw then o else DrainHeard(o.rx, throws)
    else Outcome(Deliver(cmp, rx, d), false)
  }

  // ---- Sending ----

  datatype Sender = Sender(localTSN: u32, nextSSN: map<nat, u16>, sentQueue: map<u32, Buffer>)

  /** Pieces of at most MAX_PAYLOAD bytes; an empty message still takes one. */
  function PieceCount(len: nat): (n: nat)
    ensures n >= 1 && MAX_PAYLOAD * (n - 1) <= len <= MAX_PAYLOAD * n
    ensures n > 1 ==> MAX_PAYLOAD * (n - 1) < len
  {
    if len == 0 then 1 else (len + MAX_PAYLOAD - 1) / MAX_PAYLOAD
  }

  function Min(a: int, b: int): int { if a <= b then a else b }

  /** Piece `j` of a message whose first piece has TSN `first`. */
  function Piece(first: u32, ssn: u16, m: Message, unordered: bool, j: nat): (d: Data)
    requires j < PieceCount(|m.data|)
  {
    Data(unordered, j == 0, j + 1 == PieceCount(|m.data|),
         ToUint32(first + j), m.streamId, ssn, m.ppid,
         m.data[MAX_PAYLOAD * j..Min(MAX_PAYLOAD * (j + 1), |m.data|)])
  }

  function Pieces(first: u32, ssn: u16, m: Message, unordered: bool): (ds: seq<Data>)
    ensures |ds| == PieceCount(|m.data|)
    ensures forall j | 0 <= j < |ds| :: ds[j] == Piece(first, ssn, m, unordered, j)
  {
    seq(PieceCount(|m.data|), j requires 0 <= j < PieceCount(|m.data|) => Piece(first, ssn, m, unordered, j))
  }

  predicate Sendable(d: Data) { |d.userData| <= MAX_PAYLOAD && Addressable(d) }

  function Encoded(d: Data): Buffer
    requires Sendable(d)
  {
    ChunkBytes(DataChunk(d))
  }

  function Enqueue(queue: map<u32, Buffer>, ds: seq<Data>): map<u32, Buffer>
    requires forall d | d in ds :: Sendable(d)
  {
    if ds == [] then queue
    else Enqueue(queue, ds[..|ds| - 1])[ds[|ds| - 1].tsn := Encoded(ds[|ds| - 1])]
  }

  function StreamSeq(s: Sender, streamId: nat, unordered: bool): u16 {
    if !unordered && streamId in s.nextSSN then s.nextSSN[streamId] else 0
  }

  /** `sendData` throws for any other stream, after it has taken a stream number and a TSN. */
  predicate Carriable(m: Message) { m.streamId <= 0xffff }

  /** The chunks that get a TSN: every piece of a carriable message, and the first piece of any other. */
  function MessagePieces(s: Sender, m: Message, unordered: bool): (ds: seq<Data>)
    ensures Carriable(m) ==> |ds| == PieceCount(|m.data|) && forall d | d in ds :: Sendable(d)
    ensures !Carriable(m) ==> |ds| == 1 && !Sendable(ds[0])
  {
    var ds := Pieces(s.localTSN, StreamSeq(s, m.streamId, unordered), m, unordered);
    if Carriable(m) then ds else ds[..1]
  }

  function Send(s: Sender, m: Message, unordered: bool): Sender {
    var ds := MessagePieces(s, m, unordered);
    Sender(
      ToUint32(s.localTSN + |ds|),
      if unordered then s.nextSSN else s.nextSSN[m.streamId := (StreamSeq(s, m.streamId, unordered) + 1) % 0x1_0000],
      if Carriable(m) then Enqueue(s.sentQueue, ds) else s.sentQueue)
  }

  /** How many messages come before the first that cannot be carried. */
  function Clear(msgs: seq<Message>): (c: nat)
    ensures c <= |msgs| && forall i | 0 <= i < c :: Carriable(msgs[i])
    ensures c < |msgs| ==> !Carriable(msgs[c])
  {
    if msgs == [] then 0
    else
      var n := |msgs| - 1;
      var c := Clear(msgs[..n]);
      if c == n && Carriable(msgs[n]) then n + 1 else c
  }

  lemma ClearPush(msgs: seq<Message>, m: Message)
    ensures Clear(msgs + [m]) == if Clear(msgs) == |msgs| && Carriable(m) then |msgs| + 1 else Clear(msgs)
  {
    assert (msgs + [m])[..|msgs|] == msgs;
  }

  // ---- Acknowledging ----

  /** A list of TSNs cut into runs of consecutive ones, as (first, last). */
  function Runs(tsns: seq<u32>): (runs: seq<(u32, u32)>)
    ensures |runs| <= |tsns|
    ensures tsns != [] ==> runs != [] && runs[|runs| - 1].1 == tsns[|tsns| - 1]
  {
    if tsns == [] then []
    else
      var runs, tsn := Runs(tsns[..|tsns| - 1]), tsns[|tsns| - 1];
      var n := |runs| - 1;
      if runs != [] && tsn == ToUint32(runs[n].1 as int + 1) then runs[..n] + [(runs[n].0, tsn)]
          else runs + [(tsn, tsn)]
  }

  /** The runs as offsets from the cumulative TSN; runs ending more than 0xffff ahead are skipped. */
  function Offsets(cum: u32, runs: seq<(u32, u32)>): (blocks: seq<(u32, u32)>)
    ensures |blocks| <= |runs|
    ensures forall b | b in blocks :: b.1 <= 0xffff
  {
    if runs == [] then []
    else
      var blocks, run := Offsets(cum, runs[..|runs| - 1]), runs[|runs| - 1];
      if Ahead(cum, run.1) <= 0xffff then blocks + [(Ahead(cum, run.0), Ahead(cum, run.1))] else blocks
  }

  function Blocks(cum: u32, sorted: seq<u32>): seq<(u32, u32)> { Offsets(cum, Runs(sorted)) }

  predicate Encodable(blocks: seq<(u32, u32)>) {
    |blocks| <= 0xffff && forall b | b in blocks :: b.0 <= 0xffff && b.1 <= 0xffff
  }

  /** The SACK for what has been received; None is the RangeError of writing an offset above 0xffff. */
  function SackFor(cum: u32, sorted: seq<u32>): Option<Sack> {
    var blocks := Blocks(cum, sorted);
    if Encodable(blocks) then Some(Sack(cum, DEFAULT_RWND, Narrow(blocks), [])) else None
  }

  function Narrow(blocks: seq<(u32, u32)>): (narrow: seq<(u16, u16)>)
    requires Encodable(blocks)
    ensures |narrow| == |blocks|
    ensures forall i | 0 <= i < |blocks| :: narrow[i].0 == blocks[i].0 && narrow[i].1 == blocks[i].1
  {
    seq(|blocks|, i requires 0 <= i < |blocks| => assert blocks[i] in blocks; (blocks[i].0, blocks[i].1))
  }

  function Elements(tsns: seq<u32>): set<u32> { set k | k in tsns }

  /** `snLt` is a strict total order on the keys. */
  predicate Consistent(cmp: Comparison, keys: set<u32>) {
    && (forall a, b | a in keys && b in keys :: SnLt(cmp, a, b) <==> a != b && !SnLt(cmp, b, a))
    && (forall a, b, c | a in keys && b in keys && c in keys :: SnLt(cmp, a, b) && SnLt(cmp, b, c) ==> SnLt(cmp, a, c))
  }

  /**
   * What `[...keys].sort((a, b) => snLt(a, b) ? -1 : 1)` may return: the keys in ascending order if the
   * comparator orders them at all, and otherwise, as the language leaves it, in any order. The literal
   * comparator never says -1, so it orders no two keys.
   */
  ghost predicate IsSorting(cmp: Comparison, keys: set<u32>, sorted: seq<u32>) {
    && Elements(sorted) == keys
    && (forall i, j | 0 <= i < j < |sorted| :: sorted[i] != sorted[j])
    && (Consistent(cmp, keys) ==> forall i, j | 0 <= i < j < |sorted| :: SnLt(cmp, sorted[i], sorted[j]))
  }

  /** Covered by a gap block: `(base + i - 1) >>> 0` for some `i` from start to end. */
  predicate InBlocks(sack: Sack, tsn: u32) {
    exists b | b in sack.gapBlocks :: b.0 <= Ahead(sack.cumulativeTSNAck, tsn) <= b.1
  }

  predicate Acknowledged(cmp: Comparison, sack: Sack, tsn: u32) {
    SnLte(cmp, tsn, sack.cumulativeTSNAck) || InBlocks(sack, tsn)
  }

  function HandleSack(cmp: Comparison, queue: map<u32, Buffer>, sack: Sack): map<u32, Buffer> {
    map tsn | tsn in queue && !Acknowledged(cmp, sack, tsn) :: queue[tsn]
  }
}
