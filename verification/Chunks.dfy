/** SCTP packet and chunk encoding (src/sctp/chunks.ts; section 3 of RFC 4960). */
module Chunks {
  import opened Bytes
  import Crc

  const DATA: byte := 0
  const INIT: byte := 1
  const INIT_ACK: byte := 2
  const SACK: byte := 3
  const COOKIE_ECHO: byte := 10
  const COOKIE_ACK: byte := 11

  const STATE_COOKIE: u16 := 7
  const FORWARD_TSN_SUPPORTED: u16 := 49152

  const SCTP_PORT: u16 := 5000

  datatype Chunk = Chunk(typ: byte, flags: byte, body: Buffer)

  datatype Param = Param(typ: u16, value: Buffer)

  datatype InitBody = InitBody(initiateTag: u32, aRwnd: u32, outStreams: u16, inStreams: u16, initialTSN: u32)

  datatype Data = Data(
    unordered: bool, beginning: bool, ending: bool,
    tsn: u32, streamId: nat, streamSeq: u16, ppid: u32, userData: Buffer)

  datatype Sack = Sack(cumulativeTSNAck: u32, aRwnd: u32, gapBlocks: seq<(u16, u16)>, dupTSNs: seq<u32>)

  // ---- Chunk framing ----

  /** Two type bytes, a length that excludes padding, the body, zero padding to four bytes. */
  function Frame(head: Buffer, body: Buffer): (b: Buffer)
    requires |head| == 2 && |body| <= 0xffff - 4
    ensures |b| == Pad4(4 + |body|)
  {
    head + U16(4 + |body|) + body + Zeros(Pad4(4 + |body|) - 4 - |body|)
  }

  lemma FrameFields(head: Buffer, body: Buffer)
    requires |head| == 2 && |body| <= 0xffff - 4
    ensures Holds(Frame(head, body), 0, head)
    ensures Holds(Frame(head, body), 2, U16(4 + |body|))
    ensures Holds(Frame(head, body), 4, body)
  {
    hide U16, Zeros;
    assert |head + U16(4 + |body|)| == 4;
  }

  /** The length field is 16 bits; longer bodies make the encoder throw. */
  predicate Fits(c: Chunk) { |c.body| <= 0xffff - 4 }

  function ChunkBytes(c: Chunk): (b: Buffer)
    requires Fits(c)
    ensures |b| == Pad4(4 + |c.body|)
  {
    Frame([c.typ, c.flags], c.body)
  }

  method EncodeChunk(c: Chunk) returns (out: array<byte>)
    requires Fits(c)
    ensures fresh(out) && out[..] == ChunkBytes(c)
  {
    var len := 4 + |c.body|;
    out := new byte[Pad4(len)](_ => 0);
    out[0], out[1] := c.typ, c.flags;
    out[2], out[3] := U16(len)[0], U16(len)[1];
    forall i | 0 <= i < |c.body| {
      out[4 + i] := c.body[i];
    }
    assert out[4..len] == c.body;
  }

  function AllChunkBytes(cs: seq<Chunk>): Buffer
    requires forall c | c in cs :: Fits(c)
  {
    if cs == [] then [] else ChunkBytes(cs[0]) + AllChunkBytes(cs[1..])
  }

  /** A header and the length it declares lie inside the buffer. */
  predicate Framed(p: Buffer, off: nat) {
    off + 4 <= |p| && 4 <= ReadU16(p, off + 2) <= |p| - off
  }

  function FrameEnd(p: Buffer, off: nat): (e: nat)
    requires Framed(p, off)
    ensures e >= off + 4
  {
    off + Pad4(ReadU16(p, off + 2))
  }

  function FrameBody(p: Buffer, off: nat): Buffer
    requires Framed(p, off)
  {
    p[off + 4..off + ReadU16(p, off + 2)]
  }

  /** The chunks found from `off` on; a bad or overrunning length ends the packet. */
  function ChunksFrom(p: Buffer, off: nat): seq<Chunk>
    decreases |p| - off
  {
    if !Framed(p, off) then []
    else [Chunk(p[off], p[off + 1], FrameBody(p, off))] + ChunksFrom(p, FrameEnd(p, off))
  }

  lemma ReadFrame(p: Buffer, off: nat, head: Buffer, body: Buffer)
    requires |head| == 2 && |body| <= 0xffff - 4
    requires Holds(p, off, Frame(head, body))
    ensures Framed(p, off) && FrameBody(p, off) == body
    ensures FrameEnd(p, off) == off + |Frame(head, body)|
    ensures Holds(p, off, head)
  {
    ReadFrameFields(p, off, head, body);
    HeldSlice(p, off + 4, body);
  }

  lemma ReadFrameFields(p: Buffer, off: nat, head: Buffer, body: Buffer)
    requires |head| == 2 && |body| <= 0xffff - 4
    requires Holds(p, off, Frame(head, body))
    ensures off + 4 <= |p| && ReadU16(p, off + 2) == 4 + |body|
    ensures Holds(p, off, head) && Holds(p, off + 4, body)
  {
    hide *;
    FrameFields(head, body);
    HoldsWithin(p, off, Frame(head, body), 0, head);
    HoldsWithin(p, off, Frame(head, body), 2, U16(4 + |body|));
    HoldsWithin(p, off, Frame(head, body), 4, body);
    ReadWritten16(p, off + 2, 4 + |body|);
  }

  method ParseChunks(packet: Buffer) returns (chunks: seq<Chunk>)
    ensures chunks == ChunksFrom(packet, 12)
  {
    hide ReadU16, ChunksFrom, Pad4;
    chunks := [];
    var off := 12;
    while off + 4 <= |packet|
      invariant ChunksFrom(packet, 12) == chunks + ChunksFrom(packet, off)
      decreases |packet| - off
    {
      var typ, flags, len := packet[off], packet[off + 1], ReadU16(packet, off + 2);
      NextChunk(packet, off);
      if len < 4 || off + len > |packet| {
        break;
      }
      chunks := chunks + [Chunk(typ, flags, packet[off + 4..off + len])];
      off := off + Pad4(len);
    }
    NextChunk(packet, off);
  }

  lemma NextChunk(p: Buffer, off: nat)
    ensures ChunksFrom(p, off) ==
      if !Framed(p, off) then []
      else
        var length := ReadU16(p, off + 2);
        [Chunk(p[off], p[off + 1], p[off + 4..off + length])] + ChunksFrom(p, off + Pad4(length))
  {}

  /** Parsing gives back exactly the encoded chunks, whatever their lengths and padding. */
  lemma {:induction false} ChunksRoundTrip(pre: Buffer, cs: seq<Chunk>)
    requires forall c | c in cs :: Fits(c)
    ensures ChunksFrom(pre + AllChunkBytes(cs), |pre|) == cs
    decreases |cs|
  {
    if cs != [] {
      var c := cs[0];
      var pre', rest := pre + ChunkBytes(c), AllChunkBytes(cs[1..]);
      FirstFrame(pre, [c.typ, c.flags], c.body, rest);
      ChunksRoundTrip(pre', cs[1..]);
    }
  }

  /** What a parser standing at the start of a frame finds, and where it goes next. */
  lemma FirstFrame(pre: Buffer, head: Buffer, body: Buffer, rest: Buffer)
    requires |head| == 2 && |body| <= 0xffff - 4
    ensures var p := pre + (Frame(head, body) + rest);
      && p == pre + Frame(head, body) + rest
      && Framed(p, |pre|) && FrameBody(p, |pre|) == body
      && FrameEnd(p, |pre|) == |pre + Frame(head, body)|
      && p[|pre|] == head[0] && p[|pre| + 1] == head[1]
  {
    hide Frame, Framed, FrameBody, FrameEnd;
    var p := pre + (Frame(head, body) + rest);
    assert p == pre + Frame(head, body) + rest;
    HoldsInMiddle(pre, Frame(head, body), rest);
    ReadFrame(p, |pre|, head, body);
    assert p[|pre| + 0] == head[0] && p[|pre| + 1] == head[1];
  }

  // ---- Parameters (the same framing with a 16-bit type) ----

  predicate ParamFits(q: Param) { |q.value| <= 0xffff - 4 }

  function ParamBytes(q: Param): (b: Buffer)
    requires ParamFits(q)
    ensures |b| == Pad4(4 + |q.value|)
  {
    Frame(U16(q.typ), q.value)
  }

  function AllParamBytes(qs: seq<Param>): Buffer
    requires forall q | q in qs :: ParamFits(q)
  {
    if qs == [] then [] else ParamBytes(qs[0]) + AllParamBytes(qs[1..])
  }

  function ParamsFrom(b: Buffer, off: nat): seq<Param>
    decreases |b| - off
  {
    if !Framed(b, off) then []
    else [Param(ReadU16(b, off), FrameBody(b, off))] + ParamsFrom(b, FrameEnd(b, off))
  }

  method ParseParams(b: Buffer) returns (params: seq<Param>)
    ensures params == ParamsFrom(b, 0)
  {
    hide ReadU16;
    params := [];
    var off := 0;
    while off + 4 <= |b|
      invariant ParamsFrom(b, 0) == params + ParamsFrom(b, off)
      decreases |b| - off
    {
      var typ, len := ReadU16(b, off), ReadU16(b, off + 2);
      if len < 4 || off + len > |b| {
        break;
      }
      var q := Param(typ, b[off + 4..off + len]);
      assert ParamsFrom(b, off) == [q] + ParamsFrom(b, off + Pad4(len));
      params := params + [q];
      off := off + Pad4(len);
    }
  }

  lemma {:induction false} ParamsRoundTrip(pre: Buffer, qs: seq<Param>)
    requires forall q | q in qs :: ParamFits(q)
    ensures ParamsFrom(pre + AllParamBytes(qs), |pre|) == qs
    decreases |qs|
  {
    if qs != [] {
      var q := qs[0];
      var pre', rest := pre + ParamBytes(q), AllParamBytes(qs[1..]);
      FirstFrame(pre, U16(q.typ), q.value, rest);
      ParamsRoundTrip(pre', qs[1..]);
    }
  }

  // ---- INIT and INIT_ACK ----

  function InitBytes(i: InitBody): (b: Buffer)
    ensures |b| == 16
  {
    U32(i.initiateTag) + U32(i.aRwnd) + U16(i.outStreams) + U16(i.inStreams) + U32(i.initialTSN)
  }

  /** None is the RangeError of a read past the end of a short body. */
  function ParseInit(body: Buffer): Option<(InitBody, seq<Param>)> {
    if |body| < 16 then None
    else Some((
      InitBody(ReadU32(body, 0), ReadU32(body, 4), ReadU16(body, 8), ReadU16(body, 10), ReadU32(body, 12)),
      ParamsFrom(body[16..], 0)))
  }

  lemma InitRoundTrip(i: InitBody, qs: seq<Param>)
    requires forall q | q in qs :: ParamFits(q)
    ensures ParseInit(InitBytes(i) + AllParamBytes(qs)) == Some((i, qs))
  {
    var body := InitBytes(i) + AllParamBytes(qs);
    assert Holds(body, 0, U32(i.initiateTag)) && Holds(body, 4, U32(i.aRwnd));
    assert Holds(body, 8, U16(i.outStreams)) && Holds(body, 10, U16(i.inStreams));
    assert Holds(body, 12, U32(i.initialTSN));
    ReadWritten32(body, 0, i.initiateTag);
    ReadWritten32(body, 4, i.aRwnd);
    ReadWritten16(body, 8, i.outStreams);
    ReadWritten16(body, 10, i.inStreams);
    ReadWritten32(body, 12, i.initialTSN);
    assert body[16..] == AllParamBytes(qs);
    ParamsRoundTrip([], qs);
    assert [] + AllParamBytes(qs) == AllParamBytes(qs);
  }

  // ---- DATA ----

  function DataFlags(d: Data): byte {
    (if d.ending then 1 else 0) + (if d.beginning then 2 else 0) + (if d.unordered then 4 else 0)
  }

  /** The stream id field is 16 bits; a larger id makes the encoder throw. */
  predicate Addressable(d: Data) { d.streamId <= 0xffff }

  function DataHead(d: Data): (b: Buffer)
    requires Addressable(d)
    ensures |b| == 12
  {
    U32(d.tsn) + U16(d.streamId) + U16(d.streamSeq) + U32(d.ppid)
  }

  function DataChunk(d: Data): Chunk
    requires Addressable(d)
  {
    Chunk(DATA, DataFlags(d), DataHead(d) + d.userData)
  }

  function ParseData(flags: byte, body: Buffer): Option<Data> {
    if |body| < 12 then None
    else Some(Data(
      flags / 4 % 2 == 1, flags / 2 % 2 == 1, flags % 2 == 1,
      ReadU32(body, 0), ReadU16(body, 4), ReadU16(body, 6), ReadU32(body, 8), body[12..]))
  }

  lemma DataRoundTrip(d: Data)
    requires Addressable(d)
    ensures ParseData(DataChunk(d).flags, DataChunk(d).body) == Some(d)
  {
    var body := DataHead(d) + d.userData;
    assert Holds(body, 0, U32(d.tsn)) && Holds(body, 4, U16(d.streamId));
    assert Holds(body, 6, U16(d.streamSeq)) && Holds(body, 8, U32(d.ppid));
    ReadWritten32(body, 0, d.tsn);
    ReadWritten16(body, 4, d.streamId);
    ReadWritten16(body, 6, d.streamSeq);
    ReadWritten32(body, 8, d.ppid);
    assert body[12..] == d.userData;
  }

  // ---- SACK ----

  predicate SackFits(s: Sack) { |s.gapBlocks| <= 0xffff && |s.dupTSNs| <= 0xffff }

  function BlockBytes(blocks: seq<(u16, u16)>): (b: Buffer)
    ensures |b| == 4 * |blocks|
  {
    if blocks == [] then []
    else BlockBytes(blocks[..|blocks| - 1]) + U16(blocks[|blocks| - 1].0) + U16(blocks[|blocks| - 1].1)
  }

  function TsnBytes(tsns: seq<u32>): (b: Buffer)
    ensures |b| == 4 * |tsns|
  {
    if tsns == [] then [] else TsnBytes(tsns[..|tsns| - 1]) + U32(tsns[|tsns| - 1])
  }

  function SackHead(s: Sack): (b: Buffer)
    requires SackFits(s)
    ensures |b| == 12
  {
    U32(s.cumulativeTSNAck) + U32(s.aRwnd) + U16(|s.gapBlocks|) + U16(|s.dupTSNs|)
  }

  function SackBytes(s: Sack): Buffer
    requires SackFits(s)
  {
    SackHead(s) + BlockBytes(s.gapBlocks) + TsnBytes(s.dupTSNs)
  }

  function BlocksAt(body: Buffer, o: nat, n: nat): (blocks: seq<(u16, u16)>)
    requires o + 4 * n <= |body|
  {
    if n == 0 then []
    else BlocksAt(body, o, n - 1) + [(ReadU16(body, o + 4 * n - 4), ReadU16(body, o + 4 * n - 2))]
  }

  function TsnsAt(body: Buffer, o: nat, n: nat): (tsns: seq<u32>)
    requires o + 4 * n <= |body|
  {
    if n == 0 then [] else TsnsAt(body, o, n - 1) + [ReadU32(body, o + 4 * n - 4)]
  }

  function SackOf(body: Buffer): Option<Sack> {
    if |body| < 12 then None
    else
      var gaps, dups := ReadU16(body, 8), ReadU16(body, 10);
      if |body| < 12 + 4 * gaps + 4 * dups then None
      else Some(Sack(ReadU32(body, 0), ReadU32(body, 4), BlocksAt(body, 12, gaps), TsnsAt(body, 12 + 4 * gaps, dups)))
  }

  /** None is the RangeError of the first read past the end. */
  method ParseSack(body: Buffer) returns (r: Option<Sack>)
    ensures r == SackOf(body)
  {
    if |body| < 12 {
      return None;
    }
    var cum, rwnd := ReadU32(body, 0), ReadU32(body, 4);
    var gaps, dups := ReadU16(body, 8), ReadU16(body, 10);
    var gapBlocks: seq<(u16, u16)> := [];
    var o := 12;
    for i := 0 to gaps
      invariant o == 12 + 4 * i <= |body|
      invariant gapBlocks == BlocksAt(body, 12, i)
    {
      if o + 4 > |body| {
        return None;
      }
      gapBlocks := gapBlocks + [(ReadU16(body, o), ReadU16(body, o + 2))];
      o := o + 4;
    }
    var dupTSNs: seq<u32> := [];
    for i := 0 to dups
      invariant o == 12 + 4 * gaps + 4 * i <= |body|
      invariant dupTSNs == TsnsAt(body, 12 + 4 * gaps, i)
    {
      if o + 4 > |body| {
        return None;
      }
      dupTSNs := dupTSNs + [ReadU32(body, o)];
      o := o + 4;
    }
    r := Some(Sack(cum, rwnd, gapBlocks, dupTSNs));
  }

  lemma {:induction false} BlocksRoundTrip(body: Buffer, o: nat, blocks: seq<(u16, u16)>)
    requires Holds(body, o, BlockBytes(blocks))
    ensures o + 4 * |blocks| <= |body| && BlocksAt(body, o, |blocks|) == blocks
  {
    if blocks != [] {
      var n := |blocks| - 1;
      HeldParts(body, o, BlockBytes(blocks[..n]), U16(blocks[n].0), U16(blocks[n].1));
      BlocksRoundTrip(body, o, blocks[..n]);
      ReadWritten16(body, o + 4 * n, blocks[n].0);
      ReadWritten16(body, o + 4 * n + 2, blocks[n].1);
    }
  }

  lemma {:induction false} TsnsRoundTrip(body: Buffer, o: nat, tsns: seq<u32>)
    requires Holds(body, o, TsnBytes(tsns))
    ensures o + 4 * |tsns| <= |body| && TsnsAt(body, o, |tsns|) == tsns
  {
    if tsns != [] {
      var n := |tsns| - 1;
      assert TsnBytes(tsns) == TsnBytes(tsns[..n]) + U32(tsns[n]) + [];
      HeldParts(body, o, TsnBytes(tsns[..n]), U32(tsns[n]), []);
      TsnsRoundTrip(body, o, tsns[..n]);
      ReadWritten32(body, o + 4 * n, tsns[n]);
    }
  }

  lemma SackRoundTrip(s: Sack)
    requires SackFits(s)
    ensures SackOf(SackBytes(s)) == Some(s)
  {
    hide SackHead, BlockBytes, TsnBytes, BlocksAt, TsnsAt;
    SackHeadRead(s, BlockBytes(s.gapBlocks) + TsnBytes(s.dupTSNs));
    assert SackHead(s) + (BlockBytes(s.gapBlocks) + TsnBytes(s.dupTSNs)) == SackBytes(s);
    HoldsInMiddle(SackHead(s), BlockBytes(s.gapBlocks), TsnBytes(s.dupTSNs));
    BlocksRoundTrip(SackBytes(s), 12, s.gapBlocks);
    HoldsInMiddle(SackHead(s) + BlockBytes(s.gapBlocks), TsnBytes(s.dupTSNs), []);
    assert SackBytes(s) + [] == SackBytes(s);
    TsnsRoundTrip(SackBytes(s), 12 + 4 * |s.gapBlocks|, s.dupTSNs);
  }

  lemma SackHeadRead(s: Sack, rest: Buffer)
    requires SackFits(s)
    ensures var body := SackHead(s) + rest;
      && ReadU32(body, 0) == s.cumulativeTSNAck && ReadU32(body, 4) == s.aRwnd
      && ReadU16(body, 8) == |s.gapBlocks| && ReadU16(body, 10) == |s.dupTSNs|
  {
    var body := SackHead(s) + rest;
    assert Holds(body, 0, U32(s.cumulativeTSNAck)) && Holds(body, 4, U32(s.aRwnd));
    assert Holds(body, 8, U16(|s.gapBlocks|)) && Holds(body, 10, U16(|s.dupTSNs|));
    ReadWritten32(body, 0, s.cumulativeTSNAck);
    ReadWritten32(body, 4, s.aRwnd);
    ReadWritten16(body, 8, |s.gapBlocks|);
    ReadWritten16(body, 10, |s.dupTSNs|);
  }

  // ---- Packets ----

  function CommonHeader(tag: u32): (b: Buffer)
    ensures |b| == 12
  {
    U16(SCTP_PORT) + U16(SCTP_PORT) + U32(tag) + Zeros(4)
  }

  /** What `#emitPacket` hands to DTLS. */
  function Packet(tag: u32, cs: seq<Chunk>): (b: Buffer)
    requires forall c | c in cs :: Fits(c)
    ensures |b| >= 12
  {
    Crc.Checksummed(CommonHeader(tag) + AllChunkBytes(cs))
  }

  lemma TagInHeader(tag: u32)
    ensures Holds(CommonHeader(tag)[..8], 4, U32(tag))
  {
    hide U16, U32, Zeros;
  }

  /** An emitted packet passes the receiver's checksum test and parses to the chunks put in. */
  lemma PacketRoundTrip(tag: u32, cs: seq<Chunk>)
    requires forall c | c in cs :: Fits(c)
    ensures Crc.Accepts(Packet(tag, cs))
    ensures ChunksFrom(Packet(tag, cs), 12) == cs
    ensures ReadU32(Packet(tag, cs), 4) == tag
  {
    hide ChunksFrom, AllChunkBytes, Crc.Checksum, Crc.Accepts, Crc.U32LE, CommonHeader;
    var head, raw, p := CommonHeader(tag), CommonHeader(tag) + AllChunkBytes(cs), Packet(tag, cs);
    Crc.AcceptsOwnChecksum(raw);
    assert p[12..] == AllChunkBytes(cs);
    assert p[..12] + AllChunkBytes(cs) == p;
    ChunksRoundTrip(p[..12], cs);
    TagInHeader(tag);
    assert forall k | 0 <= k < 8 :: p[k] == head[k];
    assert Holds(p, 0, head[..8]);
    HoldsWithin(p, 0, head[..8], 4, U32(tag));
    ReadWritten32(p, 4, tag);
  }
}
