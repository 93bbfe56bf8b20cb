/** Data Channel Establishment Protocol messages (src/sctp/dcep.ts; section 5 of RFC 8832). */
module Dcep {
  import opened Bytes

  const DATA_CHANNEL_ACK: byte := 2
  const DATA_CHANNEL_OPEN: byte := 3

  const ACK_BYTES: Buffer := [DATA_CHANNEL_ACK]

  /** Label and protocol as their UTF-8 bytes. */
  datatype Open = Open(channelType: byte, priority: u16, reliability: u32, name: Buffer, protocol: Buffer)

  /** Both lengths are 16 bits; longer strings make the encoder throw. */
  predicate Fits(o: Open) { |o.name| <= 0xffff && |o.protocol| <= 0xffff }

  function OpenHead(o: Open): (b: Buffer)
    requires Fits(o)
    ensures |b| == 12
  {
    [DATA_CHANNEL_OPEN, o.channelType] + U16(o.priority) + U32(o.reliability) + U16(|o.name|) + U16(|o.protocol|)
  }

  function OpenBytes(o: Open): (b: Buffer)
    requires Fits(o)
  {
    OpenHead(o) + o.name + o.protocol
  }

  method EncodeOpen(o: Open) returns (r: Option<array<byte>>)
    ensures r.None? <==> !Fits(o)
    ensures r.Some? ==> fresh(r.value) && r.value[..] == OpenBytes(o)
  {
    if |o.name| > 0xffff || |o.protocol| > 0xffff {
      return None;
    }
    hide OpenHead;
    var buf := new byte[12 + |o.name| + |o.protocol|](_ => 0);
    WriteAll(buf, 0, OpenHead(o));
    WriteAll(buf, 12, o.name);
    assert buf[..12 + |o.name|] == OpenHead(o) + o.name;
    WriteAll(buf, 12 + |o.name|, o.protocol);
    r := Some(buf);
  }

  /** A slice stops at the end of the buffer. */
  function Clamped(b: Buffer, from: nat, to: nat): Buffer
    requires from <= to
  {
    if to <= |b| then b[from..to] else if from <= |b| then b[from..] else []
  }

  /** None is the RangeError of reading past the end of a short message. */
  function DecodeOpen(b: Buffer): Option<Open> {
    if |b| < 12 then None
    else
      var labelLen, protoLen := ReadU16(b, 8), ReadU16(b, 10);
      Some(Open(b[1], ReadU16(b, 2), ReadU32(b, 4), Clamped(b, 12, 12 + labelLen),
                Clamped(b, 12 + labelLen, 12 + labelLen + protoLen)))
  }

  /** -1 for an empty message. */
  function MessageType(b: Buffer): int { if |b| > 0 then b[0] else -1 }

  lemma OpenRoundTrip(o: Open)
    requires Fits(o)
    ensures MessageType(OpenBytes(o)) == DATA_CHANNEL_OPEN && DecodeOpen(OpenBytes(o)) == Some(o)
  {
    hide OpenHead, ReadU16, ReadU32;
    var head, b := OpenHead(o), OpenBytes(o);
    assert Holds(b, 0, head);
    ReadHead(b, o);
    assert b[12..12 + |o.name|] == o.name;
    assert b[12 + |o.name|..12 + |o.name| + |o.protocol|] == o.protocol;
  }

  lemma ReadHead(b: Buffer, o: Open)
    requires Fits(o) && Holds(b, 0, OpenHead(o))
    ensures |b| >= 12 && b[0] == DATA_CHANNEL_OPEN && b[1] == o.channelType
    ensures ReadU16(b, 2) == o.priority && ReadU32(b, 4) == o.reliability
    ensures ReadU16(b, 8) == |o.name| && ReadU16(b, 10) == |o.protocol|
  {
    HeadFields(o);
    var head := OpenHead(o);
    assert b[0 + 0] == head[0] && b[0 + 1] == head[1];
    hide *;
    HoldsWithin(b, 0, head, 2, U16(o.priority));
    HoldsWithin(b, 0, head, 4, U32(o.reliability));
    HoldsWithin(b, 0, head, 8, U16(|o.name|));
    HoldsWithin(b, 0, head, 10, U16(|o.protocol|));
    ReadWritten16(b, 2, o.priority);
    ReadWritten32(b, 4, o.reliability);
    ReadWritten16(b, 8, |o.name|);
    ReadWritten16(b, 10, |o.protocol|);
  }

  lemma HeadFields(o: Open)
    requires Fits(o)
    ensures var head := OpenHead(o);
      && head[0] == DATA_CHANNEL_OPEN && head[1] == o.channelType
      && Holds(head, 2, U16(o.priority)) && Holds(head, 4, U32(o.reliability))
      && Holds(head, 8, U16(|o.name|)) && Holds(head, 10, U16(|o.protocol|))
  {
    hide U16, U32;
  }
}
