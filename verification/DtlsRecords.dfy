/** DTLS record and handshake framing (src/dtls/protocol.ts; section 4 of RFC 6347). */
module DtlsWire {
  import opened Bytes

  const CHANGE_CIPHER_SPEC: byte := 20
  const HANDSHAKE: byte := 22

  datatype Record = Record(typ: byte, version: u16, epoch: u16, number: u48, fragment: Buffer)

  // ---- Records ----

  /** The length field is 16 bits. */
  predicate RecordFits(r: Record) { |r.fragment| <= 0xffff }

  function RecordHead(r: Record): (b: Buffer)
    requires RecordFits(r)
    ensures |b| == 13
  {
    [r.typ] + U16(r.version) + U16(r.epoch) + U48(r.number) + U16(|r.fragment|)
  }

  function RecordBytes(r: Record): Buffer
    requires RecordFits(r)
  {
    RecordHead(r) + r.fragment
  }

  function AllRecordBytes(rs: seq<Record>): Buffer
    requires forall r | r in rs :: RecordFits(r)
  {
    if rs == [] then [] else RecordBytes(rs[0]) + AllRecordBytes(rs[1..])
  }

  /** A header whose declared fragment lies inside the datagram. */
  predicate WholeRecord(p: Buffer, off: nat) {
    off + 13 <= |p| && off + 13 + ReadU16(p, off + 11) <= |p|
  }

  function RecordAt(p: Buffer, off: nat): Record
    requires WholeRecord(p, off)
  {
    Record(p[off], ReadU16(p, off + 1), ReadU16(p, off + 3), ReadU48(p, off + 5),
        p[off + 13..off + 13 + ReadU16(p, off + 11)])
  }

  function RecordsFrom(p: Buffer, off: nat): seq<Record>
    decreases |p| - off
  {
    if !WholeRecord(p, off) then []
    else [RecordAt(p, off)] + RecordsFrom(p, off + 13 + ReadU16(p, off + 11))
  }

  method ParseRecords(packet: Buffer) returns (records: seq<Record>)
    ensures records == RecordsFrom(packet, 0)
  {
    hide ReadU16, ReadU48;
    records := [];
    var off := 0;
    while off + 13 <= |packet|
      invariant RecordsFrom(packet, 0) == records + RecordsFrom(packet, off)
      decreases |packet| - off
    {
      var typ, version, epoch, number := packet[off], ReadU16(packet, off + 1), ReadU16(packet, off + 3),
          ReadU48(packet, off + 5);
      var length, start := ReadU16(packet, off + 11), off + 13;
      if start + length > |packet| {
        break;
      }
      records := records + [Record(typ, version, epoch, number, packet[start..start + length])];
      off := start + length;
    }
  }

  lemma RecordHeadFields(r: Record)
    requires RecordFits(r)
    ensures var h := RecordHead(r);
      && h[0] == r.typ && Holds(h, 1, U16(r.version)) && Holds(h, 3, U16(r.epoch))
      && Holds(h, 5, U48(r.number)) && Holds(h, 11, U16(|r.fragment|))
  {
    hide U16, U48;
  }

  lemma ReadRecordHead(p: Buffer, off: nat, r: Record)
    requires RecordFits(r) && Holds(p, off, RecordHead(r))
    ensures off + 13 <= |p| && p[off] == r.typ
    ensures ReadU16(p, off + 1) == r.version && ReadU16(p, off + 3) == r.epoch
    ensures ReadU48(p, off + 5) == r.number && ReadU16(p, off + 11) == |r.fragment|
  {
    var h := RecordHead(r);
    RecordHeadFields(r);
    assert p[off + 0] == h[0];
    hide *;
    HoldsWithin(p, off, h, 1, U16(r.version));
    HoldsWithin(p, off, h, 3, U16(r.epoch));
    HoldsWithin(p, off, h, 5, U48(r.number));
    HoldsWithin(p, off, h, 11, U16(|r.fragment|));
    ReadWritten16(p, off + 1, r.version);
    ReadWritten16(p, off + 3, r.epoch);
    ReadWritten48(p, off + 5, r.number);
    ReadWritten16(p, off + 11, |r.fragment|);
  }

  lemma ReadRecord(p: Buffer, off: nat, r: Record)
    requires RecordFits(r) && Holds(p, off, RecordBytes(r))
    ensures WholeRecord(p, off) && RecordAt(p, off) == r
    ensures off + 13 + ReadU16(p, off + 11) == off + |RecordBytes(r)|
  {
    hide RecordHead, ReadU16, ReadU48;
    HeldParts(p, off, RecordHead(r), r.fragment, []) by {
      assert RecordHead(r) + r.fragment + [] == RecordBytes(r);
    }
    ReadRecordHead(p, off, r);
    HeldSlice(p, off + 13, r.fragment);
  }

  /** A datagram of any records, split anywhere in the flight, parses to exactly those records. */
  lemma {:induction false} RecordsRoundTrip(pre: Buffer, rs: seq<Record>)
    requires forall r | r in rs :: RecordFits(r)
    ensures RecordsFrom(pre + AllRecordBytes(rs), |pre|) == rs
    decreases |rs|
  {
    hide RecordBytes, WholeRecord, RecordAt, ReadU16;
    if rs != [] {
      var r, pre', rest := rs[0], pre + RecordBytes(rs[0]), AllRecordBytes(rs[1..]);
      var p := pre + AllRecordBytes(rs);
      assert p == pre' + rest;
      HoldsInMiddle(pre, RecordBytes(r), rest);
      ReadRecord(p, |pre|, r);
      RecordsRoundTrip(pre', rs[1..]);
    } else {
      NothingLeft(pre);
      assert pre + [] == pre;
    }
  }

  lemma NothingLeft(p: Buffer)
    ensures RecordsFrom(p, |p|) == []
  {}

  // ---- Handshake messages and fragments ----

  /** A fragment as parsed; `data` may be shorter than `fragmentLength` when the record was cut. */
  datatype Fragment = Fragment(msgType: byte, length: u24, messageSeq: u16, fragmentOffset: u24, fragmentLength: u24,
      data: Buffer)

  /** `uint24` keeps the low 24 bits. */
  function Low24(n: nat): u24 { n % 0x100_0000 }

  function FragmentHead(msgType: byte, length: nat, messageSeq: u16, offset: nat, fragmentLength: nat): (b: Buffer)
    ensures |b| == 12
  {
    [msgType] + U24(Low24(length)) + U16(messageSeq) + U24(Low24(offset)) + U24(Low24(fragmentLength))
  }

  function FragmentBytes(msgType: byte, length: nat, messageSeq: u16, offset: nat, data: Buffer): Buffer {
    FragmentHead(msgType, length, messageSeq, offset, |data|) + data
  }

  /** A whole message: the form that is hashed, whatever fragments it travelled in. */
  function HandshakeBytes(msgType: byte, messageSeq: u16, body: Buffer): Buffer {
    FragmentBytes(msgType, |body|, messageSeq, 0, body)
  }

  /** A byte past the end reads as `undefined`, which the shifts turn into zero. */
  function ByteOr0(b: Buffer, i: nat): byte { if i < |b| then b[i] else 0 }

  function ReadUint24(b: Buffer, off: nat): u24 {
    ByteOr0(b, off) as int * 0x1_0000 + ByteOr0(b, off + 1) as int * 0x100 + ByteOr0(b, off + 2) as int
  }

  /** None is the RangeError of reading the type or message_seq past the end. */
  function ParseHandshake(b: Buffer): Option<Fragment> {
    if |b| < 6 then None
    else
      var fragmentLength := ReadUint24(b, 9);
      Some(Fragment(b[0], ReadUint24(b, 1), ReadU16(b, 4), ReadUint24(b, 6), fragmentLength,
        if |b| <= 12 then [] else if 12 + fragmentLength <= |b| then b[12..12 + fragmentLength] else b[12..]))
  }

  lemma Uint24InRange(b: Buffer, off: nat)
    requires off + 3 <= |b|
    ensures ReadUint24(b, off) == ReadU24(b, off)
  {}

  lemma FragmentHeadFields(msgType: byte, length: nat, messageSeq: u16, offset: nat, fragmentLength: nat)
    ensures var h := FragmentHead(msgType, length, messageSeq, offset, fragmentLength);
      && h[0] == msgType && Holds(h, 1, U24(Low24(length))) && Holds(h, 4, U16(messageSeq))
      && Holds(h, 6, U24(Low24(offset))) && Holds(h, 9, U24(Low24(fragmentLength)))
  {
    hide U24, U16;
  }

  lemma ReadFragmentHead(b: Buffer, msgType: byte, length: nat, messageSeq: u16, offset: nat, fragmentLength: nat)
    requires Holds(b, 0, FragmentHead(msgType, length, messageSeq, offset, fragmentLength))
    ensures |b| >= 12 && b[0] == msgType && ReadUint24(b, 1) == Low24(length) && ReadU16(b, 4) == messageSeq
    ensures ReadUint24(b, 6) == Low24(offset) && ReadUint24(b, 9) == Low24(fragmentLength)
  {
    var h := FragmentHead(msgType, length, messageSeq, offset, fragmentLength);
    FragmentHeadFields(msgType, length, messageSeq, offset, fragmentLength);
    assert b[0 + 0] == h[0];
    assert |b| >= 12;
    hide *;
    HoldsWithin(b, 0, h, 1, U24(Low24(length)));
    HoldsWithin(b, 0, h, 4, U16(messageSeq));
    HoldsWithin(b, 0, h, 6, U24(Low24(offset)));
    HoldsWithin(b, 0, h, 9, U24(Low24(fragmentLength)));
    ReadWritten24(b, 1, Low24(length));
    ReadWritten16(b, 4, messageSeq);
    ReadWritten24(b, 6, Low24(offset));
    ReadWritten24(b, 9, Low24(fragmentLength));
    Uint24InRange(b, 1);
    Uint24InRange(b, 6);
    Uint24InRange(b, 9);
  }

  lemma FragmentRoundTrip(msgType: byte, length: u24, messageSeq: u16, offset: u24, data: Buffer)
    requires |data| < 0x100_0000
    ensures ParseHandshake(FragmentBytes(msgType, length, messageSeq, offset, data))
         == Some(Fragment(msgType, length, messageSeq, offset, |data|, data))
  {
    hide FragmentHead, ReadUint24, ReadU16;
    var b := FragmentBytes(msgType, length, messageSeq, offset, data);
    assert Holds(b, 0, FragmentHead(msgType, length, messageSeq, offset, |data|));
    ReadFragmentHead(b, msgType, length, messageSeq, offset, |data|);
    assert Low24(length) == length && Low24(offset) == offset && Low24(|data|) == |data|;
    assert |b| == 12 + |data| && b[12..12 + |data|] == data;
  }
}

/** Record numbering across the cipher change (src/dtls/connection.ts:255-283; section 3 of RFC 5288). */
module DtlsRecordLayer {
  import opened Bytes
  import opened DtlsWire

  datatype Numbering = Numbering(epoch: u16, next: nat)

  datatype Op = Send | ChangeCipherSpec

  /** The (epoch, sequence number) an operation stamps on its record. */
  function Stamp(n: Numbering): (nat, nat) { (n.epoch, n.next) }

  function After(n: Numbering, op: Op): Numbering {
    match op case Send => n.(next := n.next + 1) case ChangeCipherSpec => Numbering(1, 0)
  }

  function AfterAll(n: Numbering, ops: seq<Op>): Numbering {
    if ops == [] then n else After(AfterAll(n, ops[..|ops| - 1]), ops[|ops| - 1])
  }

  function Stamps(n: Numbering, ops: seq<Op>): (stamps: seq<(nat, nat)>)
    ensures |stamps| == |ops|
  {
    if ops == [] then [] else Stamps(n, ops[..|ops| - 1]) + [Stamp(AfterAll(n, ops[..|ops| - 1]))]
  }

  const START: Numbering := Numbering(0, 0)

  predicate Before(a: (nat, nat), b: (nat, nat)) { a.0 < b.0 || (a.0 == b.0 && a.1 < b.1) }

  predicate Increasing(stamps: seq<(nat, nat)>) {
    forall i, j | 0 <= i < j < |stamps| :: Before(stamps[i], stamps[j])
  }

  function Changes(ops: seq<Op>): nat {
    if ops == [] then 0 else Changes(ops[..|ops| - 1]) + if ops[|ops| - 1] == ChangeCipherSpec then 1 else 0
  }

  /** Where the next number stands, and that all earlier records are numbered below it. */
  lemma {:induction false} OneChangeInvariant(ops: seq<Op>)
    requires Changes(ops) <= 1
    ensures AfterAll(START, ops).epoch == Changes(ops) && AfterAll(START, ops).next <= |ops|
    ensures forall i | 0 <= i < |ops| :: Before(Stamps(START, ops)[i], Stamp(AfterAll(START, ops)))
    ensures Increasing(Stamps(START, ops))
  {
    if ops != [] {
      OneChangeInvariant(ops[..|ops| - 1]);
    }
  }

  lemma {:induction false} EpochOne(ops: seq<Op>)
    requires Changes(ops) >= 1
    ensures AfterAll(START, ops).epoch == 1
  {
    if ops[|ops| - 1] != ChangeCipherSpec {
      EpochOne(ops[..|ops| - 1]);
    }
  }

  /**
   * The numbers of a run strictly increase, epoch first, exactly when no record follows a second change
   * of cipher: that change restarts at (1, 0), where the first one did.
   */
  lemma {:induction false} IncreasingIff(ops: seq<Op>)
    ensures Increasing(Stamps(START, ops)) <==> ops == [] || Changes(ops[..|ops| - 1]) <= 1
  {
    if ops != [] {
      var before, n := ops[..|ops| - 1], |ops| - 1;
      IncreasingIff(before);
      if Changes(before) <= 1 {
        OneChangeInvariant(before);
      } else {
        assert forall i | 0 <= i < n :: Stamps(START, ops)[i] == Stamps(START, before)[i];
        if Changes(before[..n - 1]) <= 1 {
          EpochOne(before[..n - 1]);
          assert !Before(Stamps(START, ops)[n - 1], Stamps(START, ops)[n]);
        } else {
          assert Increasing(Stamps(START, ops)) ==> Increasing(Stamps(START, before));
        }
      }
    }
  }

  /** The explicit nonce: epoch and sequence number in eight bytes. */
  function Nonce(stamp: (nat, nat)): Buffer
    requires stamp.0 <= 0xffff && stamp.1 < 0x1_0000_0000_0000
  {
    U16(stamp.0) + U48(stamp.1)
  }

  lemma NonceIsInjective(a: (nat, nat), b: (nat, nat))
    requires a.0 <= 0xffff && a.1 < 0x1_0000_0000_0000 && b.0 <= 0xffff && b.1 < 0x1_0000_0000_0000
    requires Nonce(a) == Nonce(b)
    ensures a == b
  {
    hide U16, U48;
    assert Holds(Nonce(a), 0, U16(a.0)) && Holds(Nonce(a), 2, U48(a.1));
    assert Holds(Nonce(b), 0, U16(b.0)) && Holds(Nonce(b), 2, U48(b.1));
    ReadWritten16(Nonce(a), 0, a.0);
    ReadWritten16(Nonce(a), 0, b.0);
    ReadWritten48(Nonce(a), 2, a.1);
    ReadWritten48(Nonce(a), 2, b.1);
  }

  /** With one change of cipher and fewer than 2^48 records, no nonce is used twice, whatever is retransmitted. */
  lemma NoncesDistinct(ops: seq<Op>, i: nat, j: nat)
    requires Changes(ops) <= 1 && |ops| < 0x1_0000_0000_0000 && i < j < |ops|
    ensures var s := Stamps(START, ops);
      && s[i].0 <= 0xffff && s[i].1 < 0x1_0000_0000_0000 && s[j].0 <= 0xffff && s[j].1 < 0x1_0000_0000_0000
      && Nonce(s[i]) != Nonce(s[j])
  {
    hide Nonce;
    OneChangeInvariant(ops);
    StampsInRange(ops, i);
    StampsInRange(ops, j);
    var s := Stamps(START, ops);
    assert Before(s[i], s[j]);
    if Nonce(s[i]) == Nonce(s[j]) {
      NonceIsInjective(s[i], s[j]);
    }
  }

  lemma {:induction false} StampsInRange(ops: seq<Op>, i: nat)
    requires i < |ops|
    ensures Stamps(START, ops)[i].0 <= 1 && Stamps(START, ops)[i].1 < |ops|
  {
    var n := |ops| - 1;
    if i < n {
      StampsInRange(ops[..n], i);
    } else {
      NumberBound(ops[..n]);
    }
  }

  lemma {:induction false} NumberBound(ops: seq<Op>)
    ensures AfterAll(START, ops).epoch <= 1 && AfterAll(START, ops).next <= |ops|
  {
    if ops != [] {
      NumberBound(ops[..|ops| - 1]);
    }
  }
}
