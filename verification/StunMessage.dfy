/** STUN connectivity-check messages (src/ice/stun-message.ts; section 15 of RFC 5389). */
module StunMessage {
  import opened Bytes
  import Crc

  const MAGIC_COOKIE: u32 := 0x2112_a442
  const MESSAGE_INTEGRITY: u16 := 0x0008
  const FINGERPRINT: u16 := 0x8028
  const FINGERPRINT_MASK: u32 := 0x5354_554e

  datatype Attribute = Attribute(typ: u16, value: Buffer)

  /** HMAC-SHA1, uninterpreted: (key, data) to a 20-byte digest. */
  type Hmac = (Buffer, Buffer) -> Buffer

  ghost predicate Digests(hmac: Hmac) {
    forall key, data :: |hmac(key, data)| == 20
  }

  // ---- Attributes ----

  /** The length field is 16 bits and leaves out the padding. */
  predicate Fits(a: Attribute) { |a.value| <= 0xffff }

  function AttributeBytes(a: Attribute): (b: Buffer)
    requires Fits(a)
    ensures |b| == 4 + Pad4(|a.value|)
  {
    U16(a.typ) + U16(|a.value|) + (a.value + Zeros(Pad4(|a.value|) - |a.value|))
  }

  function BodyBytes(attrs: seq<Attribute>): Buffer
    requires forall a | a in attrs :: Fits(a)
  {
    if attrs == [] then [] else BodyBytes(attrs[..|attrs| - 1]) + AttributeBytes(attrs[|attrs| - 1])
  }

  /** Attributes from `off` to `end`; one that overruns ends the list. */
  function AttributesFrom(m: Buffer, off: nat, end: nat): seq<Attribute>
    requires end <= |m|
    decreases end - off
  {
    if off + 4 > end || off + 4 + ReadU16(m, off + 2) > end then []
    else
      var len := ReadU16(m, off + 2);
      [Attribute(ReadU16(m, off), m[off + 4..off + 4 + len])] + AttributesFrom(m, off + 4 + Pad4(len), end)
  }

  /** The map the parser fills: the last of several attributes with one type stays. */
  function Table(attrs: seq<Attribute>): (t: map<u16, Buffer>) {
    if attrs == [] then map[] else Table(attrs[..|attrs| - 1])[attrs[|attrs| - 1].typ := attrs[|attrs| - 1].value]
  }

  lemma {:induction false} TableIsLast(attrs: seq<Attribute>, i: nat)
    requires i < |attrs| && forall j | i < j < |attrs| :: attrs[j].typ != attrs[i].typ
    ensures attrs[i].typ in Table(attrs) && Table(attrs)[attrs[i].typ] == attrs[i].value
  {
    var n := |attrs| - 1;
    if i < n {
      assert forall j | i < j < n :: attrs[..n][j] == attrs[j];
      TableIsLast(attrs[..n], i);
    }
  }

  lemma ReadAttribute(m: Buffer, off: nat, a: Attribute)
    requires Fits(a) && Holds(m, off, AttributeBytes(a))
    ensures off + 4 + Pad4(|a.value|) <= |m|
    ensures ReadU16(m, off) == a.typ && ReadU16(m, off + 2) == |a.value| && m[off + 4..off + 4 + |a.value|] == a.value
  {
    hide U16, Zeros, ReadU16, Holds;
    var padding := Zeros(Pad4(|a.value|) - |a.value|);
    HeldParts(m, off, U16(a.typ), U16(|a.value|), a.value + padding);
    PaddedHolds(a.value, padding);
    HoldsWithin(m, off + 4, a.value + padding, 0, a.value);
    ReadWritten16(m, off, a.typ);
    ReadWritten16(m, off + 2, |a.value|);
    HeldFits(m, off, AttributeBytes(a));
    HeldFits(m, off + 4, a.value);
    HeldSlice(m, off + 4, a.value);
  }

  lemma PaddedHolds(v: Buffer, padding: Buffer)
    ensures Holds(v + padding, 0, v)
  {}

  lemma HeldFits(b: Buffer, off: nat, s: Buffer)
    requires Holds(b, off, s)
    ensures off + |s| <= |b|
  {}

  lemma NextAttribute(m: Buffer, off: nat, a: Attribute, end: nat)
    requires Fits(a) && Holds(m, off, AttributeBytes(a)) && off + |AttributeBytes(a)| <= end <= |m|
    ensures AttributesFrom(m, off, end) == [a] + AttributesFrom(m, off + |AttributeBytes(a)|, end)
  {
    ReadAttribute(m, off, a);
    hide ReadU16, Holds, AttributeBytes;
  }

  /** Attributes written anywhere are read back, whatever their lengths, and parsing goes on behind them. */
  lemma {:induction false} AttributesRoundTrip(m: Buffer, off: nat, attrs: seq<Attribute>, end: nat)
    requires forall a | a in attrs :: Fits(a)
    requires Holds(m, off, BodyBytes(attrs)) && off + |BodyBytes(attrs)| <= end <= |m|
    ensures AttributesFrom(m, off, end) == attrs + AttributesFrom(m, off + |BodyBytes(attrs)|, end)
    decreases |attrs|
  {
    hide AttributeBytes, AttributesFrom, Holds;
    if attrs == [] {
      assert attrs + AttributesFrom(m, off, end) == AttributesFrom(m, off, end);
    } else {
      var n := |attrs| - 1;
      var front, last := attrs[..n], attrs[n];
      assert BodyBytes(attrs) == BodyBytes(front) + AttributeBytes(last) + [];
      HeldParts(m, off, BodyBytes(front), AttributeBytes(last), []);
      AttributesRoundTrip(m, off, front, end);
      NextAttribute(m, off + |BodyBytes(front)|, last, end);
      var rest := AttributesFrom(m, off + |BodyBytes(attrs)|, end);
      assert front + ([last] + rest) == attrs + rest;
    }
  }

  // ---- Building ----

  /** Twelve bytes of the id, short ones padded with zeros. */
  function IdBytes(id: Buffer): (b: Buffer)
    ensures |b| == 12
  {
    seq(12, i requires 0 <= i < 12 => if i < |id| then id[i] else 0)
  }

  function Header(typ: u16, length: u16, id: Buffer): (b: Buffer)
    ensures |b| == 20
  {
    U16(typ) + U16(length) + U32(MAGIC_COOKIE) + IdBytes(id)
  }

  /** What the integrity attribute covers: a header whose length already includes it, and the attributes before it. */
  function Covered(typ: u16, id: Buffer, body: Buffer): Buffer
    requires |body| + 24 <= 0xffff
  {
    Header(typ, |body| + 24, id) + body
  }

  function Fingerprint(typ: u16, id: Buffer, body: Buffer): u32
    requires |body| + 8 <= 0xffff
  {
    var crc := Crc.Checksum(Crc.IEEE, Header(typ, |body| + 8, id) + body);
    Crc.WordValue(Crc.Xor(Crc.ToBits(crc, 32), Crc.ToBits(FINGERPRINT_MASK, 32)))
  }

  predicate AllFit(attrs: seq<Attribute>) { forall a | a in attrs :: Fits(a) }

  function IntegrityOf(hmac: Hmac, typ: u16, id: Buffer, body: Buffer, password: Buffer): Attribute
    requires |body| + 24 <= 0xffff
  {
    Attribute(MESSAGE_INTEGRITY, hmac(password, Covered(typ, id, body)))
  }

  /** The attributes with their integrity; an empty password adds none. */
  function Signed(hmac: Hmac, typ: u16, id: Buffer, attrs: seq<Attribute>,
      password: Buffer): (signed: Option<seq<Attribute>>)
    requires Digests(hmac)
    ensures signed.Some? ==> AllFit(signed.value)
  {
    if !AllFit(attrs) then None
    else if password == [] then Some(attrs)
    else if |BodyBytes(attrs)| + 24 > 0xffff then None
    else Some(attrs + [IntegrityOf(hmac, typ, id, BodyBytes(attrs), password)])
  }

  function Marked(typ: u16, id: Buffer, signed: seq<Attribute>): (all: Option<seq<Attribute>>)
    requires AllFit(signed)
    ensures all.Some? ==> AllFit(all.value) && |BodyBytes(all.value)| <= 0xffff
  {
    if |BodyBytes(signed)| + 8 > 0xffff then None
    else
      var mark := Attribute(FINGERPRINT, U32(Fingerprint(typ, id, BodyBytes(signed))));
      BodyPush(signed, mark);
      Some(signed + [mark])
  }

  /** All attributes of the finished message; None is the RangeError of a length above 0xffff. */
  function Finished(hmac: Hmac, typ: u16, id: Buffer, attrs: seq<Attribute>,
      password: Buffer): (all: Option<seq<Attribute>>)
    requires Digests(hmac)
    ensures all.Some? ==> AllFit(all.value) && |BodyBytes(all.value)| <= 0xffff
  {
    match Signed(hmac, typ, id, attrs, password)
    case None => None
    case Some(signed) => Marked(typ, id, signed)
  }

  function Build(hmac: Hmac, typ: u16, id: Buffer, attrs: seq<Attribute>, password: Buffer): Option<Buffer>
    requires Digests(hmac)
  {
    match Finished(hmac, typ, id, attrs, password)
    case None => None
    case Some(all) => Some(Header(typ, |BodyBytes(all)|, id) + BodyBytes(all))
  }

  lemma BodyPush(attrs: seq<Attribute>, a: Attribute)
    requires Fits(a) && forall x | x in attrs :: Fits(x)
    ensures BodyBytes(attrs + [a]) == BodyBytes(attrs) + AttributeBytes(a)
    ensures |BodyBytes(attrs + [a])| == |BodyBytes(attrs)| + 4 + Pad4(|a.value|)
  {
    hide AttributeBytes;
    assert (attrs + [a])[..|attrs|] == attrs;
  }

  class StunMessageBuilder {
    const typ: u16
    const transactionId: Buffer
    var attrs: seq<Attribute>

    constructor (typ: u16, transactionId: Buffer)
      ensures this.typ == typ && this.transactionId == transactionId && attrs == []
    {
      this.typ, this.transactionId, attrs := typ, transactionId, [];
    }

    method AddAttr(typ: u16, value: Buffer)
      modifies this
      ensures attrs == old(attrs) + [Attribute(typ, value)]
    {
      attrs := attrs + [Attribute(typ, value)];
    }

    method EncodeBody() returns (body: Option<Buffer>)
      ensures body.None? <==> !AllFit(attrs)
      ensures body.Some? ==> body.value == BodyBytes(attrs)
    {
      hide AttributeBytes;
      var bytes := [];
      for i := 0 to |attrs|
        invariant forall j | 0 <= j < i :: Fits(attrs[j])
        invariant bytes == BodyBytes(attrs[..i])
      {
        assert attrs[i] in attrs;
        if |attrs[i].value| > 0xffff {
          return None;
        }
        assert attrs[..i + 1][..i] == attrs[..i];
        bytes := bytes + AttributeBytes(attrs[i]);
      }
      assert attrs[..|attrs|] == attrs;
      body := Some(bytes);
    }

    /** Integrity, if there is a password, and then the fingerprint; each under a header that already counts it. */
    method BuildMessage(hmac: Hmac, table: array<Crc.Word>, password: Buffer) returns (m: Option<Buffer>)
      requires Digests(hmac) && Crc.IsTable(Crc.IEEE, table)
      ensures m == Build(hmac, typ, transactionId, attrs, password)
    {
      hide Header, BodyBytes, Crc.IsTable, AllFit, Marked, Signed;
      var encoded := EncodeBody();
      if encoded == None {
        Unsendable(hmac, typ, transactionId, attrs, password);
        return None;
      }
      var body := AppendIntegrity(hmac, password, encoded.value);
      if body == None {
        return None;
      }
      m := Finish(table, Signed(hmac, typ, transactionId, attrs, password).value, body.value);
    }

    method AppendIntegrity(hmac: Hmac, password: Buffer, body: Buffer) returns (longer: Option<Buffer>)
      requires Digests(hmac) && AllFit(attrs) && body == BodyBytes(attrs)
      ensures var signed := Signed(hmac, typ, transactionId, attrs, password);
        longer == if signed.None? then None else Some(BodyBytes(signed.value))
    {
      hide AttributeBytes, Header, BodyBytes;
      if |password| == 0 {
        return Some(body);
      }
      if |body| + 24 > 0xffff {
        return None;
      }
      var mi := IntegrityOf(hmac, typ, transactionId, body, password);
      BodyPush(attrs, mi);
      longer := Some(body + AttributeBytes(mi));
    }

    method Finish(table: array<Crc.Word>, ghost signed: seq<Attribute>, body: Buffer) returns (m: Option<Buffer>)
      requires Crc.IsTable(Crc.IEEE, table) && AllFit(signed) && body == BodyBytes(signed)
      ensures var all := Marked(typ, transactionId, signed);
        m == if all.None? then None else Some(Header(typ, |BodyBytes(all.value)|, transactionId) + BodyBytes(all.value))
    {
      hide AttributeBytes, Header, BodyBytes, Crc.IsTable, Fingerprint;
      if |body| + 8 > 0xffff {
        return None;
      }
      var value := FingerprintOf(table, body);
      BodyPush(signed, Attribute(FINGERPRINT, U32(value)));
      var whole := body + AttributeBytes(Attribute(FINGERPRINT, U32(value)));
      m := Some(Header(typ, |whole|, transactionId) + whole);
    }

    method FingerprintOf(table: array<Crc.Word>, body: Buffer) returns (value: u32)
      requires Crc.IsTable(Crc.IEEE, table) && |body| + 8 <= 0xffff
      ensures value == Fingerprint(typ, transactionId, body)
    {
      hide Header, Crc.Checksum;
      var covered := Header(typ, |body| + 8, transactionId) + body;
      var bytes := new byte[|covered|](i requires 0 <= i < |covered| => covered[i]);
      assert bytes[..] == covered;
      var crc := Crc.ComputeChecksum(Crc.IEEE, table, bytes);
      value := Crc.WordValue(Crc.Xor(Crc.ToBits(crc, 32), Crc.ToBits(FINGERPRINT_MASK, 32)));
    }
  }

  lemma Unsendable(hmac: Hmac, typ: u16, id: Buffer, attrs: seq<Attribute>, password: Buffer)
    requires Digests(hmac) && !AllFit(attrs)
    ensures Signed(hmac, typ, id, attrs, password) == None
  {}

  /**
   * A message can be built exactly if every attribute fits and all of it, 24 bytes of integrity if there is a
   * password and 8 of fingerprint, fits the length field; these two come last, in that order.
   */
  lemma BuildIff(hmac: Hmac, typ: u16, id: Buffer, attrs: seq<Attribute>, password: Buffer)
    requires Digests(hmac)
    ensures Build(hmac, typ, id, attrs, password).Some? <==>
      AllFit(attrs) && |BodyBytes(attrs)| + (if password == [] then 0 else 24) + 8 <= 0xffff
    ensures Build(hmac, typ, id, attrs, password).Some? ==>
      var all, n := Finished(hmac, typ, id, attrs, password).value, |attrs|;
      && |all| == n + (if password == [] then 1 else 2) && all[..n] == attrs
      && (password != [] ==> all[n].typ == 8 && |all[n].value| == 20)
      && all[|all| - 1].typ == 0x8028 && |all[|all| - 1].value| == 4
  {
    hide BodyBytes, Header, Fingerprint, U32;
    if AllFit(attrs) && password != [] && |BodyBytes(attrs)| + 24 <= 0xffff {
      BodyPush(attrs, IntegrityOf(hmac, typ, id, BodyBytes(attrs), password));
    }
  }

  // ---- Parsing ----

  datatype Parsed = Parsed(typ: u16, transactionId: Buffer, attrs: map<u16, Buffer>)

  function Parse(m: Buffer): Option<Parsed> {
    if |m| < 20 || ReadU32(m, 4) != MAGIC_COOKIE || 20 + ReadU16(m, 2) > |m| then None
    else Some(Parsed(ReadU16(m, 0), m[8..20], Table(AttributesFrom(m, 20, 20 + ReadU16(m, 2)))))
  }

  method ParseMessage(m: Buffer) returns (r: Option<Parsed>)
    ensures r == Parse(m)
  {
    hide ReadU16, ReadU32;
    if |m| < 20 || ReadU32(m, 4) != MAGIC_COOKIE {
      return None;
    }
    var typ, length := ReadU16(m, 0), ReadU16(m, 2);
    if 20 + length > |m| {
      return None;
    }
    var attrs := ReadTable(m, 20 + length);
    r := Some(Parsed(typ, m[8..20], attrs));
  }

  method ReadTable(m: Buffer, end: nat) returns (attrs: map<u16, Buffer>)
    requires 20 <= end <= |m|
    ensures attrs == Table(AttributesFrom(m, 20, end))
  {
    hide ReadU16, AttributesFrom, Table;
    attrs := map[];
    var off := 20;
    ghost var seen: seq<Attribute> := [];
    NoEntries();
    while off + 4 <= end
      invariant AttributesFrom(m, 20, end) == seen + AttributesFrom(m, off, end)
      invariant attrs == Table(seen)
      decreases end - off
    {
      OneAttribute(m, off, end, seen);
      var typ, len := ReadU16(m, off), ReadU16(m, off + 2);
      if off + 4 + len > end {
        break;
      }
      var a := Attribute(typ, m[off + 4..off + 4 + len]);
      attrs := attrs[typ := m[off + 4..off + 4 + len]];
      seen := seen + [a];
      off := off + 4 + Pad4(len);
    }
    OneAttribute(m, off, end, seen);
    assert seen + [] == seen;
  }

  lemma NoEntries()
    ensures Table([]) == map[]
  {}

  /** What the next turn of the parsing loop adds. */
  lemma OneAttribute(m: Buffer, off: nat, end: nat, seen: seq<Attribute>)
    requires end <= |m|
    ensures if off + 4 > end || off + 4 + ReadU16(m, off + 2) > end then AttributesFrom(m, off, end) == []
      else
        var len := ReadU16(m, off + 2);
        var a := Attribute(ReadU16(m, off), m[off + 4..off + 4 + len]);
        && seen + AttributesFrom(m, off, end) == (seen + [a]) + AttributesFrom(m, off + 4 + Pad4(len), end)
        && Table(seen + [a]) == Table(seen)[a.typ := a.value]
  {
    hide ReadU16;
    if off + 4 <= end && off + 4 + ReadU16(m, off + 2) <= end {
      var len := ReadU16(m, off + 2);
      var a := Attribute(ReadU16(m, off), m[off + 4..off + 4 + len]);
      assert (seen + [a])[..|seen|] == seen;
      assert seen + ([a] + AttributesFrom(m, off + 4 + Pad4(len), end))
          == (seen + [a]) + AttributesFrom(m, off + 4 + Pad4(len), end);
    }
  }

  // ---- Verifying ----

  datatype Search = Found(offset: nat) | Missing | Overrun

  /** The first integrity attribute; Overrun is the RangeError of reading past the message. */
  function FindIntegrity(m: Buffer, off: nat, end: nat): (r: Search)
    ensures r.Found? ==> off <= r.offset && r.offset + 4 <= |m|
    decreases end - off
  {
    if off + 4 > end then Missing
    else if off + 4 > |m| then Overrun
    else if ReadU16(m, off) == MESSAGE_INTEGRITY then Found(off)
    else FindIntegrity(m, off + 4 + Pad4(ReadU16(m, off + 2)), end)
  }

  function Clamped(m: Buffer, from: nat, to: nat): Buffer
    requires from <= to
  {
    if to <= |m| then m[from..to] else if from <= |m| then m[from..] else []
  }

  /** The header of a message with its length rewritten to end after the attribute at `mi`. */
  function Rewritten(m: Buffer, mi: nat): Buffer
    requires 20 <= mi <= |m| && mi + 4 <= 0xffff
  {
    m[..2] + U16(mi + 4) + m[4..mi]
  }

  /** None is a RangeError: a message too short to read, or an attribute too far in to write its length. */
  function Verify(hmac: Hmac, m: Buffer, password: Buffer): Option<bool> {
    if |m| < 4 then None
    else
      match FindIntegrity(m, 20, 20 + ReadU16(m, 2))
      case Overrun => None
      case Missing => Some(false)
      case Found(mi) =>
        if mi + 4 > 0xffff then None
        else Some(Clamped(m, mi + 4, mi + 24) == hmac(password, Rewritten(m, mi)))
  }

  /** Section 6 of RFC 5389: what counts as a message is decided by its size, its cookie and its length field. */
  lemma ParsesIff(m: Buffer)
    ensures Parse(m).Some? <==>
      |m| >= 20 && m[4..8] == [0x21, 0x12, 0xa4, 0x42] && 20 + 256 * m[2] as nat + m[3] as nat <= |m|
    ensures Parse(m).Some? ==> Parse(m).value.transactionId == m[8..20]
  {
    hide AttributesFrom, Table;
    if |m| >= 20 {
      assert m[4..8] == [m[4], m[5], m[6], m[7]];
    }
  }

  /** A message without integrity is never accepted. */
  lemma {:induction false} NoIntegrityFails(hmac: Hmac, m: Buffer, password: Buffer, off: nat)
    requires Parse(m).Some? && 20 <= off
    requires forall a | a in AttributesFrom(m, off, 20 + ReadU16(m, 2)) :: a.typ != 8
    requires Tiled(m, off, 20 + ReadU16(m, 2))
    ensures FindIntegrity(m, off, 20 + ReadU16(m, 2)) == Missing
    ensures off == 20 ==> Verify(hmac, m, password) == Some(false)
    decreases |m| + 3 - off
  {
    hide ReadU16, ReadU32, Table;
    var end := 20 + ReadU16(m, 2);
    if off + 4 <= end {
      var len := ReadU16(m, off + 2);
      var rest := AttributesFrom(m, off + 4 + Pad4(len), end);
      var a := Attribute(ReadU16(m, off), m[off + 4..off + 4 + len]);
      assert AttributesFrom(m, off, end) == [a] + rest;
      assert a in [a] + rest && forall b | b in rest :: b in [a] + rest;
      NoIntegrityFails(hmac, m, password, off + 4 + Pad4(len));
    }
  }

  /** Every attribute up to `end` lies inside it. */
  predicate Tiled(m: Buffer, off: nat, end: nat)
    requires end <= |m|
    decreases end - off
  {
    off + 4 > end
    || (off + 4 + ReadU16(m, off + 2) <= end && Tiled(m, off + 4 + Pad4(ReadU16(m, off + 2)), end))
  }

  /**
   * A byte changed in what the integrity covers, or in its digest, makes verification fail, unless two messages share
   * a digest; not the length field, which is rewritten, and not the attribute's own header.
   */
  lemma TamperedFails(hmac: Hmac, m: Buffer, password: Buffer, i: nat, v: byte, mi: nat)
    requires Verify(hmac, m, password) == Some(true) && i < |m| && v != m[i]
    requires FindIntegrity(m, 20, 20 + ReadU16(m, 2)) == Found(mi) && mi + 4 <= 0xffff
    requires FindIntegrity(m[i := v], 20, 20 + ReadU16(m[i := v], 2)) == Found(mi)
    requires i < 2 || 4 <= i < mi || mi + 4 <= i < mi + 24
    requires forall other | other != Rewritten(m, mi) :: hmac(password, other) != hmac(password, Rewritten(m, mi))
    ensures Verify(hmac, m[i := v], password) == Some(false)
  {
    hide FindIntegrity;
    var changed := m[i := v];
    if i < mi {
      assert Rewritten(m, mi)[i] == m[i] && Rewritten(changed, mi)[i] == v;
      assert Clamped(changed, mi + 4, mi + 24) == Clamped(m, mi + 4, mi + 24);
    } else {
      assert Rewritten(changed, mi) == Rewritten(m, mi);
      assert Clamped(changed, mi + 4, mi + 24)[i - mi - 4] == v;
    }
  }

  /** Locates the attribute, rewrites the header's length, and compares. */
  method VerifyIntegrity(hmac: Hmac, m: Buffer, password: Buffer) returns (r: Option<bool>)
    ensures r == Verify(hmac, m, password)
  {
    hide ReadU16;
    if |m| < 4 {
      return None;
    }
    var end := 20 + ReadU16(m, 2);
    var off, miOffset := 20, -1;
    while off + 4 <= end
      invariant off >= 20 && miOffset == -1
      invariant FindIntegrity(m, off, end) == FindIntegrity(m, 20, end)
      decreases end - off
    {
      if off + 4 > |m| {
        return None;
      }
      var typ, len := ReadU16(m, off), ReadU16(m, off + 2);
      if typ == MESSAGE_INTEGRITY {
        miOffset := off;
        break;
      }
      off := off + 4 + Pad4(len);
    }
    if miOffset < 0 {
      return Some(false);
    }
    var provided := Clamped(m, miOffset + 4, miOffset + 24);
    if miOffset + 4 > 0xffff {
      return None;
    }
    r := Some(provided == hmac(password, Rewritten(m, miOffset)));
  }

  // ---- Main results ----

  lemma HeaderFields(typ: u16, length: u16, id: Buffer)
    ensures var h := Header(typ, length, id);
      Holds(h, 0, U16(typ)) && Holds(h, 2, U16(length)) && Holds(h, 4, U32(MAGIC_COOKIE)) && Holds(h, 8, IdBytes(id))
  {
    hide U16, U32, IdBytes;
  }

  lemma HeaderRead(typ: u16, length: u16, id: Buffer, body: Buffer)
    ensures var m := Header(typ, length, id) + body;
      && |m| >= 20 && ReadU16(m, 0) == typ && ReadU16(m, 2) == length && ReadU32(m, 4) == MAGIC_COOKIE
          && m[8..20] == IdBytes(id)
      && Holds(m, 20, body)
  {
    hide U16, U32, ReadU16, ReadU32, IdBytes, Header;
    var h, m := Header(typ, length, id), Header(typ, length, id) + body;
    HeaderFields(typ, length, id);
    assert Holds(m, 0, h) && Holds(m, 20, body);
    HoldsWithin(m, 0, h, 0, U16(typ));
    HoldsWithin(m, 0, h, 2, U16(length));
    HoldsWithin(m, 0, h, 4, U32(MAGIC_COOKIE));
    HoldsWithin(m, 0, h, 8, IdBytes(id));
    ReadWritten16(m, 0, typ);
    ReadWritten16(m, 2, length);
    ReadWritten32(m, 4, MAGIC_COOKIE);
    HeldSlice(m, 8, IdBytes(id));
  }

  /** Parsing a built message gives its type, its id and every attribute, the last of each type standing. */
  lemma BuildParses(hmac: Hmac, typ: u16, id: Buffer, attrs: seq<Attribute>, password: Buffer)
    requires Digests(hmac) && Build(hmac, typ, id, attrs, password).Some?
    ensures Parse(Build(hmac, typ, id, attrs, password).value)
         == Some(Parsed(typ, IdBytes(id), Table(Finished(hmac, typ, id, attrs, password).value)))
  {
    hide BodyBytes, Header, ReadU16, ReadU32, AttributesFrom, Finished, Holds, Table;
    var all := Finished(hmac, typ, id, attrs, password).value;
    var n := |BodyBytes(all)|;
    var m := Header(typ, n, id) + BodyBytes(all);
    HeaderRead(typ, n, id, BodyBytes(all));
    AttributesRoundTrip(m, 20, all, 20 + n);
    NoneAfter(m, 20 + n);
    assert all + [] == all;
  }

  lemma NoneAfter(m: Buffer, end: nat)
    requires end <= |m|
    ensures AttributesFrom(m, end, end) == []
  {}

  /** The search passes over attributes of other types. */
  lemma {:induction false} SearchPasses(m: Buffer, off: nat, attrs: seq<Attribute>, end: nat)
    requires forall a | a in attrs :: Fits(a) && a.typ != MESSAGE_INTEGRITY
    requires Holds(m, off, BodyBytes(attrs)) && off + |BodyBytes(attrs)| <= end
    ensures FindIntegrity(m, off, end) == FindIntegrity(m, off + |BodyBytes(attrs)|, end)
    decreases |attrs|
  {
    hide AttributeBytes, FindIntegrity, Holds;
    if attrs != [] {
      var n := |attrs| - 1;
      var front, last := attrs[..n], attrs[n];
      assert BodyBytes(attrs) == BodyBytes(front) + AttributeBytes(last) + [];
      HeldParts(m, off, BodyBytes(front), AttributeBytes(last), []);
      SearchPasses(m, off, front, end);
      SearchPassesOne(m, off + |BodyBytes(front)|, last, end);
    }
  }

  lemma SearchPassesOne(m: Buffer, off: nat, a: Attribute, end: nat)
    requires Fits(a) && a.typ != MESSAGE_INTEGRITY && Holds(m, off, AttributeBytes(a))
    requires off + |AttributeBytes(a)| <= end
    ensures FindIntegrity(m, off, end) == FindIntegrity(m, off + |AttributeBytes(a)|, end)
  {
    ReadAttribute(m, off, a);
    hide ReadU16, Holds, AttributeBytes;
  }

  /** The message with integrity, as the parts the verifier sees. */
  lemma BuiltParts(hmac: Hmac, typ: u16, id: Buffer, attrs: seq<Attribute>, password: Buffer)
    requires Digests(hmac) && password != [] && Build(hmac, typ, id, attrs, password).Some?
    ensures forall a | a in attrs :: Fits(a)
    ensures var body := BodyBytes(attrs);
      && |body| + 32 <= 0xffff
      && var mi := Attribute(MESSAGE_INTEGRITY, hmac(password, Covered(typ, id, body)));
         exists tail: Buffer :: |tail| == 8
           && Build(hmac, typ, id, attrs, password).value
               == Header(typ, |body| + 32, id) + (body + AttributeBytes(mi) + tail)
  {
    hide AttributeBytes, Header, Covered, Fingerprint, BodyBytes;
    var body := BodyBytes(attrs);
    var mi := IntegrityOf(hmac, typ, id, body, password);
    var signed := attrs + [mi];
    BodyPush(attrs, mi);
    var mark := Attribute(FINGERPRINT, U32(Fingerprint(typ, id, BodyBytes(signed))));
    BodyPush(signed, mark);
    var tail := AttributeBytes(mark);
    assert Finished(hmac, typ, id, attrs, password) == Some(signed + [mark]);
    assert BodyBytes(signed + [mark]) == body + AttributeBytes(mi) + tail && |tail| == 8;
  }

  /** The verifier's rewritten header and the builder's first header are the same bytes. */
  lemma RewrittenIsCovered(typ: u16, length: u16, id: Buffer, body: Buffer, rest: Buffer)
    requires |body| + 24 <= 0xffff
    ensures Rewritten(Header(typ, length, id) + (body + rest), 20 + |body|) == Covered(typ, id, body)
  {
    hide U16, U32, IdBytes;
    var m := Header(typ, length, id) + (body + rest);
    var tail := U32(MAGIC_COOKIE) + IdBytes(id) + body;
    assert m[..2] == U16(typ);
    assert m[4..20 + |body|] == tail;
    assert Covered(typ, id, body) == U16(typ) + U16(|body| + 24) + tail;
  }

  /**
   * For any attributes without a MESSAGE-INTEGRITY of their own: a message built with one password
   * verifies under another exactly when both give the same digest of the covered bytes; so it always
   * verifies under its own.
   */
  lemma BuildVerifiesIff(hmac: Hmac, typ: u16, id: Buffer, attrs: seq<Attribute>, password: Buffer, other: Buffer)
    requires Digests(hmac) && password != [] && Build(hmac, typ, id, attrs, password).Some?
    requires forall a | a in attrs :: a.typ != MESSAGE_INTEGRITY
    ensures |BodyBytes(attrs)| + 24 <= 0xffff
    ensures var covered := Covered(typ, id, BodyBytes(attrs));
      Verify(hmac, Build(hmac, typ, id, attrs, password).value, other)
          == Some(hmac(password, covered) == hmac(other, covered))
  {
    hide BodyBytes, AttributeBytes, Header, Covered, Build, ReadU16, Rewritten, FindIntegrity, Holds;
    BuiltParts(hmac, typ, id, attrs, password);
    var body := BodyBytes(attrs);
    var mac := hmac(password, Covered(typ, id, body));
    var mi := Attribute(MESSAGE_INTEGRITY, mac);
    var tail: Buffer :| |tail| == 8
      && Build(hmac, typ, id, attrs, password).value
          == Header(typ, |body| + 32, id) + (body + AttributeBytes(mi) + tail);
    var rest := AttributeBytes(mi) + tail;
    assert body + AttributeBytes(mi) + tail == body + rest;
    IntegrityFound(typ, id, attrs, mac, tail);
    RewrittenIsCovered(typ, |body| + 32, id, body, rest);
  }

  lemma IntegrityFound(typ: u16, id: Buffer, attrs: seq<Attribute>, mac: Buffer, tail: Buffer)
    requires (forall a | a in attrs :: Fits(a) && a.typ != MESSAGE_INTEGRITY) && |BodyBytes(attrs)| + 32 <= 0xffff
    requires |mac| == 20 && |tail| == 8
    ensures var body := BodyBytes(attrs);
      var m := Header(typ, |body| + 32, id) + (body + (AttributeBytes(Attribute(MESSAGE_INTEGRITY, mac)) + tail));
      && |m| >= 20 && ReadU16(m, 2) == |body| + 32
      && FindIntegrity(m, 20, 20 + ReadU16(m, 2)) == Found(20 + |body|)
      && Clamped(m, 24 + |body|, 44 + |body|) == mac
  {
    hide BodyBytes, AttributeBytes, Header, ReadU16, FindIntegrity, Holds;
    var body, mi := BodyBytes(attrs), Attribute(MESSAGE_INTEGRITY, mac);
    var rest := AttributeBytes(mi) + tail;
    var m := Header(typ, |body| + 32, id) + (body + rest);
    HeaderRead(typ, |body| + 32, id, body + rest);
    assert body + rest == [] + body + rest && body + rest == body + AttributeBytes(mi) + tail;
    HeldParts(m, 20, [], body, rest);
    HeldParts(m, 20, body, AttributeBytes(mi), tail);
    SearchPasses(m, 20, attrs, 52 + |body|);
    ReadAttribute(m, 20 + |body|, mi);
    FoundHere(m, 20 + |body|, 52 + |body|);
  }

  lemma FoundHere(m: Buffer, off: nat, end: nat)
    requires off + 4 <= end && off + 4 <= |m| && ReadU16(m, off) == MESSAGE_INTEGRITY
    ensures FindIntegrity(m, off, end) == Found(off)
  {}

  /**
   * The last attribute is the fingerprint of everything before it, header length included (section 15.5 of
   * RFC 5389).
   */
  lemma FingerprintCoversMessage(hmac: Hmac, typ: u16, id: Buffer, attrs: seq<Attribute>, password: Buffer)
    requires Digests(hmac) && Build(hmac, typ, id, attrs, password).Some?
    ensures var m := Build(hmac, typ, id, attrs, password).value;
      && |m| >= 28
      && var crc := Crc.Checksum(Crc.IEEE, m[..|m| - 8]);
         m[|m| - 8..] == AttributeBytes(Attribute(FINGERPRINT,
           U32(Crc.WordValue(Crc.Xor(Crc.ToBits(crc, 32), Crc.ToBits(0x5354_554e, 32))))))
  {
    hide BodyBytes, AttributeBytes, Header, Crc.Checksum, Crc.WordValue, Crc.Xor, Crc.ToBits, U32, Signed;
    var signed := Signed(hmac, typ, id, attrs, password).value;
    var body := BodyBytes(signed);
    var mark := Attribute(FINGERPRINT, U32(Fingerprint(typ, id, body)));
    BodyPush(signed, mark);
    var m := Build(hmac, typ, id, attrs, password).value;
    var front := Header(typ, |body| + 8, id) + body;
    assert m == front + AttributeBytes(mark);
    assert m[..|m| - 8] == front && m[|m| - 8..] == AttributeBytes(mark);
  }
}
