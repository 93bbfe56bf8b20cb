/**
 * Bytes on the wire written out in full, from the documents that define the formats: the codecs' constants are
 * those, and not merely the same at both ends.
 */
module KnownValues {
  import opened Bytes
  import Chunks
  import Setup
  import SctpAssociation
  import Association
  import Dcep
  import DataChannels
  import DtlsWire
  import DtlsMessages
  import DtlsHandshake
  import StunMessage

  // ---- RFC 4960 ----

  /** Section 3.1: both ports are 5000, and the tag follows. */
  lemma PacketStart(tag: u32)
    ensures Chunks.CommonHeader(tag)[..4] == [0x13, 0x88, 0x13, 0x88]
    ensures Chunks.CommonHeader(tag)[4..8] == U32(tag)
  {
    hide U32;
  }

  /** Section 3.3.1: flags U, B and E are 4, 2 and 1; the length leaves the padding out. */
  lemma DataOnTheWire(tsn: u32, streamId: u16, seqNo: u16, unordered: bool, x: byte)
    ensures Chunks.ChunkBytes(Chunks.DataChunk(Chunks.Data(unordered, true, false, tsn, streamId, seqNo, 51, [x]))) ==
      [0, if unordered then 6 else 2, 0, 17] + U32(tsn) + U16(streamId) + U16(seqNo) + [0, 0, 0, 51, x, 0, 0, 0]
    ensures Chunks.DataChunk(Chunks.Data(false, false, true, tsn, streamId, seqNo, 51, [x])).flags == 1
  {
    assert U32(51) == [0, 0, 0, 51] && Zeros(3) == [0, 0, 0];
    hide U32;
  }

  /** Section 3.3.2, and section 3.1 of RFC 3758: a window of 2^20 bytes, 65535 streams each way, FORWARD-TSN. */
  lemma InitOnTheWire(p: Setup.Peer)
    ensures Chunks.Fits(Setup.InitChunk(p))
    ensures Chunks.ChunkBytes(Setup.InitChunk(p)) ==
      [1, 0, 0, 24] + U32(p.localTag) + [0, 0x10, 0, 0, 0xff, 0xff, 0xff, 0xff] + U32(p.localTSN) + [0xc0, 0, 0, 4]
  {
    var ext := Setup.EXT_PARAMS;
    assert ext[1..] == [] && Chunks.ParamBytes(ext[0]) == [0xc0, 0, 0, 4];
    assert Chunks.AllParamBytes(ext) == [0xc0, 0, 0, 4];
    assert U32(Association.DEFAULT_RWND) == [0, 0x10, 0, 0];
    hide U32;
  }

  /** Section 3.3.4: a SACK with one gap block advertises the same window. */
  lemma SackOnTheWire(cum: u32, block: (u16, u16))
    ensures var s := Chunks.Sack(cum, Association.DEFAULT_RWND, [block], []);
      && Chunks.SackFits(s) && Chunks.Fits(SctpAssociation.SackChunk(s))
      && Chunks.ChunkBytes(SctpAssociation.SackChunk(s)) ==
        [3, 0, 0, 20] + U32(cum) + [0, 0x10, 0, 0, 0, 1, 0, 0] + U16(block.0) + U16(block.1)
  {
    assert Chunks.BlockBytes([block]) == U16(block.0) + U16(block.1);
    assert U32(Association.DEFAULT_RWND) == [0, 0x10, 0, 0];
    hide U32;
  }

  /** Every SACK the receiver builds has the cursor, that window and no duplicates. */
  lemma SackAdvertises(cum: u32, sorted: seq<u32>)
    ensures var r := Association.SackFor(cum, sorted);
      r.Some? ==> r.value.cumulativeTSNAck == cum && r.value.aRwnd == 1048576 && r.value.dupTSNs == []
  {
    hide Association.Blocks;
  }

  // ---- RFC 8832 and RFC 8831 ----

  /** Section 5.1 of RFC 8832, and section 5.2. */
  lemma OpenOnTheWire(reliability: u32, a: byte, b: byte)
    ensures Dcep.OpenBytes(Dcep.Open(0x81, 0, reliability, [a], [b])) ==
      [3, 0x81, 0, 0] + U32(reliability) + [0, 1, 0, 1, a, b]
    ensures Dcep.ACK_BYTES == [2]
  {
    hide U32;
  }

  /** Section 8 of RFC 8831: the identifiers for text, binary, and empty messages; one zero byte stands for empty. */
  lemma FrameIdentifiers(id: nat, data: Buffer)
    ensures DataChannels.FrameMessage(id, DataChannels.Frame(data, false)) ==
      Association.Message(id, if data == [] then 56 else 51, if data == [] then [0] else data)
    ensures DataChannels.FrameMessage(id, DataChannels.Frame(data, true)) ==
      Association.Message(id, if data == [] then 57 else 53, if data == [] then [0] else data)
    ensures DataChannels.AckMessage(id) == Association.Message(id, 50, [2])
    ensures DataChannels.MessageFrame(Association.Message(id, 52, data)) == DataChannels.Frame(data, true)
  {}

  // ---- RFC 6347 and RFC 5246 ----

  /** Section 4.1 of RFC 6347: a handshake record (22) of version 1.2. */
  lemma RecordOnTheWire(epoch: u16, x: byte)
    ensures DtlsWire.RecordBytes(DtlsWire.Record(DtlsWire.HANDSHAKE, 0xfefd, epoch, 258, [x])) ==
      [22, 254, 253] + U16(epoch) + [0, 0, 0, 0, 1, 2, 0, 1, x]
  {
    assert U48(258) == [0, 0, 0, 0, 1, 2];
    hide U48;
  }

  /** Section 4.2.2 of RFC 6347: the header of an unfragmented Finished. */
  lemma FinishedOnTheWire(n: u16, x: byte)
    ensures DtlsWire.HandshakeBytes(DtlsMessages.FINISHED, n, [x]) ==
      [20, 0, 0, 1] + U16(n) + [0, 0, 0, 0, 0, 1, x]
  {
    assert U24(1) == [0, 0, 1] && U24(0) == [0, 0, 0];
    hide U24;
  }

  /** Section 7.4 of RFC 5246: the types of the server's flight, in order. */
  lemma ServerFlightTypes(c: DtlsHandshake.Crypto, e: DtlsHandshake.Core)
    requires |DtlsHandshake.ServerSignature(c, e)| <= 0xffff
    ensures var ms := DtlsHandshake.ServerFlightMessages(c, DtlsHandshake.Config(false, true), e);
      && |ms| == 5 && ms[0].msgType == 2 && ms[1].msgType == 11 && ms[2].msgType == 12 && ms[3].msgType == 13
      && ms[4].msgType == 14 && ms[3].body == [2, 64, 1, 0, 2, 4, 3, 0, 0] && ms[4].body == []
  {
    hide DtlsMessages.ServerHelloBody, DtlsMessages.CertificateBody, DtlsMessages.KeyExchangeBody,
         DtlsHandshake.ServerSignature;
  }

  /** secp256r1, uncompressed points, ecdsa_secp256r1_sha256 and the extended master secret. */
  lemma ClientExtensionsOnTheWire()
    ensures DtlsMessages.ExtensionsBytes(DtlsMessages.ClientExtensions()) ==
      [0, 10, 0, 4, 0, 2, 0, 23, 0, 11, 0, 2, 1, 0, 0, 13, 0, 4, 0, 2, 4, 3, 0, 23, 0, 0]
  {
    hide DtlsMessages.ExtensionsBytes, DtlsMessages.ExtensionBytes;
    EachExtension();
    var es := DtlsMessages.ClientExtensions();
    FourExtensions(es[0], es[1], es[2], es[3]);
    assert es == [es[0], es[1], es[2], es[3]];
  }

  lemma EachExtension()
    ensures var es := DtlsMessages.ClientExtensions();
      && DtlsMessages.ExtensionBytes(es[0]) == [0, 10, 0, 4, 0, 2, 0, 23]
      && DtlsMessages.ExtensionBytes(es[1]) == [0, 11, 0, 2, 1, 0]
      && DtlsMessages.ExtensionBytes(es[2]) == [0, 13, 0, 4, 0, 2, 4, 3]
      && DtlsMessages.ExtensionBytes(es[3]) == [0, 23, 0, 0]
  {}

  lemma FourExtensions(a: DtlsMessages.Extension, b: DtlsMessages.Extension, c: DtlsMessages.Extension,
      d: DtlsMessages.Extension)
    requires forall e | e in [a, b, c, d] :: DtlsMessages.ExtensionFits(e)
    ensures DtlsMessages.ExtensionsBytes([a, b, c, d]) == DtlsMessages.ExtensionBytes(a)
      + DtlsMessages.ExtensionBytes(b) + DtlsMessages.ExtensionBytes(c) + DtlsMessages.ExtensionBytes(d)
  {
    hide DtlsMessages.ExtensionBytes;
    assert [a, b, c, d][1..] == [b, c, d] && [b, c, d][1..] == [c, d] && [c, d][1..] == [d] && [d][1..] == [];
    assert DtlsMessages.ExtensionFits(a) && DtlsMessages.ExtensionFits(b);
    assert DtlsMessages.ExtensionFits(c) && DtlsMessages.ExtensionFits(d);
    assert DtlsMessages.ExtensionsBytes([d]) == DtlsMessages.ExtensionBytes(d);
    assert DtlsMessages.ExtensionsBytes([c, d]) == DtlsMessages.ExtensionBytes(c) + DtlsMessages.ExtensionBytes(d);
  }

  /**
   * Section 7.4.1.2 of RFC 5246 and section 4.2.1 of RFC 6347: version, random, no session, cookie, the one suite
   * TLS_ECDHE_ECDSA_WITH_AES_128_GCM_SHA256, no compression, and 26 bytes of extensions.
   */
  lemma ClientHelloOnTheWire(random: Buffer, cookie: Buffer)
    requires |random| == 32 && |cookie| <= 0xff
    ensures DtlsMessages.ClientHelloBody(random, cookie) ==
      [0xfe, 0xfd] + random + [0] + [|cookie|] + cookie + [0, 2, 0xc0, 0x2b, 1, 0, 0, 26]
      + DtlsMessages.ExtensionsBytes(DtlsMessages.ClientExtensions())
  {
    hide DtlsMessages.ExtensionsBytes;
    DtlsMessages.ClientExtensionsShort();
    assert DtlsMessages.ClientHelloHead(random, cookie, 26) ==
      [0xfe, 0xfd] + random + [0] + [|cookie|] + cookie + [0, 2, 0xc0, 0x2b, 1, 0, 0, 26];
  }

  // ---- RFC 5389 ----

  /** Section 6: the header of a Binding request, with the magic cookie. */
  lemma BindingRequestStart(length: u16, id: Buffer)
    requires |id| == 12
    ensures StunMessage.Header(1, length, id) == [0, 1] + U16(length) + [0x21, 0x12, 0xa4, 0x42] + id
  {
    assert U32(0x2112_a442) == [0x21, 0x12, 0xa4, 0x42];
    assert StunMessage.IdBytes(id) == id;
    hide U32;
  }

  /** Section 15: an attribute is padded, its length is not. MESSAGE-INTEGRITY and FINGERPRINT by number. */
  lemma AttributeOnTheWire(typ: u16, a: byte, b: byte)
    ensures StunMessage.AttributeBytes(StunMessage.Attribute(typ, [a, b])) == U16(typ) + [0, 2, a, b, 0, 0]
    ensures StunMessage.MESSAGE_INTEGRITY == 8 && StunMessage.FINGERPRINT == 0x8028
  {
    assert Zeros(2) == [0, 0];
  }
}
