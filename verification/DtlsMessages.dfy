/** Bodies of the handshake messages: what is built and what the peer reads (src/dtls/connection.ts:459-957). */
module DtlsMessages {
  import opened Bytes
  import DtlsWire

  const CLIENT_HELLO: byte := 1
  const SERVER_HELLO: byte := 2
  const HELLO_VERIFY_REQUEST: byte := 3
  const CERTIFICATE: byte := 11
  const SERVER_KEY_EXCHANGE: byte := 12
  const CERTIFICATE_REQUEST: byte := 13
  const SERVER_HELLO_DONE: byte := 14
  const CERTIFICATE_VERIFY: byte := 15
  const CLIENT_KEY_EXCHANGE: byte := 16
  const FINISHED: byte := 20

  const CIPHER_SUITE: u16 := 0xc02b
  const SECP256R1: u16 := 0x0017

  const SUPPORTED_GROUPS: u16 := 10
  const EC_POINT_FORMATS: u16 := 11
  const SIGNATURE_ALGORITHMS: u16 := 13
  const EXTENDED_MASTER_SECRET: u16 := 23
  const RENEGOTIATION_INFO: u16 := 0xff01
  const RENEGOTIATION_SCSV: u16 := 0x00ff

  /** `Buffer.slice`: stops at the end of the buffer. */
  function Slice(b: Buffer, from: nat, to: nat): (r: Buffer) {
    var lo, hi := Min(from, |b|), Min(to, |b|);
    if lo <= hi then b[lo..hi] else []
  }

  function Min(a: nat, b: nat): nat { if a <= b then a else b }

  lemma SliceHeld(b: Buffer, off: nat, s: Buffer)
    requires Holds(b, off, s)
    ensures Slice(b, off, off + |s|) == s
  {}

  // ---- Vectors ----

  function Vec8(b: Buffer): Buffer { [|b| % 0x100] + b }

  function Vec16(b: Buffer): Buffer
    requires |b| <= 0xffff
  {
    U16(|b|) + b
  }

  function Vec24(b: Buffer): Buffer { U24(|b| % 0x100_0000) + b }

  // ---- Extensions ----

  datatype Extension = Extension(typ: u16, body: Buffer)

  predicate ExtensionFits(e: Extension) { |e.body| <= 0xffff }

  function ExtensionBytes(e: Extension): (b: Buffer)
    requires ExtensionFits(e)
    ensures |b| == 4 + |e.body|
  {
    U16(e.typ) + U16(|e.body|) + e.body
  }

  function ExtensionsBytes(es: seq<Extension>): Buffer
    requires forall e | e in es :: ExtensionFits(e)
  {
    if es == [] then [] else ExtensionBytes(es[0]) + ExtensionsBytes(es[1..])
  }

  function Types(es: seq<Extension>): seq<u16> {
    if es == [] then [] else [es[0].typ] + Types(es[1..])
  }

  /** The extension types from `off` up to the declared end; None is the RangeError of running off the body. */
  function TypesFrom(b: Buffer, off: nat, end: nat): Option<seq<u16>>
    decreases end - off
  {
    if off + 4 > end then Some([])
    else if off + 4 > |b| then None
    else
      match TypesFrom(b, off + 4 + ReadU16(b, off + 2), end)
      case None => None
      case Some(rest) => Some([ReadU16(b, off)] + rest)
  }

  /** The loop of both hello parsers. */
  method ReadTypes(b: Buffer, start: nat, end: nat) returns (types: Option<seq<u16>>)
    ensures types == TypesFrom(b, start, end)
  {
    hide ReadU16;
    var found: seq<u16>, o := [], start;
    assert forall rest: seq<u16> :: found + rest == rest;
    while o + 4 <= end
      invariant match TypesFrom(b, o, end)
        case None => TypesFrom(b, start, end) == None
        case Some(rest) => TypesFrom(b, start, end) == Some(found + rest)
      decreases end - o
    {
      if o + 4 > |b| {
        return None;
      }
      var typ, len := ReadU16(b, o), ReadU16(b, o + 2);
      assert forall rest :: found + ([typ] + rest) == found + [typ] + rest;
      found := found + [typ];
      o := o + 4 + len;
    }
    assert found + [] == found;
    types := Some(found);
  }

  lemma ReadExtension(b: Buffer, off: nat, e: Extension)
    requires ExtensionFits(e) && Holds(b, off, ExtensionBytes(e))
    ensures off + 4 <= |b| && ReadU16(b, off) == e.typ && ReadU16(b, off + 2) == |e.body|
  {
    hide U16;
    HeldParts(b, off, U16(e.typ), U16(|e.body|), e.body);
    ReadWritten16(b, off, e.typ);
    ReadWritten16(b, off + 2, |e.body|);
  }

  lemma {:induction false} TypesRoundTrip(pre: Buffer, es: seq<Extension>)
    requires forall e | e in es :: ExtensionFits(e)
    ensures TypesFrom(pre + ExtensionsBytes(es), |pre|, |pre + ExtensionsBytes(es)|) == Some(Types(es))
    decreases |es|
  {
    if es != [] {
      var pre' := pre + ExtensionBytes(es[0]);
      assert pre + ExtensionsBytes(es) == pre' + ExtensionsBytes(es[1..]);
      TypesRoundTrip(pre', es[1..]);
      FirstType(pre, es[0], ExtensionsBytes(es[1..]));
    }
  }

  lemma FirstType(pre: Buffer, e: Extension, rest: Buffer)
    requires ExtensionFits(e)
    ensures var b, o := pre + ExtensionBytes(e) + rest, |pre + ExtensionBytes(e)|;
      TypesFrom(b, |pre|, |b|) == match TypesFrom(b, o, |b|) case None => None case Some(types) => Some([e.typ] + types)
  {
    var b := pre + ExtensionBytes(e) + rest;
    HoldsInMiddle(pre, ExtensionBytes(e), rest);
    ReadExtension(b, |pre|, e);
    hide ExtensionBytes, ReadU16, Holds;
  }

  // ---- HelloVerifyRequest ----

  function VerifyRequestBody(cookie: Buffer): Buffer { [0xfe, 0xff] + Vec8(cookie) }

  function ReadVerifyRequest(body: Buffer): Option<Buffer> {
    if |body| < 3 then None else Some(Slice(body, 3, 3 + body[2] as nat))
  }

  lemma VerifyRequestRoundTrip(cookie: Buffer)
    requires |cookie| <= 0xff
    ensures ReadVerifyRequest(VerifyRequestBody(cookie)) == Some(cookie)
  {
    SliceHeld(VerifyRequestBody(cookie), 3, cookie);
  }

  // ---- ClientHello ----

  /** What the server takes from a ClientHello. */
  datatype Hello = Hello(random: Buffer, cookie: Buffer, extendedMasterSecret: bool, renegotiation: bool)

  function ClientExtensions(): (es: seq<Extension>)
    ensures forall e | e in es :: ExtensionFits(e)
  {
    [Extension(SUPPORTED_GROUPS, Vec16(U16(SECP256R1))), Extension(EC_POINT_FORMATS, Vec8([0])),
     Extension(SIGNATURE_ALGORITHMS, Vec16([4, 3])), Extension(EXTENDED_MASTER_SECRET, [])]
  }

  /** Everything up to the extensions, in the order it is pushed. */
  function ClientHelloHead(random: Buffer, cookie: Buffer, extensionsLength: u16): Buffer {
    [0xfe, 0xfd] + random + Vec8([]) + Vec8(cookie) + Vec16(U16(CIPHER_SUITE)) + Vec8([0]) + U16(extensionsLength)
  }

  function ClientHelloBody(random: Buffer, cookie: Buffer): Buffer {
    var es := ExtensionsBytes(ClientExtensions());
    ClientExtensionsShort();
    ClientHelloHead(random, cookie, |es|) + es
  }

  lemma ClientExtensionsShort()
    ensures |ExtensionsBytes(ClientExtensions())| == 26
  {
    var es := ClientExtensions();
    assert ExtensionsBytes(es) == ExtensionBytes(es[0]) + ExtensionsBytes(es[1..]);
    assert ExtensionsBytes(es[1..]) == ExtensionBytes(es[1]) + ExtensionsBytes(es[1..][1..]);
    assert es[1..][1..] == es[2..] && es[2..][1..] == es[3..] && es[3..][1..] == [];
    assert ExtensionsBytes(es[2..]) == ExtensionBytes(es[2]) + ExtensionsBytes(es[3..]);
    assert ExtensionsBytes(es[3..]) == ExtensionBytes(es[3]) + ExtensionsBytes([]);
  }

  /** Whether a two-byte value stands at an even position. */
  predicate OffersSuite(suites: Buffer, i: nat, suite: u16)
    decreases |suites| - i
  {
    i + 1 < |suites| && (ReadU16(suites, i) == suite || OffersSuite(suites, i + 2, suite))
  }

  /** The `k`th value from `i` on. */
  predicate StandsAt(suites: Buffer, i: nat, suite: u16, k: nat) {
    i + 2 * k + 1 < |suites| && ReadU16(suites, i + 2 * k) == suite
  }

  lemma {:induction false} OffersSuiteIff(suites: Buffer, i: nat, suite: u16)
    ensures OffersSuite(suites, i, suite) <==> exists k :: StandsAt(suites, i, suite, k)
    decreases |suites| - i
  {
    hide ReadU16;
    if i + 1 < |suites| {
      var j := i + 2;
      OffersSuiteIff(suites, j, suite);
      assert ReadU16(suites, i) == suite ==> StandsAt(suites, i, suite, 0);
      if k: nat :| StandsAt(suites, j, suite, k) {
        assert StandsAt(suites, i, suite, k + 1);
      }
      if k: nat :| StandsAt(suites, i, suite, k) && k > 0 {
        assert StandsAt(suites, j, suite, k - 1);
      }
    }
  }

  /** The types of an optional extension block at `off`. */
  function ExtensionBlock(body: Buffer, off: nat): Option<seq<u16>> {
    if off + 2 > |body| then Some([]) else TypesFrom(body, off + 2, off + 2 + ReadU16(body, off))
  }

  function ReadClientHello(body: Buffer): Option<Hello> {
    if |body| < 35 then None
    else
      var o1 := 35 + body[34] as nat;
      if o1 >= |body| then None
      else
        var o2 := o1 + 1 + body[o1] as nat;
        if o2 + 2 > |body| then None
        else
          var suites, o3 := Slice(body, o2 + 2, o2 + 2 + ReadU16(body, o2)), o2 + 2 + ReadU16(body, o2);
          if o3 >= |body| then None
          else
            match ExtensionBlock(body, o3 + 1 + body[o3] as nat)
            case None => None
            case Some(types) =>
              Some(Hello(Slice(body, 2, 34), Slice(body, o1 + 1, o2),
                         EXTENDED_MASTER_SECRET in types,
                         RENEGOTIATION_INFO in types || OffersSuite(suites, 0, RENEGOTIATION_SCSV)))
  }

  lemma ClientHelloHeadFields(random: Buffer, cookie: Buffer, n: u16)
    requires |random| == 32 && |cookie| <= 0xff
    ensures var h, c := ClientHelloHead(random, cookie, n), |cookie|;
      && |h| == 44 + c && Holds(h, 2, random) && h[34] == 0 && h[35] == c && Holds(h, 36, cookie)
      && Holds(h, 36 + c, U16(2)) && Holds(h, 38 + c, U16(CIPHER_SUITE)) && h[40 + c] == 1 && Holds(h, 42 + c, U16(n))
  {
    hide U16;
    var h, c := ClientHelloHead(random, cookie, n), |cookie|;
    var front := [0xfe, 0xfd] + random + Vec8([]) + Vec8(cookie);
    var back: Buffer := Vec16(U16(CIPHER_SUITE)) + Vec8([0]) + U16(n);
    assert h == front + back;
    assert |front| == 36 + c && Holds(front, 2, random) && front[34] == 0 && front[35] == c && Holds(front, 36, cookie);
    assert Holds(back, 0, U16(2)) && Holds(back, 2, U16(CIPHER_SUITE)) && back[4] == 1 && Holds(back, 6, U16(n));
    HoldsInMiddle(front, back, []);
    assert front + back + [] == h;
    HoldsWithin(h, 36 + c, back, 0, U16(2));
    HoldsWithin(h, 36 + c, back, 2, U16(CIPHER_SUITE));
    HoldsWithin(h, 36 + c, back, 6, U16(n));
  }

  lemma ClientHelloFields(random: Buffer, cookie: Buffer)
    requires |random| == 32 && |cookie| <= 0xff
    ensures var b, c := ClientHelloBody(random, cookie), |cookie|;
      && |b| == 70 + c && Slice(b, 2, 34) == random && b[34] == 0 && b[35] == c && Slice(b, 36, 36 + c) == cookie
      && ReadU16(b, 36 + c) == 2 && Slice(b, 38 + c, 40 + c) == U16(CIPHER_SUITE) && b[40 + c] == 1
      && ReadU16(b, 42 + c) == 26
  {
    ClientExtensionsShort();
    ClientHelloHeadFields(random, cookie, 26);
    hide U16, ReadU16, Slice, ClientHelloHead, ExtensionsBytes;
    var b, h, c := ClientHelloBody(random, cookie), ClientHelloHead(random, cookie, 26), |cookie|;
    assert Holds(b, 0, h);
    HoldsWithin(b, 0, h, 2, random);
    HoldsWithin(b, 0, h, 36, cookie);
    HoldsWithin(b, 0, h, 36 + c, U16(2));
    HoldsWithin(b, 0, h, 38 + c, U16(CIPHER_SUITE));
    HoldsWithin(b, 0, h, 42 + c, U16(26));
    ReadWritten16(b, 36 + c, 2);
    ReadWritten16(b, 42 + c, 26);
    SliceHeld(b, 2, random);
    SliceHeld(b, 36, cookie);
    SliceHeld(b, 38 + c, U16(CIPHER_SUITE));
  }

  lemma ClientHelloRoundTrip(random: Buffer, cookie: Buffer)
    requires |random| == 32 && |cookie| <= 0xff
    ensures ReadClientHello(ClientHelloBody(random, cookie)) == Some(Hello(random, cookie, true, false))
  {
    ClientHelloFields(random, cookie);
    ClientHelloExtensions(random, cookie);
    NoScsv();
    hide U16, ReadU16, Slice, ClientHelloBody, ExtensionBlock, OffersSuite;
    assert ReadClientHello(ClientHelloBody(random, cookie)).Some?;
  }

  lemma NoScsv()
    ensures !OffersSuite(U16(CIPHER_SUITE), 0, RENEGOTIATION_SCSV)
  {
    assert ReadU16(U16(CIPHER_SUITE), 0) == CIPHER_SUITE;
  }

  lemma ClientHelloExtensions(random: Buffer, cookie: Buffer)
    requires |random| == 32 && |cookie| <= 0xff
    ensures var r := ExtensionBlock(ClientHelloBody(random, cookie), 42 + |cookie|);
      r.Some? && EXTENDED_MASTER_SECRET in r.value && RENEGOTIATION_INFO !in r.value
  {
    ClientHelloFields(random, cookie);
    ClientHelloHeadFields(random, cookie, 26);
    BodyIsHead(random, cookie);
    ClientTypes();
    hide U16, ReadU16, Slice, ClientHelloHead, ClientHelloBody, TypesFrom, ClientExtensions, ExtensionsBytes, Types;
    TypesRoundTrip(ClientHelloHead(random, cookie, 26), ClientExtensions());
  }

  lemma BodyIsHead(random: Buffer, cookie: Buffer)
    ensures ClientHelloBody(random, cookie) == ClientHelloHead(random, cookie, 26) + ExtensionsBytes(ClientExtensions())
  {
    ClientExtensionsShort();
  }

  lemma ClientTypes()
    ensures Types(ClientExtensions()) == [SUPPORTED_GROUPS, EC_POINT_FORMATS, SIGNATURE_ALGORITHMS,
        EXTENDED_MASTER_SECRET]
  {
    var es := ClientExtensions();
    assert es[1..][1..] == es[2..] && es[2..][1..] == es[3..] && es[3..][1..] == [];
    assert Types(es[3..]) == [EXTENDED_MASTER_SECRET];
    assert Types(es[2..]) == [SIGNATURE_ALGORITHMS, EXTENDED_MASTER_SECRET];
  }

  // ---- ServerHello ----

  datatype ServerParams = ServerParams(random: Buffer, suite: u16, extendedMasterSecret: bool)

  function ServerExtensions(ems: bool, renegotiation: bool): (es: seq<Extension>)
    ensures forall e | e in es :: ExtensionFits(e)
    ensures |es| <= 3
  {
    (if ems then [Extension(EXTENDED_MASTER_SECRET, [])] else [])
    + [Extension(EC_POINT_FORMATS, Vec8([0]))]
    + (if renegotiation then [Extension(RENEGOTIATION_INFO, Vec8([]))] else [])
  }

  function ServerHelloHead(random: Buffer, extensionsLength: u16): Buffer {
    [0xfe, 0xfd] + random + Vec8([]) + U16(CIPHER_SUITE) + [0] + U16(extensionsLength)
  }

  lemma ServerExtensionsShort(ems: bool, renegotiation: bool)
    ensures |ExtensionsBytes(ServerExtensions(ems, renegotiation))| <= 15
    ensures EXTENDED_MASTER_SECRET in Types(ServerExtensions(ems, renegotiation)) <==> ems
  {
    var es := ServerExtensions(ems, renegotiation);
    assert ExtensionsBytes([]) == [] && Types([]) == [];
    if ems {
      assert es[0] == Extension(EXTENDED_MASTER_SECRET, []);
      assert es[1..] == ServerExtensions(false, renegotiation);
      ServerExtensionsShort(false, renegotiation);
    } else {
      assert es[0] == Extension(EC_POINT_FORMATS, Vec8([0]));
      if renegotiation {
        assert es[1..] == [Extension(RENEGOTIATION_INFO, Vec8([]))];
        assert [Extension(RENEGOTIATION_INFO, Vec8([]))][1..] == [];
      } else {
        assert es[1..] == [];
      }
    }
  }

  function ServerHelloBody(random: Buffer, ems: bool, renegotiation: bool): Buffer {
    var es := ExtensionsBytes(ServerExtensions(ems, renegotiation));
    ServerExtensionsShort(ems, renegotiation);
    ServerHelloHead(random, |es|) + es
  }

  function ReadServerHello(body: Buffer): Option<ServerParams> {
    if |body| < 35 then None
    else
      var o := 35 + body[34] as nat;
      if o + 2 > |body| then None
      else
        match ExtensionBlock(body, o + 3)
        case None => None
        case Some(types) => Some(ServerParams(Slice(body, 2, 34), ReadU16(body, o), EXTENDED_MASTER_SECRET in types))
  }

  lemma ServerHelloHeadFields(random: Buffer, n: u16)
    requires |random| == 32
    ensures var h := ServerHelloHead(random, n);
      |h| == 40 && Holds(h, 2, random) && h[34] == 0 && Holds(h, 35, U16(CIPHER_SUITE)) && Holds(h, 38, U16(n))
  {
    hide U16;
  }

  lemma ServerHelloRoundTrip(random: Buffer, ems: bool, renegotiation: bool)
    requires |random| == 32
    ensures ReadServerHello(ServerHelloBody(random, ems, renegotiation))
        == Some(ServerParams(random, CIPHER_SUITE, ems))
  {
    ServerExtensionsShort(ems, renegotiation);
    hide U16, ReadU16, Slice, TypesFrom, ServerExtensions, ExtensionsBytes, Types;
    var es := ServerExtensions(ems, renegotiation);
    var h, b := ServerHelloHead(random, |ExtensionsBytes(es)|), ServerHelloBody(random, ems, renegotiation);
    ServerHelloHeadFields(random, |ExtensionsBytes(es)|);
    hide ServerHelloHead;
    assert b == h + ExtensionsBytes(es);
    assert Holds(b, 0, h);
    HoldsWithin(b, 0, h, 2, random);
    HoldsWithin(b, 0, h, 35, U16(CIPHER_SUITE));
    HoldsWithin(b, 0, h, 38, U16(|ExtensionsBytes(es)|));
    SliceHeld(b, 2, random);
    ReadWritten16(b, 35, CIPHER_SUITE);
    ReadWritten16(b, 38, |ExtensionsBytes(es)|);
    TypesRoundTrip(h, es);
  }

  // ---- Certificate ----

  function CertificateBody(der: Buffer): Buffer { Vec24(Vec24(der)) }

  /** None is an empty list. */
  function ReadCertificate(body: Buffer): Option<Buffer> {
    if 6 > 3 + DtlsWire.ReadUint24(body, 0) as nat then None
    else Some(Slice(body, 6, 6 + DtlsWire.ReadUint24(body, 3)))
  }

  lemma CertificateRoundTrip(der: Buffer)
    requires |der| <= 0xff_ffff - 3
    ensures ReadCertificate(CertificateBody(der)) == Some(der)
  {
    hide U24;
    var b := CertificateBody(der);
    assert Holds(b, 0, U24(3 + |der|)) && Holds(b, 3, U24(|der|)) && Holds(b, 6, der);
    ReadWritten24(b, 0, 3 + |der|);
    ReadWritten24(b, 3, |der|);
    SliceHeld(b, 6, der);
  }

  // ---- ServerKeyExchange ----

  function EcdhParams(pub: Buffer): Buffer { [3] + U16(SECP256R1) + Vec8(pub) }

  function KeyExchangeBody(pub: Buffer, signature: Buffer): Buffer
    requires |signature| <= 0xffff
  {
    EcdhParams(pub) + [4, 3] + Vec16(signature)
  }

  /** The public point, the bytes that were signed, and the signature. */
  datatype KeyExchange = KeyExchange(pub: Buffer, params: Buffer, signature: Buffer)

  /** None also stands for the error of an unsupported curve. */
  function ReadKeyExchange(body: Buffer): Option<KeyExchange> {
    if |body| < 4 || body[0] != 3 || ReadU16(body, 1) != SECP256R1 then None
    else
      var o := 4 + body[3] as nat;
      if o + 4 > |body| then None
      else Some(KeyExchange(Slice(body, 4, o), Slice(body, 0, o), Slice(body, o + 4, o + 4 + ReadU16(body, o + 2))))
  }

  lemma EcdhParamsFields(pub: Buffer)
    requires |pub| <= 0xff
    ensures var params := EcdhParams(pub);
      |params| == 4 + |pub| && params[0] == 3 && Holds(params, 1, U16(SECP256R1)) && params[3] == |pub|
          && Holds(params, 4, pub)
  {}

  lemma KeyExchangeFields(pub: Buffer, signature: Buffer)
    requires |pub| <= 0xff && |signature| <= 0xffff
    ensures var b, n := KeyExchangeBody(pub, signature), 4 + |pub|;
      Holds(b, 0, EcdhParams(pub)) && Holds(b, n + 2, U16(|signature|)) && Holds(b, n + 4, signature)
  {
    EcdhParamsFields(pub);
    hide U16, EcdhParams;
  }

  lemma KeyExchangeRoundTrip(pub: Buffer, signature: Buffer)
    requires |pub| <= 0xff && |signature| <= 0xffff
    ensures ReadKeyExchange(KeyExchangeBody(pub, signature)) == Some(KeyExchange(pub, EcdhParams(pub), signature))
  {
    var b, params, n := KeyExchangeBody(pub, signature), EcdhParams(pub), 4 + |pub|;
    EcdhParamsFields(pub);
    KeyExchangeFields(pub, signature);
    assert b[0 + 0] == params[0] && b[0 + 3] == params[3];
    hide U16, ReadU16, EcdhParams, Slice, KeyExchangeBody, Holds;
    HoldsWithin(b, 0, params, 1, U16(SECP256R1));
    HoldsWithin(b, 0, params, 4, pub);
    ReadWritten16(b, 1, SECP256R1);
    ReadWritten16(b, n + 2, |signature|);
    SliceHeld(b, 0, params);
    SliceHeld(b, 4, pub);
    SliceHeld(b, n + 4, signature);
  }

  // ---- CertificateRequest, ClientKeyExchange, CertificateVerify ----

  function RequestBody(): Buffer { Vec8([64, 1]) + Vec16([4, 3]) + Vec16([]) }

  function ClientKeyBody(pub: Buffer): Buffer { Vec8(pub) }

  function ReadClientKey(body: Buffer): Option<Buffer> {
    if |body| == 0 then None else Some(Slice(body, 1, 1 + body[0] as nat))
  }

  lemma ClientKeyRoundTrip(pub: Buffer)
    requires |pub| <= 0xff
    ensures ReadClientKey(ClientKeyBody(pub)) == Some(pub)
  {
    SliceHeld(ClientKeyBody(pub), 1, pub);
  }

  function VerifyBody(signature: Buffer): Buffer
    requires |signature| <= 0xffff
  {
    [4, 3] + Vec16(signature)
  }

  function ReadVerify(body: Buffer): Option<Buffer> {
    if |body| < 4 then None else Some(Slice(body, 4, 4 + ReadU16(body, 2)))
  }

  lemma VerifyRoundTrip(signature: Buffer)
    requires |signature| <= 0xffff
    ensures ReadVerify(VerifyBody(signature)) == Some(signature)
  {
    var b := VerifyBody(signature);
    assert Holds(b, 2, U16(|signature|)) && Holds(b, 4, signature);
    ReadWritten16(b, 2, |signature|);
    SliceHeld(b, 4, signature);
  }
}
