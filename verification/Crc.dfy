/**
 * The reflected CRC-32 of src/sctp/crc32c.ts (and, with another polynomial, of
 * src/ice/stun-message.ts): the table-driven byte loop against the bit-serial shift
 * register, and what the SCTP checksum detects.
 */
module Crc {
  import opened Bytes

  /** An unsigned machine word as its bits, least significant first. */
  type Bits = seq<bool>
  type Word = w: Bits | |w| == 32 witness ToBits(0, 32)

  function ToBits(v: nat, n: nat): (w: Bits)
    ensures |w| == n
  {
    if n == 0 then [] else [v % 2 == 1] + ToBits(v / 2, n - 1)
  }

  function Value(w: Bits): (v: nat)
    ensures v < Pow2(|w|)
  {
    if w == [] then 0 else (if w[0] then 1 else 0) + 2 * Value(w[1..])
  }

  function Pow2(n: nat): (p: nat)
    ensures p > 0
  {
    if n == 0 then 1 else 2 * Pow2(n - 1)
  }

  lemma {:induction false} ValueOfBits(v: nat, n: nat)
    requires v < Pow2(n)
    ensures Value(ToBits(v, n)) == v
  {
    if n > 0 {
      ValueOfBits(v / 2, n - 1);
      assert ToBits(v, n)[1..] == ToBits(v / 2, n - 1);
    }
  }

  lemma {:induction false} BitsOfValue(w: Bits)
    ensures ToBits(Value(w), |w|) == w
  {
    if w != [] {
      BitsOfValue(w[1..]);
    }
  }

  lemma {:induction false} TopBit(v: nat, n: nat)
    requires 0 < n && Pow2(n - 1) <= v < Pow2(n)
    ensures ToBits(v, n)[n - 1]
  {
    if n > 1 {
      TopBit(v / 2, n - 1);
    }
  }

  function Xor(a: Word, b: Word): Word { seq(32, i requires 0 <= i < 32 => a[i] != b[i]) }

  /** `a >>> k`. */
  function Shr(a: Word, k: nat): Word {
    seq(32, i requires 0 <= i < 32 => i + k < 32 && a[i + k])
  }

  lemma PowersOfTwo()
    ensures Pow2(8) == 0x100 && Pow2(31) == 0x8000_0000 && Pow2(32) == 0x1_0000_0000
  {
    assert Pow2(12) == 0x1000;
    assert Pow2(16) == 0x1_0000;
    assert Pow2(20) == 0x10_0000;
    assert Pow2(24) == 0x100_0000;
    assert Pow2(28) == 0x1000_0000;
  }

  function WordValue(w: Word): u32 {
    PowersOfTwo();
    Value(w)
  }

  function Fill(bit: bool): Word { seq(32, _ => bit) }

  const ZERO: Word := Fill(false)
  const ONES: Word := Fill(true)
  const CASTAGNOLI: Word := ToBits(0x82f6_3b78, 32)
  const IEEE: Word := ToBits(0xedb8_8320, 32)

  /** Both polynomials in use have their top bit set, which makes a register step reversible. */
  lemma PolynomialsAreReversible()
    ensures CASTAGNOLI[31] && IEEE[31]
  {
    hide ToBits, Pow2;
    PowersOfTwo();
    TopBit(0x82f6_3b78, 32);
    TopBit(0xedb8_8320, 32);
  }

  // ---- Reference: the shift register of the CRC's definition, one message bit at a time ----

  /** `c & 1 ? poly ^ (c >>> 1) : c >>> 1`. */
  function Step(poly: Word, c: Word): Word {
    if c[0] then Xor(poly, Shr(c, 1)) else Shr(c, 1)
  }

  function ShiftIn(poly: Word, c: Word, bit: bool): Word {
    Step(poly, c[0 := c[0] != bit])
  }

  function Register(poly: Word, c: Word, message: Bits): Word {
    if message == [] then c
    else ShiftIn(poly, Register(poly, c, message[..|message| - 1]), message[|message| - 1])
  }

  function MessageBits(s: Buffer): (m: Bits)
    ensures |m| == 8 * |s|
  {
    if s == [] then [] else MessageBits(s[..|s| - 1]) + ToBits(s[|s| - 1], 8)
  }

  /** The CRC of `s`: all-ones preset, complemented at the end. */
  function Checksum(poly: Word, s: Buffer): u32 {
    WordValue(Xor(Register(poly, ONES, MessageBits(s)), ONES))
  }

  lemma {:induction false} RegisterAppend(poly: Word, c: Word, a: Bits, b: Bits)
    ensures Register(poly, c, a + b) == Register(poly, Register(poly, c, a), b)
  {
    if b == [] {
      assert a + b == a;
    } else {
      RegisterAppend(poly, c, a, b[..|b| - 1]);
      assert (a + b)[..|a + b| - 1] == a + b[..|b| - 1];
    }
  }

  // ---- Register steps without input ----

  function Steps(poly: Word, c: Word, k: nat): Word {
    if k == 0 then c else Step(poly, Steps(poly, c, k - 1))
  }

  lemma StepIsLinear(poly: Word, a: Word, b: Word)
    ensures Step(poly, Xor(a, b)) == Xor(Step(poly, a), Step(poly, b))
  {}

  lemma StepIsInjective(poly: Word, a: Word, b: Word)
    requires poly[31] && Step(poly, a) == Step(poly, b)
    ensures a == b
  {
    var ra, rb := Step(poly, a), Step(poly, b);
    assert ra[31] == a[0] && rb[31] == b[0];
    forall i | 0 <= i < 32 ensures a[i] == b[i] {
      if i > 0 {
        assert ra[i - 1] == (a[i] != (a[0] && poly[i - 1]));
        assert rb[i - 1] == (b[i] != (b[0] && poly[i - 1]));
      }
    }
  }

  lemma {:induction false} StepsIsInjective(poly: Word, a: Word, b: Word, k: nat)
    requires poly[31] && Steps(poly, a, k) == Steps(poly, b, k)
    ensures a == b
  {
    if k > 0 {
      StepIsInjective(poly, Steps(poly, a, k - 1), Steps(poly, b, k - 1));
      StepsIsInjective(poly, a, b, k - 1);
    }
  }

  /**
   * Feeding up to 32 message bits is the same as combining them with the register up front and
   * then stepping; bits not yet due are still visible, shifted.
   */
  lemma {:induction false} FeedUpFront(poly: Word, c: Word, m: Word, k: nat)
    requires k <= 32
    ensures Steps(poly, Xor(c, m), k) == Xor(Register(poly, c, m[..k]), Shr(m, k))
  {
    if k == 0 {
      assert Shr(m, 0) == m;
      assert m[..0] == [];
    } else {
      FeedUpFront(poly, c, m, k - 1);
      assert m[..k][..k - 1] == m[..k - 1];
      var r := Register(poly, c, m[..k - 1]);
      var rest := Shr(m, k - 1);
      var due := r[0 := r[0] != m[k - 1]];
      var later := rest[0 := false];
      assert Xor(r, rest) == Xor(due, later);
      StepIsLinear(poly, due, later);
      assert Step(poly, later) == Shr(m, k);
    }
  }

  lemma XorCancels(r: Word, a: Word, b: Word)
    requires Xor(r, a) == Xor(r, b)
    ensures a == b
  {
    var x, y := Xor(r, a), Xor(r, b);
    assert forall i | 0 <= i < 32 :: x[i] == (r[i] != a[i]) && y[i] == (r[i] != b[i]);
  }

  lemma ShiftInIsInjective(poly: Word, a: Word, b: Word, bit: bool)
    requires poly[31] && ShiftIn(poly, a, bit) == ShiftIn(poly, b, bit)
    ensures a == b
  {
    var fa, fb := a[0 := a[0] != bit], b[0 := b[0] != bit];
    StepIsInjective(poly, fa, fb);
    assert forall i | 0 <= i < 32 :: a[i] == if i == 0 then fa[0] != bit else fa[i];
    assert forall i | 0 <= i < 32 :: b[i] == if i == 0 then fb[0] != bit else fb[i];
  }

  /** Any two messages that differ only inside 32 consecutive bits leave different registers. */
  lemma BurstChangesRegister(poly: Word, c: Word, before: Bits, x: Bits, y: Bits, after: Bits)
    requires poly[31]
    requires |x| == |y| <= 32 && x != y
    ensures Register(poly, c, before + x + after) != Register(poly, c, before + y + after)
  {
    var r := Register(poly, c, before);
    var pad := seq(32 - |x|, _ => false);
    var mx: Word, my: Word := x + pad, y + pad;
    var k := |x|;
    assert mx[..k] == x && my[..k] == y;
    FeedUpFront(poly, r, mx, k);
    FeedUpFront(poly, r, my, k);
    assert Shr(mx, k) == ZERO && Shr(my, k) == ZERO;
    var rx, ry := Register(poly, r, x), Register(poly, r, y);
    assert Xor(rx, ZERO) == rx && Xor(ry, ZERO) == ry;
    if rx == ry {
      StepsIsInjective(poly, Xor(r, mx), Xor(r, my), k);
      XorCancels(r, mx, my);
    }
    SameTailIsInjective(poly, rx, ry, after);
    RegisterAppend(poly, c, before, x);
    RegisterAppend(poly, c, before, y);
    RegisterAppend(poly, c, before + x, after);
    RegisterAppend(poly, c, before + y, after);
  }

  lemma {:induction false} SameTailIsInjective(poly: Word, a: Word, b: Word, tail: Bits)
    requires poly[31] && a != b
    ensures Register(poly, a, tail) != Register(poly, b, tail)
  {
    if tail != [] {
      var n, bit := |tail| - 1, tail[|tail| - 1];
      SameTailIsInjective(poly, a, b, tail[..n]);
      var ra, rb := Register(poly, a, tail[..n]), Register(poly, b, tail[..n]);
      if ShiftIn(poly, ra, bit) == ShiftIn(poly, rb, bit) {
        ShiftInIsInjective(poly, ra, rb, bit);
      }
    }
  }

  // ---- The table-driven byte loop computes that register ----

  function TableEntry(poly: Word, n: byte): Word { Steps(poly, ToBits(n, 32), 8) }

  lemma {:induction false} ToBitsPrefix(v: nat, n: nat, k: nat)
    requires k <= n
    ensures ToBits(v, n)[..k] == ToBits(v, k)
    ensures v < Pow2(k) ==> forall i | k <= i < n :: !ToBits(v, n)[i]
  {
    if k > 0 {
      ToBitsPrefix(v / 2, n - 1, k - 1);
    } else if n > 0 {
      ToBitsPrefix(v / 2, n - 1, 0);
    }
  }

  lemma {:induction false} StepsIsLinear(poly: Word, a: Word, b: Word, k: nat)
    ensures Steps(poly, Xor(a, b), k) == Xor(Steps(poly, a, k), Steps(poly, b, k))
  {
    if k > 0 {
      StepsIsLinear(poly, a, b, k - 1);
      StepIsLinear(poly, Steps(poly, a, k - 1), Steps(poly, b, k - 1));
    }
  }

  lemma {:induction false} StepsOverZeros(poly: Word, c: Word, k: nat)
    requires k <= 32 && forall i | 0 <= i < k :: !c[i]
    ensures Steps(poly, c, k) == Shr(c, k)
  {
    if k > 0 {
      StepsOverZeros(poly, c, k - 1);
    } else {
      assert Shr(c, 0) == c;
    }
  }

  /** The table index `(crc ^ b) & 0xff`. */
  function TableIndex(c: Word, b: byte): byte {
    PowersOfTwo();
    Value(Xor(c, ToBits(b, 32))[..8])
  }

  lemma TableStep(poly: Word, c: Word, b: byte)
    ensures Register(poly, c, ToBits(b, 8)) == Xor(TableEntry(poly, TableIndex(c, b)), Shr(c, 8))
  {
    PowersOfTwo();
    var m := ToBits(b, 32);
    ToBitsPrefix(b, 32, 8);
    FeedUpFront(poly, c, m, 8);
    assert Shr(m, 8) == ZERO;
    var fed := Register(poly, c, m[..8]);
    assert Xor(fed, ZERO) == fed;

    StepsSplit(poly, Xor(c, m));
    assert Shr(Xor(c, m), 8) == Shr(c, 8);
  }

  /** Eight steps depend on the low byte through the table, and shift the rest down. */
  lemma StepsSplit(poly: Word, x: Word)
    ensures Value(x[..8]) < 0x100
    ensures Steps(poly, x, 8) == Xor(TableEntry(poly, Value(x[..8])), Shr(x, 8))
  {
    PowersOfTwo();
    var low: Word, high: Word := x[..8] + ZERO[8..], ZERO[..8] + x[8..];
    assert Xor(low, high) == x;
    StepsIsLinear(poly, low, high, 8);
    StepsOverZeros(poly, high, 8);
    assert Shr(high, 8) == Shr(x, 8);
    BitsOfValue(x[..8]);
    ToBitsPrefix(Value(x[..8]), 32, 8);
    assert ToBits(Value(x[..8]), 32) == low;
  }

  ghost predicate IsTable(poly: Word, t: array<Word>)
    reads t
  {
    t.Length == 256 && forall n: byte :: t[n] == TableEntry(poly, n)
  }

  method BuildTable(poly: Word) returns (t: array<Word>)
    ensures fresh(t) && IsTable(poly, t)
  {
    t := new Word[256](_ => ZERO);
    for n := 0 to 256
      invariant forall j: byte | j < n :: t[j] == TableEntry(poly, j)
    {
      var c: Word := ToBits(n, 32);
      for k := 0 to 8
        invariant c == Steps(poly, ToBits(n, 32), k)
      {
        c := if c[0] then Xor(poly, Shr(c, 1)) else Shr(c, 1);
      }
      t[n] := c;
    }
  }

  method ComputeChecksum(poly: Word, t: array<Word>, buf: array<byte>) returns (r: u32)
    requires IsTable(poly, t)
    ensures r == Checksum(poly, buf[..])
  {
    var crc := ONES;
    for i := 0 to buf.Length
      invariant crc == Register(poly, ONES, MessageBits(buf[..i]))
    {
      ghost var before := MessageBits(buf[..i]);
      assert buf[..i + 1][..i] == buf[..i];
      TableStep(poly, crc, buf[i]);
      RegisterAppend(poly, ONES, before, ToBits(buf[i], 8));
      crc := Xor(t[TableIndex(crc, buf[i])], Shr(crc, 8));
    }
    assert buf[..] == buf[..buf.Length];
    r := WordValue(Xor(crc, ONES));
  }

  // ---- The SCTP packet checksum (section 6.8 of RFC 4960) ----

  function U32LE(v: u32): (b: Buffer)
    ensures |b| == 4
  {
    var low, high := v % 0x1_0000, v / 0x1_0000;
    [low % 0x100, low / 0x100, high % 0x100, high / 0x100]
  }

  function ReadU32LE(b: Buffer, off: nat): u32
    requires off + 4 <= |b|
  {
    b[off] as int + b[off + 1] as int * 0x100 + (b[off + 2] as int + b[off + 3] as int * 0x100) * 0x1_0000
  }

  lemma ReadWrittenLE(b: Buffer, off: nat, v: u32)
    requires off + 4 <= |b|
    ensures b[off..off + 4] == U32LE(v) <==> ReadU32LE(b, off) == v
  {
    var s, t := b[off..off + 4], U32LE(v);
    assert b[off] == s[0] && b[off + 1] == s[1] && b[off + 2] == s[2] && b[off + 3] == s[3];
    var low, high := v % 0x1_0000, v / 0x1_0000;
    var low', high' := b[off] as int + b[off + 1] as int * 0x100, b[off + 2] as int + b[off + 3] as int * 0x100;
    if s == t {
      assert low' == low && high' == high;
    }
    if ReadU32LE(b, off) == v {
      assert low' == low && high' == high;
      assert s[0] == t[0] && s[1] == t[1] && s[2] == t[2] && s[3] == t[3];
    }
  }

  /** The packet with its checksum field overwritten. */
  function WithField(p: Buffer, v: u32): (q: Buffer)
    requires |p| >= 12
    ensures |q| == |p|
  {
    p[..8] + U32LE(v) + p[12..]
  }

  function Checksummed(p: Buffer): (q: Buffer)
    requires |p| >= 12
    ensures |q| == |p|
  {
    WithField(p, Checksum(CASTAGNOLI, WithField(p, 0)))
  }

  predicate Accepts(p: Buffer)
    requires |p| >= 12
  {
    Checksum(CASTAGNOLI, WithField(p, 0)) == ReadU32LE(p, 8)
  }

  method WriteU32LE(packet: array<byte>, v: u32)
    requires packet.Length >= 12
    modifies packet
    ensures packet[..] == WithField(old(packet[..]), v)
  {
    var field := U32LE(v);
    packet[8], packet[9], packet[10], packet[11] := field[0], field[1], field[2], field[3];
  }

  method ApplyChecksum(t: array<Word>, packet: array<byte>)
    requires IsTable(CASTAGNOLI, t) && packet.Length >= 12
    modifies packet
    ensures packet[..] == Checksummed(old(packet[..]))
  {
    hide WithField, Checksum, IsTable;
    WriteU32LE(packet, 0);
    var crc := ComputeChecksum(CASTAGNOLI, t, packet);
    FieldOverwritten(old(packet[..]), 0, crc);
    WriteU32LE(packet, crc);
  }

  lemma FieldOverwritten(p: Buffer, v: u32, w: u32)
    requires |p| >= 12
    ensures WithField(WithField(p, v), w) == WithField(p, w)
  {
    hide U32LE;
  }

  /** Zeroes the field, recomputes, and puts the field back. */
  method VerifyChecksum(t: array<Word>, packet: array<byte>) returns (ok: bool)
    requires IsTable(CASTAGNOLI, t) && packet.Length >= 12
    modifies packet
    ensures packet[..] == old(packet[..])
    ensures ok == Accepts(packet[..])
  {
    hide WithField, Checksum, IsTable, ReadU32LE;
    var original := ReadU32LE(packet[..], 8);
    WriteU32LE(packet, 0);
    var crc := ComputeChecksum(CASTAGNOLI, t, packet);
    WriteU32LE(packet, original);
    FieldOverwritten(old(packet[..]), 0, original);
    FieldRestored(old(packet[..]));
    ok := crc == original;
  }

  lemma FieldRestored(p: Buffer)
    requires |p| >= 12
    ensures WithField(WithField(p, 0), ReadU32LE(p, 8)) == p
  {
    ReadWrittenLE(p, 8, ReadU32LE(p, 8));
  }

  lemma AcceptsOwnChecksum(p: Buffer)
    requires |p| >= 12
    ensures Accepts(Checksummed(p))
    ensures Checksummed(p)[..8] == p[..8] && Checksummed(p)[12..] == p[12..]
  {
    hide Checksum, ReadU32LE, U32LE;
    var q := Checksummed(p);
    assert WithField(q, 0) == WithField(p, 0);
    ReadWrittenLE(q, 8, Checksum(CASTAGNOLI, WithField(p, 0)));
  }

  lemma {:induction false} MessageBitsAppend(a: Buffer, b: Buffer)
    ensures MessageBits(a + b) == MessageBits(a) + MessageBits(b)
  {
    if b == [] {
      assert a + b == a;
    } else {
      MessageBitsAppend(a, b[..|b| - 1]);
      assert (a + b)[..|a + b| - 1] == a + b[..|b| - 1];
    }
  }

  lemma {:induction false} MessageBitsInjective(a: Buffer, b: Buffer)
    requires |a| == |b| && MessageBits(a) == MessageBits(b)
    ensures a == b
  {
    if a != [] {
      var n := |a| - 1;
      assert MessageBits(a)[..8 * n] == MessageBits(a[..n]) && MessageBits(b)[..8 * n] == MessageBits(b[..n]);
      assert MessageBits(a)[8 * n..] == ToBits(a[n], 8) && MessageBits(b)[8 * n..] == ToBits(b[n], 8);
      MessageBitsInjective(a[..n], b[..n]);
      PowersOfTwo();
      ValueOfBits(a[n], 8);
      ValueOfBits(b[n], 8);
      assert a == a[..n] + [a[n]] && b == b[..n] + [b[n]];
    }
  }

  /** Up to four consecutive bytes changed: the CRC changes. */
  lemma BurstChangesChecksum(poly: Word, before: Buffer, x: Buffer, y: Buffer, after: Buffer)
    requires poly[31] && |x| == |y| <= 4 && x != y
    ensures Checksum(poly, before + x + after) != Checksum(poly, before + y + after)
  {
    var p, q := before + x + after, before + y + after;
    MessageBitsAppend(before, x);
    MessageBitsAppend(before, y);
    MessageBitsAppend(before + x, after);
    MessageBitsAppend(before + y, after);
    if MessageBits(x) == MessageBits(y) {
      MessageBitsInjective(x, y);
    }
    BurstChangesRegister(poly, ONES, MessageBits(before), MessageBits(x), MessageBits(y), MessageBits(after));
    var rp, rq := Register(poly, ONES, MessageBits(p)), Register(poly, ONES, MessageBits(q));
    if Checksum(poly, p) == Checksum(poly, q) {
      BitsOfValue(Xor(rp, ONES));
      BitsOfValue(Xor(rq, ONES));
      assert Xor(ONES, rp) == Xor(rp, ONES) && Xor(ONES, rq) == Xor(rq, ONES);
      XorCancels(ONES, rp, rq);
    }
  }

  lemma SplitOutsideField(p: Buffer, at: nat, width: nat)
    requires |p| >= 12 && at + width <= |p| && (at + width <= 8 || 12 <= at)
    ensures var p0 := WithField(p, 0); p0 == p0[..at] + p[at..at + width] + p0[at + width..]
  {
    hide U32LE;
    var p0 := WithField(p, 0);
    forall i | at <= i < at + width ensures p0[i] == p[i] {}
    assert p0[at..at + width] == p[at..at + width];
    assert p0 == p0[..at] + p0[at..at + width] + p0[at + width..];
  }

  lemma SameOutside(p: Buffer, q: Buffer, at: nat, width: nat)
    requires |p| == |q| >= 12
    requires at + width <= |p| && (at + width <= 8 || 12 <= at)
    requires p[..at] == q[..at] && p[at + width..] == q[at + width..]
    ensures WithField(p, 0)[..at] == WithField(q, 0)[..at]
    ensures WithField(p, 0)[at + width..] == WithField(q, 0)[at + width..]
    ensures ReadU32LE(p, 8) == ReadU32LE(q, 8)
  {
    assert forall i | 0 <= i < |p| && !(at <= i < at + width) :: p[i] == q[i] by {
      assert forall i | 0 <= i < at :: p[i] == p[..at][i] && q[i] == q[..at][i];
      assert forall i | at + width <= i < |p| ::
        p[i] == p[at + width..][i - at - width] && q[i] == q[at + width..][i - at - width];
    }
    assert p[8] == q[8] && p[9] == q[9] && p[10] == q[10] && p[11] == q[11];
  }

  /** A checksummed packet, of any length, whose checksum field alone is altered is rejected. */
  lemma RejectsForgedField(p: Buffer, q: Buffer)
    requires |p| == |q| >= 12 && Accepts(p) && p != q
    requires p[..8] == q[..8] && p[12..] == q[12..]
    ensures !Accepts(q)
  {
    assert WithField(p, 0) == WithField(q, 0);
    FieldRestored(p);
    FieldRestored(q);
  }

  /** So is one with up to four consecutive bytes altered anywhere outside the field. */
  lemma RejectsBurstInData(p: Buffer, q: Buffer, at: nat, width: nat)
    requires |p| == |q| >= 12 && Accepts(p) && p != q
    requires width <= 4 && at + width <= |p| && (at + width <= 8 || 12 <= at)
    requires p[..at] == q[..at] && p[at + width..] == q[at + width..]
    ensures !Accepts(q)
  {
    hide WithField, ReadU32LE, Checksum;
    var x, y := p[at..at + width], q[at..at + width];
    assert p == p[..at] + x + p[at + width..] && q == q[..at] + y + q[at + width..];
    SplitOutsideField(p, at, width);
    SplitOutsideField(q, at, width);
    SameOutside(p, q, at, width);
    PolynomialsAreReversible();
    BurstChangesChecksum(CASTAGNOLI, WithField(p, 0)[..at], x, y, WithField(p, 0)[at + width..]);
  }

  /** In particular no single altered byte goes unnoticed, wherever it lies. */
  lemma RejectsChangedByte(p: Buffer, i: nat, v: byte)
    requires |p| >= 12 && Accepts(p)
    requires i < |p| && p[i] != v
    ensures !Accepts(p[i := v])
  {
    if 8 <= i < 12 {
      RejectsForgedField(p, p[i := v]);
    } else {
      RejectsBurstInData(p, p[i := v], i, 1);
    }
  }

  // ---- Known values ----

  function Complement(w: Bits): (r: Bits)
    ensures |r| == |w|
  {
    seq(|w|, i requires 0 <= i < |w| => !w[i])
  }

  lemma {:induction false} ValueOfComplement(w: Bits)
    ensures Value(w) + Value(Complement(w)) == Pow2(|w|) - 1
  {
    if w != [] {
      ValueOfComplement(w[1..]);
      assert Complement(w)[1..] == Complement(w[1..]);
    }
  }

  lemma FullBytes()
    ensures ToBits(0xff, 8) == [true, true, true, true, true, true, true, true]
    ensures ToBits(0x7f, 8) == [true, true, true, true, true, true, true, false]
  {}

  lemma OneMoreByte(s: Buffer, b: byte)
    ensures MessageBits(s + [b]) == MessageBits(s) + ToBits(b, 8)
  {
    hide ToBits;
    assert (s + [b])[..|s|] == s;
  }

  /** The bits of these four bytes: all ones but for the last, and with it. */
  lemma FourBytes()
    ensures MessageBits([0xff, 0xff, 0xff, 0x7f]) == ONES[31 := false]
    ensures MessageBits([0xff, 0xff, 0xff, 0xff]) == ONES
  {
    hide ToBits, MessageBits;
    FullBytes();
    NoBits();
    OneMoreByte([], 0xff);
    OneMoreByte([0xff], 0xff);
    OneMoreByte([0xff, 0xff], 0xff);
    assert [] + [0xff] == [0xff] && [0xff] + [0xff] == [0xff, 0xff] && [0xff, 0xff] + [0xff] == [0xff, 0xff, 0xff];
    OneMoreByte([0xff, 0xff, 0xff], 0x7f);
    OneMoreByte([0xff, 0xff, 0xff], 0xff);
    assert [0xff, 0xff, 0xff] + [0x7f] == [0xff, 0xff, 0xff, 0x7f];
    assert [0xff, 0xff, 0xff] + [0xff] == [0xff, 0xff, 0xff, 0xff];
  }

  lemma NoBits()
    ensures MessageBits([]) == []
  {}

  /** Presetting to ones leaves a single one for the register to carry through, which comes out as the polynomial. */
  lemma RegisterOfFour(poly: Word)
    ensures Register(poly, ONES, ONES) == ZERO
    ensures Register(poly, ONES, ONES[31 := false]) == poly
  {
    var top := ZERO[31 := true];
    assert ONES[..32] == ONES && ONES[31 := false][..32] == ONES[31 := false];
    FeedUpFront(poly, ONES, ONES, 32);
    FeedUpFront(poly, ONES, ONES[31 := false], 32);
    assert Xor(ONES, ONES) == ZERO && Xor(ONES, ONES[31 := false]) == top;
    StepsOverZeros(poly, ZERO, 32);
    StepsOverZeros(poly, top, 31);
    assert Shr(top, 31) == ZERO[0 := true] && Shr(ZERO[0 := true], 1) == ZERO && Shr(ZERO, 32) == ZERO;
    assert Xor(poly, ZERO) == poly;
    assert Shr(ONES, 32) == ZERO && Shr(ONES[31 := false], 32) == ZERO;
    var r, q := Register(poly, ONES, ONES), Register(poly, ONES, ONES[31 := false]);
    assert Xor(r, ZERO) == r && Xor(q, ZERO) == q;
  }

  /** Values of the CRC-32C of appendix B of RFC 4960, and of the CRC-32 of section 15.5 of RFC 5389. */
  lemma KnownChecksums()
    ensures Checksum(CASTAGNOLI, []) == 0 && Checksum(IEEE, []) == 0
    ensures Checksum(CASTAGNOLI, [0xff, 0xff, 0xff, 0xff]) == 0xffff_ffff
    ensures Checksum(IEEE, [0xff, 0xff, 0xff, 0xff]) == 0xffff_ffff
    ensures Checksum(CASTAGNOLI, [0xff, 0xff, 0xff, 0x7f]) == 0x7d09_c487
    ensures Checksum(IEEE, [0xff, 0xff, 0xff, 0x7f]) == 0x1247_7cdf
  {
    hide ToBits, Value, Register, Pow2, MessageBits, Fill;
    PowersOfTwo();
    FourBytes();
    RegisterOfFour(CASTAGNOLI);
    RegisterOfFour(IEEE);
    NoMessage(CASTAGNOLI);
    NoMessage(IEEE);
    ValueOfBits(0x82f6_3b78, 32);
    ValueOfBits(0xedb8_8320, 32);
    Inverted(CASTAGNOLI);
    Inverted(IEEE);
    Inverted(ZERO);
    ValueOfZero();
  }

  lemma NoMessage(poly: Word)
    ensures Checksum(poly, []) == 0
  {
    assert MessageBits([]) == [] && Register(poly, ONES, []) == ONES;
    assert Xor(ONES, ONES) == ZERO;
    ValueOfZero();
  }

  lemma ValueOfZero()
    ensures Value(ZERO) == 0
  {
    AllFalse(ZERO);
  }

  lemma {:induction false} AllFalse(w: Bits)
    requires forall i | 0 <= i < |w| :: !w[i]
    ensures Value(w) == 0
  {
    if w != [] {
      AllFalse(w[1..]);
    }
  }

  lemma Inverted(w: Word)
    ensures Value(Xor(w, ONES)) == 0xffff_ffff - Value(w)
  {
    PowersOfTwo();
    ValueOfComplement(w);
    assert Xor(w, ONES) == Complement(w);
  }
}
