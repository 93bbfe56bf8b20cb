/** Fixed-width integers and the big-endian reads and writes of a Node Buffer. */
module Bytes {

  type byte = x: int | 0 <= x < 0x100
  type u16 = x: int | 0 <= x < 0x1_0000
  type u24 = x: int | 0 <= x < 0x100_0000
  type u32 = x: int | 0 <= x < 0x1_0000_0000
  type u48 = x: int | 0 <= x < 0x1_0000_0000_0000

  type Buffer = seq<byte>

  datatype Option<+T> = None | Some(value: T)

  /** `Buffer.alloc(n)`. */
  function Zeros(n: nat): (b: Buffer)
    ensures |b| == n
  {
    seq(n, _ => 0)
  }

  function U16(v: u16): (b: Buffer)
    ensures |b| == 2
  {
    [v / 0x100, v % 0x100]
  }

  function U24(v: u24): (b: Buffer)
    ensures |b| == 3
  {
    [v / 0x1_0000, v / 0x100 % 0x100, v % 0x100]
  }

  function U32(v: u32): (b: Buffer)
    ensures |b| == 4
  {
    var high, low := v / 0x1_0000, v % 0x1_0000;
    [high / 0x100, high % 0x100, low / 0x100, low % 0x100]
  }

  function U48(v: u48): (b: Buffer)
    ensures |b| == 6
  {
    U16(v / 0x1_0000_0000) + U32(v % 0x1_0000_0000)
  }

  function ReadU16(b: Buffer, off: nat): u16
    requires off + 2 <= |b|
  {
    b[off] as int * 0x100 + b[off + 1] as int
  }

  function ReadU24(b: Buffer, off: nat): u24
    requires off + 3 <= |b|
  {
    b[off] as int * 0x1_0000 + b[off + 1] as int * 0x100 + b[off + 2] as int
  }

  function ReadU32(b: Buffer, off: nat): u32
    requires off + 4 <= |b|
  {
    ReadU16(b, off) * 0x1_0000 + ReadU16(b, off + 2)
  }

  function ReadU48(b: Buffer, off: nat): u48
    requires off + 6 <= |b|
  {
    ReadU16(b, off) * 0x1_0000_0000 + ReadU32(b, off + 2)
  }

  /** The bytes of `s` stand in `b` at `off`. */
  predicate Holds(b: Buffer, off: nat, s: Buffer) {
    off + |s| <= |b| && forall k | 0 <= k < |s| :: b[off + k] == s[k]
  }

  lemma HoldsInMiddle(pre: Buffer, s: Buffer, post: Buffer)
    ensures Holds(pre + s + post, |pre|, s)
  {}

  lemma HoldsWithin(b: Buffer, off: nat, s: Buffer, at: nat, t: Buffer)
    requires Holds(b, off, s) && Holds(s, at, t)
    ensures Holds(b, off + at, t)
  {
    forall k | 0 <= k < |t| ensures b[off + at + k] == t[k] {
      assert b[off + (at + k)] == s[at + k];
    }
  }

  lemma HeldParts(b: Buffer, off: nat, x: Buffer, y: Buffer, z: Buffer)
    requires Holds(b, off, x + y + z)
    ensures Holds(b, off, x) && Holds(b, off + |x|, y) && Holds(b, off + |x| + |y|, z)
  {
    var s := x + y + z;
    assert Holds(s, 0, x) && Holds(s, |x|, y) && Holds(s, |x| + |y|, z);
    HoldsWithin(b, off, s, 0, x);
    HoldsWithin(b, off, s, |x|, y);
    HoldsWithin(b, off, s, |x| + |y|, z);
  }

  lemma HeldSlice(b: Buffer, off: nat, s: Buffer)
    requires Holds(b, off, s)
    ensures b[off..off + |s|] == s
  {}

  /** Reading a big-endian field back from where it was written. */
  lemma ReadWritten16(b: Buffer, off: nat, v: u16)
    requires Holds(b, off, U16(v))
    ensures ReadU16(b, off) == v
  {
    assert b[off + 0] == U16(v)[0] && b[off + 1] == U16(v)[1];
  }

  lemma ReadWritten24(b: Buffer, off: nat, v: u24)
    requires Holds(b, off, U24(v))
    ensures ReadU24(b, off) == v
  {
    assert b[off + 0] == U24(v)[0] && b[off + 1] == U24(v)[1] && b[off + 2] == U24(v)[2];
  }

  lemma ReadWritten32(b: Buffer, off: nat, v: u32)
    requires Holds(b, off, U32(v))
    ensures ReadU32(b, off) == v
  {
    var s := U32(v);
    assert b[off + 0] == s[0] && b[off + 1] == s[1] && b[off + 2] == s[2] && b[off + 3] == s[3];
    assert ReadU16(b, off) == v / 0x1_0000 && ReadU16(b, off + 2) == v % 0x1_0000;
  }

  lemma ReadWritten48(b: Buffer, off: nat, v: u48)
    requires Holds(b, off, U48(v))
    ensures ReadU48(b, off) == v
  {
    var high, low := v / 0x1_0000_0000, v % 0x1_0000_0000;
    assert Holds(U48(v), 0, U16(high)) && Holds(U48(v), 2, U32(low));
    HoldsWithin(b, off, U48(v), 0, U16(high));
    HoldsWithin(b, off, U48(v), 2, U32(low));
    ReadWritten16(b, off, high);
    ReadWritten32(b, off + 2, low);
  }

  /** `Buffer.concat`. */
  function Concat(parts: seq<Buffer>): Buffer {
    if parts == [] then [] else parts[0] + Concat(parts[1..])
  }

  lemma {:induction false} ConcatAppend(a: seq<Buffer>, b: seq<Buffer>)
    ensures Concat(a + b) == Concat(a) + Concat(b)
  {
    if a == [] {
      assert a + b == b;
    } else {
      ConcatAppend(a[1..], b);
      assert (a + b)[0] == a[0] && (a + b)[1..] == a[1..] + b;
    }
  }

  lemma ConcatPush(a: seq<Buffer>, x: Buffer)
    ensures Concat(a + [x]) == Concat(a) + x
  {
    ConcatAppend(a, [x]);
    assert [x][1..] == [];
  }

  /** `(n + 3) & ~3`, for the lengths that occur (below 2^31 - 3). */
  function Pad4(n: nat): (p: nat)
    ensures p % 4 == 0 && n <= p < n + 4
  {
    (n + 3) / 4 * 4
  }

  /** `source.copy(buf, at)`, where it fits. */
  method WriteAll(buf: array<byte>, at: nat, source: Buffer)
    requires at + |source| <= buf.Length
    modifies buf
    ensures buf[..] == old(buf[..at]) + source + old(buf[at + |source|..])
  {
    forall i | 0 <= i < |source| {
      buf[at + i] := source[i];
    }
  }

  /** Writing the next `k` bytes of `all` behind the first `r`. */
  lemma Overwritten(before: Buffer, after: Buffer, all: Buffer, initial: Buffer, r: nat, k: nat)
    requires r + k <= |all| && r + k <= |initial|
    requires before == all[..r] + initial[r..]
    requires after == before[..r] + all[r..r + k] + before[r + k..]
    ensures after == all[..r + k] + initial[r + k..]
  {}
}
