/** Serial-number arithmetic on 32-bit TSNs (src/sctp/association.ts:70-76). */
module Serial {
  import opened Bytes

  const MODULUS := 0x1_0000_0000
  const HALF := 0x8000_0000

  /** The comparison as the code evaluates it, and the one its comment documents. */
  datatype Comparison = Literal | Intended

  /** `x >>> 0`. */
  function ToUint32(x: int): u32 { x % MODULUS }

  /** The signed value a JavaScript bitwise operator yields. */
  function ToInt32(x: int): int {
    if x % MODULUS >= HALF then x % MODULUS - MODULUS else x % MODULUS
  }

  /** `((a - b) & 0xffffffff) > 0x80000000`: the mask keeps all 32 bits, so the left side is `ToInt32(a - b)`. */
  predicate SnLtLiteral(a: u32, b: u32) { ToInt32(a - b) > HALF }

  /** The documented serial order of RFC 1982: the same comparison on the unsigned difference. */
  predicate SnLtIntended(a: u32, b: u32) { ToUint32(a - b) > HALF }

  predicate SnLt(cmp: Comparison, a: u32, b: u32) {
    match cmp
    case Literal => SnLtLiteral(a, b)
    case Intended => SnLtIntended(a, b)
  }

  predicate SnLte(cmp: Comparison, a: u32, b: u32) { a == b || SnLt(cmp, a, b) }

  /** How far `tsn` lies ahead of `base`, going up and around. */
  function Ahead(base: u32, tsn: u32): u32 { ToUint32(tsn - base) }

  lemma LiteralIsNeverLess(a: u32, b: u32)
    ensures !SnLt(Literal, a, b)
    ensures SnLte(Literal, a, b) <==> a == b
  {}

  /** The smallest witness that the code's comparison is not the documented one. */
  lemma LiteralMissesNeighbours()
    ensures SnLt(Intended, 5, 6) && !SnLt(Literal, 5, 6)
  {}

  /** Section 3.2 of RFC 1982: on numbers that are close before wrapping, serial order is integer order. */
  lemma IntendedIsIntegerOrder(i: int, j: int)
    requires j - i < HALF && i - j <= HALF
    ensures SnLt(Intended, ToUint32(i), ToUint32(j)) <==> i < j
    ensures SnLte(Intended, ToUint32(i), ToUint32(j)) <==> i <= j
  {
    WrapDifference(i, j);
    if i < j {
      assert (i - j) % MODULUS == i - j + MODULUS;
    } else {
      assert (i - j) % MODULUS == i - j;
    }
  }

  /** Differences survive wrapping. */
  lemma WrapDifference(i: int, j: int)
    ensures ToUint32(ToUint32(i) - ToUint32(j)) == ToUint32(i - j)
  {
    var qi, qj := i / MODULUS, j / MODULUS;
    assert ToUint32(i) - ToUint32(j) == i - j + MODULUS * (qj - qi);
    AddMultiple(i - j, qj - qi);
  }

  lemma AddMultiple(x: int, k: int)
    ensures (x + MODULUS * k) % MODULUS == x % MODULUS
  {}

  /** Two numbers that wrap to the same TSN and lie closer than 2^32 are equal. */
  lemma SameTsnSameNumber(i: int, j: int)
    requires ToUint32(i) == ToUint32(j) && -MODULUS < i - j < MODULUS
    ensures i == j
  {
    assert i - j == MODULUS * (i / MODULUS - j / MODULUS);
  }

  lemma AheadByCases(base: u32, tsn: u32)
    ensures Ahead(base, tsn) == if tsn >= base then tsn - base else tsn - base + MODULUS
  {}

  lemma AheadOfSum(base: u32, d: int)
    requires 0 <= d < MODULUS
    ensures Ahead(base, ToUint32(base + d)) == d
  {
    WrapDifference(base + d, base);
    assert ToUint32(base) == base;
  }

  lemma SumOfAhead(base: u32, tsn: u32)
    ensures ToUint32(base + Ahead(base, tsn)) == tsn
  {
    var d := Ahead(base, tsn);
    assert d == tsn - base || d == tsn - base + MODULUS;
  }

  /** Any TSN that is not serially before `e` lies in the half-open window after it, whatever the network did. */
  lemma NotBeforeIsInWindow(e: u32, tsn: u32)
    ensures !SnLt(Intended, tsn, e) <==> Ahead(e, tsn) <= HALF
  {}

  /** Inside that window the sort comparator is the order of distances: a strict total order. */
  lemma ComparatorIsTotalOrder(e: u32, a: u32, b: u32, c: u32)
    requires 0 < Ahead(e, a) <= HALF && 0 < Ahead(e, b) <= HALF && 0 < Ahead(e, c) <= HALF
    ensures SnLt(Intended, a, b) <==> Ahead(e, a) < Ahead(e, b)
    ensures !SnLt(Intended, a, a)
    ensures a != b ==> SnLt(Intended, a, b) || SnLt(Intended, b, a)
    ensures SnLt(Intended, a, b) && SnLt(Intended, b, c) ==> SnLt(Intended, a, c)
  {
    InWindow(e, a, b);
    InWindow(e, b, c);
    InWindow(e, a, c);
    InWindow(e, b, a);
    SumOfAhead(e, a);
    SumOfAhead(e, b);
  }

  lemma InWindow(e: u32, a: u32, b: u32)
    requires 0 < Ahead(e, a) <= HALF && 0 < Ahead(e, b) <= HALF
    ensures SnLt(Intended, a, b) <==> Ahead(e, a) < Ahead(e, b)
  {
    SumOfAhead(e, a);
    SumOfAhead(e, b);
    IntendedIsIntegerOrder(e + Ahead(e, a), e + Ahead(e, b));
  }

  /** The whole 32-bit circle has no such order: three spread-out TSNs form a cycle. */
  lemma NoOrderOnTheCircle()
    ensures SnLt(Intended, 0, 0x6000_0000) && SnLt(Intended, 0x6000_0000, 0xc000_0000) && SnLt(Intended, 0xc000_0000, 0)
  {}
}
