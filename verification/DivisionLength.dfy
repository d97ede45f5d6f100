/** The first loop of the division may leave less than the divisor's length. */
module DivisionLength {
  import opened Bigits
  import opened BigitLoops
  import opened Bignums

  lemma Squares()
    ensures BPow(0) == 1 && BPow(1) == 0x1000_0000 && BPow(2) == 0x100_0000_0000_0000
    ensures BPow(3) == 0x10_0000_0000_0000_0000_0000
  {
  }

  /** The length of a value between two powers of the base. */
  lemma LengthIs(b: Bignum, n: nat)
    requires b.Valid() && BPow(n) <= b.Value() < BPow(n + 1)
    ensures b.BigitLength() == n + 1
  {
    hide BPow, Bignum.Valid, Bignum.Value;
    b.ValueRange();
    b.LengthAtMost(n + 1);
    if b.BigitLength() <= n { PowMonotoneB(b.BigitLength(), n); }
  }

  /** With this = B^2 and other = B^2 - 1 it leaves the single bigit 1 against the two of other. */
  method LengthsNeedNotAgree() returns (left: Bignum, other: Bignum)
    ensures left.Valid() && other.Valid() && left.Value() == 1
    ensures left.BigitLength() == 1 && other.BigitLength() == 2
  {
    hide Val, BPow, Bignum.Value;
    Squares();
    left := new Bignum();
    left.AssignUInt64(0x100_0000_0000_0000);
    other := new Bignum();
    other.AssignUInt64(0xFF_FFFF_FFFF_FFFF);
    LengthIs(other, 1);
    LengthIs(left, 2);
    other.NearlyFull(2);
    var quotient := left.RemoveLongParts(other);
    left.ValueRange();
    QuotientOne(quotient, left.Value(), left.BigitLength());
    LengthIs(left, 0);
  }

  lemma QuotientOne(quotient: nat, rest: int, length: nat)
    requires 0x100_0000_0000_0000 == quotient * 0xFF_FFFF_FFFF_FFFF + rest && 0 < rest < BPow(length) && length <= 2
    ensures rest == 1
  {
  }
}
