/** A 128-bit number as two words. */
module UInt128s {
  import opened Powers
  import opened Words

  class UInt128 {
    var highBits: UInt64
    var lowBits: UInt64

    ghost function Value(): (v: nat)
      reads this
      ensures v < 0x1_0000_0000_0000_0000_0000_0000_0000_0000
    {
      highBits * 0x1_0000_0000_0000_0000 + lowBits
    }

    constructor (high: UInt64, low: UInt64)
      ensures Value() == high * 0x1_0000_0000_0000_0000 + low
    {
      highBits, lowBits := high, low;
    }

    method Multiply(multiplicand: UInt32)
      requires Times(Value(), multiplicand) < 0x1_0000_0000_0000_0000_0000_0000_0000_0000
      modifies this
      ensures Value() == Times(old(Value()), multiplicand)
    {
      hide Product, Times, High32, Low32, Raised32;
      ghost var total := PartsAddUp(highBits, lowBits, multiplicand);
      var accumulator: UInt64 := Product(Low32(lowBits), multiplicand);
      var part: UInt32 := Low32(accumulator);
      accumulator := High32(accumulator);
      accumulator := Add64(accumulator, Product(High32(lowBits), multiplicand));
      lowBits := Add64(Raised32(accumulator), part);
      accumulator := High32(accumulator);
      accumulator := Add64(accumulator, Product(Low32(highBits), multiplicand));
      part := Low32(accumulator);
      accumulator := High32(accumulator);
      accumulator := Add64(accumulator, Product(High32(highBits), multiplicand));
      highBits := Add64(Raised32(accumulator), part);
      assert High32(accumulator) == 0;
    }

    /** Right by a positive amount, left by a negative one; what is shifted out is lost. */
    method Shift(amount: int)
      requires -64 <= amount <= 64
      modifies this
      ensures amount >= 0 ==> Value() == ShiftRight(old(Value()), amount)
      ensures amount < 0 ==> Value() == ShiftLeft(old(Value()), -amount) % 0x1_0000_0000_0000_0000_0000_0000_0000_0000
    {
      hide Pow, ShiftRight;
      if amount == 0 {
        Unshifted(Value());
        return;
      } else if amount == -64 {
        WordLeft(highBits, lowBits);
        highBits := lowBits;
        lowBits := 0;
      } else if amount == 64 {
        WordRight(highBits, lowBits);
        lowBits := highBits;
        highBits := 0;
      } else if amount <= 0 {
        ShiftedLeft(highBits, lowBits, -amount);
        highBits := ShiftLeft(highBits, -amount) % 0x1_0000_0000_0000_0000;
        highBits := Add64(highBits, ShiftRight(lowBits, 64 + amount));
        lowBits := ShiftLeft(lowBits, -amount) % 0x1_0000_0000_0000_0000;
      } else {
        ShiftedRight(highBits, lowBits, amount);
        lowBits := ShiftRight(lowBits, amount);
        lowBits := Add64(lowBits, ShiftLeft(highBits, 64 - amount) % 0x1_0000_0000_0000_0000);
        highBits := ShiftRight(highBits, amount);
      }
    }

    method DivModPowerOf2(power: nat) returns (result: nat)
      requires 0 < power < 128 && Value() < 0x8000_0000 * Pow(2, power)
      modifies this
      ensures result < 0x8000_0000
      ensures result == ShiftRight(old(Value()), power) && Value() == LowBits(old(Value()), power)
    {
      hide Pow, ShiftRight, LowBits;
      if power >= 64 {
        HighQuotient(highBits, lowBits, power);
        result := ShiftRight(highBits, power - 64);
        highBits := Sub64(highBits, ShiftLeft(result, power - 64));
      } else {
        LowQuotient(highBits, lowBits, power);
        var partLow := ShiftRight(lowBits, power);
        var partHigh := ShiftLeft(highBits, 64 - power);
        result := partLow + partHigh;
        highBits := 0;
        lowBits := Sub64(lowBits, ShiftLeft(partLow, power));
      }
    }

    method IsZero() returns (r: bool)
      ensures r <==> Value() == 0
    {
      return highBits == 0 && lowBits == 0;
    }

    method BitAt(position: nat) returns (bit: nat)
      requires position < 128
      ensures bit == ShiftRight(Value(), position) % 2
    {
      hide Pow;
      if position >= 64 {
        TopBit(highBits, lowBits, position);
        return ShiftRight(highBits, position - 64) % 2;
      } else {
        BottomBit(highBits, lowBits, position);
        return ShiftRight(lowBits, position) % 2;
      }
    }
  }

  // ----- words and shifts

  function Product(a: UInt32, b: UInt32): (r: UInt64)
    ensures r <= 0xFFFF_FFFE_0000_0001
  {
    ProductAtMost(a, b, 0xFFFF_FFFF, 0xFFFF_FFFF);
    MulLe(0, a, b);
    a * b
  }

  /** A product of any size. */
  ghost function Times(x: int, y: int): int {
    x * y
  }

  /** x >> 32. */
  function High32(x: UInt64): (r: UInt32)
    ensures x == r * 0x1_0000_0000 + Low32(x)
  {
    x / 0x1_0000_0000
  }

  /** x & 0xFFFFFFFF. */
  function Low32(x: UInt64): UInt32 {
    x % 0x1_0000_0000
  }

  /** x << 32 in 64 bits: the high half is lost. */
  function Raised32(x: UInt64): (r: UInt64)
    ensures r == Low32(x) * 0x1_0000_0000
  {
    x * 0x1_0000_0000 % 0x1_0000_0000_0000_0000
  }

  lemma SplitProduct(x: UInt64, m: UInt32)
    ensures Times(x, m) == Product(High32(x), m) * 0x1_0000_0000 + Product(Low32(x), m)
  {
  }

  /** A 128-bit number times a 32-bit one is made of four products of half words. */
  lemma PartsAddUp(h: UInt64, l: UInt64, m: UInt32) returns (total: int)
    ensures total == Times(h * 0x1_0000_0000_0000_0000 + l, m)
    ensures total ==
              Product(Low32(l), m) + Product(High32(l), m) * 0x1_0000_0000
              + Product(Low32(h), m) * 0x1_0000_0000_0000_0000
              + Product(High32(h), m) * 0x1_0000_0000_0000_0000_0000_0000
  {
    hide High32, Low32, Product;
    SplitProduct(l, m);
    SplitProduct(h, m);
    MulDist(h * 0x1_0000_0000_0000_0000, l, m);
    MulAssoc(0x1_0000_0000_0000_0000, h, m);
    total := Times(h * 0x1_0000_0000_0000_0000 + l, m);
  }

  lemma Unshifted(x: nat)
    ensures ShiftRight(x, 0) == x
  {
  }

  lemma WordLeft(h: UInt64, l: UInt64)
    ensures ShiftLeft(h * 0x1_0000_0000_0000_0000 + l, 64) % 0x1_0000_0000_0000_0000_0000_0000_0000_0000 ==
              l * 0x1_0000_0000_0000_0000
  {
    hide Pow;
    PowValues();
  }

  lemma WordRight(h: UInt64, l: UInt64)
    ensures ShiftRight(h * 0x1_0000_0000_0000_0000 + l, 64) == h
  {
    hide Pow;
    PowValues();
    QuotientIs(h * 0x1_0000_0000_0000_0000 + l, 64, h, l);
  }

  /** A quotient is known by its bounds. */
  lemma QuotientIs(x: nat, n: nat, q: nat, r: nat)
    requires r < Pow(2, n) && x == q * Pow(2, n) + r
    ensures ShiftRight(x, n) == q && LowBits(x, n) == r
  {
    hide Pow;
    var p := Pow(2, n);
    var s := ShiftRight(x, n);
    if s < q { MulLe(s + 1, q, p); }
    if q < s { MulLe(q + 1, s, p); }
  }

  lemma PowSplit(n: nat)
    requires n <= 64
    ensures Pow(2, n) * Pow(2, 64 - n) == 0x1_0000_0000_0000_0000
  {
    hide Pow;
    PowAdd(2, n, 64 - n);
    PowValues();
  }

  lemma ShiftedRight(h: UInt64, l: UInt64, n: nat)
    requires 0 < n < 64
    ensures
      var a, b, m := ShiftRight(l, n), ShiftRight(h, n), ShiftLeft(h, 64 - n) % 0x1_0000_0000_0000_0000;
      && a + m < 0x1_0000_0000_0000_0000 && b < 0x1_0000_0000_0000_0000
      && ShiftRight(h * 0x1_0000_0000_0000_0000 + l, n) == b * 0x1_0000_0000_0000_0000 + a + m
  {
    hide Pow, ShiftRight, LowBits;
    var p, q := Pow(2, n), Pow(2, 64 - n);
    PowSplit(n);
    var a, b, r, c := ShiftRight(l, n), ShiftRight(h, n), LowBits(l, n), LowBits(h, n);
    RightParts(h, l, p, q, a, b, r, c, h * q, c * q);
    QuotientIs(h * 0x1_0000_0000_0000_0000 + l, n, b * 0x1_0000_0000_0000_0000 + a + c * q, r);
  }

  lemma RightParts(h: nat, l: nat, p: nat, q: nat, a: nat, b: nat, r: nat, c: nat, hq: nat, cq: nat)
    requires p * q == 0x1_0000_0000_0000_0000 && l < 0x1_0000_0000_0000_0000 && hq == h * q && cq == c * q
    requires l == a * p + r && r < p && h == b * p + c && c < p
    ensures hq % 0x1_0000_0000_0000_0000 == cq && a + cq < 0x1_0000_0000_0000_0000
    ensures h * 0x1_0000_0000_0000_0000 + l == (b * 0x1_0000_0000_0000_0000 + a + cq) * p + r
  {
    RightTop(h, p, q, b, c, hq, cq);
    RightLow(l, p, q, a, r);
    RightSum(h, l, p, q, a, b, r, c, cq);
  }

  lemma RightTop(h: nat, p: nat, q: nat, b: nat, c: nat, hq: nat, cq: nat)
    requires p * q == 0x1_0000_0000_0000_0000 && hq == h * q && cq == c * q && h == b * p + c && c < p
    ensures hq % 0x1_0000_0000_0000_0000 == cq && cq + q <= 0x1_0000_0000_0000_0000
  {
    MulDist(b * p, c, q);
    MulAssoc(b, p, q);
    MulLe(c + 1, p, q);
    MulDist(c, 1, q);
    WordRest(hq, b, cq);
  }

  lemma WordRest(x: nat, b: nat, c: nat)
    requires x == b * 0x1_0000_0000_0000_0000 + c && c < 0x1_0000_0000_0000_0000
    ensures x % 0x1_0000_0000_0000_0000 == c
  {
  }

  lemma RightLow(l: nat, p: nat, q: nat, a: nat, r: nat)
    requires p * q == 0x1_0000_0000_0000_0000 && l < 0x1_0000_0000_0000_0000 && l == a * p + r
    ensures a < q
  {
    if a >= q { MulLe(q, a, p); }
  }

  lemma RightSum(h: nat, l: nat, p: nat, q: nat, a: nat, b: nat, r: nat, c: nat, cq: nat)
    requires p * q == 0x1_0000_0000_0000_0000 && cq == c * q && l == a * p + r && h == b * p + c
    ensures h * 0x1_0000_0000_0000_0000 + l == (b * 0x1_0000_0000_0000_0000 + a + cq) * p + r
  {
    MulDist(b * 0x1_0000_0000_0000_0000 + a, cq, p);
    MulDist(b * 0x1_0000_0000_0000_0000, a, p);
    MulAssoc(c, q, p);
    MulAssoc(b, 0x1_0000_0000_0000_0000, p);
    MulAssoc(b, p, 0x1_0000_0000_0000_0000);
  }

  lemma ShiftedLeft(h: UInt64, l: UInt64, n: nat)
    requires 0 < n < 64
    ensures
      var y, a, m := ShiftLeft(h, n) % 0x1_0000_0000_0000_0000, ShiftRight(l, 64 - n), ShiftLeft(l, n) % 0x1_0000_0000_0000_0000;
      && y + a < 0x1_0000_0000_0000_0000
      && ShiftLeft(h * 0x1_0000_0000_0000_0000 + l, n) % 0x1_0000_0000_0000_0000_0000_0000_0000_0000 ==
           (y + a) * 0x1_0000_0000_0000_0000 + m
  {
    hide Pow, ShiftRight, LowBits;
    var p, q := Pow(2, n), Pow(2, 64 - n);
    PowSplit(n);
    LeftParts(h, l, p, q, ShiftRight(l, 64 - n), LowBits(l, 64 - n), h * p, l * p);
    MulDist(h * 0x1_0000_0000_0000_0000, l, p);
    MulAssoc(0x1_0000_0000_0000_0000, h, p);
  }

  lemma LeftParts(h: nat, l: nat, p: nat, q: nat, a: nat, r: nat, hp: nat, lp: nat)
    requires p > 0 && q > 0 && p * q == 0x1_0000_0000_0000_0000 && l < 0x1_0000_0000_0000_0000 && hp == h * p && lp == l * p
    requires l == a * q + r && r < q
    ensures
      var y, m := hp % 0x1_0000_0000_0000_0000, lp % 0x1_0000_0000_0000_0000;
      && y + a < 0x1_0000_0000_0000_0000
      && (hp * 0x1_0000_0000_0000_0000 + lp) % 0x1_0000_0000_0000_0000_0000_0000_0000_0000 ==
           (y + a) * 0x1_0000_0000_0000_0000 + m
  {
    var x, y := hp / 0x1_0000_0000_0000_0000, hp % 0x1_0000_0000_0000_0000;
    TopPart(h, p, q, x, y);
    if a >= p { MulLe(p, a, q); }
    MulDist(a * q, r, p);
    MulAssoc(a, q, p);
    MulLt(r, q, p);
    MulLe(0, r, p);
    Carried(hp, lp, x, y, a, r * p);
  }

  lemma TopPart(h: nat, p: nat, q: nat, x: nat, y: nat)
    requires p > 0 && q > 0 && p * q == 0x1_0000_0000_0000_0000
    requires h * p == x * 0x1_0000_0000_0000_0000 + y && y < 0x1_0000_0000_0000_0000
    ensures y + p <= 0x1_0000_0000_0000_0000
  {
    MulAssoc(x, q, p);
    var k := h - x * q;
    MulDist(h, x * q, p);
    assert y == k * p;
    if k >= q { MulLe(q, k, p); }
    MulLe(k, q - 1, p);
    MulDist(q, 1, p);
  }

  lemma Carried(hp: nat, lp: nat, x: nat, y: nat, a: nat, m: nat)
    requires hp == x * 0x1_0000_0000_0000_0000 + y && lp == a * 0x1_0000_0000_0000_0000 + m
    requires m < 0x1_0000_0000_0000_0000 && y + a < 0x1_0000_0000_0000_0000
    ensures lp % 0x1_0000_0000_0000_0000 == m
    ensures (hp * 0x1_0000_0000_0000_0000 + lp) % 0x1_0000_0000_0000_0000_0000_0000_0000_0000 ==
              (y + a) * 0x1_0000_0000_0000_0000 + m
  {
  }

  lemma HighQuotient(h: UInt64, l: UInt64, power: nat)
    requires 64 <= power < 128
    ensures
      var s, v := ShiftRight(h, power - 64), h * 0x1_0000_0000_0000_0000 + l;
      && ShiftRight(v, power) == s && 0 <= ShiftLeft(s, power - 64) <= h
      && LowBits(v, power) == (h - ShiftLeft(s, power - 64)) * 0x1_0000_0000_0000_0000 + l
      && (v < 0x8000_0000 * Pow(2, power) ==> s < 0x8000_0000)
  {
    hide Pow, ShiftRight, LowBits;
    var k := power - 64;
    var p, s, c := Pow(2, k), ShiftRight(h, k), LowBits(h, k);
    PowAdd(2, k, 64);
    PowValues();
    MulDist(s * p, c, 0x1_0000_0000_0000_0000);
    MulAssoc(s, p, 0x1_0000_0000_0000_0000);
    MulLe(c, p - 1, 0x1_0000_0000_0000_0000);
    MulLe(0, s, p);
    QuotientIs(h * 0x1_0000_0000_0000_0000 + l, power, s, c * 0x1_0000_0000_0000_0000 + l);
    if s >= 0x8000_0000 { MulLe(0x8000_0000, s, Pow(2, power)); }
  }

  lemma LowQuotient(h: UInt64, l: UInt64, power: nat)
    requires power < 64
    ensures
      var a, v := ShiftRight(l, power), h * 0x1_0000_0000_0000_0000 + l;
      && 0 <= ShiftLeft(h, 64 - power)
      && ShiftRight(v, power) == a + ShiftLeft(h, 64 - power) && 0 <= ShiftLeft(a, power) <= l
      && LowBits(v, power) == l - ShiftLeft(a, power)
      && (v < 0x8000_0000 * Pow(2, power) ==> a + ShiftLeft(h, 64 - power) < 0x8000_0000)
  {
    hide Pow, ShiftRight, LowBits;
    var p, q, a, r := Pow(2, power), Pow(2, 64 - power), ShiftRight(l, power), LowBits(l, power);
    PowSplit(power);
    MulDist(a, h * q, p);
    MulAssoc(h, q, p);
    MulLe(0, a, p);
    MulLe(0, h, q);
    QuotientIs(h * 0x1_0000_0000_0000_0000 + l, power, a + h * q, r);
    if a + h * q >= 0x8000_0000 { MulLe(0x8000_0000, a + h * q, p); }
  }

  lemma TopBit(h: UInt64, l: UInt64, position: nat)
    requires 64 <= position < 128
    ensures ShiftRight(h * 0x1_0000_0000_0000_0000 + l, position) == ShiftRight(h, position - 64)
  {
    HighQuotient(h, l, position);
  }

  lemma BottomBit(h: UInt64, l: UInt64, position: nat)
    requires position < 64
    ensures ShiftRight(h * 0x1_0000_0000_0000_0000 + l, position) % 2 == ShiftRight(l, position) % 2
  {
    hide Pow, ShiftRight;
    LowQuotient(h, l, position);
    PowAdd(2, 1, 63 - position);
    SmallTwos();
    MulAssoc(h, 2, Pow(2, 63 - position));
    MulAssoc(2, h, Pow(2, 63 - position));
    EvenShift(ShiftRight(l, position), h * Pow(2, 63 - position), ShiftLeft(h, 64 - position));
  }

  lemma EvenShift(a: nat, k: int, b: int)
    requires b == 2 * k && b >= 0
    ensures (a + b) % 2 == a % 2
  {
  }
}
