/** Floating-point numbers with a 64-bit significand, multiplied with rounding. */
module DiyFps {
  import opened Powers
  import opened Words
  import opened Exact
  import opened Ieee

  const HALF: nat := 0x8000_0000_0000_0000

  /** The high word of a 128-bit number, with halves rounded up. */
  function HighWord(p: nat): (r: nat)
    ensures r * 0x1_0000_0000_0000_0000 <= p + 0x8000_0000_0000_0000 < (r + 1) * 0x1_0000_0000_0000_0000
  {
    (p + 0x8000_0000_0000_0000) / 0x1_0000_0000_0000_0000
  }

  lemma HighWordMonotone(p: nat, q: nat)
    requires p <= q
    ensures HighWord(p) <= HighWord(q)
  {
  }

  /** f shifted up until its top bit is set. */
  function Normalized(f: UInt64, e: int): (r: Binary)
    requires f > 0
    ensures HALF <= r.f < 2 * HALF && r.e <= e
    decreases 0x1_0000_0000_0000_0000 - f
  {
    if f >= 0x8000_0000_0000_0000 then Binary(f, e) else Normalized(2 * f, e - 1)
  }

  lemma {:induction false} NormalizedShift(f: UInt64, e: int)
    requires f > 0
    ensures Normalized(f, e).f == f * Pow(2, e - Normalized(f, e).e)
    decreases 0x1_0000_0000_0000_0000 - f
  {
    if f < 0x8000_0000_0000_0000 {
      var r := Normalized(2 * f, e - 1);
      NormalizedShift(2 * f, e - 1);
      MulAssoc(f, 2, Pow(2, e - 1 - r.e));
      assert Pow(2, e - r.e) == 2 * Pow(2, e - 1 - r.e);
    }
  }

  /** Shifting up keeps the value. */
  lemma ShiftedValue(f: int, e: int, k: nat)
    ensures Binary(f * Pow(2, k), e - k).Value() == Binary(f, e).Value()
  {
    hide Two;
    TwoAdd(k, e - k);
    TwoNat(k);
    IntMul(f, Pow(2, k));
    RMulAssoc(f as real, Two(k), Two(e - k));
  }

  /** Any shift that sets the top bit is the normalizing one. */
  lemma NormalizedUnique(f: UInt64, e: int, k: nat)
    requires f > 0 && HALF <= f * Pow(2, k) < 2 * HALF
    ensures Normalized(f, e) == Binary(f * Pow(2, k), e - k)
  {
    hide Pow;
    NormalizedShift(f, e);
    var m := e - Normalized(f, e).e;
    if m < k { ShiftTooFar(f, m, k); }
    if k < m { ShiftTooFar(f, k, m); }
  }

  lemma ShiftTooFar(f: nat, k: nat, m: nat)
    requires k < m
    ensures f * Pow(2, m) >= 2 * (f * Pow(2, k))
  {
    hide Pow;
    PowMonotone(2, k + 1, m);
    PowNext(k);
    MulLe(Pow(2, k + 1), Pow(2, m), f);
    MulAssoc(2, Pow(2, k), f);
  }

  class DiyFp {
    var f: UInt64
    var e: int

    constructor (f: UInt64, e: int)
      ensures this.f == f && this.e == e
    {
      this.f := f;
      this.e := e;
    }

    function AsBinary(): Binary
      reads this
    {
      Binary(f, e)
    }

    method Subtract(other: DiyFp)
      requires e == other.e && f >= other.f
      modifies `f
      ensures f == old(f) - old(other.f)
    {
      f := f - other.f;
    }

    static method Minus(a: DiyFp, b: DiyFp) returns (result: DiyFp)
      requires a.e == b.e && a.f >= b.f
      ensures fresh(result) && result.f == a.f - b.f && result.e == a.e
    {
      result := new DiyFp(a.f, a.e);
      result.Subtract(b);
    }

    /** Emulates a 128-bit multiplication of which only the rounded high word is kept. */
    method Multiply(other: DiyFp)
      modifies this
      ensures f == HighWord(old(f) * old(other.f))
      ensures e == old(e) + old(other.e) + 64
    {
      hide HighWord;
      var a, b := f / 0x1_0000_0000, f % 0x1_0000_0000;
      var c, d := other.f / 0x1_0000_0000, other.f % 0x1_0000_0000;
      Words32(a, b, c, d);
      var ac: UInt64 := a * c;
      var bc: UInt64 := b * c;
      var ad: UInt64 := a * d;
      var bd: UInt64 := b * d;
      var tmp: UInt64 := bd / 0x1_0000_0000 + ad % 0x1_0000_0000 + bc % 0x1_0000_0000;
      tmp := tmp + 0x8000_0000;
      HighOfProduct(f, other.f, a, b, c, d, ac, bc, ad, bd);
      var resultF: UInt64 := ac + ad / 0x1_0000_0000 + bc / 0x1_0000_0000 + tmp / 0x1_0000_0000;
      e := e + other.e + 64;
      f := resultF;
    }

    static method Times(a: DiyFp, b: DiyFp) returns (result: DiyFp)
      ensures fresh(result) && result.f == HighWord(a.f * b.f) && result.e == a.e + b.e + 64
    {
      result := new DiyFp(a.f, a.e);
      result.Multiply(b);
    }

    method Normalize()
      requires f != 0
      modifies this
      ensures AsBinary() == old(Normalized(f, e))
    {
      var g: UInt64, k := f, e;
      while g < 0x40_0000_0000_0000
        invariant 0 < g && Normalized(g, k) == old(Normalized(f, e))
        decreases 0x1_0000_0000_0000_0000 - g
      {
        TenBits(g, k);
        g := g * 0x400;
        k := k - 10;
      }
      while g < 0x8000_0000_0000_0000
        invariant 0 < g && Normalized(g, k) == old(Normalized(f, e))
        decreases 0x1_0000_0000_0000_0000 - g
      {
        g := g * 2;
        k := k - 1;
      }
      f := g;
      e := k;
    }

    static method NormalizedOf(a: DiyFp) returns (result: DiyFp)
      requires a.f != 0
      ensures fresh(result) && result.AsBinary() == Normalized(a.f, a.e)
    {
      result := new DiyFp(a.f, a.e);
      result.Normalize();
    }
  }

  lemma TenBits(g: UInt64, k: int)
    requires 0 < g < 0x40_0000_0000_0000
    ensures Normalized(g * 0x400, k - 10) == Normalized(g, k)
  {
    ThreeBits(g, k);
    ThreeBits(8 * g, k - 3);
    ThreeBits(64 * g, k - 6);
    assert Normalized(512 * g, k - 9) == Normalized(1024 * g, k - 10);
  }

  lemma ThreeBits(g: UInt64, k: int)
    requires 0 < g < 0x1000_0000_0000_0000
    ensures Normalized(8 * g, k - 3) == Normalized(g, k)
  {
    assert Normalized(g, k) == Normalized(2 * g, k - 1);
    assert Normalized(2 * g, k - 1) == Normalized(4 * g, k - 2);
    assert Normalized(4 * g, k - 2) == Normalized(8 * g, k - 3);
  }

  lemma Words32(a: int, b: int, c: int, d: int)
    requires 0 <= a < 0x1_0000_0000 && 0 <= b < 0x1_0000_0000 && 0 <= c < 0x1_0000_0000 && 0 <= d < 0x1_0000_0000
    ensures 0 <= a * c < 0x1_0000_0000_0000_0000 && 0 <= b * c < 0x1_0000_0000_0000_0000
    ensures 0 <= a * d < 0x1_0000_0000_0000_0000 && 0 <= b * d < 0x1_0000_0000_0000_0000
  {
    ProductBelow(a, c, 0x1_0000_0000, 0x1_0000_0000);
    ProductBelow(b, c, 0x1_0000_0000, 0x1_0000_0000);
    ProductBelow(a, d, 0x1_0000_0000, 0x1_0000_0000);
    ProductBelow(b, d, 0x1_0000_0000, 0x1_0000_0000);
  }

  /** The partial sums add up to the rounded high word, which fits 64 bits. */
  lemma HighOfProduct(x: UInt64, y: UInt64, a: nat, b: nat, c: nat, d: nat, ac: nat, bc: nat, ad: nat, bd: nat)
    requires x == 0x1_0000_0000 * a + b && y == 0x1_0000_0000 * c + d
    requires ac == a * c && bc == b * c && ad == a * d && bd == b * d
    ensures
      var tmp := bd / 0x1_0000_0000 + ad % 0x1_0000_0000 + bc % 0x1_0000_0000 + 0x8000_0000;
      ac + ad / 0x1_0000_0000 + bc / 0x1_0000_0000 + tmp / 0x1_0000_0000 == HighWord(x * y)
    ensures HighWord(x * y) < 0xFFFF_FFFF_FFFF_FFFF
  {
    assert x * y == 0x1_0000_0000_0000_0000 * ac + 0x1_0000_0000 * (ad + bc) + bd by {
      MulDist(0x1_0000_0000 * a, b, y);
      MulDist(0x1_0000_0000 * c, d, a);
      MulDist(0x1_0000_0000 * c, d, b);
      MulAssoc(0x1_0000_0000, a, y);
      MulAssoc(0x1_0000_0000, c, a);
      MulAssoc(0x1_0000_0000, c, b);
    }
    CarrySums(ac, bc, ad, bd);
    ProductAtMostTop(x, y);
  }

  lemma CarrySums(ac: nat, bc: nat, ad: nat, bd: nat)
    ensures
      var tmp := bd / 0x1_0000_0000 + ad % 0x1_0000_0000 + bc % 0x1_0000_0000 + 0x8000_0000;
      ac + ad / 0x1_0000_0000 + bc / 0x1_0000_0000 + tmp / 0x1_0000_0000 ==
      HighWord(0x1_0000_0000_0000_0000 * ac + 0x1_0000_0000 * (ad + bc) + bd)
  {
  }

  lemma ProductAtMostTop(x: UInt64, y: UInt64)
    ensures HighWord(x * y) < 0xFFFF_FFFF_FFFF_FFFF
  {
    MulLe(x, 0xFFFF_FFFF_FFFF_FFFF, y);
  }
}
