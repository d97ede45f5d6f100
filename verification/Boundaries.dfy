/** A double and its two boundaries as numbers with 64-bit significands and one common exponent. */
module Boundaries {
  import opened Powers
  import opened Words
  import opened Exact
  import opened Ieee
  import opened DiyFps

  /** How far a double's significand is shifted to set the top bit of 64. */
  ghost function Shift(d: Double): int
    requires 0 < d.bits < INFINITY
  {
    SignificandRange(d);
    d.Exponent() - Normalized(d.Significand(), d.Exponent()).e
  }

  lemma SignificandRange(d: Double)
    requires 0 < d.bits < INFINITY
    ensures 0 < d.Significand() < 2 * HIDDEN_BIT && -1074 <= d.Exponent() <= 971
    ensures d.LowerBoundaryIsCloser() ==> d.Significand() == HIDDEN_BIT
  {
  }

  /** The significands of the normalized double and of its boundaries at the same exponent. */
  lemma CommonExponent(d: Double)
    requires 0 < d.bits < INFINITY
    ensures
      var f, e := d.Significand(), d.Exponent();
      var k := Shift(d);
      0 < f < 2 * HIDDEN_BIT && k >= 11 &&
      var g := Pow(2, k - 2);
      var w, plus := Normalized(f, e), Normalized(2 * f + 1, e - 1);
      && g >= 512 && w.f == 4 * f * g && w.e == e - k
      && plus.f == w.f + 2 * g && plus.e == w.e
  {
    hide Pow, Normalized, Double.Significand, Double.Exponent;
    SignificandRange(d);
    NormalPair(d.Significand(), d.Exponent());
  }

  lemma NormalPair(f: UInt64, e: int)
    requires 0 < f < 2 * HIDDEN_BIT
    ensures
      var w, plus := Normalized(f, e), Normalized(2 * f + 1, e - 1);
      var k := e - w.e;
      k >= 11 &&
      var g := Pow(2, k - 2);
      && g >= 512 && w.f == 4 * f * g
      && plus.f == w.f + 2 * g && plus.e == w.e
  {
    hide Pow, Normalized;
    var w := Normalized(f, e);
    var k := e - w.e;
    NormalizedShift(f, e);
    if k <= 10 {
      PowMonotone(2, k, 10);
      SmallTwos();
      MulLe(Pow(2, k), 1024, f);
    }
    PowMonotone(2, 9, k - 2);
    SmallTwos();
    PowNext(k - 2);
    PowNext(k - 1);
    var g := Pow(2, k - 2);
    FourTimes(f, g);
    TopOfUpper(f, g, w.f, k - 2);
    NormalizedUnique(2 * f + 1, e - 1, k - 1);
  }

  lemma FourTimes(f: int, g: int)
    ensures f * (2 * (2 * g)) == 4 * f * g
    ensures (2 * f + 1) * (2 * g) == 4 * f * g + 2 * g
    ensures (2 * f - 1) * (2 * g) == 4 * f * g - 2 * g
    ensures (4 * f - 1) * g == 4 * f * g - g
  {
  }

  /** Half a unit more still fits below the next power of two. */
  lemma TopOfUpper(f: nat, g: nat, w: nat, k: nat)
    requires w == 4 * f * g && HALF <= w < 2 * HALF && 0 < f < 2 * HIDDEN_BIT && g == Pow(2, k)
    ensures HALF <= w + 2 * g < 2 * HALF
  {
    hide Pow;
    PowSixtyFour();
    if k >= 62 {
      PowMonotone(2, 62, k);
      FourFold(f, g);
      assert false;
    } else {
      // g divides 2^64, so w + 4 * g cannot pass it.
      PowAdd(2, k, 62 - k);
      StaysBelow(f, g, Pow(2, 62 - k), w);
    }
  }

  lemma FourFold(f: nat, g: nat)
    requires 0 < f
    ensures 4 * f * g >= 4 * g
  {
  }

  lemma StaysBelow(f: nat, g: nat, m: nat, w: nat)
    requires w == 4 * f * g && w < 4 * (g * m) && 0 < g
    ensures w + 4 * g <= 4 * (g * m)
  {
    assert w == f * (4 * g) && 4 * (g * m) == m * (4 * g);
    if f >= m { MulLe(m, f, 4 * g); }
    MulLe(f + 1, m, 4 * g);
  }

  lemma PowSixtyFour()
    ensures Pow(2, 64) == 2 * HALF && Pow(2, 62) == HALF / 2
  {
    PowValues();
    PowNext(63);
    PowNext(62);
  }

  method AsNormalizedDiyFp(d: Double) returns (r: DiyFp)
    requires 0 < d.bits < INFINITY
    ensures fresh(r) && d.Significand() > 0 && r.AsBinary() == Normalized(d.Significand(), d.Exponent())
  {
    SignificandRange(d);
    var f: UInt64, e := d.Significand(), d.Exponent();
    while f < 0x10_0000_0000_0000
      invariant 0 < f < 2 * HIDDEN_BIT
      invariant Normalized(f, e) == Normalized(d.Significand(), d.Exponent())
      decreases HIDDEN_BIT - f
    {
      f := f * 2;
      e := e - 1;
    }
    TenBits(f, e);
    r := new DiyFp(f * 0x800, e - 11);
  }

  /** The lower boundary is brought to the exponent of the normalized upper one. */
  method NormalizedBoundaries(d: Double) returns (minus: DiyFp, plus: DiyFp)
    requires 0 < d.bits < INFINITY
    ensures fresh(minus) && fresh(plus) && 0 < 2 * d.Significand() + 1 < 2 * HALF
    ensures plus.AsBinary() == Normalized(2 * d.Significand() + 1, d.Exponent() - 1)
    ensures minus.e == plus.e
    ensures Shift(d) >= 11
    ensures
      var g := Pow(2, Shift(d) - 2);
      minus.f == plus.f - 2 * g - (if d.LowerBoundaryIsCloser() then g else 2 * g)
    ensures minus.AsBinary().Value() == d.LowerBoundary().Value()
  {
    hide Pow, Two;
    SignificandRange(d);
    CommonExponent(d);
    var f, e := d.Significand(), d.Exponent();
    var raised := new DiyFp(2 * f + 1, e - 1);
    plus := DiyFp.NormalizedOf(raised);
    ghost var k := Shift(d);
    ghost var g := Pow(2, k - 2);
    FourTimes(f, g);
    PowNext(k - 2);
    if d.LowerBoundaryIsCloser() {
      ShiftedValue(4 * f - 1, e - 2, k - 2);
      minus := new DiyFp(4 * f - 1, e - 2);
    } else {
      ShiftedValue(2 * f - 1, e - 1, k - 1);
      minus := new DiyFp(2 * f - 1, e - 1);
    }
    minus.f := minus.f * Pow(2, minus.e - plus.e);
    minus.e := plus.e;
  }

  lemma UpperValue(d: Double)
    requires 0 < d.bits < INFINITY
    ensures 0 < d.Significand() < 2 * HIDDEN_BIT
    ensures Normalized(d.Significand(), d.Exponent()).Value() == d.Value()
    ensures Normalized(2 * d.Significand() + 1, d.Exponent() - 1).Value() == d.UpperBoundary().Value()
  {
    hide Binary.Value;
    SignificandRange(d);
    SameValue(d.Significand(), d.Exponent());
    SameValue(2 * d.Significand() + 1, d.Exponent() - 1);
  }

  lemma SameValue(f: UInt64, e: int)
    requires f > 0
    ensures Normalized(f, e).Value() == Binary(f, e).Value()
  {
    hide Binary.Value;
    NormalizedShift(f, e);
    ShiftedValue(f, e, e - Normalized(f, e).e);
  }
}
