/** The exact start values of the big-integer printer, and what they mean. */
module StartValues {
  import opened Powers
  import opened Bigits
  import opened BigitLoops
  import opened LeftToRight
  import opened Exact
  import opened Ieee
  import opened Bignums

  /** Ten(p) does not lie above the double's rounding interval. */
  predicate Reaches(d: Double, p: int) {
    if d.IsEven() then Ten(p) <= d.UpperBoundary().Value() else Ten(p) < d.UpperBoundary().Value()
  }

  /** The estimate of the power of ten is right, or one too low. */
  predicate EstimateOk(d: Double, estimate: int) {
    Reaches(d, estimate - 1) && !Reaches(d, estimate + 1)
  }

  /** The common scale of the start values: Two(e) * Bottom == Top * Ten(estimate). */
  function Top(e: int, estimate: int): (r: nat)
    ensures r > 0
  {
    if e >= 0 then Pow(2, e) else if estimate >= 0 then 1 else Pow(10, -estimate)
  }

  function Bottom(e: int, estimate: int): (r: nat)
    requires e >= 0 ==> estimate >= 0
    ensures r > 0
  {
    if e >= 0 then Pow(10, estimate)
    else if estimate >= 0 then Positive(Pow(10, estimate), Pow(2, -e)); Pow(10, estimate) * Pow(2, -e)
    else Pow(2, -e)
  }

  lemma Positive(x: int, y: int)
    requires x > 0 && y > 0
    ensures x * y > 0
  {
    MulLt(0, x, y);
  }

  lemma TopBottom(e: int, estimate: int)
    requires e >= 0 ==> estimate >= 0
    ensures Two(e) * Bottom(e, estimate) as real == Top(e, estimate) as real * Ten(estimate)
  {
    hide Pow, Two, Ten;
    if e >= 0 {
      TwoNat(e);
      TenNat(estimate);
    } else {
      TwoNat(-e);
      TwoInverse(e);
      if estimate >= 0 {
        TenNat(estimate);
        IntMul(Pow(10, estimate), Pow(2, -e));
        Rotate(Two(e), Ten(estimate), Two(-e));
      } else {
        TenNat(-estimate);
        TenInverse(estimate);
      }
    }
  }

  /** numerator / denominator and the deltas stand for v and its distances to the boundaries, over Ten(k). */
  ghost predicate Scaled(d: Double, numerator: int, denominator: int, minus: int, plus: int, k: int) {
    && 0 < denominator
    && d.Value() * denominator as real == numerator as real * Ten(k)
    && (d.Value() - d.LowerBoundary().Value()) * denominator as real == minus as real * Ten(k)
    && (d.UpperBoundary().Value() - d.Value()) * denominator as real == plus as real * Ten(k)
  }

  lemma Gaps(d: Double)
    requires 0 < d.bits < INFINITY
    ensures d.UpperBoundary().Value() - d.Value() == Two(d.Exponent() - 1)
    ensures d.Value() - d.LowerBoundary().Value() ==
              if d.LowerBoundaryIsCloser() then Two(d.Exponent() - 2) else Two(d.Exponent() - 1)
  {
    hide Two;
    var f, e := d.Significand(), d.Exponent();
    Halved(f, e);
    Minus1(2 * f, Two(e - 1));
    if d.LowerBoundaryIsCloser() {
      TwoStep(f, e);
      Minus1(4 * f, Two(e - 2));
    }
  }

  lemma Minus1(n: int, p: real)
    ensures n as real * p - (n - 1) as real * p == p
    ensures (n + 1) as real * p - n as real * p == p
  {
    RMulDist(n as real, 1.0, p);
  }
  /** The start values: everything doubled once, and all but the lower delta twice when that is closer. */
  lemma StartIsScaled(d: Double, estimate: int)
    requires 0 < d.bits < INFINITY
    requires d.Exponent() >= 0 ==> estimate >= 0
    ensures
      var a, b, f := Top(d.Exponent(), estimate), Bottom(d.Exponent(), estimate), d.Significand();
      if d.LowerBoundaryIsCloser() then Scaled(d, f * a * 2 * 2, b * 2 * 2, a, a * 2, estimate)
      else Scaled(d, f * a * 2, b * 2, a, a, estimate)
  {
    hide Two, Ten, Top, Bottom, Pow, Scaled;
    var e := d.Exponent();
    var a, b, f := Top(e, estimate), Bottom(e, estimate), d.Significand();
    TopBottom(e, estimate);
    Gaps(d);
    TwoHalves(e);
    if d.LowerBoundaryIsCloser() {
      ValueScales(f, Two(e), b, a, Ten(estimate), 4);
      GapScales(Two(e - 2), Two(e), b, a, Ten(estimate), 4, 1);
      GapScales(Two(e - 1), Two(e), b, a, Ten(estimate), 4, 2);
      ShowScaled(d, f * a * 2 * 2, b * 2 * 2, a, a * 2, estimate);
    } else {
      ValueScales(f, Two(e), b, a, Ten(estimate), 2);
      GapScales(Two(e - 1), Two(e), b, a, Ten(estimate), 2, 1);
      ShowScaled(d, f * a * 2, b * 2, a, a, estimate);
    }
  }

  lemma ShowScaled(d: Double, numerator: int, denominator: int, minus: int, plus: int, k: int)
    requires 0 < denominator
    requires d.Value() * denominator as real == numerator as real * Ten(k)
    requires (d.Value() - d.LowerBoundary().Value()) * denominator as real == minus as real * Ten(k)
    requires (d.UpperBoundary().Value() - d.Value()) * denominator as real == plus as real * Ten(k)
    ensures Scaled(d, numerator, denominator, minus, plus, k)
  {
  }

  lemma ValueScales(f: int, p: real, b: int, a: int, t: real, m: int)
    requires p * b as real == a as real * t
    ensures (f as real * p) * (b * m) as real == (f * a * m) as real * t
  {
    var rf, rb, ra, rm := f as real, b as real, a as real, m as real;
    IntMul(b, m);
    IntMul(f * a, m);
    IntMul(f, a);
    RMulAssoc(rf, p, rb * rm);
    RMulAssoc(p, rb, rm);
    RMulAssoc(rf, p * rb, rm);
    RMulAssoc(rf, ra, t);
    Rotate(rf * ra, rm, t);
  }

  lemma GapScales(gap: real, p: real, b: int, a: int, t: real, m: int, k: int)
    requires p * b as real == a as real * t && gap * m as real == p * k as real
    ensures gap * (b * m) as real == (a * k) as real * t
  {
    var rb, ra, rm, rk := b as real, a as real, m as real, k as real;
    IntMul(b, m);
    IntMul(a, k);
    Rotate(gap, rb, rm);
    RMulAssoc(p, rk, rb);
    Rotate(p, rb, rk);
    Rotate(ra, rk, t);
    assert (gap * rm) * rb == (p * rk) * rb;
    assert (p * rk) * rb == (p * rb) * rk by { Rotate(p, rk, rb); }
  }

  // ----- the range of estimates

  lemma PowerBounds()
    ensures Ten(342) > Two(1024) && Ten(-360) < Two(-1075)
  {
    hide Two, Ten, Pow;
    PowMul(10, 3, 114);
    PowMul(2, 9, 114);
    PowMul(10, 3, 120);
    PowMul(2, 9, 120);
    SmallTwos();
    SmallTens();
    PowBelow(Pow(2, 9), Pow(10, 3), 114);
    PowBelow(Pow(2, 9), Pow(10, 3), 120);
    TenNat(342);
    TwoNat(1026);
    TwoLess(1024, 1026);
    TenNat(360);
    TwoNat(1080);
    TenInverse(360);
    TwoInverse(1080);
    TwoLess(-1080, -1075);
    ReciprocalOrder(Two(1080), Ten(360), Two(-1080), Ten(-360));
  }

  /** A good estimate stays within a fixed range, and is not negative for numbers of at least one. */
  lemma EstimateRange(d: Double, estimate: int)
    requires 0 < d.bits < INFINITY && EstimateOk(d, estimate)
    ensures -360 <= estimate <= 342
    ensures d.Exponent() >= 0 ==> estimate >= 0
  {
    hide Two, Ten;
    UpperRange(d);
    PowerBounds();
    if estimate - 1 >= 342 { TenMonotone(342, estimate - 1); }
    if estimate + 1 <= -360 { TenMonotone(estimate + 1, -360); }
    if d.Exponent() >= 0 && estimate < 0 {
      TenMonotone(estimate + 1, 0);
      TwoSmall();
    }
  }

  lemma UpperRange(d: Double)
    requires 0 < d.bits < INFINITY
    ensures Two(-1075) < d.UpperBoundary().Value() < Two(1024)
    ensures d.Exponent() >= 0 ==> 1.0 < d.UpperBoundary().Value()
  {
    hide Two;
    Fields(d);
    var n, e := (2 * d.Significand() + 1) as real, d.Exponent();
    assert d.UpperBoundary().Value() == n * Two(e - 1);
    ProductRange(n, e);
  }

  lemma ProductRange(n: real, e: int)
    requires 2.0 < n < 18014398509481984.0 && -1074 <= e <= 971
    ensures Two(-1075) < n * Two(e - 1) < Two(1024)
    ensures e >= 0 ==> 1.0 < n * Two(e - 1)
  {
    hide Two;
    var p := Two(e - 1);
    TwoMonotone(-1075, e - 1);
    TwoNat(54);
    PowFiftyFour();
    TwoAdd(54, e - 1);
    TwoMonotone(54 + (e - 1), 1024);
    ProductAbove(1.0, n, p, p, Two(-1075));
    ProductUnder(n, Two(54), p, Two(54 + (e - 1)), Two(1024));
    if e >= 0 { UpperAboveOne(n, e); }
  }

  lemma UpperAboveOne(n: real, e: int)
    requires e >= 0 && n > 2.0
    ensures 1.0 < n * Two(e - 1)
  {
    hide Two;
    TwoMonotone(-1, e - 1);
    TwoHalves(0);
    TwoSmall();
    ProductAbove(2.0, n, Two(e - 1), 2.0 * Two(e - 1), 1.0);
  }

  lemma ProductUnder(n: real, t: real, p: real, q: real, r: real)
    requires 0.0 < p && n < t && t * p == q && q <= r
    ensures n * p < r
  {
    RMulLt(n, t, p);
  }

  lemma ProductAbove(t: real, n: real, p: real, q: real, r: real)
    requires 0.0 < p && t < n && t * p == q && r <= q
    ensures r < n * p
  {
    RMulLt(t, n, p);
  }

  lemma PowFiftyFour()
    ensures Pow(2, 54) == 4 * HIDDEN_BIT && Pow(2, 53) == 2 * HIDDEN_BIT
  {
    PowValues();
    PowAdd(2, 28, 26);
    PowAdd(2, 26, 2);
    PowAdd(2, 28, 25);
    PowAdd(2, 25, 3);
    assert Pow(2, 2) == 4 && Pow(2, 3) == 8;
  }
  // ----- computing the start values

  ghost predicate Apart(a: Bignum, b: Bignum) {
    a != b && a.bigits != b.bigits
  }

  /** Every start value of a double stays below this many bigits. */
  const START_ROOM: nat := 100

  lemma UnitBounds(f: nat, e: int, estimate: int)
    requires f < 2 * HIDDEN_BIT && -1074 <= e <= 971 && -360 <= estimate <= 342
    requires e >= 0 ==> estimate >= 0
    ensures
      var a, b := Top(e, estimate), Bottom(e, estimate);
      && a * 4 < BPow(START_ROOM) && b * 4 < BPow(START_ROOM) && f * a * 4 < BPow(START_ROOM)
      && a < BPow(START_ROOM) && b < BPow(START_ROOM) && f * a < BPow(START_ROOM)
  {
    hide Pow, BPow;
    var a, b := Top(e, estimate), Bottom(e, estimate);
    TenInBits(342);
    TenInBits(360);
    if estimate >= 0 { PowMonotone(10, estimate, 342); } else { PowMonotone(10, -estimate, 360); }
    if e >= 0 { PowMonotone(2, e, 971); } else { PowMonotone(2, -e, 1074); }
    PowMonotone(2, 971, 1440);
    PowMonotone(2, 0, 1440);
    PowZero(2);
    PowMonotone(2, 1368, 2442);
    PowMonotone(2, 1074, 2442);
    PowAdd(2, 1368, 1074);
    if e < 0 && estimate >= 0 {
      ProductAtMost(Pow(10, estimate), Pow(2, -e), Pow(2, 1368), Pow(2, 1074));
    }
    assert a <= Pow(2, 1440) && b <= Pow(2, 2442);
    BitsRoom(f, a, b);
  }

  lemma TenInBits(n: nat)
    ensures Pow(10, n) <= Pow(2, 4 * n)
  {
    PowMul(2, 4, n);
    SmallTwos();
    SmallTens();
    PowBelow(10, 16, n);
  }

  lemma BitsRoom(f: nat, a: nat, b: nat)
    requires f < 2 * HIDDEN_BIT && a <= Pow(2, 1440) && b <= Pow(2, 2442)
    ensures a * 4 < BPow(START_ROOM) && b * 4 < BPow(START_ROOM) && f * a * 4 < BPow(START_ROOM)
    ensures f * a < BPow(START_ROOM)
  {
    hide Pow, BPow;
    PowFiftyFour();
    BPowAsPow2(START_ROOM);
    PowAdd(2, 2, 1440);
    PowAdd(2, 2, 2442);
    PowAdd(2, 53, 1440);
    PowAdd(2, 2, 53 + 1440);
    SmallTwos();
    PowStrict(2, 1442, 28 * START_ROOM);
    PowStrict(2, 2444, 28 * START_ROOM);
    PowStrict(2, 1495, 28 * START_ROOM);
    ProductAtMost(f, a, Pow(2, 53), Pow(2, 1440));
    MulLe(0, f, a);
  }

  lemma TenPowerSize(n: nat)
    requires n <= 360
    ensures BitSize(OddPart(10)) * n / 28 + 2 <= CAPACITY
  {
    assert OddPart(10) == 5;
    assert BitSize(5) == 3;
  }

  /** Multiplies both by two. */
  method DoubleBoth(a: Bignum, b: Bignum)
    requires a.Valid() && b.Valid() && Apart(a, b) && a.Value() < BPow(START_ROOM) && b.Value() < BPow(START_ROOM)
    modifies a, a.bigits, b, b.bigits
    ensures a.Valid() && a.Value() == old(a.Value()) * 2
    ensures b.Valid() && b.Value() == old(b.Value()) * 2
  {
    hide Pow, BPow, Bignum.Valid, Bignum.Loose, Bignum.Value;
    PowOne(2);
    b.LengthAtMost(START_ROOM);
    b.ShiftLeft(1);
    a.LengthAtMost(START_ROOM);
    a.ShiftLeft(1);
  }

  /** Sets b to a power of two. */
  method PowerOfTwo(b: Bignum, n: nat)
    requires b.Valid()
    modifies b, b.bigits
    ensures b.Valid() && b.Value() == Pow(2, n)
  {
    hide Pow, BPow, Bignum.Valid, Bignum.Loose, Bignum.Value;
    b.AssignUInt16(1);
    b.One();
    b.ShiftLeft(n);
  }

  method PositiveExponentStart(significand: DoubleChunk, exponent: nat, estimatedPower: nat, needDeltas: bool,
                               numerator: Bignum, denominator: Bignum, deltaMinus: Bignum, deltaPlus: Bignum)
    requires numerator.Valid() && denominator.Valid() && deltaMinus.Valid() && deltaPlus.Valid()
    requires Apart(numerator, denominator) && Apart(numerator, deltaMinus) && Apart(numerator, deltaPlus)
    requires Apart(denominator, deltaMinus) && Apart(denominator, deltaPlus) && Apart(deltaMinus, deltaPlus)
    requires significand < 2 * HIDDEN_BIT && exponent <= 971 && estimatedPower <= 342
    modifies numerator, numerator.bigits, denominator, denominator.bigits
    modifies deltaMinus, deltaMinus.bigits, deltaPlus, deltaPlus.bigits
    ensures numerator.Valid() && denominator.Valid() && deltaMinus.Valid() && deltaPlus.Valid()
    ensures
      var a, b := Top(exponent, estimatedPower), Bottom(exponent, estimatedPower);
      if needDeltas then
        numerator.Value() == significand * a * 2 && denominator.Value() == b * 2 &&
        deltaMinus.Value() == a && deltaPlus.Value() == a
      else
        numerator.Value() == significand * a && denominator.Value() == b &&
        deltaMinus.Value() == old(deltaMinus.Value()) && deltaPlus.Value() == old(deltaPlus.Value())
  {
    hide Pow, BPow, BitSize, OddPart, Bignum.Valid, Bignum.Loose, Bignum.Value;
    UnitBounds(significand, exponent, estimatedPower);
    TenPowerSize(estimatedPower);
    numerator.AssignUInt64(significand);
    numerator.SmallLength();
    numerator.ShiftLeft(exponent);
    denominator.AssignPowerUInt16(10, estimatedPower);
    if needDeltas {
      DoubleBoth(numerator, denominator);
      PowerOfTwo(deltaPlus, exponent);
      PowerOfTwo(deltaMinus, exponent);
    }
  }
  method NegativeExponentPositivePowerStart(significand: DoubleChunk, exponent: int, estimatedPower: nat, needDeltas: bool,
                                            numerator: Bignum, denominator: Bignum, deltaMinus: Bignum, deltaPlus: Bignum)
    requires numerator.Valid() && denominator.Valid() && deltaMinus.Valid() && deltaPlus.Valid()
    requires Apart(numerator, denominator) && Apart(numerator, deltaMinus) && Apart(numerator, deltaPlus)
    requires Apart(denominator, deltaMinus) && Apart(denominator, deltaPlus) && Apart(deltaMinus, deltaPlus)
    requires significand < 2 * HIDDEN_BIT && -1074 <= exponent < 0 && estimatedPower <= 342
    modifies numerator, numerator.bigits, denominator, denominator.bigits
    modifies deltaMinus, deltaMinus.bigits, deltaPlus, deltaPlus.bigits
    ensures numerator.Valid() && denominator.Valid() && deltaMinus.Valid() && deltaPlus.Valid()
    ensures
      var a, b := Top(exponent, estimatedPower), Bottom(exponent, estimatedPower);
      if needDeltas then
        numerator.Value() == significand * a * 2 && denominator.Value() == b * 2 &&
        deltaMinus.Value() == a && deltaPlus.Value() == a
      else
        numerator.Value() == significand * a && denominator.Value() == b &&
        deltaMinus.Value() == old(deltaMinus.Value()) && deltaPlus.Value() == old(deltaPlus.Value())
  {
    hide Pow, BPow, BitSize, OddPart, Bignum.Valid, Bignum.Loose, Bignum.Value;
    UnitBounds(significand, exponent, estimatedPower);
    PowerBelowRoom(estimatedPower);
    TenPowerSize(estimatedPower);
    numerator.AssignUInt64(significand);
    denominator.AssignPowerUInt16(10, estimatedPower);
    denominator.LengthAtMost(START_ROOM);
    denominator.ShiftLeft(-exponent);
    if needDeltas {
      DoubleBoth(numerator, denominator);
      deltaPlus.AssignUInt16(1);
      deltaMinus.AssignUInt16(1);
    }
  }

  lemma PowerBelowRoom(n: nat)
    requires n <= 360
    ensures Pow(10, n) < BPow(START_ROOM)
  {
    hide Pow, BPow;
    TenInBits(n);
    BPowAsPow2(START_ROOM);
    PowStrict(2, 4 * n, 28 * START_ROOM);
  }

  method NegativeExponentNegativePowerStart(significand: DoubleChunk, exponent: int, estimatedPower: int, needDeltas: bool,
                                            numerator: Bignum, denominator: Bignum, deltaMinus: Bignum, deltaPlus: Bignum)
    requires numerator.Valid() && denominator.Valid() && deltaMinus.Valid() && deltaPlus.Valid()
    requires Apart(numerator, denominator) && Apart(numerator, deltaMinus) && Apart(numerator, deltaPlus)
    requires Apart(denominator, deltaMinus) && Apart(denominator, deltaPlus) && Apart(deltaMinus, deltaPlus)
    requires significand < 2 * HIDDEN_BIT && -1074 <= exponent < 0 && -360 <= estimatedPower < 0
    modifies numerator, numerator.bigits, denominator, denominator.bigits
    modifies deltaMinus, deltaMinus.bigits, deltaPlus, deltaPlus.bigits
    ensures numerator.Valid() && denominator.Valid() && deltaMinus.Valid() && deltaPlus.Valid()
    ensures
      var a, b := Top(exponent, estimatedPower), Bottom(exponent, estimatedPower);
      if needDeltas then
        numerator.Value() == significand * a * 2 && denominator.Value() == b * 2 &&
        deltaMinus.Value() == a && deltaPlus.Value() == a
      else
        numerator.Value() == significand * a && denominator.Value() == b &&
        deltaMinus.Value() == old(deltaMinus.Value()) && deltaPlus.Value() == old(deltaPlus.Value())
  {
    hide Pow, BPow, BitSize, OddPart, Bignum.Valid, Bignum.Loose, Bignum.Value;
    UnitBounds(significand, exponent, estimatedPower);
    TenPowerSize(-estimatedPower);
    // The numerator holds the power of ten until it is multiplied by the significand.
    numerator.AssignPowerUInt16(10, -estimatedPower);
    if needDeltas {
      deltaPlus.AssignBignum(numerator);
      deltaMinus.AssignBignum(numerator);
    }
    PowMonotoneB(START_ROOM, CAPACITY + numerator.exponent);
    numerator.MultiplyByUInt64(significand);
    PowerOfTwo(denominator, -exponent);
    if needDeltas {
      DoubleBoth(numerator, denominator);
    }
  }

  /** Sets numerator / denominator to the double over Ten(estimatedPower), and the deltas if wanted. */
  method InitialScaledStartValues(significand: DoubleChunk, exponent: int, lowerBoundaryIsCloser: bool,
                                  estimatedPower: int, needDeltas: bool,
                                  numerator: Bignum, denominator: Bignum, deltaMinus: Bignum, deltaPlus: Bignum)
    requires numerator.Valid() && denominator.Valid() && deltaMinus.Valid() && deltaPlus.Valid()
    requires Apart(numerator, denominator) && Apart(numerator, deltaMinus) && Apart(numerator, deltaPlus)
    requires Apart(denominator, deltaMinus) && Apart(denominator, deltaPlus) && Apart(deltaMinus, deltaPlus)
    requires significand < 2 * HIDDEN_BIT && -1074 <= exponent <= 971 && -360 <= estimatedPower <= 342
    requires exponent >= 0 ==> estimatedPower >= 0
    modifies numerator, numerator.bigits, denominator, denominator.bigits
    modifies deltaMinus, deltaMinus.bigits, deltaPlus, deltaPlus.bigits
    ensures numerator.Valid() && denominator.Valid() && deltaMinus.Valid() && deltaPlus.Valid()
    ensures
      var a, b := Top(exponent, estimatedPower), Bottom(exponent, estimatedPower);
      if !needDeltas then
        numerator.Value() == significand * a && denominator.Value() == b &&
        deltaMinus.Value() == old(deltaMinus.Value()) && deltaPlus.Value() == old(deltaPlus.Value())
      else if lowerBoundaryIsCloser then
        numerator.Value() == significand * a * 2 * 2 && denominator.Value() == b * 2 * 2 &&
        deltaMinus.Value() == a && deltaPlus.Value() == a * 2
      else
        numerator.Value() == significand * a * 2 && denominator.Value() == b * 2 &&
        deltaMinus.Value() == a && deltaPlus.Value() == a
    ensures denominator.Value() < BPow(START_ROOM)
  {
    hide Pow, BPow, Top, Bottom, Bignum.Valid, Bignum.Loose, Bignum.Value;
    UnitBounds(significand, exponent, estimatedPower);
    if exponent >= 0 {
      PositiveExponentStart(significand, exponent, estimatedPower, needDeltas,
                            numerator, denominator, deltaMinus, deltaPlus);
    } else if estimatedPower >= 0 {
      NegativeExponentPositivePowerStart(significand, exponent, estimatedPower, needDeltas,
                                         numerator, denominator, deltaMinus, deltaPlus);
    } else {
      NegativeExponentNegativePowerStart(significand, exponent, estimatedPower, needDeltas,
                                         numerator, denominator, deltaMinus, deltaPlus);
    }
    if needDeltas && lowerBoundaryIsCloser {
      DoubleBoth(numerator, denominator);
      PowOne(2);
      deltaPlus.LengthAtMost(START_ROOM);
      deltaPlus.ShiftLeft(1);
    }
  }
}
