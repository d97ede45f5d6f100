/**
 Doubles by their 64 bits, with the rounding interval of each: the reals that round to it under
 roundTiesToEven (section 4.3.1 of IEEE 754-2008).
 */
module Ieee {
  import opened Exact

  const HIDDEN_BIT: nat := 0x10_0000_0000_0000
  const INFINITY: nat := 0x7FF0_0000_0000_0000
  const DENORMAL_EXPONENT: int := -1074

  /** A binary number f * 2^e. */
  datatype Binary = Binary(f: int, e: int) {
    function Value(): real {
      f as real * Two(e)
    }
  }

  /** A non-negative double or positive infinity; the sign bit is clear. */
  datatype Double = Double(bits: nat) {
    predicate IsFinite() {
      bits < INFINITY
    }

    predicate IsDenormal() {
      bits / 0x10_0000_0000_0000 % 0x800 == 0
    }

    function Significand(): (f: nat) {
      if IsDenormal() then bits % 0x10_0000_0000_0000 else bits % 0x10_0000_0000_0000 + HIDDEN_BIT
    }

    function Exponent(): int {
      if IsDenormal() then DENORMAL_EXPONENT else bits / 0x10_0000_0000_0000 % 0x800 - 0x433
    }

    function AsBinary(): Binary {
      Binary(Significand(), Exponent())
    }

    function Value(): real {
      AsBinary().Value()
    }

    predicate LowerBoundaryIsCloser() {
      bits % 0x10_0000_0000_0000 == 0 && Exponent() != DENORMAL_EXPONENT
    }

    function UpperBoundary(): Binary {
      Binary(2 * Significand() + 1, Exponent() - 1)
    }

    function LowerBoundary(): Binary {
      if LowerBoundaryIsCloser() then Binary(4 * Significand() - 1, Exponent() - 2)
      else Binary(2 * Significand() - 1, Exponent() - 1)
    }

    function NextDouble(): Double {
      if bits == INFINITY then this else Double(bits + 1)
    }

    predicate IsEven() {
      Significand() % 2 == 0
    }
  }

  predicate Inside(x: real, low: real, high: real, closed: bool) {
    if closed then low <= x <= high else low < x < high
  }

  /** x is read as d: it lies between d's boundaries, which belong to the even neighbour. */
  predicate RoundsTo(x: real, d: Double) {
    && d.bits <= INFINITY
    && (d.bits > 0 ==> if d.IsEven() then d.LowerBoundary().Value() <= x else d.LowerBoundary().Value() < x)
    && (d.bits < INFINITY ==> if d.IsEven() then x <= d.UpperBoundary().Value() else x < d.UpperBoundary().Value())
  }

  // ----- fields

  /** The fields of a finite double, read off its bits. */
  lemma Fields(d: Double)
    requires d.bits <= INFINITY
    ensures d.bits < HIDDEN_BIT ==> d.IsDenormal() && d.Significand() == d.bits && d.Exponent() == DENORMAL_EXPONENT
    ensures d.bits >= HIDDEN_BIT ==>
              && !d.IsDenormal()
              && HIDDEN_BIT <= d.Significand() < 2 * HIDDEN_BIT
              && d.bits == d.Significand() + (d.Exponent() - DENORMAL_EXPONENT) * HIDDEN_BIT
              && DENORMAL_EXPONENT <= d.Exponent()
    ensures d.bits < INFINITY ==> d.Exponent() <= 971
    ensures d.bits == INFINITY ==> d.Exponent() == 972 && d.Significand() == HIDDEN_BIT
    ensures d.IsEven() <==> d.bits % 2 == 0
  {
    var b := d.bits / 0x10_0000_0000_0000;
    assert 0 <= b <= 0x7FF;
    assert b % 0x800 == b;
    LowBit(d.bits, b, d.bits % 0x10_0000_0000_0000);
  }

  lemma LowBit(bits: nat, b: nat, m: nat)
    requires bits == 0x10_0000_0000_0000 * b + m
    ensures bits % 2 == m % 2 == (m + HIDDEN_BIT) % 2
  {
    assert bits == 2 * (0x8_0000_0000_0000 * b) + m;
  }

  /** Next to each other: the significand grows by one, or starts over one exponent higher. */
  lemma NextFields(d: Double)
    requires d.bits < INFINITY
    ensures
      var n := d.NextDouble();
      if d.Significand() + 1 == 2 * HIDDEN_BIT then
        n.Significand() == HIDDEN_BIT && n.Exponent() == d.Exponent() + 1
      else n.Significand() == d.Significand() + 1 && n.Exponent() == d.Exponent()
    ensures d.NextDouble().IsEven() <==> !d.IsEven()
    ensures d.NextDouble().LowerBoundaryIsCloser() <==> d.Significand() + 1 == 2 * HIDDEN_BIT
  {
    Fields(d);
    Fields(d.NextDouble());
  }

  lemma TwoStep(f: int, e: int)
    ensures Binary(f, e).Value() == Binary(2 * f, e - 1).Value()
    ensures Binary(f, e).Value() == Binary(4 * f, e - 2).Value()
  {
    hide Two;
    TwoAdd(e - 1, 1);
    TwoAdd(e - 2, 2);
    TwoSmall();
    var x, p, q := f as real, Two(e - 1), Two(e - 2);
    assert x * (p * 2.0) == (2.0 * x) * p;
    assert x * (q * 4.0) == (4.0 * x) * q;
  }

  /** Two neighbours share a boundary. */
  lemma BoundariesMeet(d: Double)
    requires d.bits < INFINITY
    ensures d.NextDouble().LowerBoundary().Value() == d.UpperBoundary().Value()
  {
    hide Two;
    NextFields(d);
    var f, e := d.Significand(), d.Exponent();
    if f + 1 == 2 * HIDDEN_BIT {
      assert 4 * HIDDEN_BIT - 1 == 2 * f + 1;
    }
  }
  lemma Halved(f: int, e: int)
    ensures Binary(f, e).Value() == (2 * f) as real * Two(e - 1)
  {
    hide Two;
    TwoStep(f, e);
  }

  lemma NextValue(d: Double)
    requires d.bits < INFINITY
    ensures d.NextDouble().Value() == (2 * (d.Significand() + 1)) as real * Two(d.Exponent() - 1)
  {
    hide Two;
    NextFields(d);
    Halved(d.Significand() + 1, d.Exponent());
    if d.Significand() + 1 == 2 * HIDDEN_BIT { TwoStep(HIDDEN_BIT, d.Exponent() + 1); }
  }

  /** A boundary lies halfway between two neighbours. */
  lemma Midpoint(d: Double)
    requires d.bits < INFINITY
    ensures d.UpperBoundary().Value() - d.Value() == d.NextDouble().Value() - d.UpperBoundary().Value() > 0.0
  {
    hide Two, Double.Significand, Double.Exponent, Double.NextDouble;
    var f, e := d.Significand(), d.Exponent();
    NextValue(d);
    Halved(f, e);
    Halves(f, Two(e - 1), d.Value(), d.UpperBoundary().Value(), d.NextDouble().Value());
  }

  lemma Halves(f: int, p: real, x: real, y: real, z: real)
    requires p > 0.0
    requires x == (2 * f) as real * p && y == (2 * f + 1) as real * p && z == (2 * (f + 1)) as real * p
    ensures y - x == z - y > 0.0
  {
    var g := (2 * f) as real;
    assert (2 * f + 1) as real == g + 1.0;
    assert (2 * (f + 1)) as real == g + 2.0;
    RMulDist(g, 1.0, p);
    RMulDist(g, 2.0, p);
  }

  lemma Previous(d: Double)
    requires 0 < d.bits <= INFINITY
    ensures Double(d.bits - 1).NextDouble() == d
    ensures d.LowerBoundary().Value() == Double(d.bits - 1).UpperBoundary().Value()
    ensures d.LowerBoundary().Value() < d.Value()
  {
    BoundariesMeet(Double(d.bits - 1));
    Midpoint(Double(d.bits - 1));
  }

  lemma {:induction false} BoundariesOrdered(a: Double, b: Double)
    requires a.bits < b.bits <= INFINITY
    ensures a.UpperBoundary().Value() <= b.LowerBoundary().Value()
    ensures a.Value() < b.Value()
    decreases b.bits
  {
    var p := Double(b.bits - 1);
    Previous(b);
    Midpoint(p);
    if a != p {
      BoundariesOrdered(a, p);
      Previous(p);
    }
  }

  /** No real is read as two different doubles. */
  lemma RoundsToUnique(x: real, a: Double, b: Double)
    requires RoundsTo(x, a) && RoundsTo(x, b)
    ensures a == b
  {
    if a.bits < b.bits { RoundsApart(x, a, b); }
    if b.bits < a.bits { RoundsApart(x, b, a); }
  }

  lemma RoundsApart(x: real, a: Double, b: Double)
    requires a.bits < b.bits <= INFINITY
    ensures !(RoundsTo(x, a) && RoundsTo(x, b))
  {
    BoundariesOrdered(a, b);
    Previous(b);
    var p := Double(b.bits - 1);
    NextFields(p);
    if a != p {
      BoundariesOrdered(a, p);
      Midpoint(p);
      Previous(p);
    }
  }

  /** The rounding interval is roundTiesToEven: nothing is nearer, and only an even double wins a tie. */
  lemma RoundsToNearest(x: real, d: Double, other: Double)
    requires RoundsTo(x, d) && d.IsFinite() && other.IsFinite() && d != other
    ensures Abs(x - d.Value()) <= Abs(x - other.Value())
    ensures Abs(x - d.Value()) == Abs(x - other.Value()) ==> d.IsEven()
  {
    if d.bits < other.bits {
      Midpoint(d);
      if d.NextDouble() != other { BoundariesOrdered(d.NextDouble(), other); }
    } else {
      var p := Double(d.bits - 1);
      Previous(d);
      Midpoint(p);
      if p != other { BoundariesOrdered(other, p); }
    }
  }

  // ----- guesses

  /** The guess is the double to be read, or the one just below it. */
  ghost predicate GuessOk(x: real, guess: Double) {
    RoundsTo(x, guess) || (guess.bits < INFINITY && RoundsTo(x, guess.NextDouble()))
  }

  lemma DecideOne(x: real, guess: Double)
    requires guess.bits < INFINITY && GuessOk(x, guess)
    ensures
      var b := guess.UpperBoundary().Value();
      && (x < b || (x == b && guess.IsEven()) ==> RoundsTo(x, guess))
      && (x > b || (x == b && !guess.IsEven()) ==> RoundsTo(x, guess.NextDouble()))
  {
    hide Binary.Value, Double.UpperBoundary, Double.LowerBoundary, Double.IsEven;
    BoundariesMeet(guess);
    NextFields(guess);
    Middle(guess);
  }

  lemma Middle(d: Double)
    requires d.bits < INFINITY
    ensures d.bits > 0 ==> d.LowerBoundary().Value() < d.UpperBoundary().Value()
    ensures d.NextDouble().bits < INFINITY ==> d.UpperBoundary().Value() < d.NextDouble().UpperBoundary().Value()
  {
    hide Binary.Value, Double.UpperBoundary, Double.LowerBoundary, Double.Value;
    Midpoint(d);
    if d.bits > 0 { Previous(d); }
    var n := d.NextDouble();
    if n.bits < INFINITY {
      Midpoint(n);
      Previous(n);
    }
  }
}
