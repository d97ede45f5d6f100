/**
 What a shortest printer owes: a decimal in the rounding interval that no shorter one could replace,
 and the closest of its length.
 */
module Shortest {
  import opened Powers
  import opened Exact
  import opened Ieee
  import opened Decimals

  function Multiple(n: int, step: real): real {
    n as real * step
  }

  /** The decimal n * 10^q. */
  function Dec(n: int, q: int): real {
    Multiple(n, Ten(q))
  }

  /** No multiple of 10^q lies in the interval. */
  ghost predicate NoneAt(q: int, low: real, high: real, closed: bool) {
    forall n: int :: !Inside(Dec(n, q), low, high, closed)
  }

  /**
   c * 10^q lies in the interval around v, no multiple of 10^(q+1) does, no multiple of 10^q in the
   interval is closer to v, and of two equally close ones c is the even one.
   */
  ghost predicate IsShortest(c: int, q: int, low: real, v: real, high: real, closed: bool) {
    && Inside(Dec(c, q), low, high, closed)
    && NoneAt(q + 1, low, high, closed)
    && (forall n: int :: Inside(Dec(n, q), low, high, closed) ==> Abs(Dec(c, q) - v) <= Abs(Dec(n, q) - v))
    && (forall n: int :: n != c && Inside(Dec(n, q), low, high, closed) && Abs(Dec(c, q) - v) == Abs(Dec(n, q) - v)
          ==> c % 2 == 0)
  }

  ghost predicate NoMultipleIn(step: real, low: real, high: real) {
    forall n: int :: !(low <= Multiple(n, step) <= high)
  }

  /**
   The same on any grid, with nothing left to chance: strictly inside, and strictly closest even
   counting the boundaries.
   */
  ghost predicate Sure(c: int, step: real, low: real, v: real, high: real) {
    && low < Multiple(c, step) < high
    && NoMultipleIn(step * 10.0, low, high)
    && (forall n: int :: n != c && low <= Multiple(n, step) <= high ==>
                           Abs(Multiple(c, step) - v) < Abs(Multiple(n, step) - v))
  }

  ghost predicate IsSurelyShortest(c: int, q: int, low: real, v: real, high: real) {
    Sure(c, Ten(q), low, v, high)
  }

  lemma DecShift(n: int, q: int, k: nat)
    ensures Dec(n, q + k) == Dec(n * Pow(10, k), q)
  {
    hide Ten;
    TenAdd(k, q);
    TenNat(k);
    IntMul(n, Pow(10, k));
    RMulAssoc(n as real, Ten(k), Ten(q));
  }

  /** Within the interval a decimal cannot sit at a higher power of ten than the shortest one. */
  lemma NoCoarser(c: int, q: int, low: real, v: real, high: real, closed: bool, n: int, q': int)
    requires IsShortest(c, q, low, v, high, closed)
    requires Inside(Dec(n, q'), low, high, closed)
    ensures q' <= q
  {
    if q' > q {
      DecShift(n, q + 1, q' - (q + 1));
    }
  }

  /** Every decimal in the interval, at any power of ten, has at least as many digits. */
  lemma FewestDigits(c: int, q: int, low: real, v: real, high: real, closed: bool, length: nat, n: int, q': int)
    requires IsShortest(c, q, low, v, high, closed) && 0.0 < low
    requires length > 0 && Pow(10, length - 1) <= c
    requires Inside(Dec(n, q'), low, high, closed)
    ensures Pow(10, length - 1) <= n
  {
    hide Ten, Pow;
    NoCoarser(c, q, low, v, high, closed, n, q');
    var t := Pow(10, length - 1);
    if n < t {
      DecPositive(n, q');
      DecLe(n, q', q);
      DecOrder(n, t, q);
      DecOrder(t, c, q);
      if length == 1 {
        PowZero(10);
      } else {
        PowTen(length - 2);
        DecShift(Pow(10, length - 2), q, 1);
        PowTen(0);
        PowZero(10);
      }
      assert false;
    }
  }

  lemma DecPositive(n: int, q: int)
    ensures Dec(n, q) > 0.0 <==> n > 0
  {
    hide Ten;
    RCancel(0.0, n as real, Ten(q));
  }

  lemma DecOrder(m: int, n: int, q: int)
    ensures Dec(m, q) < Dec(n, q) <==> m < n
    ensures Dec(m, q) <= Dec(n, q) <==> m <= n
  {
    hide Ten;
    RCancel(m as real, n as real, Ten(q));
  }

  lemma DecLe(n: int, q: int, q': int)
    requires n >= 0 && q <= q'
    ensures Dec(n, q) <= Dec(n, q')
  {
    hide Ten;
    TenMonotone(q, q');
    RMulLe(Ten(q), Ten(q'), n as real);
  }

  /** A surely shortest decimal is shortest, however the boundaries count. */
  lemma SureIsShortest(c: int, q: int, low: real, v: real, high: real, closed: bool)
    requires IsSurelyShortest(c, q, low, v, high)
    ensures IsShortest(c, q, low, v, high, closed)
  {
    hide Multiple, Ten, Abs;
    TenAdd(q, 1);
    TwoSmall();
    assert NoMultipleIn(Ten(q + 1), low, high);
  }

  /** The specification leaves no choice: it has at most one solution. */
  lemma ShortestIsUnique(c: int, q: int, c': int, q': int, low: real, v: real, high: real, closed: bool)
    requires IsShortest(c, q, low, v, high, closed)
    requires IsShortest(c', q', low, v, high, closed)
    ensures c == c' && q == q'
  {
    NoCoarser(c, q, low, v, high, closed, c', q');
    NoCoarser(c', q', low, v, high, closed, c, q);
    if c < c' { OneSideCloser(c, c', q, low, v, high, closed); }
    if c' < c { OneSideCloser(c', c, q, low, v, high, closed); }
  }

  lemma OneSideCloser(c: int, c': int, q: int, low: real, v: real, high: real, closed: bool)
    requires c < c'
    ensures !(IsShortest(c, q, low, v, high, closed) && IsShortest(c', q, low, v, high, closed))
  {
    hide Dec;
    DecOrder(c, c', q);
    DecOrder(c, c + 1, q);
    DecOrder(c + 1, c', q);
  }

  /** Multiplying the interval and v by a power of ten moves the exponent along. */
  lemma ShortestScales(c: int, q: int, low: real, v: real, high: real, k: int, low': real, v': real, high': real)
    requires low' == low * Ten(k) && v' == v * Ten(k) && high' == high * Ten(k)
    requires IsSurelyShortest(c, q, low', v', high')
    ensures IsSurelyShortest(c, q - k, low, v, high)
  {
    hide Sure, Ten;
    TenAdd(q - k, k);
    SureScales(c, Ten(q - k), low, v, high, Ten(k), Ten(q), low', v', high');
  }

  /** A common positive factor changes nothing. */
  lemma SureScales(c: int, step: real, low: real, v: real, high: real, t: real,
                   step': real, low': real, v': real, high': real)
    requires t > 0.0 && step' == step * t && low' == low * t && v' == v * t && high' == high * t
    requires Sure(c, step', low', v', high')
    ensures Sure(c, step, low, v, high)
  {
    hide Multiple, Abs;
    ScaledInside(c, step, low, high, t, step', low', high');
    var step10 := step * 10.0;
    TenSteps(step, t, step');
    forall n: int
      ensures !(low <= Multiple(n, step10) <= high)
    {
      ScaledInside(n, step10, low, high, t, step' * 10.0, low', high');
    }
    forall n: int | n != c && low <= Multiple(n, step) <= high
      ensures Abs(Multiple(c, step) - v) < Abs(Multiple(n, step) - v)
    {
      ScaledInside(n, step, low, high, t, step', low', high');
      ScaledDistance(Multiple(c, step), Multiple(n, step), v, t, Multiple(c, step'), Multiple(n, step'), v');
    }
  }

  lemma TenSteps(step: real, t: real, step': real)
    requires step' == step * t
    ensures step' * 10.0 == (step * 10.0) * t
  {
  }

  lemma ScaledInside(n: int, step: real, low: real, high: real, t: real, step': real, low': real, high': real)
    requires t > 0.0 && step' == step * t && low' == low * t && high' == high * t
    ensures Multiple(n, step') == Multiple(n, step) * t
    ensures low' <= Multiple(n, step') <==> low <= Multiple(n, step)
    ensures low' < Multiple(n, step') <==> low < Multiple(n, step)
    ensures Multiple(n, step') <= high' <==> Multiple(n, step) <= high
    ensures Multiple(n, step') < high' <==> Multiple(n, step) < high
  {
    RMulAssoc(n as real, step, t);
    RCancel(low, Multiple(n, step), t);
    RCancel(Multiple(n, step), low, t);
    RCancel(Multiple(n, step), high, t);
  }

  lemma ScaledDistance(x: real, y: real, v: real, t: real, x': real, y': real, v': real)
    requires t > 0.0 && x' == x * t && y' == y * t && v' == v * t && Abs(x' - v') < Abs(y' - v')
    ensures Abs(x - v) < Abs(y - v)
  {
    hide Abs;
    RMulDist(x, v, t);
    RMulDist(y, v, t);
    SameSize(x - v, x' - v', t);
    SameSize(y - v, y' - v', t);
    RCancel(Abs(x - v), Abs(y - v), t);
  }

  lemma SameSize(x: real, x': real, t: real)
    requires t > 0.0 && x' == x * t
    ensures Abs(x') == Abs(x) * t
  {
    ScaledAbs(x, t);
  }

  lemma ScaledAbs(x: real, t: real)
    requires t > 0.0
    ensures Abs(x * t) == Abs(x) * t
  {
    RCancel(x, 0.0, t);
  }

  /** A shortest decimal of a double's rounding interval is read back as that double. */
  lemma ShortestReadsBack(c: int, q: int, d: Double)
    requires d.IsFinite()
    requires IsShortest(c, q, d.LowerBoundary().Value(), d.Value(), d.UpperBoundary().Value(), d.IsEven())
    ensures RoundsTo(Dec(c, q), d)
  {
  }

  // ----- printed decimals

  /** What a shortest printer must leave for a double: its digits and the position of the decimal point. */
  ghost predicate PrintsShortest(d: Double, digits: seq<char>, point: int) {
    && digits != [] && AreDigits(digits) && Pow(10, |digits| - 1) <= Number(digits)
    && IsShortest(Number(digits), point - |digits|,
                  d.LowerBoundary().Value(), d.Value(), d.UpperBoundary().Value(), d.IsEven())
  }

  /** Two printers that meet the specification agree on every character and on the decimal point. */
  lemma PrintsAlike(d: Double, digits: seq<char>, point: int, digits': seq<char>, point': int)
    requires PrintsShortest(d, digits, point) && PrintsShortest(d, digits', point')
    ensures digits == digits' && point == point'
  {
    hide IsShortest, Number, Pow;
    ShortestIsUnique(Number(digits), point - |digits|, Number(digits'), point' - |digits'|,
                     d.LowerBoundary().Value(), d.Value(), d.UpperBoundary().Value(), d.IsEven());
    NumberBound(digits);
    NumberBound(digits');
    if |digits| < |digits'| { PowMonotone(10, |digits|, |digits'| - 1); }
    if |digits'| < |digits| { PowMonotone(10, |digits'|, |digits| - 1); }
    NumberInjective(digits, digits');
  }
}
