/**
 Shortest digit generation in exact integers. The interval lo..hi around mid and the unit d are all
 scaled alike: the candidates with as many digits as generated so far are the multiples of d.
 */
module Dragon {
  import opened Powers
  import opened Exact
  import opened Ieee
  import opened Shortest

  function Mult(n: int, d: int): int {
    n * d
  }

  function Dist(x: int, y: int): int {
    if x < y then y - x else x - y
  }

  predicate Within(x: int, lo: int, hi: int, closed: bool) {
    if closed then lo <= x <= hi else lo < x < hi
  }

  /** No multiple of d lies within the interval. */
  ghost predicate NoMultiple(d: int, lo: int, hi: int, closed: bool) {
    forall n: int :: !Within(Mult(n, d), lo, hi, closed)
  }

  /**
   c * d lies within the interval, no multiple of 10 * d does, no multiple of d within it is closer
   to mid, and of two that are equally close c is the even one.
   */
  ghost predicate Best(c: int, d: int, lo: int, mid: int, hi: int, closed: bool) {
    && Within(Mult(c, d), lo, hi, closed)
    && NoMultiple(10 * d, lo, hi, closed)
    && (forall n: int :: Within(Mult(n, d), lo, hi, closed) ==> Dist(Mult(c, d), mid) <= Dist(Mult(n, d), mid))
    && (forall n: int :: n != c && Within(Mult(n, d), lo, hi, closed) && Dist(Mult(c, d), mid) == Dist(Mult(n, d), mid)
          ==> c % 2 == 0)
  }

  /** The digits so far make c, and x is what is left of mid at ten times their unit. */
  ghost predicate Generating(c: int, x: int, d: int, lo: int, mid: int, hi: int, closed: bool) {
    && 0 < lo < mid < hi && 0 < d
    && Mult(10 * c, d) + x == mid && 0 <= x < 10 * d
    && NoMultiple(10 * d, lo, hi, closed)
  }

  // ----- where multiples of d can lie when c is the floor of mid / d and r the remainder

  lemma MultOrder(m: int, n: int, d: int)
    requires m <= n && 0 < d
    ensures Mult(m, d) <= Mult(n, d)
  {
    MulLe(m, n, d);
  }

  lemma MultNext(n: int, d: int)
    ensures Mult(n + 1, d) == Mult(n, d) + d
  {
    MulDist(n, 1, d);
  }

  /** The two room tests say which of the neighbours of mid lie within the interval. */
  lemma Rooms(c: int, d: int, r: int, lo: int, mid: int, hi: int, closed: bool)
    requires 0 < d && lo < mid < hi && Mult(c, d) + r == mid && 0 <= r < d
    ensures Within(Mult(c, d), lo, hi, closed) <==> if closed then r <= mid - lo else r < mid - lo
    ensures Within(Mult(c + 1, d), lo, hi, closed) <==> if closed then r + (hi - mid) >= d else r + (hi - mid) > d
  {
    MultNext(c, d);
  }

  /** Every other multiple is at least as far out as the neighbour on its side. */
  lemma Outer(c: int, d: int, r: int, mid: int, n: int)
    requires 0 < d && Mult(c, d) + r == mid && 0 <= r < d
    ensures n <= c ==> Mult(n, d) <= Mult(c, d) && (n < c ==> Mult(n, d) + d <= Mult(c, d))
    ensures n > c ==> Mult(n, d) >= Mult(c, d) + d && (n > c + 1 ==> Mult(n, d) >= Mult(c, d) + d + d)
  {
    hide Mult;
    MultNext(c, d);
    MultNext(c + 1, d);
    MultNext(n, d);
    if n <= c { MultOrder(n, c, d); }
    if n < c { MultOrder(n + 1, c, d); }
    if n > c { MultOrder(c + 1, n, d); }
    if n > c + 1 { MultOrder(c + 2, n, d); }
  }

  /** With neither neighbour inside, nothing of this length is, and generation goes on. */
  lemma GoOn(c: int, d: int, r: int, lo: int, mid: int, hi: int, closed: bool)
    requires 0 < d && 0 < lo < mid < hi && Mult(c, d) + r == mid && 0 <= r < d
    requires !Within(Mult(c, d), lo, hi, closed) && !Within(Mult(c + 1, d), lo, hi, closed)
    ensures Generating(c, 10 * r, d, 10 * lo, 10 * mid, 10 * hi, closed)
  {
    hide Mult;
    MultNext(c, d);
    forall n: int
      ensures !Within(Mult(n, 10 * d), 10 * lo, 10 * hi, closed)
    {
      Outer(c, d, r, mid, n);
      MultTen(n, d);
    }
    MultTen(c, d);
  }

  lemma MultTen(n: int, d: int)
    ensures Mult(n, 10 * d) == 10 * Mult(n, d) == Mult(10 * n, d)
  {
    MulAssoc(10, n, d);
  }

  lemma RoundDown(c: int, d: int, r: int, lo: int, mid: int, hi: int, closed: bool)
    requires 0 < d && lo < mid < hi && Mult(c, d) + r == mid && 0 <= r < d
    requires NoMultiple(10 * d, lo, hi, closed)
    requires Within(Mult(c, d), lo, hi, closed)
    requires !Within(Mult(c + 1, d), lo, hi, closed) || 2 * r < d || (2 * r == d && c % 2 == 0)
    ensures Best(c, d, lo, mid, hi, closed)
  {
    hide Mult;
    MultNext(c, d);
    forall n: int | Within(Mult(n, d), lo, hi, closed)
      ensures Dist(Mult(c, d), mid) <= Dist(Mult(n, d), mid)
      ensures n != c && Dist(Mult(c, d), mid) == Dist(Mult(n, d), mid) ==> c % 2 == 0
    {
      Outer(c, d, r, mid, n);
    }
  }

  lemma RoundUp(c: int, d: int, r: int, lo: int, mid: int, hi: int, closed: bool)
    requires 0 < d && lo < mid < hi && Mult(c, d) + r == mid && 0 <= r < d
    requires NoMultiple(10 * d, lo, hi, closed)
    requires Within(Mult(c + 1, d), lo, hi, closed)
    requires !Within(Mult(c, d), lo, hi, closed) || 2 * r > d || (2 * r == d && c % 2 != 0)
    ensures Best(c + 1, d, lo, mid, hi, closed)
  {
    hide Mult;
    MultNext(c, d);
    forall n: int | Within(Mult(n, d), lo, hi, closed)
      ensures Dist(Mult(c + 1, d), mid) <= Dist(Mult(n, d), mid)
      ensures n != c + 1 && Dist(Mult(c + 1, d), mid) == Dist(Mult(n, d), mid) ==> (c + 1) % 2 == 0
    {
      Outer(c, d, r, mid, n);
    }
  }

  /** A candidate within the interval never ends in a zero, so a last digit that is rounded up is no 9. */
  lemma NoTrailingZero(c: int, d: int, lo: int, hi: int, closed: bool)
    requires NoMultiple(10 * d, lo, hi, closed) && Within(Mult(c, d), lo, hi, closed)
    ensures c % 10 != 0
  {
    if c % 10 == 0 {
      MultTen(c / 10, d);
    }
  }

  /** When some multiple with a leading one is not above the interval, the best one has that many digits. */
  lemma Leading(c: int, d: int, lo: int, mid: int, hi: int, closed: bool, s: int)
    requires Best(c, d, lo, mid, hi, closed) && 0 < d && 0 < lo
    requires s % 10 == 0 || s == 1
    requires if closed then Mult(s, d) <= hi else Mult(s, d) < hi
    ensures s <= c
  {
    if c < s {
      hide Mult;
      if c <= 0 {
        MultOrder(c, 0, d);
        MultZero(d);
      }
      MultNext(c, d);
      MultOrder(c + 1, s, d);
      if s % 10 == 0 { MultTen(s / 10, d); }
    }
  }

  lemma MultZero(d: int)
    ensures Mult(0, d) == 0
  {
  }

  /** The integer statement is the real one, once the unit d is known to stand for 10^q. */
  lemma BestIsShortest(c: int, d: int, lo: int, mid: int, hi: int, closed: bool, q: int, low: real, v: real, high: real)
    requires Best(c, d, lo, mid, hi, closed) && 0 < d
    requires low * d as real == lo as real * Ten(q)
    requires v * d as real == mid as real * Ten(q)
    requires high * d as real == hi as real * Ten(q)
    ensures IsShortest(c, q, low, v, high, closed)
  {
    hide Best, Mult, Dec, Ten;
    BestInside(c, d, lo, mid, hi, closed, q, low, high);
    forall n: int | Inside(Dec(n, q), low, high, closed)
      ensures Abs(Dec(c, q) - v) <= Abs(Dec(n, q) - v)
      ensures n != c && Abs(Dec(c, q) - v) == Abs(Dec(n, q) - v) ==> c % 2 == 0
    {
      BestCloser(c, d, lo, mid, hi, closed, q, low, v, high, n);
    }
  }

  lemma BestInside(c: int, d: int, lo: int, mid: int, hi: int, closed: bool, q: int, low: real, high: real)
    requires Best(c, d, lo, mid, hi, closed) && 0 < d
    requires low * d as real == lo as real * Ten(q)
    requires high * d as real == hi as real * Ten(q)
    ensures Inside(Dec(c, q), low, high, closed) && NoneAt(q + 1, low, high, closed)
  {
    hide Mult, Dec, Ten;
    SameInside(c, 1, d, lo, hi, closed, q, low, high);
    var q1 := q + 1;
    forall n: int
      ensures !Inside(Dec(n, q1), low, high, closed)
    {
      SameInside(n, 10, d, lo, hi, closed, q, low, high);
    }
  }

  lemma BestCloser(c: int, d: int, lo: int, mid: int, hi: int, closed: bool, q: int, low: real, v: real, high: real, n: int)
    requires Best(c, d, lo, mid, hi, closed) && 0 < d
    requires low * d as real == lo as real * Ten(q)
    requires v * d as real == mid as real * Ten(q)
    requires high * d as real == hi as real * Ten(q)
    requires Inside(Dec(n, q), low, high, closed)
    ensures Abs(Dec(c, q) - v) <= Abs(Dec(n, q) - v)
    ensures n != c && Abs(Dec(c, q) - v) == Abs(Dec(n, q) - v) ==> c % 2 == 0
  {
    hide Mult, Dec, Ten;
    SameInside(n, 1, d, lo, hi, closed, q, low, high);
    assert Dist(Mult(c, d), mid) <= Dist(Mult(n, d), mid);
    SameDistance(c, d, mid, q, v);
    SameDistance(n, d, mid, q, v);
    RatioOrder(Abs(Dec(c, q) - v), Abs(Dec(n, q) - v),
               Dist(Mult(c, d), mid) as real, Dist(Mult(n, d), mid) as real, d as real, Ten(q));
  }

  /** n times k*d (k is 1 or 10) within the integer interval is n * k * 10^q inside the real one. */
  lemma SameInside(n: int, k: int, d: int, lo: int, hi: int, closed: bool, q: int, low: real, high: real)
    requires 0 < d && (k == 1 || k == 10)
    requires low * d as real == lo as real * Ten(q)
    requires high * d as real == hi as real * Ten(q)
    ensures Inside(Dec(n, if k == 1 then q else q + 1), low, high, closed) <==> Within(Mult(n, k * d), lo, hi, closed)
  {
    hide Ten;
    var r, m, t := d as real, Mult(n, k * d) as real, Ten(q);
    var x := Dec(n, if k == 1 then q else q + 1);
    TenAdd(1, q);
    TwoSmall();
    IntMul(n, k * d);
    IntMul(k, d);
    UnitValue(n as real, k as real, r, t);
    assert x * r == m * t;
    SameOrder(low, x, r, lo as real, m, t);
    SameOrder(x, high, r, m, hi as real, t);
  }

  lemma SameOrder(x: real, y: real, r: real, x': real, y': real, t: real)
    requires 0.0 < r && 0.0 < t && x * r == x' * t && y * r == y' * t
    ensures (x < y <==> x' < y') && (x <= y <==> x' <= y')
  {
    RCancel(x, y, r);
    RCancel(x', y', t);
  }

  lemma RatioOrder(a: real, b: real, x: real, y: real, d: real, t: real)
    requires 0.0 < d && 0.0 < t && a * d == x * t && b * d == y * t && x <= y
    ensures a <= b && (a == b ==> x == y)
  {
    RMulLe(x, y, t);
    assert a * d <= b * d;
    RCancel(a, b, d);
    if a == b { EqualRatio(a, x, y, d, t); }
  }

  lemma EqualRatio(a: real, x: real, y: real, d: real, t: real)
    requires 0.0 < t && a * d == x * t && a * d == y * t
    ensures x == y
  {
    RCancel(x, y, t);
  }

  lemma UnitValue(n: real, k: real, d: real, t: real)
    ensures (n * (k * t)) * d == (n * (k * d)) * t
  {
    RMulAssoc(n, k * t, d);
    RMulAssoc(n, k * d, t);
    RMulAssoc(k, t, d);
    RMulAssoc(k, d, t);
  }

  lemma SameDistance(n: int, d: int, mid: int, q: int, v: real)
    requires 0 < d && v * d as real == mid as real * Ten(q)
    ensures Abs(Dec(n, q) - v) * d as real == Dist(Mult(n, d), mid) as real * Ten(q)
  {
    hide Ten;
    var r, m, t := d as real, Mult(n, d) as real, Ten(q);
    IntMul(n, d);
    UnitValue(n as real, 1.0, r, t);
    RMulDist(Dec(n, q), v, r);
    RMulDist(m, mid as real, t);
    ScaledAbs(Dec(n, q) - v, r);
    ScaledAbs(m - mid as real, t);
  }
}
