/** The arithmetic behind Bignum division with a small quotient, on plain integers. */
module SmallDivision {
  import opened Powers
  import opened Bigits

  lemma CombineQuotients(v: int, o: int, q: int, q': int, r: int)
    requires 0 <= r < o && v == q * o + (q' * o + r) && v < 0x1_0000 * o
    ensures v == (q + q') * o + r
    ensures q + q' < 0x1_0000
  {
    MulDist(q, q', o);
    if q + q' >= 0x1_0000 { MulLe(0x1_0000, q + q', o); }
  }

  lemma StillSmall(v: int, o: int, q: int, w: int)
    requires v == q * o + w && v < 0x1_0000 * o && 0 <= q && 0 < o
    ensures w < 0x1_0000 * o
  {
    MulLe(0, q, o);
  }

  lemma AddQuotient(v: int, o: int, q: int, t: int, w: int, w': int)
    requires v == q * o + w && w' == w - t * o && 0 < w' && v < 0x1_0000 * o && 0 < o
    requires 0 <= q && 0 <= t
    ensures v == (q + t) * o + w'
    ensures q + t < 0x1_0000
    ensures w' < 0x1_0000 * o
  {
    MulDist(q, t, o);
    MulLe(0, q + t, o);
    if q + t >= 0x1_0000 { MulLe(0x1_0000, q + t, o); }
  }

  /** A number one place longer than o, with top bigit t: t multiples of o come off and leave something. */
  lemma TopMultiples(v: int, o: int, t: int, p: int)
    requires t * p <= v < (t + 1) * p && 0 < o < p && v < 0x1_0000 * o && t >= 1
    ensures t < 0x1_0000
    ensures t * o <= v && v - t * o >= p - o && t * o > 0
  {
    if t >= 0x1_0000 { MulLe(0x1_0000, t, p); }
    MulLe(1, t, p - o);
    assert t * (p - o) == t * p - t * o;
    MulLt(0, t, o);
  }

  /** Unsigned integer division, for code that only needs what its contract says. */
  function Quotient(t: nat, o: nat): (q: nat)
    requires 0 < o
    ensures o * q <= t < o * q + o && q <= t
  {
    t / o
  }

  /** Dividing by a one-bigit number o * p only needs the top bigit t of v. */
  lemma SingleDivision(v: int, t: int, o: int, q: int, p: int)
    requires t * p <= v < (t + 1) * p && 0 < p && 0 < o && 0 <= q
    requires o * q <= t < o * q + o && v < 0x1_0000 * (o * p)
    ensures v == q * (o * p) + (v - (o * q) * p)
    ensures 0 <= v - (o * q) * p < o * p
    ensures 0 <= q < 0x1_0000
  {
    MulAssoc(q, o, p);
    MulLe(o * q, t, p);
    MulLe(t + 1, o * q + o, p);
    MulDist(o * q, o, p);
    MulLt(0, o, p);
    if q >= 0x1_0000 { MulLe(0x1_0000, q, o * p); }
  }

  lemma OneMore(v: int, o: int, q: int, r: int)
    requires v == q * o + r && 0 < o <= r && v < 0x1_0000 * o && 0 <= q
    ensures v == (q + 1) * o + (r - o)
    ensures q + 1 < 0x1_0000
  {
  }

  /** The estimate e = t / (b + 1) never removes too much, and one test tells whether it removed enough. */
  lemma Estimate(v: int, t: int, o: int, b: int, e: int, p: int)
    requires t * p <= v < (t + 1) * p && b * p <= o < (b + 1) * p && 0 < p && 0 <= t < 0x1000_0000
    requires 0 < b < 0x1000_0000 && 0 <= e && v < 0x1_0000 * o
    requires (b + 1) * e <= t < (b + 1) * e + (b + 1)
    ensures 0 <= e < 0x1_0000 && e * o <= v
    ensures b * (e + 1) < 0x1_0000_0000
    ensures b * (e + 1) > t ==> v - e * o < o
  {
    EstimateRemoves(v, t, o, b, e, p);
    assert b * (e + 1) == (b + 1) * e - e + b;
    if b * (e + 1) > t { EstimateSuffices(v, t, o, b, e, p); }
  }

  lemma EstimateRemoves(v: int, t: int, o: int, b: int, e: int, p: int)
    requires t * p <= v && 0 < o < (b + 1) * p && 0 < p && 0 <= e
    requires (b + 1) * e <= t && v < 0x1_0000 * o
    ensures e * o <= v && e < 0x1_0000
  {
  }

  lemma EstimateSuffices(v: int, t: int, o: int, b: int, e: int, p: int)
    requires v < (t + 1) * p && b * p <= o && 0 < p && 0 <= e && b * (e + 1) > t
    ensures v - e * o < o
  {
    MulLe(t + 1, b * (e + 1), p);
    MulAssoc(e + 1, b, p);
    MulLe(b * p, o, e + 1);
    MulDist(e, 1, o);
  }

  // ----- when the first loop takes off too much

  /**
   n is o's length: v is longer, and its rest by o, being too large to be reached by another multiple of o from
   n + 1 bigits, is shorter than o.
   */
  ghost predicate LengthsDisagree(v: int, o: int, n: nat) {
    && 0 < n && 0 < o && BPow(n) <= v
    && BPow(n) - o <= v % o < BPow(n - 1)
  }

  lemma RestIs(v: int, o: int, q: int, r: int)
    requires v == q * o + r && 0 <= r < o
    ensures v % o == r
  {
    var k := v / o - q;
    MulDist(v / o, q, o);
    if k >= 1 { MulLe(1, k, o); }
    if k <= -1 { MulLe(k, -1, o); }
  }

  lemma RestBelow(v: int, o: int, q: int, w: int)
    requires v == q * o + w && 0 < o <= w
    ensures 0 <= v % o <= w - o
  {
    var k := w / o;
    if k <= 0 { MulLe(k, 0, o); }
    MulLe(1, k, o);
    MulDist(q, k, o);
    RestIs(v, o, q + k, w % o);
  }

  /** Some dividend makes the lengths disagree exactly when o is that close to the next length. */
  lemma SomeDisagree(o: int, n: nat)
    requires 0 < n && BPow(n - 1) <= o < BPow(n)
    ensures (exists v: int :: 0 <= v < 0x1_0000 * o && LengthsDisagree(v, o, n)) <==> BPow(n) - BPow(n - 1) < o
  {
    hide BPow;
    BPowStep(n - 1);
    if BPow(n) - BPow(n - 1) < o {
      RestIs(BPow(n), o, 1, BPow(n) - o);
      assert LengthsDisagree(BPow(n), o, n);
    }
  }
}
