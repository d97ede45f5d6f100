/** The state of left-to-right exponentiation, as used by AssignPowerUInt16. */
module LeftToRight {
  import opened Powers
  import opened Bigits

  /** The bit masks the algorithm walks through: powers of two, and zero at the end. */
  predicate IsMask(m: nat) {
    m <= 1 || (m % 2 == 0 && IsMask(m / 2))
  }

  /** The leading part of the exponent that has been processed when m is the next bit to look at. */
  function Done(e: nat, m: nat): nat {
    if m == 0 then e else Quotient(e, 2 * m); e / (2 * m)
  }

  lemma Quotient(e: nat, d: nat)
    requires d > 0
    ensures 0 <= e / d && d * (e / d) <= e < d * (e / d) + d
  {
  }

  ghost predicate Powered(v: int, base: nat, e: nat, m: nat) {
    v == Pow(base, Done(e, m))
  }

  lemma DoneStep(e: nat, m: nat)
    requires m > 0 && IsMask(m)
    ensures Done(e, m / 2) == 2 * Done(e, m) + (e / m) % 2
    ensures (e / m) % 2 == 0 || (e / m) % 2 == 1
  {
    assert IsMask(m / 2);
    HalfDiv(e, m);
    if m > 1 {
      assert 2 * (m / 2) == m;
    }
  }

  lemma HalfDiv(e: nat, m: nat)
    requires m > 0
    ensures e / (2 * m) == (e / m) / 2
  {
    var q, r := e / m, e % m;
    var q2, r2 := q / 2, q % 2;
    assert e == m * (2 * q2 + r2) + r;
    assert m * (2 * q2 + r2) == (2 * m) * q2 + m * r2;
    if r2 == 1 { assert m * r2 == m; }
    DivIs(e, 2 * m, q2, m * r2 + r);
  }

  lemma DivIs(n: int, d: int, q: int, r: int)
    requires 0 <= r < d && n == d * q + r
    ensures n / d == q
  {
    var q', r' := n / d, n % d;
    assert d * (q - q') == r' - r;
    if q > q' { MulLe(1, q - q', d); }
    if q < q' { MulLe(q - q', -1, d); }
  }

  /** Squaring, and multiplying by the base when the next bit is set, takes in one more bit. */
  lemma PoweredStep(v: int, base: nat, e: nat, m: nat)
    requires m > 0 && IsMask(m) && Powered(v, base, e, m)
    ensures (e / m) % 2 == 0 ==> Powered(v * v, base, e, m / 2)
    ensures (e / m) % 2 == 1 ==> Powered((v * v) * base, base, e, m / 2)
  {
    hide Pow;
    var d := Done(e, m);
    DoneStep(e, m);
    PowAdd(base, d, d);
    if (e / m) % 2 == 1 {
      PowAdd(base, 2 * d, 1);
      PowOne(base);
    }
  }

  lemma PowOne(b: nat)
    ensures Pow(b, 1) == b
  {
  }

  lemma PoweredStart(base: nat, e: nat, m: nat)
    requires m == 0 ==> e == 1
    requires m > 0 ==> 2 * m <= e < 4 * m
    ensures Powered(base, base, e, m)
  {
    if m > 0 { DivIs(e, 2 * m, 1, e - 2 * m); }
    PowOne(base);
  }

  lemma PoweredEnd(v: int, base: nat, e: nat)
    requires Powered(v, base, e, 0)
    ensures v == Pow(base, e)
  {
  }

  /** Before the bit at m, twice what is done still fits the exponent. */
  lemma DoneBound(e: nat, m: nat)
    requires m > 0
    ensures 2 * Done(e, m) <= e
  {
    Quotient(e, 2 * m);
    var q := Done(e, m);
    MulLe(1, m, q);
    MulAssoc(2, m, q);
  }

  lemma DoneAtMost(e: nat, m: nat)
    ensures Done(e, m) <= e
  {
    if m > 0 { DoneBound(e, m); }
  }

  function BitSize(n: nat): (r: nat)
    ensures n < Pow(2, r)
    ensures n > 0 ==> r > 0 && Pow(2, r - 1) <= n
  {
    if n == 0 then 0 else 1 + BitSize(n / 2)
  }

  function OddPart(n: nat): (r: nat)
    requires n > 0
    ensures r > 0 && r % 2 == 1 && r <= n
  {
    if n % 2 == 0 then OddPart(n / 2) else n
  }

  /** A power of a base of b bits has at most b * k bits, hence at most b * k / 28 + 1 bigits. */
  lemma PowerFits(base: nat, b: nat, k: nat)
    requires 0 < base < Pow(2, b)
    ensures b * k >= 0 && Pow(base, k) < BPow(b * k / 28 + 1)
  {
    PowMul(2, b, k);
    PowBelow(base, Pow(2, b), k);
    var n := b * k;
    BPowAsPow2(n / 28 + 1);
    PowStrict(2, n, 28 * (n / 28 + 1));
  }
}
