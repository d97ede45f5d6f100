/** Exact real values: powers of two and ten with any integer exponent. */
module Exact {
  import opened Powers

  function Power(b: nat, n: int): (r: real)
    requires b > 0
    ensures r > 0.0
  {
    if n >= 0 then Pow(b, n) as real else 1.0 / (Pow(b, -n) as real)
  }

  function Ten(n: int): (r: real)
    ensures r > 0.0
  {
    Power(10, n)
  }

  function Two(n: int): (r: real)
    ensures r > 0.0
  {
    Power(2, n)
  }

  function Abs(x: real): real {
    if x < 0.0 then -x else x
  }

  // ----- small facts about real multiplication

  lemma RMulAssoc(a: real, b: real, c: real)
    ensures (a * b) * c == a * (b * c)
  {
  }

  lemma RMulLe(a: real, b: real, c: real)
    requires a <= b && 0.0 <= c
    ensures a * c <= b * c
  {
  }

  lemma Grows(x: real, k: real, y: real)
    requires 0.0 <= x && 1.0 <= k && y == x * k
    ensures x <= y
  {
  }

  lemma RMulLt(a: real, b: real, c: real)
    requires a < b && 0.0 < c
    ensures a * c < b * c
  {
  }

  lemma RMulDist(a: real, b: real, c: real)
    ensures (a + b) * c == a * c + b * c
    ensures (a - b) * c == a * c - b * c
  {
  }

  /** A positive factor can be cancelled from any comparison. */
  lemma RCancel(a: real, b: real, c: real)
    requires 0.0 < c
    ensures a * c < b * c <==> a < b
    ensures a * c <= b * c <==> a <= b
    ensures a * c == b * c <==> a == b
  {
  }

  lemma IntMul(a: int, b: int)
    ensures (a * b) as real == (a as real) * (b as real)
  {
  }

  // ----- laws of powers

  lemma PowerZero(b: nat)
    requires b > 0
    ensures Power(b, 0) == 1.0
  {
  }

  lemma PowerNext(b: nat, n: int)
    requires b > 0
    ensures Power(b, n + 1) == Power(b, n) * (b as real)
  {
  }

  lemma {:induction false} PowerAddNat(b: nat, m: int, n: nat)
    requires b > 0
    ensures Power(b, m + n) == Power(b, m) * Power(b, n)
  {
    hide Power;
    PowerZero(b);
    if n == 0 {
    } else {
      PowerAddNat(b, m, n - 1);
      PowerNext(b, m + n - 1);
      PowerNext(b, n - 1);
      RMulAssoc(Power(b, m), Power(b, n - 1), b as real);
    }
  }

  lemma PowerAdd(b: nat, m: int, n: int)
    requires b > 0
    ensures Power(b, m + n) == Power(b, m) * Power(b, n)
  {
    hide Power;
    PowerZero(b);
    if n >= 0 {
      PowerAddNat(b, m, n);
    } else {
      PowerAddNat(b, m + n, -n);
      PowerAddNat(b, n, -n);
      RMulAssoc(Power(b, m + n), Power(b, -n), Power(b, n));
    }
  }

  lemma TenAdd(m: int, n: int)
    ensures Ten(m + n) == Ten(m) * Ten(n)
  {
    hide Power;
    PowerAdd(10, m, n);
  }

  lemma TwoAdd(m: int, n: int)
    ensures Two(m + n) == Two(m) * Two(n)
  {
    hide Power;
    PowerAdd(2, m, n);
  }

  lemma TenNat(n: nat)
    ensures Ten(n) == Pow(10, n) as real >= 1.0
  {
  }

  lemma TwoNat(n: nat)
    ensures Two(n) == Pow(2, n) as real >= 1.0
  {
  }

  lemma TwoSmall()
    ensures Two(0) == 1.0 && Two(1) == 2.0 && Two(2) == 4.0
    ensures Ten(0) == 1.0 && Ten(1) == 10.0
  {
  }

  lemma TenInverse(n: int)
    ensures Ten(n) * Ten(-n) == 1.0
  {
  }

  lemma TwoInverse(n: int)
    ensures Two(n) * Two(-n) == 1.0
  {
  }

  lemma TwoMonotone(m: int, n: int)
    requires m <= n
    ensures Two(m) <= Two(n)
  {
    hide Two;
    var k := n - m;
    TwoAdd(m, k);
    assert Two(n) == Two(m) * Two(k);
    TwoNat(k);
    Grows(Two(m), Two(k), Two(n));
  }

  lemma TenMonotone(m: int, n: int)
    requires m <= n
    ensures Ten(m) <= Ten(n)
  {
    hide Ten;
    var k := n - m;
    TenAdd(m, k);
    assert Ten(n) == Ten(m) * Ten(k);
    TenNat(k);
    Grows(Ten(m), Ten(k), Ten(n));
  }

  lemma Rotate(x: real, y: real, z: real)
    ensures x * (y * z) == (x * z) * y
  {
  }

  lemma TwoHalves(e: int)
    ensures Two(e) == Two(e - 1) * 2.0 == Two(e - 2) * 4.0
  {
    hide Two;
    TwoAdd(e - 1, 1);
    TwoAdd(e - 2, 2);
    TwoSmall();
  }

  lemma TwoLess(m: int, n: int)
    requires m < n
    ensures Two(m) < Two(n)
  {
    hide Two;
    TwoMonotone(m + 1, n);
    TwoAdd(m, 1);
    TwoSmall();
  }

  lemma ReciprocalOrder(x: real, y: real, x': real, y': real)
    requires 0.0 < x <= y && x * x' == 1.0 && y * y' == 1.0 && 0.0 < y'
    ensures y' <= x'
  {
  }
}
