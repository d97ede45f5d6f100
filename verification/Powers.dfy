/** Powers of a natural base, and powers of ten and two with an integer exponent as reals. */
module Powers {

  function Pow(b: nat, n: nat): (r: nat)
    ensures b > 0 ==> r > 0
  {
    if n == 0 then 1 else b * Pow(b, n - 1)
  }

  lemma PowZero(b: nat)
    ensures Pow(b, 0) == 1
  {
  }

  lemma {:induction false} PowAdd(b: nat, m: nat, n: nat)
    ensures Pow(b, m + n) == Pow(b, m) * Pow(b, n)
  {
    if m == 0 {
    } else {
      PowAdd(b, m - 1, n);
      assert Pow(b, m + n) == b * Pow(b, m - 1 + n);
      MulAssoc(b, Pow(b, m - 1), Pow(b, n));
    }
  }

  lemma {:induction false} PowBaseMul(a: nat, b: nat, n: nat)
    ensures Pow(a * b, n) == Pow(a, n) * Pow(b, n)
  {
    if n == 0 {
    } else {
      PowBaseMul(a, b, n - 1);
      var x, y := Pow(a, n - 1), Pow(b, n - 1);
      calc {
        (a * b) * (x * y);
        { MulAssoc(a, b, x * y); MulAssoc(b, x, y); }
        a * ((b * x) * y);
        { MulAssoc(x, b, y); }
        a * (x * (b * y));
        { MulAssoc(a, x, b * y); }
        (a * x) * (b * y);
      }
    }
  }

  lemma {:induction false} PowMul(b: nat, m: nat, n: nat)
    ensures m * n >= 0 && Pow(b, m * n) == Pow(Pow(b, m), n)
  {
    if n == 0 {
    } else {
      PowMul(b, m, n - 1);
      assert m * n == m + m * (n - 1);
      PowAdd(b, m, m * (n - 1));
    }
  }

  lemma {:induction false} PowMonotone(b: nat, m: nat, n: nat)
    requires b > 0 && m <= n
    ensures Pow(b, m) <= Pow(b, n)
  {
    PowAdd(b, n - m, m);
    MulLe(1, Pow(b, n - m), Pow(b, m));
  }

  lemma {:induction false} PowStrict(b: nat, m: nat, n: nat)
    requires b > 1 && m < n
    ensures Pow(b, m) < Pow(b, n)
  {
    PowMonotone(b, m + 1, n);
    MulLe(2, b, Pow(b, m));
  }

  lemma {:induction false} PowBelow(a: nat, b: nat, k: nat)
    requires a <= b
    ensures Pow(a, k) <= Pow(b, k)
  {
    if k == 0 {
    } else {
      PowBelow(a, b, k - 1);
      MulLe(Pow(a, k - 1), Pow(b, k - 1), a);
      MulLe(a, b, Pow(b, k - 1));
    }
  }

  lemma PowValues()
    ensures Pow(2, 16) == 0x1_0000 && Pow(2, 28) == 0x1000_0000 && Pow(2, 32) == 0x1_0000_0000 && Pow(2, 64) == 0x1_0000_0000_0000_0000
    ensures Pow(5, 13) == 1220703125 && Pow(5, 27) == 0x6765_c793_fa10_079d
  {
    assert Pow(2, 8) == 256;
    PowAdd(2, 8, 8);
    PowAdd(2, 16, 8);
    PowAdd(2, 24, 4);
    PowAdd(2, 16, 16);
    PowAdd(2, 32, 32);
    assert Pow(5, 7) == 78125;
    PowAdd(5, 6, 7);
    PowAdd(5, 13, 13);
    PowAdd(5, 26, 1);
  }

  lemma PowTenValues()
    ensures Pow(10, 17) == 100_000_000_000_000_000 && Pow(10, 19) == 10_000_000_000_000_000_000
  {
    assert Pow(10, 5) == 100_000;
    PowAdd(10, 5, 5);
    PowAdd(10, 10, 5);
    PowAdd(10, 15, 2);
    PowAdd(10, 17, 2);
  }

  lemma PowTen(k: nat)
    ensures Pow(10, k + 1) == 10 * Pow(10, k) == Pow(10, k) * 10
  {
  }

  lemma PowNext(k: nat)
    ensures Pow(2, k + 1) == 2 * Pow(2, k)
  {
  }

  lemma SmallTwos()
    ensures Pow(2, 1) == 2 && Pow(2, 2) == 4 && Pow(2, 3) == 8 && Pow(2, 4) == 16 && Pow(2, 9) == 512
    ensures Pow(2, 10) == 1024 && Pow(2, 11) == 2048 && Pow(2, 23) == 0x80_0000 && Pow(2, 25) == 0x200_0000
  {
  }

  lemma SmallTens()
    ensures Pow(10, 1) == 10 && Pow(10, 2) == 100 && Pow(10, 3) == 1000 && Pow(10, 4) == 10_000 && Pow(10, 5) == 100_000
    ensures Pow(10, 6) == 1_000_000 && Pow(10, 7) == 10_000_000 && Pow(10, 16) == 10_000_000_000_000_000
  {
  }

  // ----- small facts about multiplication, stated once so that contexts stay linear

  lemma MulAssoc(a: int, b: int, c: int)
    ensures (a * b) * c == a * (b * c)
  {
  }

  lemma MulLe(a: int, b: int, c: int)
    requires a <= b && 0 <= c
    ensures a * c <= b * c
  {
  }

  lemma MulLt(a: int, b: int, c: int)
    requires a < b && 0 < c
    ensures a * c < b * c
  {
  }

  lemma ProductBelow(a: int, b: int, p: int, q: int)
    requires 0 <= a < p && 0 <= b < q
    ensures 0 <= a * b < p * q
  {
  }

  lemma ProductAtMost(x: int, y: int, p: int, q: int)
    requires 0 <= x <= p && 0 <= y <= q
    ensures x * y <= p * q
  {
  }

  lemma MulDist(a: int, b: int, c: int)
    ensures (a + b) * c == a * c + b * c
    ensures (a - b) * c == a * c - b * c
  {
  }
}
