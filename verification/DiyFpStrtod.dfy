/** Reading with 64-bit floats while keeping count, in eighths of a unit, of how far off they may be. */
module DiyFpStrtods {
  import opened Powers
  import opened Words
  import opened Decimals
  import opened Exact
  import opened Ieee
  import opened Shortest
  import opened DiyFps
  import opened CachedPowers
  import opened Encoding
  import opened Boundaries

  const MAX_UINT64: nat := 0xFFFF_FFFF_FFFF_FFFF
  const DENOMINATOR: nat := 8
  const MAX_UINT64_DECIMAL_DIGITS: int := 19

  // ----- reading

  /** As many digits as are sure to fit 64 bits. */
  method ReadUint64(buffer: seq<char>) returns (result: UInt64, numberOfReadDigits: nat)
    requires AreDigits(buffer)
    ensures numberOfReadDigits <= |buffer| && result == Number(buffer[..numberOfReadDigits])
    ensures result < MAX_UINT64
    ensures numberOfReadDigits < |buffer| ==> result > MAX_UINT64 / 10 - 1
    ensures |buffer| <= 19 ==> numberOfReadDigits == |buffer|
    ensures |buffer| >= 19 && Number(buffer[..19]) > MAX_UINT64 / 10 - 1 ==> numberOfReadDigits == 19
  {
    hide Number;
    result := 0;
    var i := 0;
    NumberEmpty(buffer[..0]);
    while i < |buffer| && result <= MAX_UINT64 / 10 - 1
      invariant 0 <= i <= |buffer| && result == Number(buffer[..i]) && result < MAX_UINT64
      invariant |buffer| >= 19 && Number(buffer[..19]) > MAX_UINT64 / 10 - 1 ==> i <= 19
    {
      NumberPrefix(buffer, i);
      var digit := buffer[i] as int - '0' as int;
      i := i + 1;
      result := 10 * result + digit;
    }
    numberOfReadDigits := i;
    if i < |buffer| && i < 19 {
      NumberBound(buffer[..i]);
      EighteenDigits(i);
    }
  }

  lemma EighteenDigits(i: nat)
    requires i <= 18
    ensures Pow(10, i) <= 1_000_000_000_000_000_000
  {
    hide Pow;
    PowMonotone(10, i, 18);
    PowTenValues();
    PowTen(17);
  }

  /** f * 2^e is off from x by at most error eighths of a unit of f. */
  ghost predicate Close(x: real, f: int, e: int, error: int) {
    Binary(8 * f - error, e - 3).Value() <= x <= Binary(8 * f + error, e - 3).Value()
  }

  /** The same, strictly. */
  ghost predicate StrictlyClose(x: real, f: int, e: int, error: int) {
    Binary(8 * f - error, e - 3).Value() < x < Binary(8 * f + error, e - 3).Value()
  }

  /** The significand that 19 or more digits give when just 19 fit: the first ones, rounded by the next. */
  function LeadingSignificand(buffer: seq<char>): int
    requires |buffer| >= 19
  {
    Number(buffer[..19]) + (if |buffer| > 19 && buffer[19] >= '5' then 1 else 0)
  }

  method ReadDiyFp(buffer: seq<char>) returns (result: DiyFp, remainingDecimals: nat)
    requires AreDigits(buffer)
    ensures |buffer| >= 19 && Number(buffer[..19]) > MAX_UINT64 / 10 - 1 ==>
              remainingDecimals == |buffer| - 19 && result.f == LeadingSignificand(buffer)
    ensures fresh(result) && result.e == 0 && remainingDecimals <= |buffer|
    ensures Close(Dec(Number(buffer), -(remainingDecimals as int)), result.f, 0, if remainingDecimals == 0 then 0 else 4)
    ensures remainingDecimals == 0 ==> result.f == Number(buffer)
    ensures remainingDecimals > 0 ==> result.f >= MAX_UINT64 / 10
    ensures |buffer| <= 19 ==> remainingDecimals == 0
  {
    hide Number, Close;
    var significand, readDigits := ReadUint64(buffer);
    if |buffer| == readDigits {
      assert buffer[..readDigits] == buffer;
      ReadExactly(Number(buffer));
      result := new DiyFp(significand, 0);
      remainingDecimals := 0;
    } else {
      ReadRounded(buffer, readDigits);
      if buffer[readDigits] >= '5' {
        significand := significand + 1;
      }
      result := new DiyFp(significand, 0);
      remainingDecimals := |buffer| - readDigits;
    }
  }

  lemma ReadExactly(n: int)
    ensures Close(Dec(n, 0), n, 0, 0)
  {
    hide Two, Ten;
    TwoSmall();
    Eighths(8 * n, n as real);
  }

  lemma Eighths(m: int, x: real)
    ensures Binary(m, -3).Value() * 8.0 == m as real
    ensures Binary(m, -3).Value() <= x <==> m as real <= 8.0 * x
    ensures x <= Binary(m, -3).Value() <==> 8.0 * x <= m as real
  {
    hide Two;
    TwoInverse(3);
    TwoNat(3);
    assert Pow(2, 3) == 8;
    RMulAssoc(m as real, Two(-3), 8.0);
    RCancel(Binary(m, -3).Value(), x, 8.0);
    RCancel(x, Binary(m, -3).Value(), 8.0);
  }

  lemma TenthsOfUnit(k: nat)
    ensures Ten(-(k as int) - 1) * (10 * Pow(10, k)) as real == 1.0
  {
    hide Ten, Pow;
    TenInverse(-(k as int) - 1);
    TenNat(k + 1);
    PowTen(k);
  }

  lemma ReadRounded(buffer: seq<char>, n: nat)
    requires AreDigits(buffer) && n < |buffer|
    ensures
      var s := Number(buffer[..n]) + (if buffer[n] >= '5' then 1 else 0);
      Close(Dec(Number(buffer), n - |buffer|), s, 0, 4)
  {
    hide Number, Ten, Pow, Two, Binary.Value;
    var k := |buffer| - n - 1;
    var s := Number(buffer[..n]) + (if buffer[n] >= '5' then 1 else 0);
    var q, digit := Number(buffer[..n]), DigitOf(buffer[n]);
    assert buffer == buffer[..n + 1] + buffer[n + 1..];
    NumberConcat(buffer[..n + 1], buffer[n + 1..]);
    NumberPrefix(buffer, n);
    NumberBound(buffer[n + 1..]);
    var r := Number(buffer[n + 1..]);
    var x, m, p, t := Dec(Number(buffer), n - |buffer|), Number(buffer), Pow(10, k), Ten(-(k as int) - 1);
    TenthsOfUnit(k);
    DropDigits(x, m, q, digit, r, p, t);
    Eighths(8 * s - 4, x);
    Eighths(8 * s + 4, x);
  }

  lemma DropDigits(x: real, m: int, q: int, digit: int, r: int, p: int, t: real)
    requires m == (10 * q + digit) * p + r && 0 <= r < p && 0 <= digit <= 9
    requires x == m as real * t && t * (10 * p) as real == 1.0 && 0.0 < t
    ensures var s := q + (if digit >= 5 then 1 else 0); (8 * s - 4) as real <= 8.0 * x <= (8 * s + 4) as real
  {
    var s, tens := q + (if digit >= 5 then 1 else 0), 10 * p;
    RoundedDigit(m, q, digit, r, p);
    EightTimes(m, x, t);
    OverTens(8 * s - 4, 8 * m, tens, t);
    OverTens(8 * s + 4, 8 * m, tens, t);
  }

  lemma EightTimes(m: int, x: real, t: real)
    requires x == m as real * t
    ensures 8.0 * x == (8 * m) as real * t
  {
    RMulAssoc(8.0, m as real, t);
  }

  /** Dividing by tens, of which t is the reciprocal, keeps order. */
  lemma OverTens(a: int, m: int, tens: int, t: real)
    requires 0.0 < t && t * tens as real == 1.0
    ensures a * tens <= m ==> a as real <= m as real * t
    ensures m <= a * tens ==> m as real * t <= a as real
  {
    IntMul(a, tens);
    RMulAssoc(a as real, tens as real, t);
    assert (a * tens) as real * t == a as real;
    if a * tens <= m { RMulLe((a * tens) as real, m as real, t); }
    if m <= a * tens { RMulLe(m as real, (a * tens) as real, t); }
  }

  lemma RoundedDigit(m: int, q: int, digit: int, r: int, p: int)
    requires m == (10 * q + digit) * p + r && 0 <= r < p && 0 <= digit <= 9
    ensures var s := q + (if digit >= 5 then 1 else 0); (8 * s - 4) * (10 * p) <= 8 * m <= (8 * s + 4) * (10 * p)
  {
    var qp, dp := q * p, digit * p;
    assert m == 10 * qp + dp + r by {
      MulDist(10 * q, digit, p);
      MulAssoc(10, q, p);
    }
    if digit >= 5 {
      MulLe(5, digit, p);
      MulLe(digit, 9, p);
      assert (8 * (q + 1) - 4) * (10 * p) == 80 * qp + 40 * p;
      assert (8 * (q + 1) + 4) * (10 * p) == 80 * qp + 120 * p;
    } else {
      MulLe(0, digit, p);
      MulLe(digit, 4, p);
      assert (8 * q - 4) * (10 * p) == 80 * qp - 40 * p;
      assert (8 * q + 4) * (10 * p) == 80 * qp + 40 * p;
    }
  }

  // ----- how far off the steps may lead

  lemma CloseShift(x: real, f: int, e: int, error: int, k: nat)
    ensures Close(x, f, e, error) ==> Close(x, ShiftLeft(f, k), e - k, ShiftLeft(error, k))
    ensures StrictlyClose(x, f, e, error) ==> StrictlyClose(x, ShiftLeft(f, k), e - k, ShiftLeft(error, k))
  {
    hide Pow, Binary.Value;
    ShiftedValue(8 * f - error, e - 3, k);
    ShiftedValue(8 * f + error, e - 3, k);
    var p := Pow(2, k);
    assert (8 * f - error) * p == 8 * (f * p) - error * p;
    assert (8 * f + error) * p == 8 * (f * p) + error * p;
  }

  /** Multiplying by an exact factor adds half a unit at most. */
  lemma ExactTimes(x: real, f: UInt64, e: int, error: nat, p: Binary, y: real)
    requires Close(x, f, e, error) && 0 <= p.f < 2 * HALF && y == x * p.Value()
    ensures f * p.f >= 0 && Close(y, HighWord(f * p.f), e + p.e + 64, error + 4)
  {
    hide Two, HighWord;
    MulLe(0, f, p.f);
    var r := HighWord(f * p.f);
    WordUnit(e, p.e);
    ExactCore(x, f, error, p.f, r, Two(e - 3), Two(p.e), Two(e + p.e + 61), y);
  }

  lemma ExactCore(x: real, f: int, error: int, p: int, r: int, u: real, t: real, w: real, y: real)
    requires 0.0 < u && 0.0 < t && w == 0x1_0000_0000_0000_0000 as real * (u * t) && 0 <= p
    requires (8 * f - error) as real * u <= x <= (8 * f + error) as real * u && y == x * (p as real * t)
    requires 0 <= f && 0 <= error && p < 2 * HALF
    requires r * 0x1_0000_0000_0000_0000 <= f * p + 0x8000_0000_0000_0000 < (r + 1) * 0x1_0000_0000_0000_0000
    ensures (8 * r - (error + 4)) as real * w <= y <= (8 * r + (error + 4)) as real * w
  {
    ExactSides(f, error, p, r);
    RMulLt(0.0, u, t);
    ProductOrder(8 * f - error, u, x, p, t, y, true);
    ProductOrder(8 * f + error, u, x, p, t, y, false);
    UnitOrder(8 * r - error - 4, (8 * f - error) * p, u * t, w);
    UnitOrder2((8 * f + error) * p, 8 * r + error + 4, u * t, w);
  }

  lemma ExactSides(f: nat, error: nat, p: nat, r: int)
    requires p < 2 * HALF
    requires r * 0x1_0000_0000_0000_0000 <= f * p + 0x8000_0000_0000_0000 < (r + 1) * 0x1_0000_0000_0000_0000
    ensures (8 * r - error - 4) * 0x1_0000_0000_0000_0000 <= (8 * f - error) * p
    ensures (8 * f + error) * p <= (8 * r + error + 4) * 0x1_0000_0000_0000_0000
  {
    MulLe(p, 0x1_0000_0000_0000_0000, error);
    assert (8 * f - error) * p == 8 * (f * p) - error * p;
    assert (8 * f + error) * p == 8 * (f * p) + error * p;
  }

  lemma WordUnit(e: int, k: int)
    ensures Two(e + k + 61) == 0x1_0000_0000_0000_0000 as real * (Two(e - 3) * Two(k))
  {
    hide Two;
    TwoAdd(e - 3, k);
    TwoAdd(64, e - 3 + k);
    TwoNat(64);
    PowValues();
  }

  /** One side of an interval times a positive factor. */
  lemma ProductOrder(m: int, u: real, x: real, p: int, t: real, y: real, below: bool)
    requires 0 <= p && 0.0 < t && y == x * (p as real * t)
    requires if below then m as real * u <= x else x <= m as real * u
    ensures if below then (m * p) as real * (u * t) <= y else y <= (m * p) as real * (u * t)
  {
    var q := p as real * t;
    RMulLe(0.0, p as real, t);
    IntMul(m, p);
    Regrouped(m as real, u, p as real, t);
    if below { RMulLe(m as real * u, x, q); } else { RMulLe(x, m as real * u, q); }
  }

  lemma Regrouped(m: real, u: real, p: real, t: real)
    ensures (m * p) * (u * t) == (m * u) * (p * t)
  {
    RMulAssoc(m, p, u * t);
    RMulAssoc(p, u, t);
    RMulAssoc(m, u, p * t);
    RMulAssoc(u, p, t);
  }

  lemma UnitOrder(a: int, b: int, u: real, w: real)
    requires a * 0x1_0000_0000_0000_0000 <= b && 0.0 < u && w == 0x1_0000_0000_0000_0000 as real * u
    ensures a as real * w <= b as real * u
  {
    RMulAssoc(a as real, 0x1_0000_0000_0000_0000 as real, u);
    RMulLe((a * 0x1_0000_0000_0000_0000) as real, b as real, u);
  }

  lemma UnitOrder2(a: int, b: int, u: real, w: real)
    requires a <= b * 0x1_0000_0000_0000_0000 && 0.0 < u && w == 0x1_0000_0000_0000_0000 as real * u
    ensures a as real * u <= b as real * w
  {
    RMulAssoc(b as real, 0x1_0000_0000_0000_0000 as real, u);
    RMulLe(a as real, (b * 0x1_0000_0000_0000_0000) as real, u);
  }

  /** A product that loses nothing keeps an exact number exact. */
  lemma ExactFit(x: real, f: UInt64, e: int, p: Binary, y: real, r: int)
    requires Close(x, f, e, 0) && 0 <= p.f && y == x * p.Value()
    requires r * 0x1_0000_0000_0000_0000 == f * p.f
    ensures Close(y, r, e + p.e + 64, 0)
  {
    hide Two;
    WordUnit(e, p.e);
    var u, t, w := Two(e - 3), Two(p.e), Two(e + p.e + 61);
    ProductOrder(8 * f, u, x, p.f, t, y, true);
    ProductOrder(8 * f, u, x, p.f, t, y, false);
    assert 8 * r * 0x1_0000_0000_0000_0000 == 8 * f * p.f by { MulAssoc(8, f, p.f); }
    UnitOrder(8 * r, 8 * f * p.f, u * t, w);
    UnitOrder2(8 * f * p.f, 8 * r, u * t, w);
  }

  /** Multiplying by a rounded factor adds its half unit, that of the product, and what the errors make of each other. */
  lemma CachedTimes(x: real, f: UInt64, e: int, error: nat, p: Binary, k: int, y: real)
    requires Close(x, f, e, error) && IsCachedPower(p, k) && y == x * Ten(k)
    requires error <= 8 * f && error < HALF
    ensures f * p.f >= 0
    ensures StrictlyClose(y, HighWord(f * p.f), e + p.e + 64, error + 8 + (if error == 0 then 0 else 1))
  {
    hide Two, Ten, HighWord, StrictlyClose, Close, IsCachedPower;
    CachedBounds(p, k);
    MulLe(0, f, p.f);
    var r, error' := HighWord(f * p.f), error + 8 + (if error == 0 then 0 else 1);
    WordUnit2(e, p.e);
    CloseBounds(x, f, e, error);
    assert e + p.e + 64 - 3 == e + p.e + 61;
    CachedCore(x, f, error, error', p.f, r, Two(e - 3), Two(p.e - 1), Two(e + p.e + 61), Ten(k), y);
    ShowStrictlyClose(y, r, e + p.e + 64, error', Two(e + p.e + 61));
  }

  lemma CloseBounds(x: real, f: int, e: int, error: int)
    requires Close(x, f, e, error)
    ensures (8 * f - error) as real * Two(e - 3) <= x <= (8 * f + error) as real * Two(e - 3)
  {
  }

  lemma CachedBounds(p: Binary, k: int)
    requires IsCachedPower(p, k)
    ensures HALF <= p.f < 2 * HALF
    ensures (2 * p.f - 1) as real * Two(p.e - 1) <= Ten(k) <= (2 * p.f + 1) as real * Two(p.e - 1)
  {
  }

  lemma ShowStrictlyClose(x: real, f: int, e: int, error: int, t: real)
    requires t == Two(e - 3) && (8 * f - error) as real * t < x < (8 * f + error) as real * t
    ensures StrictlyClose(x, f, e, error)
  {
  }

  lemma CachedCore(x: real, f: int, error: int, error': int, p: int, r: int, u: real, t: real, w: real, ten: real, y: real)
    requires 0.0 < u && 0.0 < t && 0.0 < ten && w == 0x2_0000_0000_0000_0000 as real * (u * t)
    requires 0 < p && 0 <= error <= 8 * f
    requires (8 * f - error) as real * u <= x <= (8 * f + error) as real * u && y == x * ten
    requires (2 * p - 1) as real * t <= ten <= (2 * p + 1) as real * t
    requires f < 2 * HALF && p < 2 * HALF && error < HALF && error' == error + 8 + (if error == 0 then 0 else 1)
    requires r * 0x1_0000_0000_0000_0000 <= f * p + 0x8000_0000_0000_0000 < (r + 1) * 0x1_0000_0000_0000_0000
    ensures (8 * r - error') as real * w < y < (8 * r + error') as real * w
  {
    CachedSides(f, error, p, r);
    RMulLt(0.0, u, t);
    CachedBelow(8 * f - error, 2 * p - 1, 8 * r - error', x, u, t, w, ten, y);
    CachedAbove(8 * f + error, 2 * p + 1, 8 * r + error', x, u, t, w, ten, y);
  }

  lemma CachedBelow(m: int, n: int, a: int, x: real, u: real, t: real, w: real, ten: real, y: real)
    requires 0 <= m && 0 < n && 0.0 < u && 0.0 < t && 0.0 < u * t && 0.0 < ten && y == x * ten
    requires w == 0x2_0000_0000_0000_0000 as real * (u * t)
    requires m as real * u <= x && n as real * t <= ten && a * 0x2_0000_0000_0000_0000 < m * n
    ensures a as real * w < y
  {
    TwoFactors(m, u, x, n, t, ten, y, true);
    StrictOrder(a, m * n, u * t, w);
  }

  lemma CachedAbove(m: int, n: int, a: int, x: real, u: real, t: real, w: real, ten: real, y: real)
    requires 0 <= m && 0 < n && 0.0 < u && 0.0 < t && 0.0 < u * t && 0.0 < ten && y == x * ten
    requires w == 0x2_0000_0000_0000_0000 as real * (u * t)
    requires x <= m as real * u && ten <= n as real * t && m * n < a * 0x2_0000_0000_0000_0000
    ensures y < a as real * w
  {
    TwoFactors(m, u, x, n, t, ten, y, false);
    StrictOrder2(m * n, a, u * t, w);
  }

  lemma CachedSides(f: UInt64, error: nat, p: nat, r: int)
    requires 0 < p < 2 * HALF && error < HALF
    requires r * 0x1_0000_0000_0000_0000 <= f * p + 0x8000_0000_0000_0000 < (r + 1) * 0x1_0000_0000_0000_0000
    ensures
      var error' := error + 8 + (if error == 0 then 0 else 1);
      && (8 * r - error') * 0x2_0000_0000_0000_0000 < (8 * f - error) * (2 * p - 1)
      && (8 * f + error) * (2 * p + 1) < (8 * r + error') * 0x2_0000_0000_0000_0000
  {
    var fp, ep := f * p, error * p;
    Expand(f, error, p, fp, ep);
    MulLe(p, 0x1_0000_0000_0000_0000, error);
    MulLe(0, error, p);
    CachedLinear(f, error, fp, ep, r);
  }

  lemma Expand(f: int, error: int, p: int, fp: int, ep: int)
    requires fp == f * p && ep == error * p
    ensures (8 * f - error) * (2 * p - 1) == 16 * fp - 8 * f - 2 * ep + error
    ensures (8 * f + error) * (2 * p + 1) == 16 * fp + 8 * f + 2 * ep + error
  {
  }

  lemma CachedLinear(f: UInt64, error: nat, fp: int, ep: int, r: int)
    requires error < HALF && 0 <= ep <= error * 0x1_0000_0000_0000_0000
    requires r * 0x1_0000_0000_0000_0000 <= fp + 0x8000_0000_0000_0000 < (r + 1) * 0x1_0000_0000_0000_0000
    ensures
      var error' := error + 8 + (if error == 0 then 0 else 1);
      && (8 * r - error') * 0x2_0000_0000_0000_0000 < 16 * fp - 8 * f - 2 * ep + error
      && 16 * fp + 8 * f + 2 * ep + error < (8 * r + error') * 0x2_0000_0000_0000_0000
  {
  }

  lemma WordUnit2(e: int, k: int)
    ensures Two(e + k + 61) == 0x2_0000_0000_0000_0000 as real * (Two(e - 3) * Two(k - 1))
  {
    hide Two;
    TwoAdd(e - 3, k - 1);
    TwoAdd(65, e + k - 4);
    TwoNat(65);
    PowValues();
    PowNext(64);
  }

  lemma TwoFactors(m: int, u: real, x: real, n: int, t: real, ten: real, y: real, below: bool)
    requires 0 <= m && 0 < n && 0.0 < u && 0.0 < t && 0.0 < ten && y == x * ten
    requires if below then m as real * u <= x && n as real * t <= ten else x <= m as real * u && ten <= n as real * t
    ensures if below then (m * n) as real * (u * t) <= y else y <= (m * n) as real * (u * t)
  {
    var a, b := m as real * u, n as real * t;
    IntMul(m, n);
    Regrouped(m as real, u, n as real, t);
    RMulLe(0.0, m as real, u);
    if below {
      RMulLe(a, x, ten);
      RMulLe(b, ten, a);
    } else {
      RMulLe(x, a, ten);
      RMulLe(ten, b, a);
    }
  }

  lemma StrictOrder(a: int, b: int, u: real, w: real)
    requires a * 0x2_0000_0000_0000_0000 < b && 0.0 < u && w == 0x2_0000_0000_0000_0000 as real * u
    ensures a as real * w < b as real * u
  {
    RMulAssoc(a as real, 0x2_0000_0000_0000_0000 as real, u);
    RMulLt((a * 0x2_0000_0000_0000_0000) as real, b as real, u);
  }

  lemma StrictOrder2(a: int, b: int, u: real, w: real)
    requires a < b * 0x2_0000_0000_0000_0000 && 0.0 < u && w == 0x2_0000_0000_0000_0000 as real * u
    ensures a as real * u < b as real * w
  {
    RMulAssoc(b as real, 0x2_0000_0000_0000_0000 as real, u);
    RMulLt(a as real, (b * 0x2_0000_0000_0000_0000) as real, u);
  }

  // ----- rounding to a double

  /** How many significant bits doubles of a magnitude have. */
  function SignificandSizeForOrderOfMagnitude(order: int): (size: nat)
    ensures size <= 53
  {
    if order >= DENORMAL_EXPONENT + 53 then 53
    else if order <= DENORMAL_EXPONENT then 0
    else order - DENORMAL_EXPONENT
  }

  /** The lower end of the numbers that round to r * 2^k, as far as it is needed. */
  function LowerEnd(r: int, k: int): Binary {
    if r == HIDDEN_BIT && k != DENORMAL_EXPONENT then Binary(4 * r - 1, k - 2) else Binary(2 * r - 1, k - 1)
  }

  /** d is what packing r * 2^k gives, for an r of full length or at the exponent of the denormals. */
  ghost predicate Packs(r: int, k: int, d: Double) {
    && 0 <= r <= 2 * HIDDEN_BIT && k >= DENORMAL_EXPONENT && (r >= HIDDEN_BIT || k == DENORMAL_EXPONENT)
    && var g, h := if r == 2 * HIDDEN_BIT then HIDDEN_BIT else r, if r == 2 * HIDDEN_BIT then k + 1 else k;
       if h >= MAX_EXPONENT then d.bits == INFINITY
       else d.bits < INFINITY && d.Significand() == g && d.Exponent() == h
  }

  method Pack(f: UInt64, e: int) returns (d: Double)
    ensures d.bits <= INFINITY
    ensures f <= 2 * HIDDEN_BIT && e >= DENORMAL_EXPONENT && (f >= HIDDEN_BIT || e == DENORMAL_EXPONENT) ==> Packs(f, e, d)
    ensures f < 2 * HIDDEN_BIT && e < DENORMAL_EXPONENT ==> d.bits == 0
  {
    d := DiyFpToUint64(f, e);
    if f == 2 * HIDDEN_BIT { assert Shrunk(f, e) == Shrunk(HIDDEN_BIT, e + 1); }
  }

  /** The ends of a packed double's rounding interval. */
  lemma PackedLower(r: int, k: int, d: Double, x: real)
    requires Packs(r, k, d) && LowerEnd(r, k).Value() < x
    ensures d.bits > 0 ==> d.LowerBoundary().Value() < x
  {
    hide Two;
    Fields(d);
    if d.bits == INFINITY && d.bits > 0 {
      InfinityLower(r, k);
    } else if r == 2 * HIDDEN_BIT {
      assert d.LowerBoundary() == LowerEnd(r, k);
    } else if d.bits > 0 {
      assert d.LowerBoundary() == LowerEnd(r, k);
    }
  }

  lemma InfinityLower(r: int, k: int)
    requires HIDDEN_BIT <= r <= 2 * HIDDEN_BIT && k >= (if r == 2 * HIDDEN_BIT then MAX_EXPONENT - 1 else MAX_EXPONENT)
    ensures Double(INFINITY).LowerBoundary().Value() <= LowerEnd(r, k).Value()
  {
    hide Two;
    var inf := Double(INFINITY);
    Fields(inf);
    assert inf.LowerBoundary() == Binary(4 * HIDDEN_BIT - 1, 970);
    if r == HIDDEN_BIT {
      TwoMonotone(970, k - 2);
      RMulLe(Two(970), Two(k - 2), (4 * HIDDEN_BIT - 1) as real);
    } else if r == 2 * HIDDEN_BIT {
      TwoMonotone(970, k - 1);
      RMulLe(Two(970), Two(k - 1), (2 * r - 1) as real);
    } else {
      TwoMonotone(971, k - 1);
      TwoStep(2 * HIDDEN_BIT, 971);
      RMulLe(Two(971), Two(k - 1), (2 * r - 1) as real);
      RMulLe((2 * HIDDEN_BIT) as real, (2 * r - 1) as real, Two(971));
      RMulLe((4 * HIDDEN_BIT - 1) as real, (4 * HIDDEN_BIT) as real, Two(970));
    }
  }

  lemma PackedUpper(r: int, k: int, d: Double, x: real)
    requires Packs(r, k, d) && x < Binary(2 * r + 1, k - 1).Value()
    ensures d.bits < INFINITY ==> x < d.UpperBoundary().Value()
  {
    hide Two;
    if d.bits < INFINITY && r == 2 * HIDDEN_BIT {
      TwoStep(2 * HIDDEN_BIT + 1, k);
      RMulLt((2 * r + 1) as real, (2 * (2 * HIDDEN_BIT + 1)) as real, Two(k - 1));
    }
  }

  /** Strictly between the ends, a number rounds to the packed double. */
  lemma PackedRounds(r: int, k: int, d: Double, x: real)
    requires Packs(r, k, d) && LowerEnd(r, k).Value() < x < Binary(2 * r + 1, k - 1).Value()
    ensures RoundsTo(x, d)
  {
    hide Double.LowerBoundary, Double.UpperBoundary, Binary.Value, LowerEnd, Packs;
    PackedLower(r, k, d, x);
    PackedUpper(r, k, d, x);
    PackedFinite(r, k, d);
  }

  lemma PackedFinite(r: int, k: int, d: Double)
    requires Packs(r, k, d)
    ensures d.bits <= INFINITY
  {
  }

  /** Up to the end of its upper neighbour's half, it is at least a good guess. */
  lemma PackedGuess(r: int, k: int, d: Double, x: real)
    requires Packs(r, k, d) && r < 2 * HIDDEN_BIT && LowerEnd(r, k).Value() < x < Binary(2 * r + 3, k - 1).Value()
    ensures GuessOk(x, d)
  {
    hide Double.LowerBoundary, Double.UpperBoundary, Binary.Value, LowerEnd, Packs, Double.IsEven;
    PackedFinite(r, k, d);
    PackedLower(r, k, d, x);
    if d.bits < INFINITY {
      var n := d.NextDouble();
      NextPacks(r, k, d);
      PackedFinite(r + 1, k, n);
      PackedUpper(r + 1, k, n, x);
      BoundariesMeet(d);
      NextFields(d);
    }
  }

  lemma NextPacks(r: int, k: int, d: Double)
    requires Packs(r, k, d) && r < 2 * HIDDEN_BIT && d.bits < INFINITY
    ensures Packs(r + 1, k, d.NextDouble())
  {
    NextFields(d);
    Fields(d);
    Fields(d.NextDouble());
  }

  /** Where x lies between the multiples of 2^c that surround f, when f is off by error eighths at most. */
  lemma BitsDecide(x: real, f: nat, e: int, error: nat, c: nat, r: nat, bits: nat)
    requires StrictlyClose(x, f, e, error) && error <= 256 && 11 <= c
    requires f == r * Pow(2, c) + bits && bits < Pow(2, c)
    ensures
      var half, k := Pow(2, c - 1), e + c;
      && Binary(4 * r - 1, k - 2).Value() < x < Binary(2 * r + 3, k - 1).Value()
      && (8 * bits >= 8 * half + error ==> Binary(2 * r + 1, k - 1).Value() < x)
      && (8 * bits + error <= 8 * half ==> x < Binary(2 * r + 1, k - 1).Value())
  {
    hide Pow, Two, ShiftLeft, Binary.Value, StrictlyClose;
    var k := e + c;
    ShiftedPoint(4 * r - 1, k - 2, c + 1);
    ShiftedPoint(2 * r + 1, k - 1, c + 2);
    ShiftedPoint(2 * r + 3, k - 1, c + 2);
    BitsSides(f, error, r, c, bits);
    EndsInOrder(x, f, e, error, ShiftLeft(4 * r - 1, c + 1), ShiftLeft(2 * r + 1, c + 2), ShiftLeft(2 * r + 3, c + 2));
  }

  lemma ShiftedPoint(m: int, k: int, n: nat)
    ensures Binary(ShiftLeft(m, n), k - n).Value() == Binary(m, k).Value()
  {
    ShiftedValue(m, k, n);
  }

  lemma BitsSides(f: int, error: int, r: int, c: nat, bits: int)
    requires f == r * Pow(2, c) + bits && 0 <= bits < Pow(2, c) && 11 <= c && 0 <= error <= 256
    ensures ShiftLeft(4 * r - 1, c + 1) <= 8 * f - error && 8 * f + error <= ShiftLeft(2 * r + 3, c + 2)
    ensures 8 * bits >= 8 * Pow(2, c - 1) + error ==> ShiftLeft(2 * r + 1, c + 2) <= 8 * f - error
    ensures 8 * bits + error <= 8 * Pow(2, c - 1) ==> 8 * f + error <= ShiftLeft(2 * r + 1, c + 2)
  {
    hide Pow, ShiftLeft;
    var p := Pow(2, c);
    PowMonotone(2, 11, c);
    SmallTwos();
    PowNext(c - 1);
    PowNext(c);
    PowNext(c + 1);
    var rp := r * p;
    GridPoint(4, r, -1, c + 1, 2, p, rp);
    GridPoint(2, r, 1, c + 2, 4, p, rp);
    GridPoint(2, r, 3, c + 2, 4, p, rp);
    BitsLinear(f, error, p, rp, bits, Pow(2, c - 1), ShiftLeft(4 * r - 1, c + 1), ShiftLeft(2 * r + 1, c + 2),
               ShiftLeft(2 * r + 3, c + 2));
  }

  lemma BitsLinear(f: int, error: int, p: int, rp: int, bits: int, half: int, low: int, middle: int, high: int)
    requires f == rp + bits && 0 <= bits < p && p == 2 * half && 2048 <= p && 0 <= error <= 256
    requires low == 8 * rp - 2 * p && middle == 8 * rp + 4 * p && high == 8 * rp + 12 * p
    ensures low <= 8 * f - error && 8 * f + error <= high
    ensures 8 * bits >= 8 * half + error ==> middle <= 8 * f - error
    ensures 8 * bits + error <= 8 * half ==> 8 * f + error <= middle
  {
  }

  lemma GridPoint(a: int, r: int, b: int, n: nat, j: int, p: int, rp: int)
    requires Pow(2, n) == j * p && rp == r * p
    ensures ShiftLeft(a * r + b, n) == (a * j) * rp + (b * j) * p
  {
    MulDist(a * r, b, j * p);
    assert (a * r) * (j * p) == a * j * rp by {
      MulAssoc(a, r, j * p);
      MulAssoc(r, j, p);
      MulAssoc(j, r, p);
      MulAssoc(a, j, rp);
    }
    MulAssoc(b, j, p);
  }

  lemma EndsInOrder(x: real, f: int, e: int, error: int, a: int, b: int, c: int)
    requires StrictlyClose(x, f, e, error) && a <= 8 * f - error && 8 * f + error <= c
    ensures Binary(a, e - 3).Value() < x < Binary(c, e - 3).Value()
    ensures b <= 8 * f - error ==> Binary(b, e - 3).Value() < x
    ensures 8 * f + error <= b ==> x < Binary(b, e - 3).Value()
  {
    hide Binary.Value;
    var low, high := 8 * f - error, 8 * f + error;
    BinaryOrder(a, low, e - 3);
    BinaryOrder(high, c, e - 3);
    if b <= low { BinaryOrder(b, low, e - 3); }
    if high <= b { BinaryOrder(high, b, e - 3); }
  }

  lemma LowerEndBelow(r: nat, k: int, x: real)
    requires Binary(4 * r - 1, k - 2).Value() < x
    ensures LowerEnd(r, k).Value() < x
  {
    hide Two;
    TwoStep(2 * r - 1, k - 1);
    RMulLe((2 * (2 * r - 1)) as real, (4 * r - 1) as real, Two(k - 2));
  }

  /** The verdict on every number that may stand behind f * 2^e. */
  lemma RoundedWell(x: real, f: nat, e: int, error: nat, c: nat, r: nat, bits: nat, up: bool, sure: bool, d: Double)
    requires StrictlyClose(x, f, e, error) && error <= 256 && 11 <= c
    requires f == r * Pow(2, c) + bits && bits < Pow(2, c) && r < 2 * HIDDEN_BIT
    requires up <==> 8 * bits >= 8 * Pow(2, c - 1) + error
    requires sure <==> up || 8 * bits + error <= 8 * Pow(2, c - 1)
    requires up ==> r + 1 != HIDDEN_BIT || e + c == DENORMAL_EXPONENT
    requires Packs(if up then r + 1 else r, e + c, d)
    ensures GuessOk(x, d) && (sure ==> RoundsTo(x, d))
  {
    hide Pow, Packs, Binary.Value, StrictlyClose, RoundsTo;
    BitsDecide(x, f, e, error, c, r, bits);
    if up {
      assert LowerEnd(r + 1, e + c) == Binary(2 * r + 1, e + c - 1);
      assert 2 * (r + 1) + 1 == 2 * r + 3;
      PackedRounds(r + 1, e + c, d, x);
    } else {
      LowerEndBelow(r, e + c, x);
      if sure { PackedRounds(r, e + c, d, x); }
      PackedGuess(r, e + c, d, x);
    }
  }

  /** Dropping low bits costs one unit at most, and one eighth for the bits dropped from the error. */
  lemma DroppedBits(x: real, f: nat, e: int, error: nat, n: nat)
    requires StrictlyClose(x, f, e, error)
    ensures StrictlyClose(x, ShiftRight(f, n), e + n, ShiftRight(error, n) + 1 + DENOMINATOR)
  {
    hide Pow, Binary.Value;
    var q, r, p := ShiftRight(f, n), ShiftRight(error, n), Pow(2, n);
    var error' := r + 1 + DENOMINATOR;
    ShiftedValue(8 * q - error', e + n - 3, n);
    ShiftedValue(8 * q + error', e + n - 3, n);
    DroppedSides(f, error, q, r, p);
    BinaryOrder((8 * q - error') * p, 8 * f - error, e - 3);
    BinaryOrder(8 * f + error, (8 * q + error') * p, e - 3);
  }

  lemma DroppedSides(f: nat, error: nat, q: int, r: int, p: int)
    requires q * p <= f < q * p + p && r * p <= error < r * p + p
    ensures (8 * q - (r + 9)) * p <= 8 * f - error && 8 * f + error <= (8 * q + (r + 9)) * p
  {
    assert (8 * q - (r + 9)) * p == 8 * (q * p) - r * p - 9 * p;
    assert (8 * q + (r + 9)) * p == 8 * (q * p) + r * p + 9 * p;
  }

  lemma BinaryOrder(m: int, n: int, e: int)
    requires m <= n
    ensures Binary(m, e).Value() <= Binary(n, e).Value()
  {
    hide Two;
    RMulLe(m as real, n as real, Two(e));
  }

  /** Every number close before is close after. */
  ghost predicate StaysClose(f: int, e: int, error: int, f': int, e': int, error': int) {
    forall x: real :: StrictlyClose(x, f, e, error) ==> StrictlyClose(x, f', e', error')
  }

  /** How many low bits do not fit the double, with the number shifted so that the tests cannot overflow. */
  method FindPrecision(f0: UInt64, e0: int, error0: UInt64)
    returns (f: UInt64, e: int, error: UInt64, precisionDigitsCount: nat)
    requires HALF <= f0 && 0 < error0 <= 240
    ensures 11 <= precisionDigitsCount <= 60 && 0 < error <= 256 && StaysClose(f0, e0, error0, f, e, error)
    ensures precisionDigitsCount == 11 ==> f == f0 && e + 11 >= DENORMAL_EXPONENT
    ensures precisionDigitsCount > 11 ==> e + precisionDigitsCount <= DENORMAL_EXPONENT
    ensures e0 + 64 >= DENORMAL_EXPONENT <==> e + precisionDigitsCount >= DENORMAL_EXPONENT
  {
    hide StrictlyClose, ShiftRight;
    f, e, error := f0, e0, error0;
    var orderOfMagnitude := 64 + e;
    var effectiveSignificandSize := SignificandSizeForOrderOfMagnitude(orderOfMagnitude);
    precisionDigitsCount := 64 - effectiveSignificandSize;
    if precisionDigitsCount + 3 >= 64 {
      var shiftAmount: nat := precisionDigitsCount + 3 - 64 + 1;
      forall x: real | StrictlyClose(x, f0, e0, error0)
        ensures StrictlyClose(x, ShiftRight(f, shiftAmount), e + shiftAmount, ShiftRight(error, shiftAmount) + 1 + DENOMINATOR)
      {
        DroppedBits(x, f, e, error, shiftAmount);
      }
      f := ShiftRight(f, shiftAmount);
      e := e + shiftAmount;
      error := ShiftRight(error, shiftAmount) + 1 + DENOMINATOR;
      precisionDigitsCount := precisionDigitsCount - shiftAmount;
    }
  }

  /** Rounds f * 2^e to a double, and says whether the error leaves any doubt. */
  method RoundDiyFp(f0: UInt64, e0: int, error0: UInt64) returns (ok: bool, result: Double)
    requires HALF <= f0 && 0 < error0 <= 240
    ensures result.bits <= INFINITY
    ensures forall x: real :: StrictlyClose(x, f0, e0, error0) && (e0 + 64 >= DENORMAL_EXPONENT || x <= Two(-1075)) ==>
                                GuessOk(x, result) && (ok ==> RoundsTo(x, result))
  {
    hide Pow, Packs, StrictlyClose, RoundsTo, GuessOk, Two, ShiftRight, LowBits, SignificandSizeForOrderOfMagnitude;
    var f, e, error, precisionDigitsCount := FindPrecision(f0, e0, error0);
    PrecisionBits(precisionDigitsCount);
    ghost var bits := LowBits(f, precisionDigitsCount);
    var precisionBits: UInt64 := LowBits(f, precisionDigitsCount) * DENOMINATOR;
    var halfWay: UInt64 := Pow(2, precisionDigitsCount - 1) * DENOMINATOR;
    ShiftedBelow(f, precisionDigitsCount);
    var rounded: UInt64 := ShiftRight(f, precisionDigitsCount);
    ghost var r := rounded;
    var up := precisionBits >= Add64(halfWay, error);
    if up {
      rounded := rounded + 1;
    }
    if precisionDigitsCount == 11 { FullLength(f); }
    result := Pack(rounded, e + precisionDigitsCount);
    ok := !(Sub64(halfWay, error) < precisionBits && precisionBits < Add64(halfWay, error));
    if e0 + 64 >= DENORMAL_EXPONENT {
      forall x: real | StrictlyClose(x, f0, e0, error0)
        ensures GuessOk(x, result) && (ok ==> RoundsTo(x, result))
      {
        RoundedWell(x, f, e, error, precisionDigitsCount, r, bits, up, ok, result);
      }
    } else {
      TooSmall(result);
    }
  }

  /** Numbers up to half the smallest double round to zero. */
  lemma TooSmall(d: Double)
    requires d.bits == 0
    ensures forall x: real :: x <= Two(-1075) ==> RoundsTo(x, d) && GuessOk(x, d)
  {
    hide Two;
    Fields(d);
    assert d.UpperBoundary() == Binary(1, -1075);
  }

  lemma PrecisionBits(c: nat)
    requires 11 <= c <= 60
    ensures Pow(2, c) * 8 <= 0x8000_0000_0000_0000 && Pow(2, c) == 2 * Pow(2, c - 1) && 1024 <= Pow(2, c - 1)
  {
    hide Pow;
    PowMonotone(2, c, 60);
    PowMonotone(2, 10, c - 1);
    SmallTwos();
    PowNext(c - 1);
    LargeTwos();
  }

  lemma ShiftedBelow(f: UInt64, c: nat)
    requires 11 <= c <= 60
    ensures ShiftRight(f, c) < 2 * HIDDEN_BIT && (c > 11 ==> ShiftRight(f, c) < HIDDEN_BIT)
    ensures f == ShiftRight(f, c) * Pow(2, c) + LowBits(f, c) && LowBits(f, c) < Pow(2, c)
  {
    hide Pow;
    PowMonotone(2, 11, c);
    SmallTwos();
    var q := ShiftRight(f, c);
    if q >= 2 * HIDDEN_BIT { ProductAtMost(2 * HIDDEN_BIT, 2048, q, Pow(2, c)); }
    if c > 11 {
      PowMonotone(2, 12, c);
      PowNext(11);
      if q >= HIDDEN_BIT { ProductAtMost(HIDDEN_BIT, 4096, q, Pow(2, c)); }
    }
  }

  lemma FullLength(f: UInt64)
    requires HALF <= f
    ensures ShiftRight(f, 11) >= HIDDEN_BIT
  {
    hide Pow;
    SmallTwos();
  }

  // ----- the whole way

  /** Normalizes, and shifts the error along. */
  method NormalizeWithError(input: DiyFp, error0: UInt64, ghost x: real, ghost room: nat) returns (error: UInt64)
    requires input.f > 0 && room <= 3 && error0 <= 64
    requires error0 == 0 || ShiftLeft(input.f, room) >= HALF
    modifies input
    ensures input.e <= old(input.e) && input.f == old(ShiftLeft(input.f, input.e - Normalized(input.f, input.e).e))
    ensures input.AsBinary() == old(Normalized(input.f, input.e))
    ensures HALF <= input.f && error <= ShiftLeft(error0, room) && (error == 0 <==> error0 == 0)
    ensures old(Close(x, input.f, input.e, error0)) ==> Close(x, input.f, input.e, error)
    ensures old(StrictlyClose(x, input.f, input.e, error0)) ==> StrictlyClose(x, input.f, input.e, error)
  {
    hide Pow, Close, StrictlyClose, Normalized, ShiftLeft;
    var oldE := input.e;
    ghost var f := input.f;
    NormalizeKeeps(x, f, oldE, error0, room);
    input.Normalize();
    error := ShiftLeft(error0, oldE - input.e);
  }

  lemma NormalizeKeeps(x: real, f: UInt64, e: int, error: nat, room: nat)
    requires f > 0 && room <= 3 && error <= 64 && (error == 0 || ShiftLeft(f, room) >= HALF)
    ensures
      var n := Normalized(f, e);
      var error' := ShiftLeft(error, e - n.e);
      && n.f == ShiftLeft(f, e - n.e)
      && 0 <= error' <= ShiftLeft(error, room) <= 512 && (error' == 0 <==> error == 0)
      && (Close(x, f, e, error) ==> Close(x, n.f, n.e, error'))
      && (StrictlyClose(x, f, e, error) ==> StrictlyClose(x, n.f, n.e, error'))
  {
    hide Pow, Close, StrictlyClose, Normalized;
    var k := e - Normalized(f, e).e;
    NormalizedShift(f, e);
    CloseShift(x, f, e, error, k);
    if error != 0 {
      ShiftAtMost(f, k, room);
      MulLe(Pow(2, k), Pow(2, room), error);
      MulLe(Pow(2, room), 8, error);
      MulLe(1, Pow(2, k), error);
    }
  }

  /** A number that needs at most room bits to be full is not shifted further. */
  lemma ShiftAtMost(f: nat, k: nat, room: nat)
    requires f * Pow(2, room) >= HALF && f * Pow(2, k) < 2 * HALF && room <= 3
    ensures 0 < Pow(2, k) <= Pow(2, room) <= 8
  {
    hide Pow;
    if k > room { ShiftTooFar(f, room, k); }
    PowMonotone(2, k, room);
    PowMonotone(2, room, 3);
    SmallTwos();
  }

  lemma HighWordAtLeast(f: nat, p: nat, half: nat)
    requires half <= f && HALF <= p
    ensures f * p >= 0 && HighWord(f * p) >= half / 2
  {
    ProductAtMost(half, HALF, f, p);
  }

  /** A short input times a small power of ten fits 64 bits, so nothing is lost. */
  lemma FitsExactly(n: nat, digits: nat, a: nat, k: nat, f: UInt64)
    requires 0 < n < Pow(10, digits) && 0 < a < 8 && digits + a <= 19
    requires f == ShiftLeft(n, k) && HALF <= f
    ensures
      var p := AdjustmentPowerOfTen(a);
      f * p.f >= 0 && HighWord(f * p.f) * 0x1_0000_0000_0000_0000 == f * p.f
  {
    hide Pow, AdjustmentPowerOfTen;
    var p := AdjustmentPowerOfTen(a);
    AdjustmentExact(a);
    var m := -p.e;
    PowAdd(2, k, m);
    var q := n * Pow(10, a);
    PowAdd(10, digits, a);
    PowMonotone(10, digits + a, 19);
    PowTenValues();
    MulLt(n, Pow(10, digits), Pow(10, a));
    MulLt(0, n, Pow(10, a));
    SplitProduct(n, Pow(2, k), Pow(10, a), Pow(2, m));
    assert f * p.f == q * Pow(2, k + m);
    ProductAtMost(HALF, HALF, f, p.f);
    var h := EvenTen(a);
    MulAssoc(n, h, 2);
    MulLe(0, n, h);
    WholeWords(q, k + m, n * h);
  }

  lemma SplitProduct(n: int, x: int, t: int, y: int)
    ensures (n * x) * (t * y) == (n * t) * (x * y)
  {
    MulAssoc(n, x, t * y);
    MulAssoc(x, t, y);
    MulAssoc(t, x, y);
    MulAssoc(n, t, x * y);
  }

  lemma EvenTen(a: nat) returns (h: nat)
    requires 0 < a
    ensures Pow(10, a) == h * 2
  {
    h := 5 * Pow(10, a - 1);
  }

  /** An even number below 2^64, shifted until it passes 2^126, is a whole number of words. */
  lemma WholeWords(q: nat, n: nat, h: nat)
    requires q < 0x1_0000_0000_0000_0000 && q == h * 2 && q * Pow(2, n) >= HALF * HALF
    ensures HighWord(q * Pow(2, n)) * 0x1_0000_0000_0000_0000 == q * Pow(2, n)
  {
    hide Pow, HighWord;
    PowSixtyFour();
    if n <= 62 {
      PowMonotone(2, n, 62);
      MulLe(Pow(2, n), Pow(2, 62), q);
      assert false;
    }
    PowAdd(2, 63, n - 63);
    PowNext(63);
    var r := h * Pow(2, n - 63);
    WordMultiple(h, Pow(2, n - 63));
    assert q * Pow(2, n) == r * 0x1_0000_0000_0000_0000;
    MultipleOfWord(r, q * Pow(2, n));
  }

  lemma WordMultiple(h: int, p: int)
    ensures (h * 2) * (HALF * p) == (h * p) * 0x1_0000_0000_0000_0000
  {
  }

  lemma MultipleOfWord(r: nat, x: nat)
    requires x == r * 0x1_0000_0000_0000_0000
    ensures HighWord(x) == r
  {
  }

  /** Multiplies by the small power of ten that the cached one falls short of. */
  method ScaleByAdjustment(input: DiyFp, error0: UInt64, a: nat, digits: nat, ghost n: nat, ghost x: real, ghost y: real)
    returns (error: UInt64)
    requires 0 < a < 8 && HALF <= input.f && error0 <= 32 && Close(x, input.f, input.e, error0) && y == x * Ten(a)
    requires digits <= 19 ==>
               error0 == 0 && input.e <= 0 && 0 < n < Pow(10, digits) && input.f == ShiftLeft(n, -input.e)
    modifies input
    ensures input.f == HighWord(old(input.f) * AdjustmentPowerOfTen(a).f)
    ensures input.e == old(input.e) + AdjustmentPowerOfTen(a).e + 64
    ensures error <= 36 && input.f >= 0x4000_0000_0000_0000 && Close(y, input.f, input.e, error)
  {
    hide Pow, Close, ShiftLeft, HighWord, AdjustmentPowerOfTen, Binary.Value;
    var power := AdjustmentPowerOfTen(a);
    var adjustmentPower := new DiyFp(power.f, power.e);
    AdjustmentExact(a);
    HighWordAtLeast(input.f, power.f, HALF);
    ghost var f, e := input.f, input.e;
    input.Multiply(adjustmentPower);
    error := error0;
    if MAX_UINT64_DECIMAL_DIGITS - digits >= a {
      FitsExactly(n, digits, a, -e, f);
      ExactFit(x, f, e, power, y, input.f);
    } else {
      ExactTimes(x, f, e, error0, power, y);
      error := error + DENOMINATOR / 2;
    }
  }

  /** Multiplies by the cached power; its own rounding and that of the product add to the error. */
  method ScaleByCachedPower(input: DiyFp, power: DiyFp, error0: UInt64, ghost k: int, ghost x: real, ghost y: real)
    returns (error: UInt64)
    requires 0x4000_0000_0000_0000 <= input.f && error0 <= 36 && input != power
    requires Close(x, input.f, input.e, error0) && IsCachedPower(power.AsBinary(), k) && y == x * Ten(k)
    modifies input
    ensures input.f == HighWord(old(input.f) * power.f) && input.e == old(input.e) + power.e + 64
    ensures 0 < error <= 45 && input.f >= 0x2000_0000_0000_0000 && StrictlyClose(y, input.f, input.e, error)
  {
    hide Close, StrictlyClose, HighWord, Binary.Value;
    HighWordAtLeast(input.f, power.f, 0x4000_0000_0000_0000);
    CachedTimes(x, input.f, input.e, error0, power.AsBinary(), k, y);
    input.Multiply(power);
    var errorB := DENOMINATOR / 2;
    var errorAB := if error0 == 0 then 0 else 1;
    var fixedError := DENOMINATOR / 2;
    error := error0 + errorB + errorAB + fixedError;
  }

  /** Seen from above, a number too small to pack is hardly more than half the smallest double. */
  lemma MagnitudeKnown(x: real, f: UInt64, e: int, error: nat)
    requires StrictlyClose(x, f, e, error) && error <= 240 && e + 64 < DENORMAL_EXPONENT
    ensures x < Two(-1075) + Two(-1134)
  {
    hide Two;
    var u := Two(e - 3);
    TwoMonotone(e - 3, -1142);
    RMulLe((8 * f + error) as real, 0x8_0000_0000_0000_00F8 as real, u);
    RMulLe(u, Two(-1142), 0x8_0000_0000_0000_00F8 as real);
    RMulLt(0x8_0000_0000_0000_00F8 as real, 0x8_0000_0000_0000_0100 as real, Two(-1142));
    assert x < (8 * f + error) as real * u;
    assert x < 0x8_0000_0000_0000_00F8 as real * u;
    assert x < 0x8_0000_0000_0000_0100 as real * Two(-1142);
    SplitTop(Two(-1142));
  }

  lemma SplitTop(u: real)
    requires u == Two(-1142)
    ensures 0x8_0000_0000_0000_0100 as real * u == Two(-1075) + Two(-1134)
  {
    hide Two;
    TwoNat(67);
    TwoNat(8);
    TwoAdd(67, -1142);
    TwoAdd(8, -1142);
    PowValues();
    PowAdd(2, 64, 3);
    SmallTwos();
    assert Pow(2, 8) == 256;
    RMulDist(0x8_0000_0000_0000_0000 as real, 256.0, u);
  }

  /** Numbers below the reach of the table are far below every double in question. */
  lemma BelowTable(x: real, f: UInt64, e: int, error: nat, exponent: int, y: real)
    requires Close(x, f, e, error) && e <= 0 && error <= 64 && exponent < MIN_DECIMAL_EXPONENT && y == x * Ten(exponent)
    ensures y < Two(-1075)
  {
    hide Two, Ten, Pow, Close;
    InputBelow(x, f, e, error);
    TenMonotone(exponent, -349);
    TenAdd(20, -349);
    TinyPowers();
    ProductFloor(Ten(20), x, Ten(-349), Ten(exponent));
  }

  lemma ProductFloor(a: real, b: real, x: real, y: real)
    requires b <= a && 0.0 <= y <= x && 0.0 <= a
    ensures b * y <= a * x
  {
    RMulLe(b, a, y);
    RMulLe(y, x, a);
  }

  lemma InputBelow(x: real, f: UInt64, e: int, error: nat)
    requires Close(x, f, e, error) && e <= 0 && error <= 64
    ensures x <= Ten(20)
  {
    hide Binary.Value, Pow, Ten;
    BinaryRaise(8 * f + error, e - 3, -3);
    Eighths(8 * f + error, x);
    TenNat(20);
    PowTenValues();
    PowTen(19);
  }

  lemma BinaryRaise(m: nat, e: int, e': int)
    requires e <= e'
    ensures Binary(m, e).Value() <= Binary(m, e').Value()
  {
    hide Two;
    TwoMonotone(e, e');
    RMulLe(Two(e), Two(e'), m as real);
  }

  lemma TinyPowers()
    ensures Ten(-329) < Two(-1075)
  {
    hide Two, Ten, Pow;
    PowMul(2, 23, 47);
    PowMul(10, 7, 47);
    SmallTwos();
    SmallTens();
    PowBelow(8388608, 10000000, 47);
    TenNat(329);
    TwoNat(1081);
    TenInverse(329);
    TwoInverse(1081);
    TwoMonotone(-1080, -1075);
    TwoAdd(-1081, 1);
    TwoSmall();
    ReciprocalOrder(Two(1081), Ten(329), Two(-1081), Ten(-329));
  }

  lemma DecTimes(n: int, q: int, k: int)
    ensures Dec(n, q) * Ten(k) == Dec(n, q + k)
  {
    hide Ten;
    TenAdd(q, k);
    RMulAssoc(n as real, Ten(q), Ten(k));
  }

  /** Reads and normalizes. */
  method ReadNormalized(buffer: seq<char>)
    returns (input: DiyFp, remainingDecimals: nat, error: UInt64, ghost significand: UInt64)
    requires AreDigits(buffer) && Number(buffer) > 0
    ensures significand > 0 && input.AsBinary() == Normalized(significand, 0)
    ensures |buffer| >= 19 && Number(buffer[..19]) > MAX_UINT64 / 10 - 1 ==>
              remainingDecimals == |buffer| - 19 && significand == LeadingSignificand(buffer)
    ensures fresh(input) && remainingDecimals <= |buffer| && HALF <= input.f && input.e <= 0 && error <= 32
    ensures Close(Dec(Number(buffer), -(remainingDecimals as int)), input.f, input.e, error)
    ensures |buffer| <= 19 ==>
              remainingDecimals == 0 && error == 0 && input.e <= 0 && input.f == ShiftLeft(Number(buffer), -input.e)
  {
    hide Number, Close, Pow, ShiftLeft, Normalized, LeadingSignificand;
    input, remainingDecimals := ReadDiyFp(buffer);
    significand := input.f;
    error := if remainingDecimals == 0 then 0 else DENOMINATOR / 2;
    ReadRoom(input.f);
    ghost var f := input.f;
    ghost var x := Dec(Number(buffer), -(remainingDecimals as int));
    error := NormalizeWithError(input, error, x, 3);
  }

  lemma ReadRoom(f: nat)
    ensures f >= MAX_UINT64 / 10 ==> ShiftLeft(f, 3) >= HALF
    ensures ShiftLeft(4, 3) == 32 && ShiftLeft(0, 3) == 0
  {
    SmallTwos();
  }

  lemma ScaledRoom(f: nat, error: nat)
    requires f >= 0x2000_0000_0000_0000 && error <= 45
    ensures ShiftLeft(f, 2) >= HALF && ShiftLeft(error, 2) <= 180
  {
    assert Pow(2, 2) == 4;
  }
}
