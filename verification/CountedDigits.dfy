/** The exact printer's other two modes: a given number of digits, and a given number after the point. */
module CountedDigits {
  import opened Powers
  import opened Bigits
  import opened BigitLoops
  import opened Decimals
  import opened Exact
  import opened Ieee
  import opened Shortest
  import opened Bignums
  import opened StartValues
  import opened BignumDtoas
  import opened Carry
  import opened FixedMode

  // ----- digits by division, in whole numbers

  /** The digits t are written, and n is what is left at ten times their unit. */
  ghost predicate Counting(start: int, k: nat, t: int, n: int, d: int) {
    && 0 <= n < 10 * d
    && start * Pow(10, k) == 10 * t * d + n
  }

  lemma CountOne(start: int, k: nat, t: int, n: int, d: int, digit: int, r: int)
    requires Counting(start, k, t, n, d) && n == digit * d + r && 0 <= r < d
    ensures Counting(start, k + 1, 10 * t + digit, 10 * r, d)
  {
    PowTen(k);
    CountCore(start, Pow(10, k), t, n, d, digit, r);
    MulAssoc(start, Pow(10, k), 10);
  }

  lemma CountCore(start: int, p: int, t: int, n: int, d: int, digit: int, r: int)
    requires start * p == 10 * t * d + n && n == digit * d + r
    ensures (start * p) * 10 == 10 * (10 * t + digit) * d + 10 * r
  {
    MulDist(10 * t, digit, d);
    MulAssoc(10, 10 * t + digit, d);
  }

  /** c is what start * 10^k comes to in units of d, rounded half up. */
  ghost predicate CountsTo(start: int, k: nat, d: int, c: int) {
    (2 * c - 1) * d <= 2 * start * Pow(10, k) < (2 * c + 1) * d
  }

  lemma LastCount(start: int, k: nat, t: int, n: int, d: int, digit: int, r: int)
    requires Counting(start, k, t, n, d) && n == digit * d + r && 0 <= r < d
    ensures CountsTo(start, k, d, 10 * t + digit + (if 2 * r >= d then 1 else 0))
  {
    var c := 10 * t + digit;
    MulDist(10 * t, digit, d);
    MulAssoc(2, start, Pow(10, k));
    MulDist(2 * c, 1, d);
    MulDist(2 * c, 3, d);
    MulAssoc(2, c, d);
  }

  // ----- what the whole numbers say about the double

  /** v = n / d * 10^q. */
  ghost predicate Stands(v: real, n: int, d: int, q: int) {
    0 < d && v * d as real == n as real * Ten(q)
  }

  lemma CountIsRounded(v: real, n: int, d: int, q: int, k: nat, c: int)
    requires Stands(v, n, d, q) && CountsTo(n, k, d, c)
    ensures RoundsHalfUp(v, k - q, c)
  {
    hide Ten, Pow;
    var u := Ten(q - k);
    TenAdd(q - k, k);
    TenNat(k);
    CountCompare(v, n, d, Pow(10, k), u, Ten(q), 2 * c - 1);
    CountCompare(v, n, d, Pow(10, k), u, Ten(q), 2 * c + 1);
    MulAssoc(2, n, Pow(10, k));
  }

  /** b units of d compare with 2 n p as b units of u compare with 2 v. */
  lemma CountCompare(v: real, n: int, d: int, p: int, u: real, t: real, b: int)
    requires 0 < d && 0.0 < u && v * d as real == n as real * t && t == u * p as real
    ensures b as real * u <= 2.0 * v <==> b * d <= 2 * (n * p)
    ensures 2.0 * v < b as real * u <==> 2 * (n * p) < b * d
  {
    var rd, np := d as real, (n * p) as real;
    IntMul(n, p);
    IntMul(b, d);
    Rotate(n as real, u, p as real);
    assert v * rd == np * u by { Rotate(n as real, p as real, u); }
    RCancel(b as real * u, 2.0 * v, rd);
    RCancel(2.0 * v, b as real * u, rd);
    RMulAssoc(2.0, v, rd);
    RMulAssoc(2.0, np, u);
    Rotate(b as real, u, rd);
    RMulAssoc(b as real, u, rd);
    RMulAssoc(b as real, rd, u);
    CancelUnit(b as real * rd, 2.0 * np, u);
  }

  lemma CancelUnit(x: real, y: real, u: real)
    requires 0.0 < u
    ensures x * u <= y * u <==> x <= y
    ensures y * u < x * u <==> y < x
  {
    RCancel(x, y, u);
    RCancel(y, x, u);
  }

  // ----- the generator

  /** The last digit, rounded by what is left; it may come out as ten. */
  method LastDigit(numerator: Bignum, denominator: Bignum, ghost start: int, ghost k: nat, ghost t: int) returns (digit: nat)
    requires numerator.Valid() && denominator.Valid() && Apart(numerator, denominator)
    requires 10 * denominator.Value() < BPow(ROOM) && Counting(start, k, t, numerator.Value(), denominator.Value())
    modifies numerator, numerator.bigits
    ensures digit <= 10 && CountsTo(start, k, denominator.Value(), 10 * t + digit)
    ensures old(numerator.Value()) >= denominator.Value() ==> digit > 0
  {
    hide BPow, Counting, CountsTo, Bignum.Valid, Bignum.Loose, Bignum.Value;
    ghost var n := numerator.Value();
    CountingBounds(start, k, t, n, denominator.Value());
    digit := DivideDigit(numerator, denominator);
    LastCount(start, k, t, n, denominator.Value(), digit, numerator.Value());
    NotZero(n, denominator.Value(), digit, numerator.Value());
    var compare := Bignum.PlusCompare(numerator, numerator, denominator);
    if compare >= 0 {
      digit := digit + 1;
    }
  }

  lemma NotZero(n: int, d: int, digit: int, r: int)
    requires n == digit * d + r && r < d
    ensures n >= d ==> digit != 0
  {
  }

  /** All digits but the last one. */
  method LeadingDigits(count: nat, numerator: Bignum, denominator: Bignum, buffer: array<char>)
    requires numerator.Valid() && denominator.Valid() && Apart(numerator, denominator)
    requires 0 <= numerator.Value() < 10 * denominator.Value() < BPow(ROOM)
    requires count <= buffer.Length && buffer as object !in {numerator.bigits, denominator.bigits}
    modifies numerator, numerator.bigits, buffer
    ensures numerator.Valid() && AreDigits(buffer[..count])
    ensures Counting(old(numerator.Value()), count, Number(buffer[..count]), numerator.Value(), denominator.Value())
    ensures count > 0 && old(numerator.Value()) >= denominator.Value() ==> buffer[0] != '0'
    ensures count == 0 ==> numerator.Value() == old(numerator.Value())
  {
    hide BPow, Counting, Number, Bignum.Valid, Bignum.Loose, Bignum.Value;
    ghost var start, d := numerator.Value(), denominator.Value();
    FirstCount(start, d);
    assert buffer[..0] == [];
    NumberEmpty([]);
    var i := 0;
    while i < count
      invariant i <= count && numerator.Valid() && denominator.Valid() && AreDigits(buffer[..i])
      invariant Counting(start, i, Number(buffer[..i]), numerator.Value(), d)
      invariant i > 0 && start >= d ==> buffer[0] != '0'
      invariant i == 0 ==> numerator.Value() == start
    {
      CountingBounds(start, i, Number(buffer[..i]), numerator.Value(), d);
      ghost var n, before := numerator.Value(), buffer[..i];
      ghost var digit := NextDigit(numerator, denominator, buffer, i);
      NotZero(n, d, digit, numerator.Value());
      WrittenDigit(before, digit, buffer[..i + 1]);
      CountOne(start, i, Number(before), n, d, digit, numerator.Value());
      BelowRoom(numerator.Value(), d);
      numerator.Times10();
      i := i + 1;
    }
  }

  /** count digits of v = numerator / denominator * 10^(point - 1), rounded half up in the last place. */
  method GenerateCountedDigits(count: nat, point: int, numerator: Bignum, denominator: Bignum, buffer: array<char>,
                               ghost v: real)
    returns (newPoint: int)
    requires numerator.Valid() && denominator.Valid() && Apart(numerator, denominator)
    requires 0 <= numerator.Value() < 10 * denominator.Value() < BPow(ROOM)
    requires 1 <= count <= buffer.Length && buffer as object !in {numerator.bigits, denominator.bigits}
    requires Stands(v, numerator.Value(), denominator.Value(), point - 1)
    modifies numerator, numerator.bigits, buffer
    ensures IsFixed(v, count - point, buffer[..count], newPoint)
    ensures old(numerator.Value()) >= denominator.Value() ==> buffer[0] != '0'
  {
    hide BPow, Counting, CountsTo, Stands, RoundsHalfUp, Dec, Number, Bignum.Valid, Bignum.Loose, Bignum.Value;
    ghost var start, d := numerator.Value(), denominator.Value();
    LeadingDigits(count - 1, numerator, denominator, buffer);
    ghost var before := buffer[..count - 1];
    var digit := LastDigit(numerator, denominator, start, count - 1, Number(before));
    buffer[count - 1] := ('0' as int + digit) as char;
    assert buffer[..count] == before + [('0' as int + digit) as char];
    NumberSnoc(before, ('0' as int + digit) as char);
    CountIsRounded(v, start, d, point - 1, count - 1, Number(buffer[..count]));
    newPoint := PropagateCarry(buffer, count, point);
  }

  lemma WrittenDigit(s: seq<char>, digit: int, s': seq<char>)
    requires 0 <= digit <= 9 && s' == s + [DigitChar(digit)]
    ensures Number(s') == 10 * Number(s) + digit && (AreDigits(s) ==> AreDigits(s'))
  {
    NumberSnoc(s, DigitChar(digit));
  }

  lemma FirstCount(start: int, d: int)
    requires 0 <= start < 10 * d
    ensures Counting(start, 0, 0, start, d)
  {
  }

  lemma CountingBounds(start: int, k: nat, t: int, n: int, d: int)
    requires Counting(start, k, t, n, d)
    ensures 0 <= n < 10 * d
  {
  }

  lemma BelowRoom(n: int, d: int)
    requires 0 <= n <= d && 10 * d < BPow(ROOM)
    ensures n < BPow(CAPACITY - 1)
  {
    hide BPow;
    PowMonotoneB(ROOM, CAPACITY - 1);
  }

  // ----- digits after the point

  /** With a leading place below the last one asked for, v rounds to nothing. */
  lemma FarBelow(v: real, n: int, d: int, q: int, digits: int)
    requires Stands(v, n, d, q) && 0 <= n < 10 * d && q + 1 < -digits
    ensures 0.0 <= v && 2.0 * v < Ten(-digits)
  {
    hide Ten;
    Magnitude(v, n, d, q);
    TenMonotone(q + 1, -digits - 1);
    TenAdd(1, -digits - 1);
    TwoSmall();
  }

  /** v has its leading digit at 10^q. */
  lemma Magnitude(v: real, n: int, d: int, q: int)
    requires Stands(v, n, d, q)
    ensures n < 10 * d <==> v < Ten(q + 1)
    ensures d <= n <==> Ten(q) <= v
    ensures 10 * d <= 2 * n <==> Ten(q + 1) <= 2.0 * v
    ensures 0 <= n <==> 0.0 <= v
  {
    hide Ten;
    var u := Ten(q);
    TenAdd(1, q);
    TwoSmall();
    Compared(v, n, d, u, 0);
    Compared(v, n, d, u, 2);
    Compared(v, n, d, u, 10);
    Compared(v, n, d, u, 20);
  }

  lemma Compared(v: real, n: int, d: int, u: real, b: int)
    requires 0 < d && 0.0 < u && v * d as real == n as real * u
    ensures b as real * u <= 2.0 * v <==> b * d <= 2 * n
  {
    CountCompare(v, n, d, 1, u, u, b);
  }

  /** With the leading place just below the last one asked for, v rounds to one unit or to nothing. */
  lemma JustBelow(v: real, n: int, d: int, q: int, digits: int)
    requires Stands(v, n, d, q) && 0 <= n < 10 * d && q + 1 == -digits
    ensures 10 * d <= 2 * n ==> RoundsHalfUp(v, digits, 1)
    ensures 2 * n < 10 * d ==> 0.0 <= v && 2.0 * v < Ten(-digits)
  {
    hide Ten;
    Magnitude(v, n, d, q);
    var u := Ten(-digits);
    assert Dec(1, -digits) == u && Dec(3, -digits) == u + u + u by { RMulDist(1.0, 2.0, u); RMulDist(1.0, 1.0, u); }
  }

  lemma FirstDigitAt(v: real, n: int, d: int, point: int)
    requires Stands(v, n, d, point - 1) && d <= n < 10 * d
    ensures StartsAt(v, point)
  {
    hide Ten;
    Magnitude(v, n, d, point - 1);
  }

  method BignumToFixed(requestedDigits: nat, point: int, numerator: Bignum, denominator: Bignum, buffer: array<char>,
                       ghost v: real)
    returns (length: nat, newPoint: int)
    requires numerator.Valid() && denominator.Valid() && Apart(numerator, denominator)
    requires denominator.Value() <= numerator.Value() < 10 * denominator.Value() < BPow(ROOM)
    requires 1 <= buffer.Length && point + requestedDigits <= buffer.Length
    requires buffer as object !in {numerator.bigits, denominator.bigits}
    requires Stands(v, numerator.Value(), denominator.Value(), point - 1)
    modifies numerator, numerator.bigits, denominator, denominator.bigits, buffer
    ensures length <= buffer.Length && (length <= 1 || length == point + requestedDigits)
    ensures PrintsFixed(v, requestedDigits, buffer[..length], newPoint)
  {
    hide BPow, Stands, StartsAt, RoundsHalfUp, Dec, Number, Bignum.Valid, Bignum.Loose, Bignum.Value;
    ghost var n, d := numerator.Value(), denominator.Value();
    FirstDigitAt(v, n, d, point);
    if -point > requestedDigits {
      FarBelow(v, n, d, point - 1, requestedDigits);
      length, newPoint := 0, -(requestedDigits as int);
      assert buffer[..0] == [];
      NothingIsFixed(v, requestedDigits, newPoint);
    } else if -point == requestedDigits {
      JustBelow(v, n, d, point - 1, requestedDigits);
      BelowRoom(d, d);
      denominator.Times10();
      var compare := Bignum.PlusCompare(numerator, numerator, denominator);
      if compare >= 0 {
        buffer[0] := '1';
        length, newPoint := 1, point + 1;
        assert buffer[..1] == [] + ['1'];
        NumberSnoc([], '1');
        NumberEmpty([]);
      } else {
        length, newPoint := 0, point;
        assert buffer[..0] == [];
        NothingIsFixed(v, requestedDigits, newPoint);
      }
    } else {
      length := point + requestedDigits;
      newPoint := GenerateCountedDigits(length, point, numerator, denominator, buffer, v);
    }
  }

  // ----- start values without deltas

  /** The estimate of the power of ten is right, or one too low. */
  predicate EstimateFits(d: Double, estimate: int) {
    Ten(estimate - 1) <= d.Value() < Ten(estimate + 1)
  }

  lemma {:induction false} PowOdd(b: nat, k: nat)
    requires b % 2 == 1
    ensures Pow(b, k) % 2 == 1
  {
    if k == 0 {
    } else {
      PowOdd(b, k - 1);
      OddTimesOdd(b, Pow(b, k - 1));
    }
  }

  lemma OddTimesOdd(x: int, y: int)
    requires x % 2 == 1 && y % 2 == 1
    ensures (x * y) % 2 == 1
  {
    var i, j := x / 2, y / 2;
    MulDist(2 * i, 1, y);
    MulAssoc(2, i, y);
    assert x * y == 2 * (i * y + j) + 1;
  }

  lemma TimesPowerOfTwo(x: int, n: nat)
    requires n > 0
    ensures (x * Pow(2, n)) % 2 == 0
  {
    hide Pow;
    PowNext(n - 1);
    MulAssoc(x, 2, Pow(2, n - 1));
    MulAssoc(2, x, Pow(2, n - 1));
    TwiceIsEven(x * Pow(2, n), x * Pow(2, n - 1));
  }

  lemma TwiceIsEven(y: int, x: int)
    requires y == 2 * x
    ensures y % 2 == 0
  {
  }

  /** No power of five fills exactly 53 bits. */
  lemma FiveIsNoSignificand(k: nat)
    ensures Pow(5, k) < HIDDEN_BIT || 2 * HIDDEN_BIT <= Pow(5, k)
  {
    hide Pow;
    FiveTwentyTwo();
    if k <= 22 { PowMonotone(5, k, 22); } else { PowMonotone(5, 23, k); }
  }

  lemma FiveTwentyTwo()
    ensures Pow(5, 22) < HIDDEN_BIT && 2 * HIDDEN_BIT <= Pow(5, 23)
  {
    PowValues();
    PowAdd(5, 13, 9);
    PowAdd(5, 4, 5);
    assert Pow(5, 4) == 625 && Pow(5, 5) == 3125;
    PowAdd(5, 22, 1);
    assert Pow(5, 1) == 5;
  }

  /** A double with an odd significand is no power of ten. */
  lemma OddIsNoPowerOfTen(d: Double, k: int)
    requires 0 < d.bits < INFINITY && !d.IsEven()
    ensures d.Value() != Ten(k)
  {
    hide Ten, Two, Pow, Double.Significand, Double.Exponent;
    SignificandIsOdd(d);
    if k >= 0 {
      NoTenAbove(d, d.Significand(), d.Exponent(), k);
    } else {
      NoTenBelow(d.Significand(), d.Exponent(), -k);
    }
  }

  lemma NoTenAbove(d: Double, f: nat, e: int, k: nat)
    requires 0 < d.bits < INFINITY && f == d.Significand() && e == d.Exponent() && f % 2 == 1
    ensures f as real * Two(e) != Ten(k)
  {
    hide Ten, Two, Pow, Double.Significand, Double.Exponent;
    PositiveTen(d, f, e, k);
    if f as real * Two(e) == Ten(k) { FiveTimes(f, e, k); }
  }

  lemma NoTenBelow(f: nat, e: int, j: nat)
    requires f % 2 == 1 && j > 0
    ensures Binary(f, e).Value() != Ten(-(j as int))
  {
    hide Ten, Pow, Binary.Value;
    var x := OddProduct(f, j);
    NegativeTen(x, e + j);
    if Binary(f, e).Value() == Ten(-(j as int)) { FiveTimesNegative(f, e, j, x); }
  }

  lemma OddProduct(f: nat, j: nat) returns (x: int)
    requires f % 2 == 1 && j > 0
    ensures x == f * Pow(5, j) && x % 2 == 1 && x >= 5
  {
    hide Pow;
    PowOdd(5, j);
    FiveAtLeast(j);
    OddTimesOdd(f, Pow(5, j));
    MulLe(1, f, Pow(5, j));
    x := f * Pow(5, j);
  }

  lemma FiveAtLeast(j: nat)
    requires j > 0
    ensures Pow(5, j) >= 5
  {
  }

  lemma SignificandIsOdd(d: Double)
    requires 0 < d.bits < INFINITY && !d.IsEven()
    ensures d.Significand() % 2 == 1
  {
  }

  lemma FiveTimes(f: int, e: int, k: nat)
    requires f as real * Two(e) == Ten(k)
    ensures f as real * Two(e - k) == Pow(5, k) as real
  {
    hide Ten, Two, Pow;
    PowBaseMul(5, 2, k);
    IntMul(Pow(5, k), Pow(2, k));
    TenNat(k);
    TwoNat(k);
    TwoAdd(e - k, k);
    RMulAssoc(f as real, Two(e - k), Two(k));
    RCancel(f as real * Two(e - k), Pow(5, k) as real, Two(k));
  }

  lemma PositiveTen(d: Double, f: nat, e: int, k: nat)
    requires 0 < d.bits < INFINITY && f == d.Significand() && e == d.Exponent() && f % 2 == 1
    ensures f as real * Two(e - k) != Pow(5, k) as real
  {
    hide Two, Pow, Double.Significand, Double.Exponent;
    PowOdd(5, k);
    if e > k {
      if f as real * Two(e - k) == Pow(5, k) as real { EvenWhole(f, e - k, Pow(5, k)); }
    } else if e < k {
      if f as real * Two(e - k) == Pow(5, k) as real {
        MovedOver(f as real, e - k, Pow(5, k) as real);
        EvenWhole(Pow(5, k), k - e, f);
      }
    } else {
      Fields(d);
      TwoSmall();
      FiveIsNoSignificand(k);
    }
  }

  lemma EvenWhole(x: int, n: nat, y: int)
    requires n > 0 && x as real * Two(n) == y as real
    ensures y % 2 == 0
  {
    hide Two, Pow;
    TwoNat(n);
    IntMul(x, Pow(2, n));
    TimesPowerOfTwo(x, n);
    var z := x * Pow(2, n);
    assert z as real == y as real;
  }

  lemma MovedOver(x: real, n: int, y: real)
    requires x * Two(n) == y
    ensures y * Two(-n) == x
  {
    hide Two;
    TwoInverse(n);
    RMulAssoc(x, Two(n), Two(-n));
  }

  lemma FiveTimesNegative(f: int, e: int, j: nat, x: int)
    requires j > 0 && Binary(f, e).Value() == Ten(-(j as int)) && x == f * Pow(5, j)
    ensures Binary(x, e + j).Value() == 1.0
  {
    hide Ten, Two, Pow;
    PowBaseMul(5, 2, j);
    IntMul(Pow(5, j), Pow(2, j));
    IntMul(f, Pow(5, j));
    TenNat(j);
    TwoNat(j);
    TenInverse(j);
    TwoAdd(e, j);
    FiveCore(f as real, Two(e), Two(j), Pow(5, j) as real, Ten(j), Ten(-(j as int)));
  }

  lemma FiveCore(f: real, p: real, q: real, five: real, t: real, t': real)
    requires f * p == t' && t * t' == 1.0 && t == five * q
    ensures (f * five) * (p * q) == 1.0
  {
    RMulAssoc(f, five, p * q);
    Rotate(five, p, q);
    assert five * (p * q) == t * p;
    Rotate(f, t, p);
    assert f * (t * p) == (f * p) * t;
  }

  lemma NegativeTen(x: int, n: int)
    requires x % 2 == 1 && x >= 5
    ensures Binary(x, n).Value() != 1.0
  {
    hide Two, Pow;
    if n >= 0 {
      TwoNat(n);
      RMulLe(1.0, Two(n), x as real);
    } else if x as real * Two(n) == 1.0 {
      MovedOver(x as real, n, 1.0);
      EvenWhole(1, -n, x);
    }
  }

  lemma EstimateFitsRange(d: Double, estimate: int)
    requires 0 < d.bits < INFINITY && EstimateFits(d, estimate)
    ensures -360 <= estimate <= 342
    ensures d.Exponent() >= 0 ==> estimate >= 0
  {
    hide Two, Ten, Double.Value, Double.UpperBoundary;
    UpperRange(d);
    Midpoint(d);
    PowerBounds();
    ValueAtLeast(d);
    if estimate - 1 >= 342 { TenMonotone(342, estimate - 1); }
    if estimate + 1 <= -360 { TenMonotone(estimate + 1, -360); }
    if d.Exponent() >= 0 && estimate < 0 {
      TenMonotone(estimate + 1, 0);
      TwoSmall();
    }
  }

  lemma ValueAtLeast(d: Double)
    requires 0 < d.bits < INFINITY
    ensures Two(-1075) < d.Value() && (d.Exponent() >= 0 ==> 1.0 <= d.Value())
  {
    hide Two, Double.Significand, Double.Exponent;
    Fields(d);
    var f, p := d.Significand() as real, Two(d.Exponent());
    assert d.Value() == f * p;
    AtLeastOnce(f, p, d.Value());
    TwoLess(-1075, d.Exponent());
    if d.Exponent() >= 0 {
      TwoMonotone(0, d.Exponent());
      TwoSmall();
    }
  }

  lemma AtLeastOnce(f: real, p: real, x: real)
    requires 1.0 <= f && 0.0 < p && x == f * p
    ensures p <= x
  {
    RMulLe(1.0, f, p);
  }

  lemma PlainStart(d: Double, estimate: int)
    requires d.Exponent() >= 0 ==> estimate >= 0
    ensures Stands(d.Value(), d.Significand() * Top(d.Exponent(), estimate), Bottom(d.Exponent(), estimate), estimate)
  {
    hide Two, Ten, Top, Bottom, Double.Significand, Double.Exponent;
    var e, a, b := d.Exponent(), Top(d.Exponent(), estimate), Bottom(d.Exponent(), estimate);
    TopBottom(e, estimate);
    ValueScales(d.Significand(), Two(e), b, a, Ten(estimate), 1);
  }

  /** After the fix-up the fraction has one digit before its point. */
  lemma PlainFixup(d: Double, n: int, b: int, estimate: int)
    requires 0 < d.bits < INFINITY && EstimateFits(d, estimate) && Stands(d.Value(), n, b, estimate)
    ensures
      var k := if RoomAbove(n, 0, b, d.IsEven()) then 1 else 10;
      var point := if k == 1 then estimate + 1 else estimate;
      b <= k * n < 10 * b && Stands(d.Value(), k * n, b, point - 1) && Ten(point - 1) <= d.Value() < Ten(point)
  {
    hide Ten, Double.Value, Double.IsEven;
    Magnitude(d.Value(), n, b, estimate);
    if n == b && !d.IsEven() {
      SameAsUnit(d.Value(), n, estimate);
      OddIsNoPowerOfTen(d, estimate);
    }
    if n < b || (n == b && !d.IsEven()) {
      TenfoldStands(d.Value(), n, b, estimate);
      Magnitude(d.Value(), 10 * n, b, estimate - 1);
    }
  }

  lemma SameAsUnit(v: real, n: int, q: int)
    requires Stands(v, n, n, q)
    ensures v == Ten(q)
  {
    hide Ten;
    RCancel(v, Ten(q), n as real);
  }

  lemma TenfoldStands(v: real, n: int, d: int, q: int)
    requires Stands(v, n, d, q)
    ensures Stands(v, 10 * n, d, q - 1)
  {
    hide Ten;
    TenAdd(1, q - 1);
    TwoSmall();
    IntMul(10, n);
    RMulAssoc(n as real, 10.0, Ten(q - 1));
  }

  /** The exact fraction v = numerator / denominator * 10^(point - 1) with one digit before its point. */
  method StartPlain(v: Double, estimatedPower: int, numerator: Bignum, denominator: Bignum) returns (point: int)
    requires 0 < v.bits < INFINITY && EstimateFits(v, estimatedPower)
    requires numerator.Valid() && denominator.Valid() && Apart(numerator, denominator)
    modifies numerator, numerator.bigits, denominator, denominator.bigits
    ensures numerator.Valid() && denominator.Valid()
    ensures denominator.Value() <= numerator.Value() < 10 * denominator.Value() < BPow(ROOM)
    ensures Stands(v.Value(), numerator.Value(), denominator.Value(), point - 1)
    ensures Ten(point - 1) <= v.Value() < Ten(point)
    ensures point <= estimatedPower + 1
  {
    hide Pow, BPow, Stands, EstimateFits, Top, Bottom, RoomAbove, Ten, Bignum.Valid, Bignum.Loose, Bignum.Value;
    Fields(v);
    EstimateFitsRange(v, estimatedPower);
    var deltaMinus := new Bignum();
    var deltaPlus := new Bignum();
    InitialScaledStartValues(v.Significand(), v.Exponent(), v.LowerBoundaryIsCloser(), estimatedPower, false,
                             numerator, denominator, deltaMinus, deltaPlus);
    ghost var n, b := numerator.Value(), denominator.Value();
    PlainStart(v, estimatedPower);
    PlainFixup(v, n, b, estimatedPower);
    StandsPositive(v.Value(), n, b, estimatedPower);
    TenRoom(b);
    ZeroRoom();
    point := FixupMultiply10(estimatedPower, v.IsEven(), numerator, denominator, deltaMinus, deltaPlus);
  }

  lemma StandsPositive(v: real, n: int, d: int, q: int)
    requires Stands(v, n, d, q)
    ensures 0 < d
  {
  }

  lemma ZeroRoom()
    ensures 0 < BPow(ROOM)
  {
  }

  /** BignumDtoa in its fixed mode, given the estimated power of ten. */
  method BignumDtoaFixed(v: Double, estimatedPower: int, requestedDigits: nat, buffer: array<char>)
    returns (length: nat, point: int)
    requires 0 < v.bits < INFINITY && EstimateFits(v, estimatedPower)
    requires 1 < buffer.Length && estimatedPower + 1 + requestedDigits < buffer.Length
    modifies buffer
    ensures length < buffer.Length && buffer[length] == '\0'
    ensures PrintsFixed(v.Value(), requestedDigits, buffer[..length], point)
  {
    hide Pow, BPow, Stands, HasFixedLength, EstimateFits, IsRounded, Number, Dec, Bignum.Valid, Bignum.Loose, Bignum.Value,
         Double.Value;
    if -estimatedPower - 1 > requestedDigits {
      MuchTooSmall(v, estimatedPower, requestedDigits);
      buffer[0] := '\0';
      length, point := 0, -(requestedDigits as int);
      assert buffer[..0] == [];
      NothingIsFixed(v.Value(), requestedDigits, point);
      return;
    }
    var numerator := new Bignum();
    var denominator := new Bignum();
    point := StartPlain(v, estimatedPower, numerator, denominator);
    length, point := BignumToFixed(requestedDigits, point, numerator, denominator, buffer, v.Value());
    ghost var digits := buffer[..length];
    buffer[length] := '\0';
    assert buffer[..length] == digits;
  }

  lemma MuchTooSmall(v: Double, estimate: int, n: int)
    requires 0 < v.bits < INFINITY && EstimateFits(v, estimate) && -estimate - 1 > n
    ensures 0.0 <= v.Value() && 2.0 * v.Value() < Ten(-n)
  {
    hide Ten, Double.Value;
    ValueAtLeast(v);
    TenMonotone(estimate + 1, -n - 1);
    TenAdd(1, -n - 1);
    TwoSmall();
  }

  /** BignumDtoa in its precision mode; place is that of v's leading digit. */
  method BignumDtoaPrecision(v: Double, estimatedPower: int, requestedDigits: nat, buffer: array<char>)
    returns (length: nat, point: int, ghost place: int)
    requires 0 < v.bits < INFINITY && EstimateFits(v, estimatedPower)
    requires 1 <= requestedDigits < buffer.Length
    modifies buffer
    ensures length == requestedDigits && buffer[length] == '\0' && buffer[0] != '0'
    ensures StartsAt(v.Value(), place)
    ensures IsFixed(v.Value(), requestedDigits - place, buffer[..length], point)
  {
    hide Pow, BPow, Stands, EstimateFits, IsRounded, Number, Dec, Ten, Bignum.Valid, Bignum.Loose, Bignum.Value, Double.Value;
    var numerator := new Bignum();
    var denominator := new Bignum();
    var decimalPoint := StartPlain(v, estimatedPower, numerator, denominator);
    place := decimalPoint;
    point := GenerateCountedDigits(requestedDigits, decimalPoint, numerator, denominator, buffer, v.Value());
    length := requestedDigits;
    ghost var digits := buffer[..length];
    buffer[length] := '\0';
    assert buffer[..length] == digits;
  }
}
