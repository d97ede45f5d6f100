/** Preparing a digit string for reading: trimming zeros, and cutting what no double can tell apart. */
module Trimming {
  import opened Powers
  import opened Decimals
  import opened Exact
  import opened Ieee
  import opened Shortest

  const MAX_SIGNIFICANT_DIGITS: nat := 780

  predicate NoLeadingZero(s: seq<char>) {
    s != [] ==> s[0] != '0'
  }

  predicate NoTrailingZero(s: seq<char>) {
    s != [] ==> s[|s| - 1] != '0'
  }

  method TrimLeadingZeros(buffer: seq<char>) returns (trimmed: seq<char>)
    requires AreDigits(buffer)
    ensures AreDigits(trimmed) && NoLeadingZero(trimmed) && |trimmed| <= |buffer|
    ensures Number(trimmed) == Number(buffer)
    ensures buffer[|buffer| - |trimmed|..] == trimmed
  {
    var i := 0;
    while i < |buffer|
      invariant 0 <= i <= |buffer|
      invariant Number(buffer[..i]) == 0
    {
      if buffer[i] != '0' {
        SplitNumber(buffer, i);
        return buffer[i..];
      }
      NumberPrefix(buffer, i);
      i := i + 1;
    }
    assert buffer[..i] == buffer;
    return [];
  }

  lemma SplitNumber(s: seq<char>, i: nat)
    requires i <= |s| && Number(s[..i]) == 0
    ensures Number(s[i..]) == Number(s)
  {
    assert s == s[..i] + s[i..];
    NumberConcat(s[..i], s[i..]);
  }

  method TrimTrailingZeros(buffer: seq<char>) returns (trimmed: seq<char>)
    requires AreDigits(buffer)
    ensures AreDigits(trimmed) && NoTrailingZero(trimmed) && |trimmed| <= |buffer| && trimmed == buffer[..|trimmed|]
    ensures Number(buffer) == Number(trimmed) * Pow(10, |buffer| - |trimmed|)
  {
    var i := |buffer| - 1;
    assert buffer[..i + 1] == buffer;
    PowZero(10);
    while i >= 0
      invariant -1 <= i < |buffer|
      invariant Number(buffer) == Number(buffer[..i + 1]) * Pow(10, |buffer| - 1 - i)
    {
      if buffer[i] != '0' {
        return buffer[..i + 1];
      }
      ZeroDropped(Number(buffer[..i]), Pow(10, |buffer| - 1 - i), Pow(10, |buffer| - i));
      NumberPrefix(buffer, i);
      i := i - 1;
    }
    return [];
  }

  lemma ZeroDropped(n: int, p: int, q: int)
    requires q == 10 * p
    ensures (10 * n) * p == n * q
  {
    MulAssoc(n, 10, p);
  }

  /** The cut string: 779 digits and a one that stands for whatever non-zero rest there was. */
  method CutToMaxSignificantDigits(buffer: seq<char>, exponent: int, significantBuffer: array<char>)
    returns (significantExponent: int)
    requires AreDigits(buffer) && NoTrailingZero(buffer) && MAX_SIGNIFICANT_DIGITS < |buffer|
    requires significantBuffer.Length == MAX_SIGNIFICANT_DIGITS
    modifies significantBuffer
    ensures significantBuffer[..] == buffer[..MAX_SIGNIFICANT_DIGITS - 1] + ['1']
    ensures significantExponent == exponent + (|buffer| - MAX_SIGNIFICANT_DIGITS)
  {
    var i := 0;
    while i < MAX_SIGNIFICANT_DIGITS - 1
      invariant 0 <= i <= MAX_SIGNIFICANT_DIGITS - 1
      invariant significantBuffer[..i] == buffer[..i]
    {
      significantBuffer[i] := buffer[i];
      assert significantBuffer[..i + 1] == significantBuffer[..i] + [buffer[i]];
      i := i + 1;
    }
    significantBuffer[MAX_SIGNIFICANT_DIGITS - 1] := '1';
    significantExponent := exponent + (|buffer| - MAX_SIGNIFICANT_DIGITS);
  }

  /** What reading needs to know about trimming and cutting: every double rounds the same numbers. */
  ghost predicate SameReading(x: real, y: real) {
    forall d: Double :: RoundsTo(x, d) <==> RoundsTo(y, d)
  }

  method TrimAndCut(buffer: seq<char>, exponent: int, copySpace: array<char>)
    returns (trimmed: seq<char>, updatedExponent: int)
    requires AreDigits(buffer) && copySpace.Length == MAX_SIGNIFICANT_DIGITS
    modifies copySpace
    ensures AreDigits(trimmed) && NoLeadingZero(trimmed) && NoTrailingZero(trimmed)
    ensures |trimmed| <= MAX_SIGNIFICANT_DIGITS
    ensures SameReading(Dec(Number(buffer), exponent), Dec(Number(trimmed), updatedExponent))
    ensures Abs(Dec(Number(buffer), exponent) - Dec(Number(trimmed), updatedExponent)) < Ten(updatedExponent + 1)
    ensures |trimmed| < MAX_SIGNIFICANT_DIGITS ==> Dec(Number(buffer), exponent) == Dec(Number(trimmed), updatedExponent)
  {
    hide Number, Dec, Ten, SameReading;
    var leftTrimmed := TrimLeadingZeros(buffer);
    var rightTrimmed := TrimTrailingZeros(leftTrimmed);
    var e := exponent + (|leftTrimmed| - |rightTrimmed|);
    DecShift(Number(rightTrimmed), exponent, |leftTrimmed| - |rightTrimmed|);
    if |rightTrimmed| > MAX_SIGNIFICANT_DIGITS {
      updatedExponent := CutToMaxSignificantDigits(rightTrimmed, e, copySpace);
      trimmed := copySpace[..];
      CutRounds(rightTrimmed, e);
    } else {
      trimmed := rightTrimmed;
      updatedExponent := e;
      SameItself(Dec(Number(buffer), exponent));
    }
  }

  lemma SameItself(x: real)
    ensures SameReading(x, x)
  {
  }

  // ----- why cutting is harmless

  function Cut(s: seq<char>): seq<char>
    requires MAX_SIGNIFICANT_DIGITS < |s|
  {
    s[..MAX_SIGNIFICANT_DIGITS - 1] + ['1']
  }

  /** The number and its cut both lie strictly between the same two multiples of the last kept digit's unit. */
  lemma CutBetween(s: seq<char>, e: int)
    requires AreDigits(s) && NoTrailingZero(s) && MAX_SIGNIFICANT_DIGITS < |s|
    ensures
      var q, u := Number(s[..MAX_SIGNIFICANT_DIGITS - 1]), e + (|s| - MAX_SIGNIFICANT_DIGITS) + 1;
      && Dec(q, u) < Dec(Number(s), e) < Dec(q + 1, u)
      && Dec(q, u) < Dec(Number(Cut(s)), u - 1) < Dec(q + 1, u)
  {
    hide Number, Ten, Pow, Multiple, Dec;
    var k := |s| - (MAX_SIGNIFICANT_DIGITS - 1);
    var head, tail := s[..MAX_SIGNIFICANT_DIGITS - 1], s[MAX_SIGNIFICANT_DIGITS - 1..];
    assert s == head + tail;
    NumberConcat(head, tail);
    NumberBound(tail);
    LastDigitPositive(tail);
    var q := Number(head);
    DecShift(q, e, k);
    DecShift(q + 1, e, k);
    MulDist(q, 1, Pow(10, k));
    DecOrder(q * Pow(10, k), Number(s), e);
    DecOrder(Number(s), (q + 1) * Pow(10, k), e);
    NumberSnoc(head, '1');
    PowOneTen();
    DecShift(q, e + k - 1, 1);
    DecShift(q + 1, e + k - 1, 1);
    DecOrder(q * 10, Number(Cut(s)), e + k - 1);
    DecOrder(Number(Cut(s)), (q + 1) * 10, e + k - 1);
  }

  lemma PowOneTen()
    ensures Pow(10, 1) == 10
  {
  }

  lemma LastDigitPositive(s: seq<char>)
    requires s != [] && AreDigits(s) && s[|s| - 1] != '0'
    ensures Number(s) > 0
  {
    NumberBound(s[..|s| - 1]);
  }

  /** A non-zero leading digit. */
  lemma LeadingDigit(s: seq<char>)
    requires AreDigits(s) && s != [] && s[0] != '0'
    ensures Pow(10, |s| - 1) <= Number(s)
  {
    assert s == s[..1] + s[1..];
    NumberConcat(s[..1], s[1..]);
    NumberBound(s[1..]);
    NumberPrefix(s, 0);
    MulLe(1, Number(s[..1]), Pow(10, |s| - 1));
  }

  // ----- no boundary of a double lies between two such multiples

  lemma PowerGap(k: nat)
    requires k <= 1075
    ensures Pow(2, 56) * Pow(5, k) <= Pow(10, 779)
  {
    hide Pow;
    SmallPowers();
    PowMul(2, 14, 4);
    PowMul(10, 5, 4);
    PowBelow(16384, 100000, 4);
    PowMonotone(5, k, 1080);
    PowMul(5, 10, 108);
    PowMul(10, 7, 108);
    PowBelow(9765625, 10000000, 108);
    PowAdd(10, 20, 756);
    PowMonotone(10, 776, 779);
    ProductAtMost(Pow(2, 56), Pow(5, k), Pow(10, 20), Pow(10, 756));
  }

  lemma SmallPowers()
    ensures Pow(5, 10) == 9765625 && Pow(10, 7) == 10000000 && Pow(2, 14) == 16384 && Pow(10, 5) == 100000
  {
    assert Pow(5, 5) == 3125;
    PowAdd(5, 5, 5);
    assert Pow(10, 5) == 100000;
    PowAdd(10, 5, 2);
    PowAdd(2, 7, 7);
    assert Pow(2, 7) == 128;
  }

  lemma TwoAsTenFive(k: nat)
    ensures Two(-(k as int)) == Pow(5, k) as real * Ten(-(k as int))
  {
    hide Two, Ten, Pow;
    TwoInverse(k);
    TenInverse(k);
    TwoNat(k);
    TenNat(k);
    PowBaseMul(5, 2, k);
    IntMul(Pow(5, k), Pow(2, k));
    HalvesOfTen(Two(k), Two(-(k as int)), Pow(5, k) as real, Ten(-(k as int)));
  }

  lemma HalvesOfTen(a: real, a': real, f: real, t': real)
    requires 0.0 < a && a * a' == 1.0 && (f * a) * t' == 1.0
    ensures a' == f * t'
  {
    RMulAssoc(f, a, t');
    RMulAssoc(f, t', a);
    RCancel(a', f * t', a);
  }

  /** A number with few bits above 2^k is a multiple of 10^u as soon as u does not exceed k and 0. */
  lemma BinaryIsDecimal(f: int, k: int, u: int)
    requires 0 <= f && u <= 0 && u <= k
    ensures exists m: int :: Binary(f, k).Value() == Dec(m, u)
  {
    hide Two, Ten, Pow;
    if k >= 0 {
      TwoNat(k);
      IntMul(f, Pow(2, k));
      DecShift(f * Pow(2, k), u, -u);
      TwoSmall();
      assert Dec(f * Pow(2, k), 0) == Binary(f, k).Value();
      assert Binary(f, k).Value() == Dec(f * Pow(2, k) * Pow(10, -u), u);
    } else {
      TwoAsTenFive(-k);
      IntMul(f, Pow(5, -k));
      RMulAssoc(f as real, Pow(5, -k) as real, Ten(k));
      DecShift(f * Pow(5, -k), u, k - u);
      assert Binary(f, k).Value() == Dec(f * Pow(5, -k) * Pow(10, k - u), u);
    }
  }

  /** Otherwise it lies below every decimal with 779 digits at 10^u. */
  lemma BinaryIsSmall(f: int, k: int, u: int, q: int)
    requires 0 <= f < Pow(2, 56) && -1075 <= k <= 1000 && (u > 0 || u > k) && Pow(10, 778) <= q
    ensures Binary(f, k).Value() < Dec(q, u)
  {
    hide Two, Ten, Pow;
    var m := if k < 0 then k else 0;
    BigDecimal(q, u, m);
    if k >= 0 {
      TwoNat(k);
      TwoNat(56);
      TwoAdd(56, k);
      TwoMonotone(56 + k, 1056);
      RMulLt(f as real, Pow(2, 56) as real, Two(k));
      ThousandBits();
    } else {
      PowerGap(-k);
      TwoAsTenFive(-k);
      IntMul(f, Pow(5, -k));
      IntMul(Pow(2, 56), Pow(5, -k));
      MulLt(f, Pow(2, 56), Pow(5, -k));
      RMulAssoc(f as real, Pow(5, -k) as real, Ten(k));
      RMulLt((f * Pow(5, -k)) as real, Pow(10, 779) as real, Ten(k));
    }
  }

  lemma BigDecimal(q: int, u: int, m: int)
    requires Pow(10, 778) <= q && u > m
    ensures Pow(10, 779) as real * Ten(m) <= Dec(q, u)
  {
    hide Ten, Pow;
    TenNat(778);
    TenNat(779);
    TenAdd(778, m + 1);
    TenAdd(779, m);
    TenMonotone(m + 1, u);
    RMulLe(Ten(m + 1), Ten(u), Pow(10, 778) as real);
    RMulLe(Pow(10, 778) as real, q as real, Ten(u));
  }

  lemma ThousandBits()
    ensures Two(1056) <= Pow(10, 779) as real * Ten(0)
  {
    hide Two, Ten, Pow;
    TwoNat(1056);
    TwoSmall();
    PowMul(2, 4, 264);
    PowMul(10, 2, 264);
    SmallTwos();
    SmallTens();
    PowBelow(16, 100, 264);
    PowMonotone(10, 528, 779);
  }

  lemma NoBoundaryBetween(f: int, k: int, u: int, q: int)
    requires 0 <= f < Pow(2, 56) && -1075 <= k <= 1000 && Pow(10, 778) <= q
    ensures Binary(f, k).Value() <= Dec(q, u) || Dec(q + 1, u) <= Binary(f, k).Value()
  {
    hide Two, Ten, Pow, Dec, Binary.Value;
    if u <= 0 && u <= k {
      BinaryIsDecimal(f, k, u);
      var m :| Binary(f, k).Value() == Dec(m, u);
      DecOrder(m, q, u);
      DecOrder(q + 1, m, u);
    } else {
      BinaryIsSmall(f, k, u, q);
    }
  }

  lemma LowerBetween(d: Double, u: int, q: int)
    requires 0 < d.bits <= INFINITY && Pow(10, 778) <= q
    ensures var b := d.LowerBoundary().Value(); b <= Dec(q, u) || Dec(q + 1, u) <= b
  {
    hide Two, Ten, Pow, Dec, Binary.Value;
    Fields(d);
    PowFiftySix();
    NoBoundaryBetween(d.LowerBoundary().f, d.LowerBoundary().e, u, q);
  }

  lemma UpperBetween(d: Double, u: int, q: int)
    requires d.bits < INFINITY && Pow(10, 778) <= q
    ensures var b := d.UpperBoundary().Value(); b <= Dec(q, u) || Dec(q + 1, u) <= b
  {
    hide Two, Ten, Pow, Dec, Binary.Value;
    Fields(d);
    PowFiftySix();
    NoBoundaryBetween(d.UpperBoundary().f, d.UpperBoundary().e, u, q);
  }

  lemma PowFiftySix()
    ensures Pow(2, 56) == 16 * HIDDEN_BIT
  {
    PowValues();
    PowAdd(2, 28, 28);
  }

  /** Cutting changes the number, but not to which double it rounds. */
  lemma CutRounds(s: seq<char>, e: int)
    requires AreDigits(s) && NoLeadingZero(s) && NoTrailingZero(s) && MAX_SIGNIFICANT_DIGITS < |s|
    ensures
      var e' := e + (|s| - MAX_SIGNIFICANT_DIGITS);
      && SameReading(Dec(Number(s), e), Dec(Number(Cut(s)), e'))
      && Abs(Dec(Number(s), e) - Dec(Number(Cut(s)), e')) < Ten(e' + 1)
  {
    hide Number, Ten, Pow, Dec, RoundsTo;
    var head := s[..MAX_SIGNIFICANT_DIGITS - 1];
    var q, u := Number(head), e + (|s| - MAX_SIGNIFICANT_DIGITS) + 1;
    CutBetween(s, e);
    LeadingDigit(head);
    UnitStep(q, u);
    var x, y := Dec(Number(s), e), Dec(Number(Cut(s)), u - 1);
    forall d: Double
      ensures RoundsTo(x, d) <==> RoundsTo(y, d)
    {
      SameSide(x, y, d, u, q);
    }
  }

  lemma UnitStep(q: int, u: int)
    ensures Dec(q + 1, u) - Dec(q, u) == Ten(u)
  {
    hide Ten;
    RMulDist(q as real, 1.0, Ten(u));
  }

  lemma SameSide(x: real, y: real, d: Double, u: int, q: int)
    requires Pow(10, 778) <= q
    requires Dec(q, u) < x < Dec(q + 1, u) && Dec(q, u) < y < Dec(q + 1, u)
    ensures RoundsTo(x, d) <==> RoundsTo(y, d)
  {
    hide Dec, Pow, Double.LowerBoundary, Double.UpperBoundary, Binary.Value, Double.IsEven;
    if d.bits <= INFINITY {
      if d.bits > 0 { LowerBetween(d, u, q); }
      if d.bits < INFINITY { UpperBetween(d, u, q); }
    }
  }
}
