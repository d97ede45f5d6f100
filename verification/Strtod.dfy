/** Reading a decimal as the double it rounds to. */
module Strtods {
  import opened Powers
  import opened Words
  import opened Bigits
  import opened BigitLoops
  import opened Decimals
  import opened Exact
  import opened Ieee
  import opened Shortest
  import opened Bignums
  import opened StartValues
  import opened Trimming
  import opened DiyFps
  import opened DiyFpStrtods
  import opened Smallest
  import opened CachedPowers

  const MAX_DECIMAL_POWER: int := 309
  const MIN_DECIMAL_POWER: int := -324

  // ----- the exact comparison

  /** The two sides of the comparison, both multiplied by whatever makes them integers. */
  lemma SameScale(n: int, exponent: int, f: int, e: int, left: int, right: int)
    requires left == n * Pow(10, if exponent >= 0 then exponent else 0) * Pow(2, if e > 0 then 0 else -e)
    requires right == f * Pow(10, if exponent >= 0 then 0 else -exponent) * Pow(2, if e > 0 then e else 0)
    ensures left < right <==> Dec(n, exponent) < Binary(f, e).Value()
    ensures left == right <==> Dec(n, exponent) == Binary(f, e).Value()
  {
    hide Pow, Two, Ten, Dec, Binary.Value;
    DecimalSide(n, exponent);
    BinarySide(f, e);
    CrossCompare(Dec(n, exponent), Binary(f, e).Value(), n, f,
                 Pow(10, if exponent >= 0 then 0 else -exponent), Pow(2, if e > 0 then 0 else -e),
                 Pow(10, if exponent >= 0 then exponent else 0), Pow(2, if e > 0 then e else 0));
  }

  lemma CrossCompare(x: real, y: real, n: int, f: int, t: int, p: int, t': int, p': int)
    requires 0 < t && 0 < p && x * t as real == (n * t') as real && y * p as real == (f * p') as real
    ensures n * t' * p < f * t * p' <==> x < y
    ensures n * t' * p == f * t * p' <==> x == y
  {
  }

  lemma DecimalSide(n: int, exponent: int)
    ensures Dec(n, exponent) * Pow(10, if exponent >= 0 then 0 else -exponent) as real ==
            (n * Pow(10, if exponent >= 0 then exponent else 0)) as real
  {
  }

  lemma BinarySide(f: int, e: int)
    ensures Binary(f, e).Value() * Pow(2, if e > 0 then 0 else -e) as real ==
            (f * Pow(2, if e > 0 then e else 0)) as real
  {
  }

  lemma StringRoom(s: seq<char>, exponent: int)
    requires AreDigits(s) && |s| <= MAX_SIGNIFICANT_DIGITS && |s| + exponent <= MAX_DECIMAL_POWER + 1
    ensures Pow(10, |s|) <= BPow(CAPACITY - 2) && 0 <= Number(s) < BPow(112)
    ensures exponent >= 0 ==> Number(s) * Pow(5, exponent) < BPow(112)
  {
    hide Pow, BPow, Number;
    NumberBound(s);
    TenInBits(|s|);
    BPowAsPow2(CAPACITY - 2);
    BPowAsPow2(112);
    PowMonotone(2, 4 * |s|, 28 * 112);
    PowMonotone(2, 28 * 112, 28 * (CAPACITY - 2));
    if exponent >= 0 {
      PowBelow(5, 10, exponent);
      PowAdd(10, |s|, exponent);
      TenInBits(|s| + exponent);
      PowMonotone(2, 4 * (|s| + exponent), 28 * 112);
      ProductAtMost(Number(s), Pow(5, exponent), Pow(10, |s|), Pow(10, exponent));
      MulLt(Number(s), Pow(10, |s|), Pow(5, exponent));
      MulLe(Pow(5, exponent), Pow(10, exponent), Pow(10, |s|));
    }
  }

  lemma DiyFpRoom(f: UInt64, power: nat)
    requires power < 1104
    ensures f * Pow(5, power) < BPow(121)
  {
    hide Pow, BPow;
    BPowAsPow2(121);
    PowBelow(5, 8, power);
    PowMul(2, 3, power);
    PowThree();
    PowValues();
    PowAdd(2, 64, 3 * power);
    PowMonotone(2, 64 + 3 * power, 28 * 121);
    MulLt(f, Pow(2, 64), Pow(5, power));
    MulLe(Pow(5, power), Pow(8, power), Pow(2, 64));
  }

  lemma PowThree()
    ensures Pow(2, 3) == 8
  {
  }

  /** Multiplies one of the two by the power of ten and one by the power of two, so that both become integers. */
  method BringToOneScale(left: Bignum, right: Bignum, exponent: int, e: int, ghost n: int, ghost f: UInt64)
    requires left.Valid() && right.Valid() && left != right && left.bigits != right.bigits
    requires left.Value() == n && left.used <= 112 && right.Value() == f && right.used <= 3
    requires exponent >= 0 ==> n * Pow(5, exponent) < BPow(112)
    requires exponent < 0 ==> f * Pow(5, -exponent) < BPow(121)
    modifies left, left.bigits, right, right.bigits
    ensures left.Valid() && right.Valid()
    ensures left.Value() == n * Pow(10, if exponent >= 0 then exponent else 0) * Pow(2, if e > 0 then 0 else -e)
    ensures right.Value() == f * Pow(10, if exponent >= 0 then 0 else -exponent) * Pow(2, if e > 0 then e else 0)
  {
    hide Pow, BPow, Bignum.Valid, Bignum.Loose, Bignum.Value;
    PowZero(10);
    PowZero(2);
    if exponent >= 0 {
      PowMonotoneB(112, 112 + left.exponent);
      left.MultiplyByPowerOfTen(exponent, 112);
    } else {
      PowMonotoneB(121, 121 + right.exponent);
      right.MultiplyByPowerOfTen(-exponent, 121);
    }
    if e > 0 {
      right.ShiftLeft(e);
    } else {
      left.ShiftLeft(-e);
    }
  }

  /** The sign of buffer * 10^exponent - f * 2^e. */
  method CompareBufferWithDiyFp(buffer: seq<char>, exponent: int, diyFp: Binary) returns (r: int)
    requires AreDigits(buffer) && |buffer| <= MAX_SIGNIFICANT_DIGITS
    requires MIN_DECIMAL_POWER < |buffer| + exponent <= MAX_DECIMAL_POWER + 1
    requires 0 <= diyFp.f < 0x1_0000_0000_0000_0000
    ensures r == -1 <==> Dec(Number(buffer), exponent) < diyFp.Value()
    ensures r == 0 <==> Dec(Number(buffer), exponent) == diyFp.Value()
    ensures r == 1 <==> Dec(Number(buffer), exponent) > diyFp.Value()
  {
    hide Pow, BPow, Number, Dec, Binary.Value, Bignum.Valid, Bignum.Loose, Bignum.Value;
    StringRoom(buffer, exponent);
    var bufferBignum := new Bignum();
    var diyFpBignum := new Bignum();
    bufferBignum.AssignDecimalString(buffer);
    diyFpBignum.AssignUInt64(diyFp.f);
    bufferBignum.LengthAtMost(112);
    diyFpBignum.SmallLength();
    if exponent < 0 { DiyFpRoom(diyFp.f, -exponent); }
    BringToOneScale(bufferBignum, diyFpBignum, exponent, diyFp.e, Number(buffer), diyFp.f);
    SameScale(Number(buffer), exponent, diyFp.f, diyFp.e, bufferBignum.Value(), diyFpBignum.Value());
    r := Bignum.Compare(bufferBignum, diyFpBignum);
  }

  // ----- the decision

  /** The end of Strtod: an exact comparison with the guess's upper boundary settles an unsure guess. */
  method Decide(trimmed: seq<char>, exponent: int, guess: Double) returns (result: Double)
    requires AreDigits(trimmed) && |trimmed| <= MAX_SIGNIFICANT_DIGITS
    requires MIN_DECIMAL_POWER < |trimmed| + exponent <= MAX_DECIMAL_POWER + 1
    requires guess.bits < INFINITY && GuessOk(Dec(Number(trimmed), exponent), guess)
    ensures RoundsTo(Dec(Number(trimmed), exponent), result)
  {
    hide Number, Dec, Binary.Value, Double.UpperBoundary, Double.LowerBoundary;
    UpperFits(guess);
    var upperBoundary := guess.UpperBoundary();
    var comparison := CompareBufferWithDiyFp(trimmed, exponent, upperBoundary);
    BoundariesMeet(guess);
    NextFields(guess);
    DecideOne(Dec(Number(trimmed), exponent), guess);
    if comparison < 0 {
      return guess;
    } else if comparison > 0 {
      return guess.NextDouble();
    } else if guess.Significand() % 2 == 0 {
      return guess;
    } else {
      return guess.NextDouble();
    }
  }

  lemma UpperFits(d: Double)
    requires d.bits < INFINITY
    ensures 0 <= d.UpperBoundary().f < 0x1_0000_0000_0000_0000
  {
  }

  // ----- the guess

  /** Reads with 64-bit floats: a sure result is right, and an unsure one right or the double just below. */
  method DiyFpStrtod(buffer: seq<char>, exponent0: int, table: seq<Binary>) returns (ok: bool, result: Double)
    requires AreDigits(buffer) && buffer != [] && Pow(10, |buffer| - 1) <= Number(buffer)
    requires |buffer| + exponent0 <= MAX_DECIMAL_POWER && IsTable(table)
    ensures result.bits <= INFINITY
    ensures GuessOk(Dec(Number(buffer), exponent0), result)
    ensures ok ==> RoundsTo(Dec(Number(buffer), exponent0), result)
  {
    hide Number, Close, StrictlyClose, Pow, ShiftLeft, Two, Ten, Dec, GuessOk, RoundsTo, IsCachedPower, IsTable,
         LeadingSignificand, Normalized, HighWord, AdjustmentPowerOfTen;
    ghost var n := Number(buffer);
    ghost var z := Dec(n, exponent0);
    var input, remainingDecimals, error;
    ghost var significand;
    input, remainingDecimals, error, significand := ReadNormalized(buffer);
    ghost var x := Dec(n, -(remainingDecimals as int));
    var exponent := exponent0 + remainingDecimals;
    DecTimes(n, -(remainingDecimals as int), exponent);
    NumberBound(buffer);
    if exponent < MIN_DECIMAL_EXPONENT {
      BelowTable(x, input.f, input.e, error, exponent, z);
      TooSmall(Double(0));
      return true, Double(0);
    }
    ghost var power;
    error, power := ScaleByTen(input, error, exponent, |buffer|, table, n, remainingDecimals, x, z);
    ScaledRoom(input.f, error);
    ghost var f, e := input.f, input.e;
    error := NormalizeWithError(input, error, z, 2);
    ok, result := RoundDiyFp(input.f, input.e, error);
    if input.e + 64 < DENORMAL_EXPONENT && z > Two(-1075) {
      MagnitudeKnown(z, input.f, input.e, error);
      LeadingDigits(buffer, exponent0);
      TinyPath(significand, power, f, e);
    }
  }

  /** Multiplies by ten to the exponent: by a cached power, and first by the small power that one falls short of. */
  method ScaleByTen(input: DiyFp, error0: UInt64, exponent: int, digits: nat, table: seq<Binary>,
                    ghost n: nat, ghost k: nat, ghost x: real, ghost z: real)
    returns (error: UInt64, ghost power: Binary)
    requires IsTable(table) && MIN_DECIMAL_EXPONENT <= exponent < MAX_DECIMAL_EXPONENT + DECIMAL_EXPONENT_DISTANCE
    requires HALF <= input.f && error0 <= 32 && Close(x, input.f, input.e, error0)
    requires x == Dec(n, -(k as int)) && z == Dec(n, exponent - k)
    requires digits <= 19 ==>
               error0 == 0 && input.e <= 0 && 0 < n < Pow(10, digits) && input.f == ShiftLeft(n, -input.e)
    modifies input
    ensures 0 < error <= 45 && input.f >= 0x2000_0000_0000_0000 && StrictlyClose(z, input.f, input.e, error)
    ensures exponent == -342 ==>
              && IsCachedPower(power, MIN_DECIMAL_EXPONENT)
              && old(input.f) * AdjustmentPowerOfTen(6).f >= 0
              && HighWord(old(input.f) * AdjustmentPowerOfTen(6).f) * power.f >= 0
              && input.f == HighWord(HighWord(old(input.f) * AdjustmentPowerOfTen(6).f) * power.f)
              && input.e == old(input.e) + AdjustmentPowerOfTen(6).e + 64 + power.e + 64
  {
    hide Close, StrictlyClose, Pow, ShiftLeft, Ten, Dec, IsCachedPower, IsTable, HighWord, AdjustmentPowerOfTen;
    error := error0;
    ghost var y := x;
    var cachedPower, cachedDecimalExponent := GetCachedPowerForDecimalExponent(table, exponent);
    power := cachedPower.AsBinary();
    if exponent == -342 { FirstEntry(exponent, cachedDecimalExponent); }
    if cachedDecimalExponent != exponent {
      var adjustmentExponent := exponent - cachedDecimalExponent;
      DecTimes(n, -(k as int), adjustmentExponent);
      y := Dec(n, adjustmentExponent - k);
      error := ScaleByAdjustment(input, error, adjustmentExponent, digits, n, x, y);
    }
    DecTimes(n, exponent - cachedDecimalExponent - k, cachedDecimalExponent);
    error := ScaleByCachedPower(input, cachedPower, error, cachedDecimalExponent, y, z);
  }

  /** Far away numbers need no reading. */
  lemma Overflows(s: seq<char>, exponent: int)
    requires AreDigits(s) && s != [] && NoLeadingZero(s) && exponent + |s| - 1 >= MAX_DECIMAL_POWER
    ensures RoundsTo(Dec(Number(s), exponent), Double(INFINITY))
  {
    hide Two, Ten, Pow, Number;
    LeadingDigit(s);
    TenNat(|s| - 1);
    TenAdd(|s| - 1, exponent);
    TenMonotone(MAX_DECIMAL_POWER, exponent + |s| - 1);
    RMulLe(Pow(10, |s| - 1) as real, Number(s) as real, Ten(exponent));
    Fields(Double(INFINITY));
    LargestPowers();
  }

  /** The largest boundary lies below 10^309. */
  lemma LargestPowers()
    ensures (4 * HIDDEN_BIT - 1) as real * Two(970) < Ten(309)
  {
    hide Two, Ten, Pow;
    PowFiftyFour();
    TwoNat(54);
    TwoAdd(54, 970);
    RMulLt((4 * HIDDEN_BIT - 1) as real, Pow(2, 54) as real, Two(970));
    PowMul(2, 93, 11);
    PowMul(10, 28, 11);
    NinetyThreeBits();
    PowBelow(Pow(2, 93), Pow(10, 28), 11);
    TwoNat(1023);
    TwoAdd(1023, 1);
    TwoSmall();
    TenNat(308);
    TenAdd(308, 1);
  }

  lemma NinetyThreeBits()
    ensures Pow(2, 93) <= Pow(10, 28)
  {
    hide Pow;
    TwoWords();
    PowAdd(2, 64, 28);
    PowAdd(2, 92, 1);
    PowTenValues();
    TenWords();
    PowAdd(10, 19, 9);
    assert Pow(2, 93) == 0x1_0000_0000_0000_0000 * 0x1000_0000 * 2;
  }

  lemma TwoWords()
    ensures Pow(2, 64) == 0x1_0000_0000_0000_0000 && Pow(2, 28) == 0x1000_0000 && Pow(2, 1) == 2
  {
    PowValues();
  }

  lemma TenWords()
    ensures Pow(10, 9) == 1_000_000_000
  {
  }

  lemma Underflows(s: seq<char>, exponent: int)
    requires AreDigits(s) && exponent + |s| <= MIN_DECIMAL_POWER
    ensures RoundsTo(Dec(Number(s), exponent), Double(0))
    ensures Dec(Number(s), exponent) < Ten(MIN_DECIMAL_POWER)
  {
    hide Two, Ten, Pow, Number;
    NumberBound(s);
    TenNat(|s|);
    TenAdd(|s|, exponent);
    TenMonotone(exponent + |s|, MIN_DECIMAL_POWER);
    RMulLt(Number(s) as real, Pow(10, |s|) as real, Ten(exponent));
    Fields(Double(0));
    SmallestPowers();
    TwoHalves(-1074);
  }

  /** Half the smallest double is more than 10^-324. */
  lemma SmallestPowers()
    ensures Ten(-324) < Two(-1075)
  {
    hide Two, Ten, Pow;
    SmallPowerRatio();
    TenNat(324);
    TwoNat(1076);
    TenInverse(324);
    TwoInverse(1076);
    TwoLess(-1076, -1075);
    ReciprocalOrder(Two(1076), Ten(324), Two(-1076), Ten(-324));
  }

  lemma SmallPowerRatio()
    ensures Pow(2, 1076) <= Pow(10, 324)
  {
    hide Pow;
    NinetyThreeBits();
    PowMul(2, 93, 11);
    PowMul(10, 28, 11);
    PowBelow(Pow(2, 93), Pow(10, 28), 11);
    PowAdd(2, 1023, 53);
    PowAdd(10, 308, 16);
    PowFiftyFour();
    SmallTens();
    ProductAtMost(Pow(2, 1023), Pow(2, 53), Pow(10, 308), Pow(10, 16));
  }

  /** A guess and whether it is sure; hardware floating point is not used. */
  method ComputeGuess(trimmed: seq<char>, exponent: int, table: seq<Binary>) returns (sure: bool, guess: Double)
    requires AreDigits(trimmed) && NoLeadingZero(trimmed) && IsTable(table)
    ensures guess.bits <= INFINITY
    ensures GuessOk(Dec(Number(trimmed), exponent), guess)
    ensures sure ==> RoundsTo(Dec(Number(trimmed), exponent), guess)
    ensures !sure ==> guess.bits < INFINITY && MIN_DECIMAL_POWER < |trimmed| + exponent <= MAX_DECIMAL_POWER
  {
    hide Number, Two, Ten, Dec, IsTable, RoundsTo;
    if |trimmed| == 0 {
      NumberEmpty(trimmed);
      ZeroRounds(exponent);
      return true, Double(0);
    }
    if exponent + |trimmed| - 1 >= MAX_DECIMAL_POWER {
      Overflows(trimmed, exponent);
      return true, Double(INFINITY);
    }
    if exponent + |trimmed| <= MIN_DECIMAL_POWER {
      Underflows(trimmed, exponent);
      return true, Double(0);
    }
    LeadingDigit(trimmed);
    sure, guess := DiyFpStrtod(trimmed, exponent, table);
    if guess.bits == INFINITY {
      if !sure { InfiniteGuess(Dec(Number(trimmed), exponent), guess); }
      sure := true;
    }
  }

  lemma InfiniteGuess(x: real, guess: Double)
    requires guess.bits == INFINITY
    ensures GuessOk(x, guess) ==> RoundsTo(x, guess)
  {
  }

  lemma ZeroRounds(exponent: int)
    ensures RoundsTo(Dec(0, exponent), Double(0))
  {
    hide Two, Ten;
    Fields(Double(0));
  }

  /** Reads buffer * 10^exponent, correctly rounded to the nearest double with ties to even. */
  method Strtod(buffer: seq<char>, exponent0: int, table: seq<Binary>) returns (result: Double)
    requires AreDigits(buffer) && IsTable(table)
    ensures RoundsTo(Dec(Number(buffer), exponent0), result)
  {
    hide Number, Dec, IsTable, GuessOk, RoundsTo;
    var copyBuffer := new char[MAX_SIGNIFICANT_DIGITS];
    var trimmed, exponent := TrimAndCut(buffer, exponent0, copyBuffer);
    var sure, guess := ComputeGuess(trimmed, exponent, table);
    result := guess;
    if !sure {
      result := Decide(trimmed, exponent, guess);
    }
  }
}
