/** The fast printer: digits from 64-bit numbers that are off by less than a unit, or an honest refusal. */
module FastDtoas {
  import opened Powers
  import opened Words
  import opened Decimals
  import opened Dragon
  import opened Exact
  import opened Ieee
  import opened Shortest
  import opened DiyFps
  import opened CachedPowers
  import opened Boundaries

  const MINIMAL_TARGET_EXPONENT: int := -60
  const MAXIMAL_TARGET_EXPONENT: int := -32

  /** No multiple of 10 * t lies above lo and up to hi. */
  ghost predicate NoTens(t: int, lo: int, hi: int) {
    forall n: int :: !(lo < Mult(n, 10 * t) <= hi)
  }

  /** x is what remains of high below c units of t; no coarser candidate lies in the last unsafe part of high. */
  ghost predicate Covered(c: int, t: int, x: int, high: int, unsafe: int) {
    && 0 < t && 0 <= x
    && Mult(c, t) + x == high
    && NoTens(t, high - unsafe, high)
  }

  // ----- weeding

  /** At distance x below high, the candidate is provably closer than the next one above. */
  predicate BeatsUpper(x: int, distance: int, t: int, unit: int) {
    t <= x ==> 2 * x - t <= 2 * (distance - unit)
  }

  /** And than the next one below, if that is still in the unsafe interval. */
  predicate BeatsLower(x: int, distance: int, unsafe: int, t: int, unit: int) {
    x + t <= unsafe ==> 2 * (distance + unit) <= 2 * x + t
  }

  predicate InSafeInterval(x: int, unsafe: int, unit: int) {
    2 * unit <= x <= unsafe - 4 * unit
  }

  /** A candidate that can be lowered within the unsafe interval does not end in zero. */
  lemma Lowered(c: int, t: int, x: int, high: int, unsafe: int)
    requires Covered(c, t, x, high, unsafe) && x + t <= unsafe
    ensures c % 10 != 0
    ensures Covered(c - 1, t, x + t, high, unsafe)
  {
    hide Mult;
    MultNext(c - 1, t);
    if c % 10 == 0 { MultTen(c / 10, t); }
  }

  lemma LastDigitDown(s: seq<char>, t: seq<char>)
    requires 0 < |s| == |t| && AreDigits(s) && Number(s) % 10 != 0
    requires s[..|s| - 1] == t[..|t| - 1] && t[|t| - 1] as int == s[|s| - 1] as int - 1
    ensures AreDigits(t) && Number(t) == Number(s) - 1
  {
    assert forall i | 0 <= i < |s| - 1 :: t[i] == t[..|t| - 1][i] == s[i];
  }

  /**
   Lowers the last digit towards w, and says whether the result is sure: away from the ends of the
   unsafe interval and closer to every possible w than the candidates next to it.
   */
  method RoundWeed(buffer: array<char>, length: nat, distanceTooHighW: UInt64, unsafeInterval: UInt64,
                   rest0: UInt64, tenKappa: UInt64, unit: UInt64, ghost high: int)
    returns (ok: bool, ghost rest: int)
    requires 0 < length <= buffer.Length && AreDigits(buffer[..length])
    requires 0 < unit <= distanceTooHighW && distanceTooHighW + unit <= unsafeInterval && 4 * unit <= unsafeInterval
    requires rest0 < tenKappa && rest0 < unsafeInterval
    requires Covered(Number(buffer[..length]), tenKappa, rest0, high, unsafeInterval)
    modifies buffer
    ensures AreDigits(buffer[..length]) && buffer[..length - 1] == old(buffer[..length - 1])
    ensures Covered(Number(buffer[..length]), tenKappa, rest, high, unsafeInterval) && rest <= unsafeInterval
    ensures BeatsUpper(rest, distanceTooHighW, tenKappa, unit)
    ensures ok <==>
              && BeatsLower(rest, distanceTooHighW, unsafeInterval, tenKappa, unit)
              && InSafeInterval(rest, unsafeInterval, unit)
  {
    hide Number, Covered;
    var smallDistance: UInt64 := distanceTooHighW - unit;
    var bigDistance: UInt64 := distanceTooHighW + unit;
    var r: UInt64 := rest0;
    ghost var digits := buffer[..length];
    while r < smallDistance &&
          Sub64(unsafeInterval, r) >= tenKappa &&
          (Add64(r, tenKappa) < smallDistance || Sub64(smallDistance, r) >= Sub64(Add64(r, tenKappa), smallDistance))
      invariant r <= unsafeInterval && AreDigits(buffer[..length])
      invariant buffer[..length - 1] == digits[..length - 1]
      invariant Covered(Number(buffer[..length]), tenKappa, r, high, unsafeInterval)
      invariant BeatsUpper(r, distanceTooHighW, tenKappa, unit)
      decreases unsafeInterval - r
    {
      ghost var before := buffer[..length];
      Lowered(Number(before), tenKappa, r, high, unsafeInterval);
      LastDigitMod(before);
      buffer[length - 1] := (buffer[length - 1] as int - 1) as char;
      LastDigitDown(before, buffer[..length]);
      r := r + tenKappa;
    }
    rest := r;
    if r < bigDistance &&
       Sub64(unsafeInterval, r) >= tenKappa &&
       (Add64(r, tenKappa) < bigDistance || Sub64(bigDistance, r) > Sub64(Add64(r, tenKappa), bigDistance)) {
      return false, rest;
    }
    ok := 2 * unit <= r && r <= Sub64(unsafeInterval, 4 * unit);
  }

  lemma LastDigitMod(s: seq<char>)
    requires s != [] && AreDigits(s)
    ensures Number(s) % 10 == DigitOf(s[|s| - 1])
  {
    TenfoldMod(Number(s[..|s| - 1]), DigitOf(s[|s| - 1]));
  }

  lemma TenfoldMod(x: int, d: int)
    requires 0 <= d <= 9
    ensures (10 * x + d) % 10 == d
  {
  }

  // ----- what a successful weeding means for the exact values

  /** x is less than one unit away from n. */
  predicate WithinUnit(x: real, n: int, unit: int) {
    (n - unit) as real < x < (n + unit) as real
  }

  /** Whatever the exact ends and value are, the weeded candidate is the one to print. */
  lemma WeededIsSure(c: int, t: int, x: int, high: int, unsafe: int, distance: int, unit: int,
                     low': real, w': real, high': real)
    requires Covered(c, t, x, high, unsafe) && x <= unsafe
    requires 0 < unit <= distance && distance + unit <= unsafe
    requires BeatsUpper(x, distance, t, unit) && BeatsLower(x, distance, unsafe, t, unit)
    requires InSafeInterval(x, unsafe, unit)
    requires WithinUnit(low', high - unsafe + unit, unit)
    requires WithinUnit(w', high - distance, unit)
    requires WithinUnit(high', high - unit, unit)
    ensures Sure(c, t as real, low', w', high')
  {
    hide Multiple, Mult, Abs;
    IntMultiple(c, t);
    var tens := t as real * 10.0;
    forall n: int
      ensures !(low' <= Multiple(n, tens) <= high')
    {
      IntMultiple(n, 10 * t);
    }
    var step := t as real;
    forall n: int | n != c && low' <= Multiple(n, step) <= high'
      ensures Abs(Multiple(c, step) - w') < Abs(Multiple(n, step) - w')
    {
      OtherCandidate(c, t, x, high, unsafe, distance, unit, w', n, low', high');
    }
  }

  lemma IntMultiple(n: int, t: int)
    ensures Multiple(n, t as real) == Mult(n, t) as real
    ensures t % 10 == 0 ==> (t / 10) as real * 10.0 == t as real
  {
    IntMul(n, t);
  }

  lemma OtherCandidate(c: int, t: int, x: int, high: int, unsafe: int, distance: int, unit: int, w': real, n: int,
                       low': real, high': real)
    requires 0 < t && Mult(c, t) + x == high && x <= unsafe
    requires BeatsUpper(x, distance, t, unit) && BeatsLower(x, distance, unsafe, t, unit)
    requires WithinUnit(low', high - unsafe + unit, unit)
    requires WithinUnit(w', high - distance, unit)
    requires WithinUnit(high', high - unit, unit)
    requires n != c && low' <= Multiple(n, t as real) <= high'
    ensures Abs(Multiple(c, t as real) - w') < Abs(Multiple(n, t as real) - w')
  {
    hide Multiple, Mult;
    IntMultiple(c, t);
    IntMultiple(n, t);
    MultNext(c, t);
    MultNext(c - 1, t);
    if n < c { MultOrder(n, c - 1, t); } else { MultOrder(c + 1, n, t); }
    Nearer(Mult(c, t), Mult(n, t), x, t, high, unsafe, distance, unit, w');
  }

  lemma Nearer(m: int, m': int, x: int, t: int, high: int, unsafe: int, distance: int, unit: int, w: real)
    requires 0 < t && m == high - x && high - unsafe < m' < high
    requires m' <= m - t || m' >= m + t
    requires BeatsUpper(x, distance, t, unit) && BeatsLower(x, distance, unsafe, t, unit)
    requires WithinUnit(w, high - distance, unit)
    ensures Abs(m as real - w) < Abs(m' as real - w)
  {
  }

  // ----- generating

  const SMALL_POWERS_OF_TEN: seq<UInt32> :=
    [0, 1, 10, 100, 1000, 10000, 100000, 1000000, 10000000, 100000000, 1000000000]

  lemma SmallPowers(i: nat)
    requires i < 10
    ensures SMALL_POWERS_OF_TEN[i + 1] == Pow(10, i)
  {
    assert Pow(10, 5) == 100000;
    if i > 5 { PowAdd(10, 5, i - 5); }
  }

  /** 1233 / 4096 counts the decimal digits of a power of two. */
  lemma DigitsOfPowerOfTwo(bits: nat)
    requires 2 <= bits <= 32
    ensures
      var g := (bits + 1) * 1233 / 4096;
      && g <= 9 && Pow(2, bits + 1) < Pow(10, g + 1)
      && (g > 0 ==> Pow(10, g - 1) <= Pow(2, bits - 2))
  {
    hide Pow;
    var g := (bits + 1) * 1233 / 4096;
    TwoPowers();
    if bits + 1 <= 3 {
      PowMonotone(2, bits + 1, 3);
    } else if bits + 1 <= 6 {
      Interval(bits, 4, 6);
    } else if bits + 1 <= 9 {
      Interval(bits, 7, 9);
    } else if bits + 1 <= 13 {
      Interval(bits, 10, 13);
    } else if bits + 1 <= 16 {
      Interval(bits, 14, 16);
    } else if bits + 1 <= 19 {
      Interval(bits, 17, 19);
    } else if bits + 1 <= 23 {
      Interval(bits, 20, 23);
    } else if bits + 1 <= 26 {
      Interval(bits, 24, 26);
    } else if bits + 1 <= 29 {
      Interval(bits, 27, 29);
    } else {
      Interval(bits, 30, 33);
    }
  }

  lemma Interval(bits: nat, a: nat, b: nat)
    requires 3 <= a <= bits + 1 <= b
    ensures Pow(2, bits + 1) <= Pow(2, b) && Pow(2, a - 3) <= Pow(2, bits - 2)
  {
    PowMonotone(2, bits + 1, b);
    PowMonotone(2, a - 3, bits - 2);
  }

  lemma TwoPowers()
    ensures Pow(2, 1) == 2 && Pow(2, 3) == 8 && Pow(2, 4) == 16 && Pow(2, 6) == 64 && Pow(2, 7) == 128
    ensures Pow(2, 9) == 512 && Pow(2, 11) == 2048 && Pow(2, 13) == 8192 && Pow(2, 14) == 16384
    ensures Pow(2, 16) == 65536 && Pow(2, 17) == 131072 && Pow(2, 19) == 524288 && Pow(2, 21) == 2097152
    ensures Pow(2, 23) == 8388608 && Pow(2, 24) == 16777216 && Pow(2, 26) == 67108864
    ensures Pow(2, 27) == 134217728 && Pow(2, 29) == 536870912 && Pow(2, 33) == 8589934592
    ensures Pow(10, 0) == 1 && Pow(10, 1) == 10 && Pow(10, 2) == 100 && Pow(10, 3) == 1000 && Pow(10, 4) == 10000
    ensures Pow(10, 5) == 100000 && Pow(10, 6) == 1000000 && Pow(10, 7) == 10000000 && Pow(10, 8) == 100000000
    ensures Pow(10, 9) == 1000000000 && Pow(10, 10) == 10000000000
  {
    assert Pow(2, 7) == 128;
    PowAdd(2, 7, 7);
    PowAdd(2, 14, 7);
    PowAdd(2, 21, 6);
    PowAdd(2, 27, 6);
    PowAdd(10, 5, 5);
  }

  /** The biggest power of ten up to number, which may have one bit less or more than told. */
  method BiggestPowerTen(number: UInt32, numberBits: nat) returns (power: UInt32, exponentPlusOne: nat)
    requires 2 <= numberBits <= 32 && Pow(2, numberBits - 2) <= number < Pow(2, numberBits + 1)
    ensures 0 < exponentPlusOne <= 10 && power == Pow(10, exponentPlusOne - 1)
    ensures power <= number < 10 * power
  {
    hide Pow;
    DigitsOfPowerOfTwo(numberBits);
    var guess: nat := (numberBits + 1) * 1233 / 4096;
    SmallPowers(guess);
    if guess > 0 { SmallPowers(guess - 1); PowTen(guess - 1); } else { PowZero(10); PowMonotone(2, 0, numberBits - 2); PowZero(2); }
    PowTen(guess);
    guess := guess + 1;
    if number < SMALL_POWERS_OF_TEN[guess] {
      guess := guess - 1;
    }
    power := SMALL_POWERS_OF_TEN[guess];
    exponentPlusOne := guess;
  }

  /** Digits so far make c; what is left, x, is less than their unit t but no smaller than the unsafe interval. */
  ghost predicate Pending(c: int, t: int, x: int, high: int, unsafe: int) {
    && 0 < unsafe <= x < t
    && Mult(c, t) + x == high
  }

  /** One more digit: x = digit * t + r. */
  lemma MoreDigits(c: int, t: int, x: int, high: int, unsafe: int, digit: int, r: int)
    requires Pending(c, 10 * t, x, high, unsafe)
    requires x == digit * t + r && 0 <= r < t
    ensures 0 <= digit <= 9
    ensures Covered(10 * c + digit, t, r, high, unsafe)
    ensures unsafe <= r ==> Pending(10 * c + digit, t, r, high, unsafe)
  {
    hide Mult;
    DigitBetween(x, digit, r, t);
    MultTen(c, t);
    MultSplit(10 * c, digit, t);
    forall n: int
      ensures !(high - unsafe < Mult(n, 10 * t) <= high)
    {
      Outer(c, 10 * t, x, high, n);
    }
  }

  lemma DigitBetween(x: int, digit: int, r: int, d: int)
    requires x == digit * d + r && 0 <= x < 10 * d && 0 <= r < d
    ensures 0 <= digit <= 9
  {
    if digit >= 10 { MulLe(10, digit, d); }
    if digit <= -1 { MulLe(digit, -1, d); }
  }

  lemma MultSplit(m: int, digit: int, t: int)
    ensures Mult(m + digit, t) == Mult(m, t) + digit * t
  {
    MulDist(m, digit, t);
  }

  lemma PendingTenfold(c: int, t: int, x: int, high: int, unsafe: int)
    requires Pending(c, t, x, high, unsafe)
    ensures Pending(c, 10 * t, 10 * x, 10 * high, 10 * unsafe)
  {
    hide Mult;
    MultTen(c, t);
  }

  /** The digits in the buffer start with a non-zero one. */
  ghost predicate Leads(c: int, length: nat) {
    length > 0 ==> Pow(10, length - 1) <= c
  }

  /** size digits tell any two numbers apart that are the unsafe interval away from each other. */
  ghost predicate SizeFits(high: int, unsafe: int, size: nat) {
    0 < size && high <= Pow(10, size - 1) * unsafe
  }

  /** The generator stops before it runs out of buffer. */
  lemma RoomLeft(c: int, t: int, x: int, high: int, unsafe: int, length: nat, size: nat)
    requires Pending(c, t, x, high, unsafe)
    requires SizeFits(high, unsafe, size) && Leads(c, length)
    ensures length < size
  {
    hide Pow;
    if length >= size {
      var p := Pow(10, size - 1);
      PowMonotone(10, size - 1, length - 1);
      MulLe(p, c, t);
      MulLt(unsafe, t, p);
    }
  }

  lemma LeadsOn(c: int, length: nat, digit: int)
    requires Leads(c, length) && 0 <= digit && (length == 0 ==> c == 0 && digit >= 1)
    ensures Leads(10 * c + digit, length + 1)
  {
  }

  lemma IntegralStep(integrals: int, divisor: int, digit: int, rem: int, one: int, fractionals: int)
    requires integrals == digit * divisor + rem && 0 <= rem < divisor && 0 <= fractionals < one
    ensures integrals * one + fractionals == digit * (divisor * one) + (rem * one + fractionals)
    ensures 0 <= rem * one + fractionals < divisor * one
  {
    MulDist(digit * divisor, rem, one);
    MulAssoc(digit, divisor, one);
    MulLe(0, rem, one);
    MulLe(rem + 1, divisor, one);
    MulDist(rem, 1, one);
  }

  /** The number whose integral and fractional parts are given. */
  function Whole(integrals: nat, one: nat, fractionals: nat): int {
    integrals * one + fractionals
  }

  /** The power of ten that is left for kappa digits, at the scale of one. */
  ghost function Place(kappa: nat, one: nat): int {
    Pow(10, kappa) * one
  }

  lemma PlaceStep(kappa: nat, one: nat)
    requires kappa > 0
    ensures Place(kappa, one) == 10 * Place(kappa - 1, one) && Place(kappa - 1, one) == Pow(10, kappa - 1) * one
  {
    MulAssoc(10, Pow(10, kappa - 1), one);
  }

  method WriteDigit(buffer: array<char>, length: nat, digit: nat)
    requires length < buffer.Length && digit <= 9 && AreDigits(buffer[..length])
    modifies buffer
    ensures AreDigits(buffer[..length + 1]) && buffer[..length] == old(buffer[..length])
    ensures Number(buffer[..length + 1]) == 10 * old(Number(buffer[..length])) + digit
  {
    ghost var digits := buffer[..length];
    buffer[length] := ('0' as int + digit) as char;
    assert buffer[..length + 1] == digits + [buffer[length]];
    NumberSnoc(digits, buffer[length]);
  }

  /** One digit of the integral part. */
  method IntegralDigit(integrals0: UInt32, divisor: UInt32, one: UInt64, fractionals: UInt64,
                       buffer: array<char>, length: nat, ghost kappa: nat, ghost high: int, ghost unsafe: int)
    returns (integrals: UInt32, rest: UInt64)
    requires length < buffer.Length && AreDigits(buffer[..length])
    requires divisor == Pow(10, kappa) && fractionals < one && high < 0x1_0000_0000_0000_0000
    requires Pending(Number(buffer[..length]), Place(kappa + 1, one), Whole(integrals0, one, fractionals), high, unsafe)
    requires Leads(Number(buffer[..length]), length) && 0 <= Number(buffer[..length])
    requires length == 0 ==> divisor <= integrals0
    modifies buffer
    ensures rest == Whole(integrals, one, fractionals) && rest < Place(kappa, one)
    ensures AreDigits(buffer[..length + 1]) && Leads(Number(buffer[..length + 1]), length + 1)
    ensures 0 <= Number(buffer[..length + 1])
    ensures Covered(Number(buffer[..length + 1]), Place(kappa, one), rest, high, unsafe)
    ensures unsafe <= rest ==> Pending(Number(buffer[..length + 1]), Place(kappa, one), rest, high, unsafe)
  {
    hide Number, Pow, Pending, Covered, Leads;
    ghost var c := Number(buffer[..length]);
    QuotientOf(integrals0, divisor);
    var digit := integrals0 / divisor;
    integrals := integrals0 % divisor;
    IntegralStep(integrals0, divisor, digit, integrals, one, fractionals);
    PlaceStep(kappa + 1, one);
    MoreDigits(c, Place(kappa, one), integrals0 * one + fractionals, high, unsafe, digit, integrals * one + fractionals);
    CoveredBelow(10 * c + digit, Place(kappa, one), integrals * one + fractionals, high, unsafe);
    FirstDigit(integrals0, divisor, digit, integrals);
    NumberOfNone(buffer[..length]);
    WriteDigit(buffer, length, digit);
    LeadsOn(c, length, digit);
    rest := integrals * one + fractionals;
  }

  lemma NumberOfNone(s: seq<char>)
    ensures |s| == 0 ==> Number(s) == 0
  {
  }

  lemma FirstDigit(n: int, d: int, digit: int, r: int)
    requires n == digit * d + r && 0 <= r < d
    ensures d <= n ==> digit >= 1
  {
    if digit <= 0 { MulLe(digit, 0, d); }
  }

  lemma CoveredBelow(c: int, t: int, x: int, high: int, unsafe: int)
    requires Covered(c, t, x, high, unsafe) && 0 <= c
    ensures 0 <= x <= high
  {
    MulLe(0, c, t);
  }

  /** The integral part, most significant digit first, until the rest is within the unsafe interval. */
  method IntegralDigits(tooHigh: UInt64, unsafe: UInt64, shift: nat, one: UInt64, buffer: array<char>, ghost size: nat)
    returns (stopped: bool, length: nat, kappa: nat, rest: UInt64, tenKappa: UInt64)
    requires 32 <= shift <= 60 && one == Pow(2, shift)
    requires 0 < unsafe <= tooHigh && 0x4000_0000_0000_0000 <= tooHigh
    requires size <= buffer.Length && SizeFits(tooHigh, unsafe, size)
    modifies buffer
    ensures 0 < length <= size && AreDigits(buffer[..length])
    ensures 0 <= Number(buffer[..length]) && Leads(Number(buffer[..length]), length)
    ensures tenKappa == Place(kappa, one) && rest < tenKappa
    ensures stopped <==> rest < unsafe
    ensures stopped ==> Covered(Number(buffer[..length]), tenKappa, rest, tooHigh, unsafe)
    ensures !stopped ==> kappa == 0 && Pending(Number(buffer[..length]), tenKappa, rest, tooHigh, unsafe)
  {
    hide Number, Pow, Pending, Covered, Leads, Place, Whole, SizeFits;
    var integrals: UInt32, fractionals: UInt64, divisor: UInt32;
    integrals, fractionals, divisor, kappa := SplitAtPoint(tooHigh, unsafe, shift, one);
    length, rest, tenKappa := 0, 0, 0;
    NumberOfNone(buffer[..0]);
    while kappa > 0
      invariant length > 0 ==> rest == Whole(integrals, one, fractionals) && tenKappa == Place(kappa, one) && unsafe <= rest < tenKappa
      invariant kappa == 0 ==> length > 0
      invariant kappa > 0 ==> divisor == Pow(10, kappa - 1) && 0 < Place(kappa - 1, one) <= tooHigh
      invariant length <= size && AreDigits(buffer[..length])
      invariant length == 0 ==> kappa > 0 && divisor <= integrals
      invariant 0 <= Number(buffer[..length]) && Leads(Number(buffer[..length]), length)
      invariant Pending(Number(buffer[..length]), Place(kappa, one), Whole(integrals, one, fractionals), tooHigh, unsafe)
    {
      NumberOfNone(buffer[..length]);
      RoomLeft(Number(buffer[..length]), Place(kappa, one), Whole(integrals, one, fractionals), tooHigh, unsafe, length, size);
      integrals, rest := IntegralDigit(integrals, divisor, one, fractionals, buffer, length, kappa - 1, tooHigh, unsafe);
      length := length + 1;
      kappa := kappa - 1;
      PlaceIs(divisor, kappa, one);
      tenKappa := divisor * one;
      if rest < unsafe {
        return true, length, kappa, rest, tenKappa;
      }
      if kappa > 0 { DivisorStep(divisor, kappa, one); }
      divisor := divisor / 10;
    }
    stopped := false;
    PlaceZero(one);
  }

  /** The integral and fractional parts, with the place of the first digit. */
  method SplitAtPoint(tooHigh: UInt64, unsafe: UInt64, shift: nat, one: UInt64)
    returns (integrals: UInt32, fractionals: UInt64, divisor: UInt32, kappa: nat)
    requires 32 <= shift <= 60 && one == Pow(2, shift)
    requires 0 < unsafe <= tooHigh && 0x4000_0000_0000_0000 <= tooHigh
    ensures fractionals < one && tooHigh == Whole(integrals, one, fractionals)
    ensures 0 < kappa && divisor == Pow(10, kappa - 1) && divisor <= integrals
    ensures Pending(0, Place(kappa, one), Whole(integrals, one, fractionals), tooHigh, unsafe)
    ensures 0 < Place(kappa - 1, one) <= tooHigh
    ensures Leads(0, 0)
  {
    hide Pow, Pending, Leads, Place;
    IntegralBits(tooHigh, shift);
    integrals := ShiftRight(tooHigh, shift);
    fractionals := LowBits(tooHigh, shift);
    divisor, kappa := BiggestPowerTen(integrals, 64 - shift);
    StartIntegrals(tooHigh, unsafe, integrals, divisor, one, fractionals, kappa);
  }

  lemma IntegralBits(tooHigh: UInt64, shift: nat)
    requires 32 <= shift <= 60 && 0x4000_0000_0000_0000 <= tooHigh
    ensures Pow(2, 64 - shift - 2) <= ShiftRight(tooHigh, shift) < Pow(2, 64 - shift)
    ensures Pow(2, 64 - shift) <= 0x1_0000_0000 && Pow(2, 64 - shift) < Pow(2, 64 - shift + 1)
    ensures 0 < Pow(2, shift) <= 0x1000_0000_0000_0000
  {
    hide Pow;
    PowSixtyFour();
    PowValues();
    PowAdd(2, shift, 64 - shift);
    PowAdd(2, shift, 62 - shift);
    PowMonotone(2, 64 - shift, 32);
    PowNext(64 - shift);
    PowMonotone(2, shift, 60);
    PowNext(60);
    PowNext(61);
    ShiftBetween(tooHigh, ShiftRight(tooHigh, shift), Pow(2, shift), Pow(2, 62 - shift), Pow(2, 64 - shift));
  }

  lemma ShiftBetween(x: int, q: int, p: int, a: int, b: int)
    requires 0 < p && q * p <= x < q * p + p && p * a <= x < p * b
    ensures a <= q < b
  {
    if q < a { MulLe(q + 1, a, p); }
    if q >= b { MulLe(b, q, p); }
  }

  lemma StartIntegrals(tooHigh: UInt64, unsafe: UInt64, integrals: UInt32, divisor: UInt32, one: UInt64, fractionals: UInt64, kappa: nat)
    requires 0 < unsafe <= tooHigh && tooHigh == integrals * one + fractionals && fractionals < one
    requires kappa > 0 && divisor == Pow(10, kappa - 1) && divisor <= integrals < 10 * divisor
    ensures Pending(0, Place(kappa, one), Whole(integrals, one, fractionals), tooHigh, unsafe)
    ensures 0 < Place(kappa - 1, one) <= tooHigh
    ensures Leads(0, 0)
  {
    PlaceStep(kappa, one);
    MulLe(divisor, integrals, one);
    MulLe(integrals + 1, 10 * divisor, one);
    MulAssoc(10, divisor, one);
    MulDist(integrals, 1, one);
    MulLt(0, divisor, one);
    MultZero(Place(kappa, one));
  }

  lemma DivisorStep(divisor: int, kappa: nat, one: int)
    requires kappa > 0 && divisor == Pow(10, kappa) && 0 < one
    ensures divisor / 10 == Pow(10, kappa - 1)
    ensures 0 < Place(kappa - 1, one) <= Place(kappa, one)
  {
    PlaceStep(kappa, one);
    MulLt(0, divisor / 10, one);
  }

  lemma PlaceIs(divisor: nat, kappa: nat, one: nat)
    requires divisor == Pow(10, kappa)
    ensures divisor * one == Place(kappa, one)
  {
  }

  lemma PlaceZero(one: nat)
    ensures Place(0, one) == one
  {
  }

  /** One digit behind the point: everything is multiplied by ten first. */
  method FractionalDigit(fractionals0: UInt64, shift: nat, one: UInt64, buffer: array<char>, length: nat,
                         ghost high: int, ghost unsafe: int)
    returns (fractionals: UInt64)
    requires shift <= 60 && one == Pow(2, shift) && 0 < length < buffer.Length && AreDigits(buffer[..length])
    requires Pending(Number(buffer[..length]), one, fractionals0, high, unsafe)
    requires Leads(Number(buffer[..length]), length) && 0 <= Number(buffer[..length])
    modifies buffer
    ensures fractionals < one
    ensures AreDigits(buffer[..length + 1]) && Leads(Number(buffer[..length + 1]), length + 1)
    ensures 0 <= Number(buffer[..length + 1])
    ensures Covered(Number(buffer[..length + 1]), one, fractionals, 10 * high, 10 * unsafe)
    ensures 10 * unsafe <= fractionals ==> Pending(Number(buffer[..length + 1]), one, fractionals, 10 * high, 10 * unsafe)
  {
    hide Number, Pow, Pending, Covered, Leads;
    ghost var c := Number(buffer[..length]);
    OneBound(shift);
    PendingBelow(c, one, fractionals0, high, unsafe);
    var raised: UInt64 := fractionals0 * 10;
    var digit := ShiftRight(raised, shift);
    fractionals := LowBits(raised, shift);
    PendingTenfold(c, one, fractionals0, high, unsafe);
    MoreDigits(c, one, raised, 10 * high, 10 * unsafe, digit, fractionals);
    WriteDigit(buffer, length, digit);
    LeadsOn(c, length, digit);
  }

  lemma OneBound(shift: nat)
    requires shift <= 60
    ensures 0 < Pow(2, shift) <= 0x1000_0000_0000_0000
  {
    hide Pow;
    PowMonotone(2, shift, 60);
    PowSixtyFour();
    PowNext(60);
    PowNext(61);
  }

  lemma PendingBelow(c: int, t: int, x: int, high: int, unsafe: int)
    requires Pending(c, t, x, high, unsafe)
    ensures 0 < unsafe <= x < t
  {
  }

  lemma FitsTenfold(high: int, unsafe: int, size: nat)
    requires SizeFits(high, unsafe, size)
    ensures SizeFits(10 * high, 10 * unsafe, size)
  {
    MulAssoc(10, unsafe, Pow(10, size - 1));
  }

  lemma UnitTenfold(x0: int, unit: int)
    ensures x0 * (10 * unit) == 10 * (x0 * unit)
  {
  }

  lemma UnitBelow(unsafe0: int, unit: int, bound: int)
    requires 0 < unsafe0 && 0 < unit && unsafe0 * unit < bound
    ensures unit < bound
  {
    MulLe(1, unsafe0, unit);
  }

  /** The digits behind the point, until the rest is within the unsafe interval, which grows with its unit. */
  method FractionalDigits(fractionals0: UInt64, unsafe0: UInt64, shift: nat, one: UInt64, buffer: array<char>, length0: nat,
                          ghost high: int, ghost size: nat)
    returns (length: nat, kappa: int, rest: UInt64, unsafe: UInt64, unit: UInt64)
    requires shift <= 60 && one == Pow(2, shift) && 0 < length0 <= size <= buffer.Length
    requires AreDigits(buffer[..length0]) && SizeFits(high, unsafe0, size)
    requires Pending(Number(buffer[..length0]), one, fractionals0, high, unsafe0)
    requires Leads(Number(buffer[..length0]), length0) && 0 <= Number(buffer[..length0])
    modifies buffer
    ensures length0 < length <= size && AreDigits(buffer[..length])
    ensures 0 <= Number(buffer[..length]) && Leads(Number(buffer[..length]), length)
    ensures kappa < 0 && unit == Pow(10, -kappa) && unsafe == unsafe0 * unit
    ensures rest < one && rest < unsafe
    ensures Covered(Number(buffer[..length]), one, rest, high * unit, unsafe)
  {
    hide Number, Pow, Pending, Covered, Leads, SizeFits;
    length, kappa, rest, unsafe, unit := length0, 0, fractionals0, unsafe0, 1;
    PowZero(10);
    OneBound(shift);
    ghost var scaled := high;
    while true
      invariant 0 < length0 <= length <= size && AreDigits(buffer[..length])
      invariant 0 <= Number(buffer[..length]) && Leads(Number(buffer[..length]), length)
      invariant kappa <= 0 && unit == Pow(10, -kappa) && unsafe == unsafe0 * unit && scaled == high * unit
      invariant Pending(Number(buffer[..length]), one, rest, scaled, unsafe) && SizeFits(scaled, unsafe, size)
      decreases one - unsafe
    {
      ghost var c := Number(buffer[..length]);
      PendingBelow(c, one, rest, scaled, unsafe);
      RoomLeft(c, one, rest, scaled, unsafe, length, size);
      FitsTenfold(scaled, unsafe, size);
      PowTen(-kappa);
      UnitTenfold(unsafe0, unit);
      UnitTenfold(high, unit);
      UnitBelow(unsafe0, unit, one);
      rest := FractionalDigit(rest, shift, one, buffer, length, scaled, unsafe);
      unit := unit * 10;
      unsafe := unsafe * 10;
      scaled := scaled * 10;
      length := length + 1;
      kappa := kappa - 1;
      if rest < unsafe {
        return;
      }
    }
  }

  /** x is less than one unit in the last place away from n. */
  ghost predicate Near(x: real, n: Binary) {
    Binary(n.f - 1, n.e).Value() < x < Binary(n.f + 1, n.e).Value()
  }

  /** c * 10^kappa is the decimal to print whatever the exact numbers behind low, w and high are. */
  ghost predicate SureFor(c: int, kappa: int, low: Binary, w: Binary, high: Binary) {
    forall l: real, v: real, h: real :: Near(l, low) && Near(v, w) && Near(h, high) ==> IsSurelyShortest(c, kappa, l, v, h)
  }

  /** t stands for 10^kappa among numbers scaled by unit * one. */
  ghost predicate AtGrid(kappa: int, t: int, unit: int, one: nat) {
    if kappa >= 0 then unit == 1 && t == Place(kappa, one) else unit == Pow(10, -kappa) && t == one
  }

  lemma GridStep(kappa: int, t: int, unit: int, one: nat)
    requires AtGrid(kappa, t, unit, one)
    ensures t as real == Ten(kappa) * (unit * one) as real
  {
    hide Pow, Ten;
    IntMul(unit, one);
    if kappa >= 0 {
      TenNat(kappa);
      IntMul(Pow(10, kappa), one);
    } else {
      TenNat(-kappa);
      TenInverse(kappa);
      RMulAssoc(Ten(kappa), unit as real, one as real);
    }
  }

  /** Scaling brings numbers near n to within a unit of n * unit. */
  lemma NearScaled(x: real, n: Binary, unit: int, one: nat, x': real, n': int)
    requires Near(x, n) && n.e <= 0 && one == Pow(2, -n.e) && 0 < unit
    requires x' == x * (unit * one) as real && n' == n.f * unit
    ensures WithinUnit(x', n', unit)
  {
    hide Pow, Two;
    TwoNat(-n.e);
    TwoInverse(n.e);
    IntMul(unit, one);
    IntMul(n.f - 1, unit);
    IntMul(n.f + 1, unit);
    MulDist(n.f, 1, unit);
    MulLt(0, unit, one);
    var s := (unit * one) as real;
    PointScaled((n.f - 1) as real, Two(n.e), unit as real, one as real);
    PointScaled((n.f + 1) as real, Two(n.e), unit as real, one as real);
    RMulLt((n.f - 1) as real * Two(n.e), x, s);
    RMulLt(x, (n.f + 1) as real * Two(n.e), s);
  }

  lemma PointScaled(n: real, p: real, unit: real, one: real)
    requires one * p == 1.0
    ensures (n * p) * (unit * one) == n * unit
  {
    RMulAssoc(n, p, unit * one);
    RMulAssoc(unit, one, p);
  }

  /** What a successful weeding says about the numbers that were scaled. */
  lemma WeededIsShortest(c: int, kappa: int, t: int, x: int, low: Binary, w: Binary, high: Binary, unit: int, one: nat,
                         top: int, unsafe: int, distance: int)
    requires low.e == w.e == high.e <= 0 && one == Pow(2, -w.e) && 0 < unit
    requires low.f < w.f + 1 && w.f <= high.f
    requires top == (high.f + 1) * unit && unsafe == (high.f - low.f + 2) * unit && distance == (high.f + 1 - w.f) * unit
    requires Covered(c, t, x, top, unsafe) && x <= unsafe
    requires BeatsUpper(x, distance, t, unit) && BeatsLower(x, distance, unsafe, t, unit)
    requires InSafeInterval(x, unsafe, unit)
    requires AtGrid(kappa, t, unit, one)
    ensures SureFor(c, kappa, low, w, high)
  {
    hide Ten, Sure, Covered, Near, WithinUnit, BeatsUpper, BeatsLower, InSafeInterval, Pow, AtGrid;
    GridStep(kappa, t, unit, one);
    MulLt(0, unit, one);
    UnitSums(low.f, w.f, high.f, unit);
    forall l: real, v: real, h: real | Near(l, low) && Near(v, w) && Near(h, high)
      ensures IsSurelyShortest(c, kappa, l, v, h)
    {
      var s := (unit * one) as real;
      var l', v', h' := l * s, v * s, h * s;
      NearScaled(l, low, unit, one, l', top - unsafe + unit);
      NearScaled(v, w, unit, one, v', top - distance);
      NearScaled(h, high, unit, one, h', top - unit);
      WeededIsSure(c, t, x, top, unsafe, distance, unit, l', v', h');
      SureScales(c, Ten(kappa), l, v, h, s, t as real, l', v', h');
    }
  }

  lemma UnitSums(low: int, w: int, high: int, unit: int)
    requires 0 < unit && low < w + 1 && w <= high
    ensures (high + 1) * unit - (high - low + 2) * unit + unit == low * unit
    ensures (high + 1) * unit - (high + 1 - w) * unit == w * unit
    ensures (high + 1) * unit - unit == high * unit
    ensures unit <= (high + 1 - w) * unit
    ensures (high + 1 - w) * unit + unit <= (high - low + 2) * unit
  {
    MulDist(high + 1, high - low + 2, unit);
    MulDist(high + 1, high + 1 - w, unit);
    MulDist(high, 1, unit);
    MulDist(low, 1, unit);
    MulLe(1, high + 1 - w, unit);
    MulDist(high + 1 - w, 1, unit);
    MulLe(high + 2 - w, high - low + 2, unit);
  }

  /** Weeding does not cost the leading digit. */
  lemma StillLeads(s: seq<char>, t: seq<char>, tenKappa: int, x: int, high: int, unsafe: int, unit: int)
    requires 0 < |s| == |t| && AreDigits(s) && AreDigits(t) && s[..|s| - 1] == t[..|t| - 1] && Leads(Number(s), |s|)
    requires Covered(Number(t), tenKappa, x, high, unsafe) && InSafeInterval(x, unsafe, unit) && 0 < unit && unsafe <= high
    ensures Leads(Number(t), |t|)
  {
    hide Number;
    var n := |s| - 1;
    NumberPrefix(s, n);
    NumberPrefix(t, n);
    assert s[..n + 1] == s && t[..n + 1] == t;
    if n == 0 {
      PowZero(10);
      if Number(t) <= 0 { MultOrder(Number(t), 0, tenKappa); MultZero(tenKappa); }
    } else {
      PowTen(n - 1);
    }
  }

  /** Digits of too_high until they fall within the unsafe interval, then weeded. */
  method DigitGen(low: DiyFp, w: DiyFp, high: DiyFp, buffer: array<char>, ghost size: nat)
    returns (ok: bool, length: nat, kappa: int)
    requires low.e == w.e == high.e && MINIMAL_TARGET_EXPONENT <= w.e <= MAXIMAL_TARGET_EXPONENT
    requires 1 <= low.f && low.f + 1 <= high.f - 1 && low.f <= w.f <= high.f
    requires 0x4000_0000_0000_0000 <= high.f + 1 < 0x1_0000_0000_0000_0000
    requires size <= buffer.Length && SizeFits(high.f + 1, high.f - low.f + 2, size)
    modifies buffer
    ensures 0 < length <= size && AreDigits(buffer[..length])
    ensures ok ==> Leads(Number(buffer[..length]), length)
    ensures ok ==> SureFor(Number(buffer[..length]), kappa, low.AsBinary(), w.AsBinary(), high.AsBinary())
  {
    hide Number, Pow, Pending, Covered, Leads, SizeFits, SureFor, BeatsUpper, BeatsLower, InSafeInterval, AtGrid, Place;
    var unit: UInt64 := 1;
    var tooLow := new DiyFp(low.f - unit, low.e);
    var tooHigh := new DiyFp(high.f + unit, high.e);
    var unsafeInterval := DiyFp.Minus(tooHigh, tooLow);
    var shift: nat := -w.e;
    OneBound(shift);
    var one: UInt64 := Pow(2, shift);
    var toW := DiyFp.Minus(tooHigh, w);
    var stopped, rest, tenKappa;
    stopped, length, kappa, rest, tenKappa := IntegralDigits(tooHigh.f, unsafeInterval.f, shift, one, buffer, size);
    var unsafe, distance: UInt64 := unsafeInterval.f, toW.f;
    if !stopped {
      PlaceZero(one);
      length, kappa, rest, unsafe, unit := FractionalDigits(rest, unsafe, shift, one, buffer, length, tooHigh.f, size);
      tenKappa := one;
      ScaledDistance64(toW.f, unsafeInterval.f, unit, unsafe);
      distance := toW.f * unit;
    }
    ShowAtGrid(kappa, tenKappa, unit, one);
    ScaledRoom(low.f, w.f, high.f, unit);
    ghost var top := tooHigh.f * unit;
    ghost var digits := buffer[..length];
    ghost var x;
    ok, x := RoundWeed(buffer, length, distance, unsafe, rest, tenKappa, unit, top);
    if ok {
      StillLeads(digits, buffer[..length], tenKappa, x, top, unsafe, unit);
      WeededIsShortest(Number(buffer[..length]), kappa, tenKappa, x, low.AsBinary(), w.AsBinary(), high.AsBinary(),
                       unit, one, top, unsafe, distance);
    }
  }

  lemma ScaledDistance64(d: int, u: int, unit: int, unsafe: int)
    requires 0 <= d <= u && 0 <= unit && unsafe == u * unit
    ensures 0 <= d * unit <= unsafe
  {
    MulLe(d, u, unit);
    MulLe(0, d, unit);
  }

  lemma ShowAtGrid(kappa: int, t: int, unit: int, one: nat)
    requires if kappa >= 0 then unit == 1 && t == Place(kappa, one) else unit == Pow(10, -kappa) && t == one
    ensures AtGrid(kappa, t, unit, one)
  {
  }

  lemma ScaledRoom(low: int, w: int, high: int, unit: int)
    requires 0 < unit && 1 <= low <= w <= high && low + 1 <= high - 1
    ensures unit <= (high + 1 - w) * unit && (high + 1 - w) * unit + unit <= (high - low + 2) * unit
    ensures 4 * unit <= (high - low + 2) * unit <= (high + 1) * unit
  {
    UnitSums(low, w, high, unit);
    MulLe(4, high - low + 2, unit);
    MulLe(high - low + 2, high + 1, unit);
  }

  // ----- scaling by a cached power of ten

  /** A rounded product with a cached power is less than a unit off. */
  lemma TimesIsNear(x: Binary, power: Binary, k: int, y: real)
    requires 0 <= x.f < 2 * HALF && IsCachedPower(power, k) && y == x.Value() * Ten(k)
    ensures x.f * power.f >= 0
    ensures Near(y, Binary(HighWord(x.f * power.f), x.e + power.e + 64))
  {
    hide Two, Ten, HighWord;
    MulLe(0, x.f, power.f);
    var u, q, t := Two(x.e), Two(power.e - 1), Two(x.e + power.e + 64);
    WordScale(x.e, power.e);
    RoundedProduct(x.f, power.f, HighWord(x.f * power.f), u, q, t, Ten(k));
  }

  lemma WordScale(m: int, n: int)
    ensures Two(m + n + 64) == 0x2_0000_0000_0000_0000 as real * (Two(m) * Two(n - 1))
  {
    hide Two;
    TwoAdd(m, n - 1);
    TwoAdd(65, m + n - 1);
    TwoNat(65);
    PowSixtyFour();
    PowNext(64);
  }

  lemma RoundedProduct(x: int, p: int, r: int, u: real, q: real, t: real, ten: real)
    requires 0 <= x < 2 * HALF && 0.0 < u && 0.0 < q && t == 0x2_0000_0000_0000_0000 as real * (u * q)
    requires r * 0x1_0000_0000_0000_0000 <= x * p + HALF < (r + 1) * 0x1_0000_0000_0000_0000
    requires (2 * p - 1) as real * q <= ten <= (2 * p + 1) as real * q
    ensures (r - 1) as real * t < (x as real * u) * ten < (r + 1) as real * t
  {
    RMulLt(0.0, u, q);
    IntMul(x, 2 * p - 1);
    IntMul(x, 2 * p + 1);
    ProductSides(x as real, u, (2 * p - 1) as real, (2 * p + 1) as real, q, ten);
    HighWordSides(x, p, r);
    WordSides(x * (2 * p - 1), x * (2 * p + 1), r, u * q, t, (x as real * u) * ten);
  }

  lemma WordSides(below: int, above: int, r: int, unit: real, t: real, y: real)
    requires 0.0 < unit && t == 0x2_0000_0000_0000_0000 as real * unit
    requires 0x2_0000_0000_0000_0000 * (r - 1) < below && above < 0x2_0000_0000_0000_0000 * (r + 1)
    requires below as real * unit <= y <= above as real * unit
    ensures (r - 1) as real * t < y < (r + 1) as real * t
  {
    TwoShifted(r - 1, t, unit);
    TwoShifted(r + 1, t, unit);
    RMulLt((0x2_0000_0000_0000_0000 * (r - 1)) as real, below as real, unit);
    RMulLt(above as real, (0x2_0000_0000_0000_0000 * (r + 1)) as real, unit);
  }

  lemma TwoShifted(n: int, t: real, unit: real)
    requires t == 0x2_0000_0000_0000_0000 as real * unit
    ensures n as real * t == (0x2_0000_0000_0000_0000 * n) as real * unit
  {
    RMulAssoc(n as real, 0x2_0000_0000_0000_0000 as real, unit);
  }

  lemma ProductSides(x: real, u: real, below: real, above: real, q: real, t: real)
    requires 0.0 <= x && 0.0 < u && below * q <= t <= above * q
    ensures (x * below) * (u * q) <= (x * u) * t <= (x * above) * (u * q)
  {
    var xu := x * u;
    RMulLe(0.0, x, u);
    RMulLe(below * q, t, xu);
    RMulLe(t, above * q, xu);
    Regroup(x, below, u, q);
    Regroup(x, above, u, q);
  }

  lemma Regroup(x: real, b: real, u: real, q: real)
    ensures (x * b) * (u * q) == (b * q) * (x * u)
  {
    RMulAssoc(x, b, u * q);
    RMulAssoc(b, u, q);
    RMulAssoc(x, u, b * q);
    RMulAssoc(u, b, q);
  }

  lemma HighWordSides(x: int, p: int, r: int)
    requires 0 <= x < 2 * HALF && r * 0x1_0000_0000_0000_0000 <= x * p + HALF < (r + 1) * 0x1_0000_0000_0000_0000
    ensures 0x2_0000_0000_0000_0000 * (r - 1) < x * (2 * p - 1)
    ensures x * (2 * p + 1) < 0x2_0000_0000_0000_0000 * (r + 1)
  {
    assert x * (2 * p - 1) == 2 * (x * p) - x;
    assert x * (2 * p + 1) == 2 * (x * p) + x;
  }

  /** The scaled boundaries are far enough apart, and seventeen digits tell them apart. */
  lemma ScaledBoundaries(f: nat, g: nat, wf: nat, plus: nat, minus: nat, p: nat)
    requires 0 < f < 2 * HIDDEN_BIT && 512 <= g && wf == 4 * f * g && plus == wf + 2 * g
    requires minus == wf - 2 * g || (minus == wf - g && f == HIDDEN_BIT)
    requires HALF <= wf && plus < 2 * HALF && HALF <= p < 2 * HALF
    ensures minus * p >= 0 && wf * p >= 0 && plus * p >= 0
    ensures
      var low, mid, high := HighWord(minus * p), HighWord(wf * p), HighWord(plus * p);
      && 1 <= low <= mid <= high && low + 1 <= high - 1
      && 0x4000_0000_0000_0000 <= high + 1 < 0x1_0000_0000_0000_0000
      && SizeFits(high + 1, high - low + 2, 17)
  {
    hide HighWord, SizeFits;
    Distances(f, g, wf, plus, minus);
    MulLe(minus, wf, p);
    MulLe(wf, plus, p);
    MulLe(0, minus, p);
    ProductAtMostTop(plus, p);
    ScaledProducts(plus, minus, p);
    ScaledWords(minus * p, wf * p, plus * p);
  }

  lemma Distances(f: nat, g: nat, wf: nat, plus: nat, minus: nat)
    requires 0 < f < 2 * HIDDEN_BIT && 512 <= g && wf == 4 * f * g && plus == wf + 2 * g
    requires minus == wf - 2 * g || (minus == wf - g && f == HIDDEN_BIT)
    requires HALF <= wf
    ensures HALF / 2 <= minus <= wf && 1536 <= plus - minus && plus <= 10_000_000_000_000_000 * (plus - minus)
  {
    Width(f, g, wf);
    MulLe(1, f, 4 * g);
  }

  lemma ScaledProducts(plus: nat, minus: nat, p: nat)
    requires HALF / 2 <= minus && 1536 <= plus - minus && plus <= 10_000_000_000_000_000 * (plus - minus)
    requires HALF <= plus && HALF <= p
    ensures HALF / 2 * HALF <= minus * p && HALF * HALF <= plus * p && 1536 * HALF <= plus * p - minus * p
    ensures plus * p <= 10_000_000_000_000_000 * (plus * p - minus * p)
  {
    var d := plus - minus;
    ProductAtMost(HALF / 2, HALF, minus, p);
    ProductAtMost(HALF, HALF, plus, p);
    ProductAtMost(1536, HALF, d, p);
    MulDist(plus, minus, p);
    MulLe(plus, 10_000_000_000_000_000 * d, p);
    MulAssoc(10_000_000_000_000_000, d, p);
  }

  lemma ScaledWords(mp: nat, wp: nat, pp: nat)
    requires mp <= wp <= pp && HALF / 2 * HALF <= mp && HALF * HALF <= pp && 1536 * HALF <= pp - mp
    requires pp <= 10_000_000_000_000_000 * (pp - mp)
    ensures 1 <= HighWord(mp) <= HighWord(wp) <= HighWord(pp) && HighWord(mp) + 1 <= HighWord(pp) - 1
    ensures 0x4000_0000_0000_0000 <= HighWord(pp) + 1
    ensures SizeFits(HighWord(pp) + 1, HighWord(pp) - HighWord(mp) + 2, 17)
  {
    hide HighWord;
    HighWordMonotone(mp, wp);
    HighWordMonotone(wp, pp);
    SmallTens();
  }

  lemma Width(f: nat, g: nat, wf: nat)
    requires 0 < f < 2 * HIDDEN_BIT && wf == 4 * f * g
    ensures wf + 2 * g <= 10_000_000_000_000_000 * (4 * g)
    ensures f == HIDDEN_BIT ==> wf + 2 * g <= 10_000_000_000_000_000 * (3 * g)
    ensures wf == f * (4 * g)
  {
    MulLe(f, 2 * HIDDEN_BIT - 1, 4 * g);
    assert wf == f * (4 * g);
  }

  // ----- the printer

  /** power is what the cache returns for d: a power of ten that brings it into the generator's range. */
  ghost predicate IsCachedFor(d: Double, power: Binary, k: int)
    requires 0 < d.bits < INFINITY
  {
    && IsCachedPower(power, k)
    && MINIMAL_TARGET_EXPONENT <= d.Exponent() - Shift(d) + power.e + 64 <= MAXIMAL_TARGET_EXPONENT
  }

  /** The three rounded products meet the generator's demands. */
  lemma ProductsReady(d: Double, w: Binary, minus: Binary, plus: Binary, power: Binary, k: int)
    requires 0 < d.bits < INFINITY && d.Significand() > 0 && IsCachedFor(d, power, k)
    requires w == Normalized(d.Significand(), d.Exponent()) && Shift(d) >= 11
    requires 2 * d.Significand() + 1 < 2 * HALF && plus == Normalized(2 * d.Significand() + 1, d.Exponent() - 1)
    requires minus.e == plus.e
    requires
      var g := Pow(2, Shift(d) - 2);
      minus.f == plus.f - 2 * g - (if d.LowerBoundaryIsCloser() then g else 2 * g)
    ensures 0 <= minus.f < 2 * HALF && plus.e == w.e
    ensures MINIMAL_TARGET_EXPONENT <= w.e + power.e + 64 <= MAXIMAL_TARGET_EXPONENT
    ensures minus.f * power.f >= 0 && w.f * power.f >= 0 && plus.f * power.f >= 0
    ensures
      var l, m, h := HighWord(minus.f * power.f), HighWord(w.f * power.f), HighWord(plus.f * power.f);
      && 1 <= l <= m <= h && l + 1 <= h - 1
      && 0x4000_0000_0000_0000 <= h + 1 < 0x1_0000_0000_0000_0000
      && SizeFits(h + 1, h - l + 2, 17)
  {
    hide Pow, HighWord, SizeFits, Normalized;
    CommonExponent(d);
    SignificandRange(d);
    var g := Pow(2, Shift(d) - 2);
    Distances(d.Significand(), g, w.f, plus.f, minus.f);
    ScaledBoundaries(d.Significand(), g, w.f, plus.f, minus.f, power.f);
  }

  /** The generator's verdict on the products is one on the double itself. */
  lemma VerdictOnDouble(d: Double, c: int, kappa: int, w: Binary, minus: Binary, plus: Binary, power: Binary, k: int)
    requires 0 < d.bits < INFINITY && IsCachedPower(power, k)
    requires 0 <= w.f < 2 * HALF && 0 <= minus.f < 2 * HALF && 0 <= plus.f < 2 * HALF
    requires minus.f * power.f >= 0 && w.f * power.f >= 0 && plus.f * power.f >= 0
    requires w.Value() == d.Value() && minus.Value() == d.LowerBoundary().Value() && plus.Value() == d.UpperBoundary().Value()
    requires SureFor(c, kappa, Binary(HighWord(minus.f * power.f), minus.e + power.e + 64),
                     Binary(HighWord(w.f * power.f), w.e + power.e + 64),
                     Binary(HighWord(plus.f * power.f), plus.e + power.e + 64))
    ensures IsSurelyShortest(c, kappa - k, d.LowerBoundary().Value(), d.Value(), d.UpperBoundary().Value())
  {
    hide Ten, HighWord, Near, IsSurelyShortest, Binary.Value, Double.Value, Double.LowerBoundary, Double.UpperBoundary;
    var l, m, h := minus.Value() * Ten(k), w.Value() * Ten(k), plus.Value() * Ten(k);
    TimesIsNear(minus, power, k, l);
    TimesIsNear(w, power, k, m);
    TimesIsNear(plus, power, k, h);
    ShortestScales(c, kappa, minus.Value(), w.Value(), plus.Value(), k, l, m, h);
  }

  /** Scales by the cached power and generates. */
  method Grisu3(v: Double, tenMk: DiyFp, mk: int, buffer: array<char>)
    returns (ok: bool, length: nat, decimalExponent: int)
    requires 0 < v.bits < INFINITY && IsCachedFor(v, tenMk.AsBinary(), mk) && 17 <= buffer.Length
    modifies buffer
    ensures 0 < length <= 17 && AreDigits(buffer[..length])
    ensures ok ==> Leads(Number(buffer[..length]), length)
    ensures ok ==> IsSurelyShortest(Number(buffer[..length]), decimalExponent,
                                    v.LowerBoundary().Value(), v.Value(), v.UpperBoundary().Value())
  {
    hide Number, Pow, Leads, SizeFits, SureFor, Sure, Normalized, HighWord, IsCachedPower, Double.Value, Binary.Value,
         Double.LowerBoundary, Double.UpperBoundary, Double.Significand, Double.Exponent, Double.LowerBoundaryIsCloser;
    var w := AsNormalizedDiyFp(v);
    var boundaryMinus, boundaryPlus := NormalizedBoundaries(v);
    UpperValue(v);
    ProductsReady(v, w.AsBinary(), boundaryMinus.AsBinary(), boundaryPlus.AsBinary(), tenMk.AsBinary(), mk);
    var scaledW := DiyFp.Times(w, tenMk);
    var scaledMinus := DiyFp.Times(boundaryMinus, tenMk);
    var scaledPlus := DiyFp.Times(boundaryPlus, tenMk);
    var kappa;
    ok, length, kappa := DigitGen(scaledMinus, scaledW, scaledPlus, buffer, 17);
    decimalExponent := -mk + kappa;
    if ok {
      VerdictOnDouble(v, Number(buffer[..length]), kappa, w.AsBinary(), boundaryMinus.AsBinary(),
                      boundaryPlus.AsBinary(), tenMk.AsBinary(), mk);
    }
  }

  /** FastDtoa in its shortest mode. */
  method FastDtoaShortest(v: Double, tenMk: DiyFp, mk: int, buffer: array<char>)
    returns (ok: bool, length: nat, decimalPoint: int)
    requires 0 < v.bits < INFINITY && IsCachedFor(v, tenMk.AsBinary(), mk) && 17 < buffer.Length
    modifies buffer
    ensures ok ==> length <= 17 && PrintsShortest(v, buffer[..length], decimalPoint) && buffer[length] == '\0'
  {
    hide Number, Pow, IsSurelyShortest, IsShortest, IsCachedPower, Double.Value, Double.LowerBoundary, Double.UpperBoundary;
    var decimalExponent;
    ok, length, decimalExponent := Grisu3(v, tenMk, mk, buffer);
    decimalPoint := 0;
    if ok {
      decimalPoint := length + decimalExponent;
      ghost var digits := buffer[..length];
      SureIsShortest(Number(digits), decimalExponent, v.LowerBoundary().Value(), v.Value(), v.UpperBoundary().Value(),
                     v.IsEven());
      buffer[length] := '\0';
      assert buffer[..length] == digits;
    }
  }
}
