/** Fixed-digits printing in 64 and 128 bits. */
module FixedDtoas {
  import opened Powers
  import opened Words
  import opened Decimals
  import opened Exact
  import opened Ieee
  import opened Shortest
  import opened Trimming
  import opened UInt128s
  import opened FillDigits
  import opened Carry
  import opened FixedMode

  /** One unit more in the last place; an empty buffer stands for zero. */
  method RoundUp(buffer: array<char>, length: nat, point: int) returns (newLength: nat, newPoint: int)
    requires length <= buffer.Length && 0 < buffer.Length && AreDigits(buffer[..length])
    requires length == 0 ==> point == 0
    modifies buffer
    ensures newLength <= buffer.Length && AreDigits(buffer[..newLength])
    ensures newLength == if length == 0 then 1 else length
    ensures Dec(Number(buffer[..newLength]), newPoint - newLength) == Dec(Number(old(buffer[..length])) + 1, point - length)
  {
    hide Number, Dec;
    if length == 0 {
      buffer[0] := '1';
      assert buffer[..1] == [] + ['1'] && buffer[..length] == [];
      NumberSnoc([], '1');
      NumberEmpty([]);
      return 1, 1;
    }
    ghost var s := buffer[..length];
    buffer[length - 1] := buffer[length - 1] + 1 as char;
    LastRaised(s);
    assert buffer[..length] == s[length - 1 := s[length - 1] + 1 as char];
    newPoint := PropagateCarry(buffer, length, point);
    newLength := length;
  }

  // ----- the digits after the point

  /** For the first three digits the fraction is still small because it was to begin with. */
  predicate Small(f: nat, i: nat, start: nat) {
    i < 3 ==> f < start * (if i == 0 then 1 else if i == 1 then 5 else 25)
  }

  lemma Room64(f: nat, i: nat, point: nat)
    requires Small(f, i, 0x100_0000_0000_0000) && f < Pow(2, point) && point + i <= 64
    ensures 5 * f < 0x1_0000_0000_0000_0000
  {
    if i >= 3 {
      PowMonotone(2, point, 61);
      PowValues();
      PowAdd(2, 61, 3);
      SmallTwos();
    }
  }

  lemma Room128(f: nat, i: nat, point: nat)
    requires Small(f, i, 0x80_0000_0000_0000_0000_0000_0000_0000) && f < Pow(2, point) && point + i <= 128
    ensures 5 * f < 0x1_0000_0000_0000_0000_0000_0000_0000_0000
  {
    if i >= 3 {
      PowMonotone(2, point, 125);
      PowValues();
      PowAdd(2, 64, 64);
      PowAdd(2, 125, 3);
      SmallTwos();
    }
  }

  lemma SmallNext(f: nat, i: nat, start: nat, r: nat)
    requires Small(f, i, start) && r <= 5 * f
    ensures Small(r, i + 1, start)
  {
  }

  lemma SmallStart(f: nat, start: nat)
    requires f < start
    ensures Small(f, 0, start)
  {
  }

  /** No product of the 128-bit loop is too wide, which is what the multiplication asserts. */
  predicate ProductsFit(f: nat, point: nat, rounds: nat)
    decreases rounds
  {
    rounds == 0 || f == 0 || point == 0
    || (5 * f < 0x1_0000_0000_0000_0000_0000_0000_0000_0000 && ProductsFit(LowBits(5 * f, point - 1), point - 1, rounds - 1))
  }

  /** Small fractions have no such product, by the argument of the 64-bit loop. */
  lemma {:induction false} SmallProductsFit(f: nat, i: nat, point: nat, rounds: nat)
    requires Small(f, i, 0x80_0000_0000_0000_0000_0000_0000_0000) && f < Pow(2, point) && point + i <= 128
    ensures ProductsFit(f, point, rounds)
    decreases rounds
  {
    hide Pow, Small, LowBits;
    if rounds > 0 && f > 0 && point > 0 {
      Room128(f, i, point);
      LowBitsLess(5 * f, point - 1);
      SmallNext(f, i, 0x80_0000_0000_0000_0000_0000_0000_0000, LowBits(5 * f, point - 1));
      SmallProductsFit(LowBits(5 * f, point - 1), i + 1, point - 1, rounds - 1);
    }
  }

  /** The digits written so far, and what is left of the fraction. */
  ghost predicate Filling(whole: nat, bits: nat, start: nat, digits: seq<char>, f: nat, point: nat) {
    && start <= |digits| && AreDigits(digits) && point + (|digits| - start) == bits
    && Generated(whole, |digits| - start, NumberOf(digits), f, point)
  }

  function NumberOf(digits: seq<char>): (n: nat)
    requires AreDigits(digits)
    ensures n == Number(digits)
  {
    NumberBound(digits);
    Number(digits)
  }

  lemma FillOne(whole: nat, bits: nat, start: nat, digits: seq<char>, f: nat, point: nat)
    requires Filling(whole, bits, start, digits, f, point) && f > 0
    ensures point > 0 && ShiftRight(5 * f, point - 1) <= 9
    ensures Filling(whole, bits, start, digits + [DigitChar(ShiftRight(5 * f, point - 1))], LowBits(5 * f, point - 1), point - 1)
  {
    hide Pow, Generated, ShiftRight, LowBits;
    FractionDigit(whole, |digits| - start, NumberOf(digits), f, point);
    NumberSnoc(digits, DigitChar(ShiftRight(5 * f, point - 1)));
  }

  /** The digit loop in 64 bits comes to the last bit of the fraction, where the source then shifts by minus one. */
  predicate ReachesLastBit(fractionals: nat, exponent: int, fractionalCount: nat) {
    -64 <= exponent <= 0 && (exponent == 0 || (fractionals % 2 == 1 && -exponent <= fractionalCount))
  }

  /** Before the last bit a fraction stays odd or even. */
  lemma ParityKept(f: nat, point: nat, digit: int, r: int)
    requires r == 5 * f - digit * Pow(2, point) && f < Pow(2, point + 1)
    ensures point > 0 ==> r % 2 == f % 2
    ensures point == 0 ==> f < 2
  {
    hide Pow;
    if point > 0 {
      PowNext(point - 1);
      SameParity(5 * f, digit, Pow(2, point - 1), r);
      TwiceLess(5 * f, 2 * f);
    } else {
      SmallTwos();
    }
  }

  lemma SameParity(x: int, d: int, p: int, r: int)
    requires r == x - d * (2 * p)
    ensures r % 2 == x % 2
  {
    assert d * (2 * p) == 2 * (d * p);
    TwiceLess(x, d * p);
  }

  lemma TwiceLess(x: int, k: int)
    ensures (x - 2 * k) % 2 == x % 2
  {
  }

  method Fill64(fractionals: UInt64, exponent: int, fractionalCount: nat, buffer: array<char>, length: nat, ghost whole: nat)
    returns (f: UInt64, point: nat, newLength: nat)
    requires -64 <= exponent <= 0 && length + fractionalCount <= buffer.Length
    requires fractionals < 0x100_0000_0000_0000 && Filling(whole, -exponent, length, buffer[..length], fractionals, -exponent)
    modifies buffer
    ensures newLength <= length + fractionalCount && Filling(whole, -exponent, length, buffer[..newLength], f, point)
    ensures newLength == length + fractionalCount || f == 0
    ensures point == 0 <==> ReachesLastBit(fractionals, exponent, fractionalCount)
  {
    hide Pow, Filling, ShiftRight, LowBits, Number, NumberOf, Small;
    SmallStart(fractionals, 0x100_0000_0000_0000);
    f, point, newLength := fractionals, -exponent, length;
    var i := 0;
    while i < fractionalCount
      invariant i <= fractionalCount && newLength == length + i && point + i == -exponent
      invariant Filling(whole, -exponent, length, buffer[..newLength], f, point)
      invariant Small(f, i, 0x100_0000_0000_0000)
      invariant point > 0 ==> f % 2 == fractionals % 2
      invariant point == 0 ==> exponent == 0 || fractionals % 2 == 1
    {
      if f == 0 { break; }
      FillOne(whole, -exponent, length, buffer[..newLength], f, point);
      FillingBound(whole, -exponent, length, buffer[..newLength], f, point);
      ParityKept(f, point - 1, ShiftRight(5 * f, point - 1), LowBits(5 * f, point - 1));
      Room64(f, i, point);
      LowBitsLess(5 * f, point - 1);
      SmallNext(f, i, 0x100_0000_0000_0000, LowBits(5 * f, point - 1));
      f := f * 5;
      point := point - 1;
      var digit := ShiftRight(f, point);
      buffer[newLength] := DigitChar(digit);
      assert buffer[..newLength + 1] == buffer[..newLength] + [DigitChar(digit)];
      newLength := newLength + 1;
      assert LowBits(f, point) == f - ShiftLeft(digit, point);
      f := Sub64(f, ShiftLeft(digit, point));
      i := i + 1;
    }
  }

  lemma FillingBound(whole: nat, bits: nat, start: nat, digits: seq<char>, f: nat, point: nat)
    requires Filling(whole, bits, start, digits, f, point)
    ensures f < Pow(2, point)
  {
  }

  method Fill128(f: UInt128, fractionalCount: nat, buffer: array<char>, length: nat, ghost whole: nat)
    returns (point: nat, newLength: nat)
    requires length + fractionalCount <= buffer.Length && fractionalCount <= 20
    requires ProductsFit(f.Value(), 128, fractionalCount)
    requires Filling(whole, 128, length, buffer[..length], f.Value(), 128)
    modifies buffer, f
    ensures newLength <= length + fractionalCount && Filling(whole, 128, length, buffer[..newLength], f.Value(), point)
    ensures newLength == length + fractionalCount || f.Value() == 0
    ensures 108 <= point <= 128
  {
    hide Pow, Filling, ShiftRight, LowBits, Number, NumberOf, UInt128.Value, Times;
    point, newLength := 128, length;
    var i := 0;
    while i < fractionalCount
      invariant i <= fractionalCount && newLength == length + i && point + i == 128
      invariant Filling(whole, 128, length, buffer[..newLength], f.Value(), point)
      invariant ProductsFit(f.Value(), point, fractionalCount - i)
    {
      var zero := f.IsZero();
      if zero { break; }
      ghost var v := f.Value();
      FillOne(whole, 128, length, buffer[..newLength], v, point);
      FillingBound(whole, 128, length, buffer[..newLength], v, point);
      FiveTimes(v);
      f.Multiply(5);
      point := point - 1;
      FewTens(5 * v, point);
      var digit := f.DivModPowerOf2(point);
      buffer[newLength] := DigitChar(digit);
      assert buffer[..newLength + 1] == buffer[..newLength] + [DigitChar(digit)];
      newLength := newLength + 1;
      i := i + 1;
    }
  }

  lemma LowBitsLess(x: nat, n: nat)
    ensures LowBits(x, n) <= x
  {
  }

  lemma FiveTimes(v: nat)
    ensures Times(v, 5) == 5 * v
  {
  }

  lemma FewTens(x: nat, n: nat)
    requires ShiftRight(x, n) <= 9
    ensures x < 0x8000_0000 * Pow(2, n)
  {
    hide Pow;
    var q := ShiftRight(x, n);
    MulLe(q + 1, 0x8000_0000, Pow(2, n));
    MulDist(q, 1, Pow(2, n));
  }

  /** What the digits in front of the point and a fraction of so many bits make together. */
  function Joined(integrals: nat, fractionals: nat, bits: nat): (whole: nat)
    ensures whole == integrals * Pow(2, bits) + fractionals
  {
    MulLe(0, integrals, Pow(2, bits));
    integrals * Pow(2, bits) + fractionals
  }

  lemma StartFilling(digits: seq<char>, f: nat, bits: nat)
    requires AreDigits(digits) && f < Pow(2, bits)
    ensures Filling(Joined(NumberOf(digits), f, bits), bits, |digits|, digits, f, bits)
  {
  }

  /** x is whole / 2^bits. */
  ghost predicate IsFraction(x: real, whole: nat, bits: nat) {
    x * Pow(2, bits) as real == whole as real
  }

  /** The number whose integral part is written already. */
  ghost function Whole(digits: seq<char>, fractionals: nat, exponent: int): real {
    Number(digits) as real + fractionals as real * Two(exponent)
  }

  lemma WholeIsFraction(digits: seq<char>, f: nat, bits: nat)
    requires AreDigits(digits)
    ensures IsFraction(Whole(digits, f, -(bits as int)), Joined(NumberOf(digits), f, bits), bits)
  {
    hide Two, Pow, Number;
    var integrals := NumberOf(digits);
    TwoNat(bits);
    TwoInverse(bits);
    IntMul(integrals, Pow(2, bits));
    RMulDist(integrals as real, f as real * Two(-(bits as int)), Two(bits));
    RMulAssoc(f as real, Two(-(bits as int)), Two(bits));
  }

  /** f * 2^e is g / 2^128. */
  ghost predicate SamePart(f: nat, e: int, g: nat) {
    f as real * Two(e) == g as real * Two(-128)
  }

  lemma SameWhole(digits: seq<char>, f: nat, e: int, g: nat)
    requires SamePart(f, e, g)
    ensures Whole(digits, f, e) == Whole(digits, g, -128)
  {
  }

  /** The fraction moved up to 128 bits. */
  function Wide(f: UInt64, bits: nat): (g: nat)
    requires bits <= 128
    ensures g == f * Pow(2, 128 - bits)
  {
    MulLe(0, f, Pow(2, 128 - bits));
    f * Pow(2, 128 - bits)
  }

  lemma Widened(f: UInt64, bits: nat)
    requires 64 < bits <= 128 && f < Pow(2, bits)
    ensures ShiftRight(f * 0x1_0000_0000_0000_0000, bits - 64) == Wide(f, bits) < Pow(2, 128)
    ensures SamePart(f, -(bits as int), Wide(f, bits))
  {
    hide Pow, ShiftRight, SamePart;
    WidenedShift(f, bits);
    WidenedPart(f, bits);
    PowAdd(2, 128 - bits, bits);
    MulLt(f, Pow(2, bits), Pow(2, 128 - bits));
  }

  /** A fraction of 56 bits is small enough in the wide branch as well. */
  lemma WideFits(f: UInt64, bits: nat, rounds: nat)
    requires f < 0x100_0000_0000_0000 && 64 < bits <= 128 && f < Pow(2, bits)
    ensures ProductsFit(Wide(f, bits), 128, rounds)
  {
    hide Pow, ProductsFit, Small;
    Widened(f, bits);
    WidenedRoom(f, bits);
    SmallStart(Wide(f, bits), 0x80_0000_0000_0000_0000_0000_0000_0000);
    SmallProductsFit(Wide(f, bits), 0, 128, rounds);
  }

  lemma WidenedShift(f: UInt64, bits: nat)
    requires 64 < bits <= 128
    ensures f * Pow(2, 128 - bits) >= 0
    ensures ShiftRight(f * 0x1_0000_0000_0000_0000, bits - 64) == f * Pow(2, 128 - bits)
  {
    hide Pow, ShiftRight;
    var p, q := Pow(2, 128 - bits), Pow(2, bits - 64);
    PowAdd(2, 128 - bits, bits - 64);
    PowValues();
    MulAssoc(f, p, q);
    MulLe(0, f, p);
    QuotientIs(f * 0x1_0000_0000_0000_0000, bits - 64, f * p, 0);
  }

  lemma WidenedRoom(f: UInt64, bits: nat)
    requires f < 0x100_0000_0000_0000 && 64 < bits <= 128
    ensures f * Pow(2, 128 - bits) < 0x80_0000_0000_0000_0000_0000_0000_0000
  {
    hide Pow;
    PowMonotone(2, 128 - bits, 63);
    PowValues();
    PowAdd(2, 63, 1);
    SmallTwos();
    ProductAtMost(f, Pow(2, 128 - bits), 0xFF_FFFF_FFFF_FFFF, 0x8000_0000_0000_0000);
  }

  lemma WidenedPart(f: UInt64, bits: nat)
    requires bits <= 128
    ensures f * Pow(2, 128 - bits) >= 0 && SamePart(f, -(bits as int), f * Pow(2, 128 - bits))
  {
    hide Pow, Two;
    MulLe(0, f, Pow(2, 128 - bits));
    TwoNat(128 - bits);
    TwoAdd(128 - bits, -128);
    IntMul(f, Pow(2, 128 - bits));
    RMulAssoc(f as real, Pow(2, 128 - bits) as real, Two(-128));
  }

  method Widen(f: UInt64, bits: nat) returns (wide: UInt128)
    requires 64 < bits <= 128 && f < Pow(2, bits)
    ensures fresh(wide) && wide.Value() == Wide(f, bits) < Pow(2, 128)
    ensures SamePart(f, -(bits as int), wide.Value())
  {
    hide Pow, Two, ShiftRight, SamePart, UInt128.Value, Wide;
    Widened(f, bits);
    wide := new UInt128(f, 0);
    wide.Shift(bits - 64);
  }

  lemma FilledIsRounded(x: real, whole: nat, bits: nat, start: nat, digits: seq<char>, f: nat, point: nat, n: nat)
    requires Filling(whole, bits, start, digits, f, point) && IsFraction(x, whole, bits)
    requires |digits| == start + n || (|digits| <= start + n && f == 0)
    ensures IsRounded(x, n, Dec(Number(digits) + NextBit(f, point), start - |digits|))
  {
    hide Pow, Dec, Generated, NextBit;
    var k: nat := |digits| - start;
    Finished(x, whole, bits, k, NumberOf(digits), f, point, n);
  }

  lemma FillingPoint(whole: nat, bits: nat, start: nat, digits: seq<char>, f: nat, point: nat)
    requires Filling(whole, bits, start, digits, f, point)
    ensures start <= |digits| && AreDigits(digits) && point + (|digits| - start) == bits && f < Pow(2, point)
  {
  }

  lemma NextBitWide(v: nat, at: nat)
    requires at > 0
    ensures NextBit(v, at) == ShiftRight(v, at - 1) % 2
  {
  }

  /** The digits written so far and the rounding bit make the number, rounded half up. */
  ghost predicate RoundsWith(x: real, n: int, start: nat, digits: seq<char>, bit: nat) {
    && start <= |digits| <= start + n && AreDigits(digits) && bit < 2
    && IsRounded(x, n, Dec(Number(digits) + bit, start - |digits|))
  }

  /** One 64-bit number is sufficient. */
  method Fractionals64(fractionals: UInt64, exponent: int, fractionalCount: nat, buffer: array<char>, length: nat)
    returns (newLength: nat, bit: nat, ghost emptied: bool)
    requires -64 <= exponent <= 0 && fractionals < 0x100_0000_0000_0000 && fractionals < Pow(2, -exponent)
    requires length + fractionalCount <= buffer.Length && AreDigits(buffer[..length])
    modifies buffer
    ensures newLength <= buffer.Length
    ensures RoundsWith(Whole(old(buffer[..length]), fractionals, exponent), fractionalCount, length, buffer[..newLength], bit)
    ensures emptied <==> ReachesLastBit(fractionals, exponent, fractionalCount)
  {
    hide Pow, Dec, Filling, Number, NumberOf, IsRounded, NextBit, Joined, IsFraction, Whole, ReachesLastBit;
    ghost var x := Whole(buffer[..length], fractionals, exponent);
    ghost var bits: nat := -exponent;
    StartFilling(buffer[..length], fractionals, bits);
    WholeIsFraction(buffer[..length], fractionals, bits);
    ghost var whole := Joined(NumberOf(buffer[..length]), fractionals, bits);
    var f, at;
    f, at, newLength := Fill64(fractionals, exponent, fractionalCount, buffer, length, whole);
    FillingPoint(whole, bits, length, buffer[..newLength], f, at);
    NextBitIsHalf(f, at);
    bit := NextBit(f, at);
    emptied := at == 0;
    FilledIsRounded(x, whole, bits, length, buffer[..newLength], f, at, fractionalCount);
  }

  /** Otherwise 128 bits are needed. */
  method Fractionals128(fractionals: UInt64, exponent: int, fractionalCount: nat, buffer: array<char>, length: nat)
    returns (newLength: nat, bit: nat, ghost emptied: bool)
    requires -128 <= exponent < -64 && fractionals < Pow(2, -exponent)
    requires ProductsFit(Wide(fractionals, -exponent), 128, fractionalCount)
    requires fractionalCount <= 20 && length + fractionalCount <= buffer.Length && AreDigits(buffer[..length])
    modifies buffer
    ensures newLength <= buffer.Length
    ensures RoundsWith(Whole(old(buffer[..length]), fractionals, exponent), fractionalCount, length, buffer[..newLength], bit)
    ensures emptied <==> ReachesLastBit(fractionals, exponent, fractionalCount)
  {
    hide Pow, Dec, Filling, Number, NumberOf, IsRounded, NextBit, Joined, ShiftRight, IsFraction, Whole, SamePart,
         UInt128.Value, ProductsFit, Wide;
    ghost var x := Whole(buffer[..length], fractionals, exponent);
    var wide := Widen(fractionals, -exponent);
    ghost var g := wide.Value();
    StartFilling(buffer[..length], g, 128);
    WholeIsFraction(buffer[..length], g, 128);
    SameWhole(buffer[..length], fractionals, exponent, g);
    ghost var whole := Joined(NumberOf(buffer[..length]), g, 128);
    var at;
    at, newLength := Fill128(wide, fractionalCount, buffer, length, whole);
    FillingPoint(whole, 128, length, buffer[..newLength], wide.Value(), at);
    NextBitIsHalf(wide.Value(), at);
    NextBitWide(wide.Value(), at);
    bit := wide.BitAt(at - 1);
    emptied := at == 0;
    FilledIsRounded(x, whole, 128, length, buffer[..newLength], wide.Value(), at, fractionalCount);
  }

  /** What is asserted of a fraction: 56 bits in the 64-bit branch, products that fit in the other. */
  predicate FractionFits(fractionals: UInt64, exponent: int, fractionalCount: nat)
    requires -128 <= exponent <= 0
  {
    if -exponent <= 64 then fractionals < 0x100_0000_0000_0000 else ProductsFit(Wide(fractionals, -exponent), 128, fractionalCount)
  }

  /** 56 bits are enough in both, and the callers pass no more. */
  lemma CallersFit(fractionals: UInt64, exponent: int, fractionalCount: nat)
    requires -128 <= exponent <= 0 && fractionals < 0x100_0000_0000_0000 && fractionals < Pow(2, -exponent)
    ensures FractionFits(fractionals, exponent, fractionalCount)
  {
    hide Pow, ProductsFit, Wide;
    if -exponent > 64 { WideFits(fractionals, -exponent, fractionalCount); }
  }

  method FillFractionals(fractionals: UInt64, exponent: int, fractionalCount: nat, buffer: array<char>, length: nat, point: int)
    returns (newLength: nat, newPoint: int, ghost emptied: bool)
    requires -128 <= exponent <= 0 && fractionals < Pow(2, -exponent) && FractionFits(fractionals, exponent, fractionalCount)
    requires fractionalCount <= 20 && length + fractionalCount < buffer.Length
    requires AreDigits(buffer[..length]) && point == length
    modifies buffer
    ensures newLength <= length + fractionalCount || newLength == 1
    ensures newLength <= buffer.Length
    ensures IsFixed(Whole(old(buffer[..length]), fractionals, exponent), fractionalCount, buffer[..newLength], newPoint)
    ensures emptied <==> ReachesLastBit(fractionals, exponent, fractionalCount)
  {
    hide Pow, Dec, Number, IsRounded, Whole, ProductsFit, Wide;
    var bit;
    if -exponent <= 64 {
      newLength, bit, emptied := Fractionals64(fractionals, exponent, fractionalCount, buffer, length);
    } else {
      newLength, bit, emptied := Fractionals128(fractionals, exponent, fractionalCount, buffer, length);
    }
    newPoint := point;
    if bit == 1 {
      newLength, newPoint := RoundUp(buffer, newLength, point);
    }
  }

  // ----- trimming

  /** Dropping a zero at the end moves the exponent by one. */
  lemma ZeroAtEnd(s: seq<char>, q: int)
    requires s != [] && s[|s| - 1] == '0'
    ensures Dec(Number(s[..|s| - 1]), q + 1) == Dec(Number(s), q)
  {
    hide Dec;
    DecTenfold(Number(s[..|s| - 1]), q);
  }

  method MoveDown(buffer: array<char>, from: nat, to: nat)
    requires 0 < from <= to <= buffer.Length
    modifies buffer
    ensures buffer[..to - from] == old(buffer[from..to])
  {
    ghost var s := buffer[..to];
    assert s[from..] == buffer[from..to];
    for i := from to to
      invariant buffer[..i - from] == s[from..i] && buffer[i..to] == s[i..]
    {
      assert buffer[i..to] == [buffer[i]] + buffer[i + 1..to] && s[i..] == [s[i]] + s[i + 1..];
      buffer[i - from] := buffer[i];
      assert buffer[..i + 1 - from] == buffer[..i - from] + [s[i]];
      assert s[from..i + 1] == s[from..i] + [s[i]];
    }
  }

  /** Without its leading zeros a string denotes the same. */
  lemma FrontDropped(s: seq<char>, k: nat)
    requires k <= |s| && AllZero(s[..k]) && AreDigits(s) && NoTrailingZero(s) && (k < |s| ==> s[k] != '0')
    ensures Number(s[k..]) == Number(s) && AreDigits(s[k..]) && NoLeadingZero(s[k..]) && NoTrailingZero(s[k..])
  {
    hide Number;
    ZerosNumber(s[..k]);
    SplitNumber(s, k);
  }

  lemma OneMoreZero(s: seq<char>, k: nat)
    requires k < |s| && AllZero(s[..k]) && s[k] == '0'
    ensures AllZero(s[..k + 1])
  {
  }

  method TrimZeros(buffer: array<char>, length: nat, point: int) returns (newLength: nat, newPoint: int)
    requires length <= buffer.Length && AreDigits(buffer[..length])
    modifies buffer
    ensures newLength <= length && AreDigits(buffer[..newLength])
    ensures NoLeadingZero(buffer[..newLength]) && NoTrailingZero(buffer[..newLength])
    ensures Dec(Number(buffer[..newLength]), newPoint - newLength) == Dec(Number(old(buffer[..length])), point - length)
  {
    hide Dec, Number, AllZero;
    newLength := TrimEnd(buffer, length, point);
    newPoint := point;
    ghost var s := buffer[..newLength];
    var firstNonZero := FirstNonZero(buffer, newLength);
    FrontDropped(s, firstNonZero);
    if firstNonZero != 0 {
      assert buffer[firstNonZero..newLength] == s[firstNonZero..];
      MoveDown(buffer, firstNonZero, newLength);
      newLength := newLength - firstNonZero;
      newPoint := newPoint - firstNonZero;
    } else {
      assert s[0..] == s;
    }
  }

  method TrimEnd(buffer: array<char>, length: nat, point: int) returns (newLength: nat)
    requires length <= buffer.Length && AreDigits(buffer[..length])
    ensures newLength <= length && AreDigits(buffer[..newLength]) && NoTrailingZero(buffer[..newLength])
    ensures Dec(Number(buffer[..newLength]), point - newLength) == Dec(Number(buffer[..length]), point - length)
  {
    hide Dec, Number;
    newLength := length;
    while newLength > 0 && buffer[newLength - 1] == '0'
      invariant newLength <= length
      invariant Dec(Number(buffer[..newLength]), point - newLength) == Dec(Number(buffer[..length]), point - length)
    {
      ZeroAtEnd(buffer[..newLength], point - newLength);
      assert buffer[..newLength][..newLength - 1] == buffer[..newLength - 1];
      newLength := newLength - 1;
    }
  }

  method FirstNonZero(buffer: array<char>, length: nat) returns (first: nat)
    requires length <= buffer.Length
    ensures first <= length && AllZero(buffer[..length][..first]) && (first < length ==> buffer[first] != '0')
  {
    hide AllZero;
    ghost var s := buffer[..length];
    NoZeros(s);
    first := 0;
    while first < length && buffer[first] == '0'
      invariant first <= length && AllZero(s[..first])
    {
      OneMoreZero(s, first);
      first := first + 1;
    }
  }

  lemma NoZeros(s: seq<char>)
    ensures AllZero(s[..0])
  {
  }

  // ----- numbers of more than 64 bits

  /** The quotient and the remainder by 10^17. */
  ghost predicate Divided(significand: nat, exponent: nat, quotient: nat, remainder: nat) {
    && remainder < Pow(10, 17)
    && significand * Pow(2, exponent) == quotient * Pow(10, 17) + remainder
  }

  const FIVE_17: UInt64 := 0xB1_A2BC_2EC5

  lemma FiveSeventeen()
    ensures FIVE_17 == Pow(5, 17) && Pow(10, 17) == Pow(5, 17) * Pow(2, 17)
    ensures Pow(2, 17) == 0x2_0000
  {
    PowValues();
    PowAdd(5, 13, 4);
    assert Pow(5, 4) == 625;
    PowBaseMul(5, 2, 17);
    PowAdd(2, 16, 1);
    SmallTwos();
  }

  lemma DividedAbove(f: nat, e: nat, dividend: nat, q: nat, m: nat)
    requires 17 < e && dividend == f * Pow(2, e - 17) && dividend == q * FIVE_17 + m && m < FIVE_17
    ensures Divided(f, e, q, m * Pow(2, 17))
  {
    hide Pow;
    FiveSeventeen();
    PowAdd(2, e - 17, 17);
    MulAssoc(f, Pow(2, e - 17), Pow(2, 17));
    MulDist(q * FIVE_17, m, Pow(2, 17));
    MulAssoc(q, FIVE_17, Pow(2, 17));
    MulLt(m, FIVE_17, Pow(2, 17));
  }

  lemma DividedBelow(f: nat, e: nat, divisor: nat, q: nat, m: nat)
    requires e <= 17 && divisor == FIVE_17 * Pow(2, 17 - e) && f == q * divisor + m && m < divisor
    ensures m * Pow(2, e) >= 0 && Divided(f, e, q, m * Pow(2, e))
  {
    hide Pow;
    FiveSeventeen();
    PowAdd(2, 17 - e, e);
    MulAssoc(FIVE_17, Pow(2, 17 - e), Pow(2, e));
    MulDist(q * divisor, m, Pow(2, e));
    MulAssoc(q, divisor, Pow(2, e));
    MulLt(m, divisor, Pow(2, e));
    MulLe(0, m, Pow(2, e));
  }

  lemma QuotientFits(f: nat, e: nat, q: nat, r: nat)
    requires Divided(f, e, q, r) && f < 2 * HIDDEN_BIT && e <= 20
    ensures q < 100_000
  {
    hide Pow;
    PowTenValues();
    PowValues();
    PowMonotone(2, e, 20);
    PowAdd(2, 16, 4);
    SmallTwos();
    ProductAtMost(f, Pow(2, e), 2 * HIDDEN_BIT, 0x10_0000);
    QuotientUnder(q, Pow(10, 17), f * Pow(2, e), 100_000);
  }

  lemma QuotientUnder(q: int, p: int, x: int, b: int)
    requires 0 < p && q * p <= x < b * p
    ensures q < b
  {
  }

  method DivideByTenToSeventeen(significand: UInt64, exponent: nat) returns (quotient: UInt32, remainder: UInt64)
    requires significand < 2 * HIDDEN_BIT && exponent <= 20
    ensures Divided(significand, exponent, quotient, remainder) && quotient < 100_000
  {
    hide Pow, Divided;
    FiveSeventeen();
    PowTenValues();
    if exponent > 17 {
      ShiftedSignificand(significand, exponent - 17);
      var dividend: UInt64 := ShiftLeft(significand, exponent - 17);
      DividedAbove(significand, exponent, dividend, dividend / 762939453125, dividend % 762939453125);
      QuotientFits(significand, exponent, dividend / 762939453125, dividend % 762939453125 * Pow(2, 17));
      DividedFits(significand, exponent, dividend / 762939453125, dividend % 762939453125 * Pow(2, 17));
      quotient := dividend / 762939453125;
      remainder := ShiftLeft(dividend % 762939453125, 17);
    } else {
      ShiftedDivisor(17 - exponent);
      var divisor: UInt64 := ShiftLeft(FIVE_17, 17 - exponent);
      QuotientOf(significand, divisor);
      DividedBelow(significand, exponent, divisor, significand / divisor, significand % divisor);
      QuotientFits(significand, exponent, significand / divisor, significand % divisor * Pow(2, exponent));
      DividedFits(significand, exponent, significand / divisor, significand % divisor * Pow(2, exponent));
      quotient := significand / divisor;
      remainder := ShiftLeft(significand % divisor, exponent);
    }
  }

  lemma DividedFits(f: nat, e: nat, q: nat, r: nat)
    requires Divided(f, e, q, r)
    ensures r < 100_000_000_000_000_000
  {
    PowTenValues();
  }

  lemma ShiftedSignificand(f: nat, n: nat)
    requires f < 2 * HIDDEN_BIT && n <= 11
    ensures 0 <= ShiftLeft(f, n) < 0x1_0000_0000_0000_0000
  {
    hide Pow;
    PowMonotone(2, n, 11);
    SmallTwos();
    ProductBelow(f, Pow(2, n), 2 * HIDDEN_BIT, 2049);
    ProductAtMost(f, Pow(2, n), 2 * HIDDEN_BIT - 1, 2048);
  }

  lemma ShiftedDivisor(n: nat)
    requires n <= 17
    ensures 0 < ShiftLeft(FIVE_17, n) < 0x1_0000_0000_0000_0000
  {
    hide Pow;
    PowMonotone(2, n, 17);
    FiveSeventeen();
    ProductAtMost(FIVE_17, Pow(2, n), FIVE_17, 0x2_0000);
    MulLe(1, Pow(2, n), FIVE_17);
  }

  // ----- the cases of the exponent

  lemma IntegerValue(v: Double)
    requires v.Exponent() >= 0
    ensures 0 <= v.Significand() * Pow(2, v.Exponent())
    ensures v.Value() == (v.Significand() * Pow(2, v.Exponent())) as real
  {
    hide Pow, Two;
    TwoNat(v.Exponent());
    IntMul(v.Significand(), Pow(2, v.Exponent()));
    MulLe(0, v.Significand(), Pow(2, v.Exponent()));
  }

  /** More than 64 bits. */
  method FillLarge(v: Double, fractionalCount: nat, buffer: array<char>) returns (length: nat)
    requires v.IsFinite() && 11 < v.Exponent() <= 20 && 22 <= buffer.Length
    modifies buffer
    ensures length <= 22 && IsFixed(v.Value(), fractionalCount, buffer[..length], length)
  {
    hide Pow, Divided, Digits, Padded, Number, IsRounded, Double.Significand, Double.Exponent, Double.Value;
    Fields(v);
    var quotient, remainder := DivideByTenToSeventeen(v.Significand(), v.Exponent());
    DividedFits(v.Significand(), v.Exponent(), quotient, remainder);
    SmallTens();
    DigitsFewest(quotient, 5);
    length := FillDigits32(quotient, buffer, 0);
    length := FillDigits64FixedLength(remainder, buffer, length);
    assert buffer[..length] == Digits(quotient) + Padded(remainder, 17);
    LargeIsFixed(v, fractionalCount, quotient, remainder);
  }

  lemma LargeIsFixed(v: Double, n: nat, quotient: nat, remainder: nat)
    requires v.Exponent() >= 0 && Divided(v.Significand(), v.Exponent(), quotient, remainder)
    ensures IsFixed(v.Value(), n, Digits(quotient) + Padded(remainder, 17), |Digits(quotient)| + 17)
  {
    hide Pow, Digits, Padded, Number, IsRounded;
    IntegerValue(v);
    DigitsNumber(quotient);
    PaddedNumber(remainder, 17);
    NumberConcat(Digits(quotient), Padded(remainder, 17));
    WholeIsFixed(v.Significand() * Pow(2, v.Exponent()), n, Digits(quotient) + Padded(remainder, 17));
  }

  /** An integer of at most 64 bits. */
  method FillInteger(v: Double, fractionalCount: nat, buffer: array<char>) returns (length: nat)
    requires v.IsFinite() && 0 <= v.Exponent() <= 11 && 20 <= buffer.Length
    modifies buffer
    ensures length <= 20 && IsFixed(v.Value(), fractionalCount, buffer[..length], length)
  {
    hide Pow, Digits, Number, IsRounded, Double.Significand, Double.Exponent, Double.Value;
    Fields(v);
    ShiftedSignificand(v.Significand(), v.Exponent());
    var significand: UInt64 := ShiftLeft(v.Significand(), v.Exponent());
    WordDigits(significand);
    length := FillDigits64(significand, buffer, 0);
    assert buffer[..length] == Digits(significand);
    DigitsNumber(significand);
    IntegerValue(v);
    WholeIsFixed(significand, fractionalCount, buffer[..length]);
  }

  lemma WordDigits(n: UInt64)
    ensures |Digits(n)| <= 20
  {
    hide Pow;
    PowTenValues();
    PowTen(19);
    DigitsFewest(n, 20);
  }

  /**
   The rounding of v shifts by minus one: its last bit is just that many places behind the point as digits were asked
   for, or fewer.
   */
  predicate ShiftsByMinusOne(v: Double, fractionalCount: nat) {
    v.Exponent() < 0 && -v.Exponent() <= fractionalCount <= 20 && v.Significand() % 2 == 1
  }

  lemma ParityCut(f: nat, integrals: nat, n: nat)
    requires n > 0
    ensures (f - ShiftLeft(integrals, n)) % 2 == f % 2
  {
    SameParity(f, integrals, Pow(2, n - 1), f - ShiftLeft(integrals, n));
  }

  /** The number is cut at the point. */
  method FillCut(v: Double, fractionalCount: nat, buffer: array<char>) returns (length: nat, point: int, ghost emptied: bool)
    requires v.IsFinite() && -53 < v.Exponent() < 0 && fractionalCount <= 20 && 37 <= buffer.Length
    modifies buffer
    ensures length <= 36 && IsFixed(v.Value(), fractionalCount, buffer[..length], point)
    ensures emptied <==> ShiftsByMinusOne(v, fractionalCount)
  {
    hide Pow, Digits, Number, IsRounded, Double.Significand, Double.Exponent, Double.Value, Whole, ShiftRight;
    Fields(v);
    var integrals := ShiftRight(v.Significand(), -v.Exponent());
    var fractionals := v.Significand() - ShiftLeft(integrals, -v.Exponent());
    CutParts(v);
    IntegralDigitsFew(integrals);
    if integrals > 0xFFFF_FFFF {
      length := FillDigits64(integrals, buffer, 0);
    } else {
      length := FillDigits32(integrals, buffer, 0);
    }
    assert buffer[..length] == Digits(integrals);
    DigitsNumber(integrals);
    ParityCut(v.Significand(), integrals, -v.Exponent());
    CallersFit(fractionals, v.Exponent(), fractionalCount);
    length, point, emptied := FillFractionals(fractionals, v.Exponent(), fractionalCount, buffer, length, length);
  }

  lemma IntegralDigitsFew(n: nat)
    requires n < 2 * HIDDEN_BIT
    ensures |Digits(n)| <= 16
  {
    hide Pow;
    PowTenValues();
    PowTen(16);
    DigitsFewest(n, 16);
  }

  lemma CutParts(v: Double)
    requires v.IsFinite() && -53 < v.Exponent() < 0
    ensures
      var i := ShiftRight(v.Significand(), -v.Exponent());
      var f := v.Significand() - ShiftLeft(i, -v.Exponent());
      && i < 2 * HIDDEN_BIT && 0 <= f < Pow(2, -v.Exponent()) && f < 2 * HIDDEN_BIT
      && Whole(Digits(i), f, v.Exponent()) == v.Value()
  {
    hide Pow, Two, Digits, Number, ShiftRight, Double.Significand, Double.Exponent;
    Fields(v);
    var e, i := v.Exponent(), ShiftRight(v.Significand(), -v.Exponent());
    var f := v.Significand() - ShiftLeft(i, -e);
    MulLe(0, i, Pow(2, -e));
    DigitsNumber(i);
    TwoNat(-e);
    TwoInverse(e);
    IntMul(i, Pow(2, -e));
    RMulDist((i * Pow(2, -e)) as real, f as real, Two(e));
    RMulAssoc(i as real, Two(-e), Two(e));
  }

  lemma TooSmall(v: Double, n: nat)
    requires v.IsFinite() && v.Exponent() < -128 && n <= 20
    ensures 0.0 <= v.Value() && 2.0 * v.Value() < Ten(-(n as int))
  {
    hide Pow, Two, Ten, Double.Significand, Double.Exponent, Double.IsFinite;
    var e := v.Exponent();
    SignificandBelow(v);
    TwoNat(53);
    TwoAdd(53, e);
    TwoMonotone(53 + e, -76);
    TwoHalves(-75);
    TenMonotone(-20, -(n as int));
    SmallUnit();
    var f, p := v.Significand() as real, Two(e);
    assert v.Value() == f * p;
    ProductSmall(f, Two(53), p, Two(53 + e), Two(-76), v.Value());
  }

  lemma SignificandBelow(v: Double)
    requires v.IsFinite()
    ensures v.Significand() < Pow(2, 53)
  {
    hide Pow;
    Fields(v);
    PowValues();
    PowAdd(2, 28, 25);
    SmallTwos();
  }

  lemma ProductSmall(f: real, a: real, p: real, ap: real, b: real, x: real)
    requires 0.0 <= f < a && 0.0 < p && ap == a * p && ap <= b && x == f * p
    ensures 0.0 <= x < b
  {
  }

  lemma SmallUnit()
    ensures Two(-75) <= Ten(-20)
  {
    hide Pow, Two, Ten;
    PowTenValues();
    PowTen(19);
    PowValues();
    PowAdd(2, 64, 11);
    SmallTwos();
    TenNat(20);
    TwoNat(75);
    TenInverse(20);
    TwoInverse(75);
    ReciprocalOrder(Ten(20), Two(75), Ten(-20), Two(-75));
  }

  /** Fixed-digits printing; refuses large exponents and too many digits. */
  method FastFixedDtoa(v: Double, fractionalCount: nat, buffer: array<char>)
    returns (ok: bool, length: nat, point: int, ghost emptied: bool)
    requires v.IsFinite() && 37 <= buffer.Length
    modifies buffer
    ensures ok <==> v.Exponent() <= 20 && fractionalCount <= 20
    ensures length <= 36
    ensures ok ==> IsFixed(v.Value(), fractionalCount, buffer[..length], point) && buffer[length] == '\0'
    ensures ok ==> NoLeadingZero(buffer[..length]) && NoTrailingZero(buffer[..length])
    ensures ok && length == 0 ==> point == -(fractionalCount as int)
    ensures emptied <==> ShiftsByMinusOne(v, fractionalCount)
  {
    hide Number, IsRounded, Dec, Double.Significand, Double.Exponent, Double.Value, Whole;
    Fields(v);
    if v.Exponent() > 20 || fractionalCount > 20 { return false, 0, 0, false; }
    ok, length, point, emptied := true, 0, 0, false;
    if v.Exponent() + 53 > 64 {
      length := FillLarge(v, fractionalCount, buffer);
      point := length;
    } else if v.Exponent() >= 0 {
      length := FillInteger(v, fractionalCount, buffer);
      point := length;
    } else if v.Exponent() > -53 {
      length, point, emptied := FillCut(v, fractionalCount, buffer);
    } else if v.Exponent() < -128 {
      buffer[0] := '\0';
      point := -(fractionalCount as int);
      TooSmall(v, fractionalCount);
      NothingIsFixed(v.Value(), fractionalCount, point);
      assert buffer[..0] == [];
    } else {
      FractionOnly(v);
      assert buffer[..0] == [];
      CallersFit(v.Significand(), v.Exponent(), fractionalCount);
      length, point, emptied := FillFractionals(v.Significand(), v.Exponent(), fractionalCount, buffer, 0, 0);
    }
    length, point := TrimZeros(buffer, length, point);
    ghost var digits := buffer[..length];
    buffer[length] := '\0';
    assert buffer[..length] == digits;
    if length == 0 {
      NoValue(point, -(fractionalCount as int));
      point := -(fractionalCount as int);
    }
  }

  lemma FractionOnly(v: Double)
    requires v.IsFinite() && v.Exponent() <= -53
    ensures v.Significand() < Pow(2, -v.Exponent()) && Whole([], v.Significand(), v.Exponent()) == v.Value()
  {
    hide Pow, Two, Double.Significand, Double.Exponent;
    SignificandBelow(v);
    PowMonotone(2, 53, -v.Exponent());
    NumberEmpty([]);
  }

  lemma NoValue(p: int, q: int)
    ensures Dec(Number([]), p) == Dec(Number([]), q)
  {
  }

  /** Asking for one digit behind the point of 2^51 + 1/2 does it; the digits are right all the same. */
  lemma ShiftIsReached()
    ensures Double(0x4320_0000_0000_0001).Value() == 2251799813685248.5
    ensures ShiftsByMinusOne(Double(0x4320_0000_0000_0001), 1)
  {
    hide Two;
    TwoInverse(1);
    TwoSmall();
    var v := Double(0x4320_0000_0000_0001);
    assert v.Significand() == 0x10_0000_0000_0001 && v.Exponent() == -1;
    HalfOf(v.Significand() as real, Two(-1));
  }

  lemma HalfOf(f: real, half: real)
    requires 2.0 * half == 1.0
    ensures f * half == f / 2.0
  {
    assert half == 0.5;
  }
}
