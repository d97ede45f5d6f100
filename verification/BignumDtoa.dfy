/** The exact digit generator: shortest digits from four big integers. */
module BignumDtoas {
  import opened Powers
  import opened Bigits
  import opened BigitLoops
  import opened Decimals
  import opened Bignums
  import opened Dragon
  import opened Exact
  import opened Ieee
  import opened Shortest
  import opened StartValues

  /** Numbers below this leave room for every operation of the generator. */
  const ROOM: nat := 120

  /** The remainder r is small enough to be dropped. */
  predicate RoomBelow(r: int, m: int, isEven: bool) {
    if isEven then r <= m else r < m
  }

  /** The remainder r is large enough to be rounded up. */
  predicate RoomAbove(r: int, p: int, d: int, isEven: bool) {
    if isEven then r + p >= d else r + p > d
  }

  /** The number after rounding: up if that is the only room, else to the nearer side, ties to even. */
  function Rounded(c: int, r: int, d: int, below: bool, above: bool): int {
    if above && (!below || 2 * r > d || (2 * r == d && c % 2 != 0)) then c + 1 else c
  }

  /** Whether rounding down, and rounding up, would stay within the interval. */
  method FindRooms(numerator: Bignum, denominator: Bignum, deltaMinus: Bignum, deltaPlus: Bignum, isEven: bool)
    returns (inDeltaRoomMinus: bool, inDeltaRoomPlus: bool)
    requires numerator.Valid() && denominator.Valid() && deltaMinus.Valid() && deltaPlus.Valid()
    ensures inDeltaRoomMinus <==> RoomBelow(numerator.Value(), deltaMinus.Value(), isEven)
    ensures inDeltaRoomPlus <==> RoomAbove(numerator.Value(), deltaPlus.Value(), denominator.Value(), isEven)
  {
    var minus := Bignum.Compare(numerator, deltaMinus);
    var plus := Bignum.PlusCompare(numerator, deltaPlus, denominator);
    if isEven {
      return minus <= 0, plus >= 0;
    } else {
      return minus < 0, plus > 0;
    }
  }

  lemma DigitFits(x: int, digit: int, r: int, d: int)
    requires x == digit * d + r && 0 <= x < 10 * d && 0 <= r < d
    ensures 0 <= digit <= 9
  {
  }

  /** Raising a last digit below nine raises the number by one. */
  lemma LastDigitUp(s: seq<char>, t: seq<char>)
    requires 0 < |s| == |t| && AreDigits(s) && Number(s) % 10 != 9
    requires s[..|s| - 1] == t[..|t| - 1] && t[|t| - 1] as int == s[|s| - 1] as int + 1
    ensures AreDigits(t) && Number(t) == Number(s) + 1
  {
  }
  /** The last step of the generator: rounds the digits in the buffer by what is left over. */
  method RoundShortest(numerator: Bignum, denominator: Bignum, minus: bool, plus: bool, buffer: array<char>, length: nat)
    requires numerator.Valid() && denominator.Valid()
    requires 0 < length <= buffer.Length && AreDigits(buffer[..length])
    requires minus || plus
    requires plus ==> Number(buffer[..length]) % 10 != 9
    requires buffer as object != numerator.bigits && buffer as object != denominator.bigits
    modifies buffer
    ensures AreDigits(buffer[..length])
    ensures Number(buffer[..length]) ==
              Rounded(old(Number(buffer[..length])), numerator.Value(), denominator.Value(), minus, plus)
  {
    hide Number;
    ghost var s := buffer[..length];
    LastDigit(s);
    var up := plus;
    if minus && plus {
      var compare := Bignum.PlusCompare(numerator, numerator, denominator);
      if compare < 0 {
        up := false;
      } else if compare > 0 {
        up := true;
      } else {
        up := DigitOf(buffer[length - 1]) % 2 != 0;
      }
    }
    if up {
      buffer[length - 1] := (buffer[length - 1] as int + 1) as char;
      LastDigitUp(s, buffer[..length]);
    }
  }

  lemma LastDigit(s: seq<char>)
    requires s != [] && AreDigits(s)
    ensures Number(s) % 10 == DigitOf(s[|s| - 1]) && Number(s) % 2 == DigitOf(s[|s| - 1]) % 2
  {
    hide Number;
    var n := |s| - 1;
    NumberPrefix(s, n);
    assert s[..n + 1] == s;
    TenMod(Number(s[..n]), DigitOf(s[n]));
  }

  lemma TenMod(x: int, digit: int)
    requires 0 <= digit <= 9
    ensures (10 * x + digit) % 10 == digit && (10 * x + digit) % 2 == digit % 2
  {
  }

  /** x is x0 at scale s. */
  ghost predicate AtScale(x: int, x0: int, s: int) {
    x == x0 * s
  }

  /** Taking a digit off keeps the account: digits so far, at unit d, plus the remainder make mid. */
  lemma TakeDigit(c: int, x: int, digit: int, r: int, d: int, lo: int, mid: int, hi: int, closed: bool)
    requires Generating(c, x, d, lo, mid, hi, closed)
    requires x == digit * d + r && 0 <= r < d
    ensures Mult(10 * c + digit, d) + r == mid && 0 < lo < mid < hi
    ensures NoMultiple(10 * d, lo, hi, closed)
  {
  }

  lemma GeneratingBounds(c: int, x: int, d: int, lo: int, mid: int, hi: int, closed: bool)
    requires Generating(c, x, d, lo, mid, hi, closed)
    ensures 0 <= x < 10 * d && 0 < lo < mid < hi
  {
  }

  /** A round that found room ends with the best candidate, and never raises a nine. */
  lemma StopHere(c: int, r: int, d: int, n: int, m: int, p: int, isEven: bool)
    requires 0 < d && 0 <= r < d && 0 < m < n && 0 < p && Mult(c, d) + r == n
    requires NoMultiple(10 * d, n - m, n + p, isEven)
    ensures
      var minus := RoomBelow(r, m, isEven);
      var plus := RoomAbove(r, p, d, isEven);
      && (plus ==> c % 10 != 9)
      && (minus || plus ==>
            Best(Rounded(c, r, d, minus, plus), d, n - m, n, n + p, isEven))
  {
    hide Mult, Best, NoMultiple;
    Rooms(c, d, r, n - m, n, n + p, isEven);
    var minus := RoomBelow(r, m, isEven);
    var plus := RoomAbove(r, p, d, isEven);
    if plus { NoTrailingZero(c + 1, d, n - m, n + p, isEven); }
    if plus && (!minus || 2 * r > d || (2 * r == d && c % 2 != 0)) {
      RoundUp(c, d, r, n - m, n, n + p, isEven);
    } else if minus {
      RoundDown(c, d, r, n - m, n, n + p, isEven);
    }
  }

  /** After a round that found no room: the state for the next one, at ten times the scale. */
  lemma NextRound(c: int, d: int, r: int, n: int, m: int, p: int, isEven: bool)
    requires 0 < d && 0 <= r < d && 0 < m < n && 0 < p && Mult(c, d) + r == n
    requires !RoomBelow(r, m, isEven)
    requires !RoomAbove(r, p, d, isEven)
    ensures Generating(c, 10 * r, d, 10 * n - 10 * m, 10 * n, 10 * n + 10 * p, isEven)
    ensures m + p <= d && m < d && p < d
  {
    hide Mult, Generating;
    Rooms(c, d, r, n - m, n, n + p, isEven);
    GoOn(c, d, r, n - m, n, n + p, isEven);
  }

  /** While no room has been found the digits still fit the buffer. */
  lemma BufferRoom(m: int, p: int, m0: int, p0: int, s: int, length: nat, size: nat, d: int)
    requires AtScale(m, m0, s) && AtScale(p, p0, s) && s == Pow(10, length)
    requires m + p <= 10 * d && 0 < m0 + p0 && SizeSuffices(size, d, m0, p0)
    ensures length < size
  {
    hide Pow;
    if length >= size {
      PowMonotone(10, size, length);
      PowTen(size - 1);
      MulLe(Pow(10, size), s, m0 + p0);
      MulAssoc(10, Pow(10, size - 1), m0 + p0);
      MulDist(m0, p0, s);
    }
  }

  /** The best candidate restated at the scale reached, with its leading digit. */
  lemma Finished(digits: seq<char>, d: int, n: int, m: int, p: int, n0: int, m0: int, p0: int, s: int, isEven: bool)
    requires digits != [] && AreDigits(digits)
    requires Best(Number(digits), d, n - m, n, n + p, isEven) && 0 < d && 0 < n - m
    requires AtScale(n, n0, s) && AtScale(m, m0, s) && AtScale(p, p0, s) && s == Pow(10, |digits| - 1)
    requires if isEven then d <= n0 + p0 else d < n0 + p0
    ensures ShortestOutput(digits, d, n0, m0, p0, isEven)
  {
    hide Best, Pow, Number;
    MulDist(n0, p0, s);
    if d <= n0 + p0 { MulLe(d, n0 + p0, s); }
    if d < n0 + p0 { MulLt(d, n0 + p0, s); }
    MultIs(s, d);
    LeadingOne(|digits| - 1);
    Leading(Number(digits), d, n - m, n, n + p, isEven, s);
  }

  lemma MultIs(s: int, d: int)
    ensures Mult(s, d) == d * s
  {
  }

  lemma LeadingOne(k: nat)
    ensures Pow(10, k) % 10 == 0 || Pow(10, k) == 1
  {
  }

  /** One digit: divides in place, leaving the remainder. */
  method DivideDigit(numerator: Bignum, denominator: Bignum) returns (digit: nat)
    requires numerator.Valid() && denominator.Valid() && Apart(numerator, denominator)
    requires 0 <= numerator.Value() < 10 * denominator.Value() < BPow(ROOM)
    modifies numerator, numerator.bigits
    ensures digit <= 9 && numerator.Valid() && 0 <= numerator.Value() < denominator.Value()
    ensures old(numerator.Value()) == digit * denominator.Value() + numerator.Value()
  {
    hide BPow;
    denominator.ValueRange();
    numerator.LengthAtMost(ROOM);
    if numerator.BigitLength() > denominator.BigitLength() {
      numerator.SmallQuotientTop(denominator);
    }
    ghost var x := numerator.Value();
    ghost var agreed;
    digit, agreed := numerator.DivideModuloIntBignum(denominator);
    DigitFits(x, digit, numerator.Value(), denominator.Value());
  }

  /** Divides off one digit and writes it. */
  method NextDigit(numerator: Bignum, denominator: Bignum, buffer: array<char>, length: nat) returns (ghost digit: nat)
    requires numerator.Valid() && denominator.Valid() && Apart(numerator, denominator)
    requires 0 <= numerator.Value() < 10 * denominator.Value() < BPow(ROOM)
    requires length < buffer.Length && buffer as object !in {numerator.bigits, denominator.bigits}
    modifies numerator, numerator.bigits, buffer
    ensures digit <= 9 && buffer[..length + 1] == old(buffer[..length]) + [DigitChar(digit)]
    ensures numerator.Valid() && 0 <= numerator.Value() < denominator.Value()
    ensures old(numerator.Value()) == digit * denominator.Value() + numerator.Value()
  {
    hide BPow, Bignum.Valid, Bignum.Loose, Bignum.Value;
    ghost var digits := buffer[..length];
    var quotient := DivideDigit(numerator, denominator);
    digit := quotient;
    buffer[length] := DigitChar(quotient);
    assert buffer[..length + 1] == digits + [DigitChar(digit)];
  }

  /** Prepares the next round; the deltas may be one and the same number. */
  method ScaleByTen(numerator: Bignum, deltaMinus: Bignum, deltaPlus: Bignum)
    requires numerator.Valid() && deltaMinus.Valid() && deltaPlus.Valid()
    requires Apart(numerator, deltaMinus) && Apart(numerator, deltaPlus)
    requires deltaMinus == deltaPlus || Apart(deltaMinus, deltaPlus)
    requires numerator.Value() < BPow(ROOM) && deltaMinus.Value() < BPow(ROOM) && deltaPlus.Value() < BPow(ROOM)
    modifies numerator, numerator.bigits, deltaMinus, deltaMinus.bigits, deltaPlus, deltaPlus.bigits
    ensures numerator.Valid() && deltaMinus.Valid() && deltaPlus.Valid()
    ensures numerator.Value() == 10 * old(numerator.Value())
    ensures deltaMinus.Value() == 10 * old(deltaMinus.Value())
    ensures deltaPlus.Value() == 10 * old(deltaPlus.Value())
  {
    hide BPow;
    PowMonotoneB(ROOM, CAPACITY - 1);
    numerator.Times10();
    deltaMinus.Times10();
    if deltaMinus != deltaPlus {
      deltaPlus.Times10();
    }
  }

  /**
   The account kept between rounds: digits holds the decimal digits so far, x is the numerator, and
   m and p are the deltas, all at the scale at which d is the unit of the next but one digit.
   */
  ghost predicate Account(digits: seq<char>, x: int, d: int, n: int, m: int, p: int, isEven: bool) {
    && AreDigits(digits)
    && 0 < m && 0 < p && m + p <= 10 * d
    && Generating(Number(digits), x, d, n - m, n, n + p, isEven)
  }

  lemma AccountBounds(digits: seq<char>, x: int, d: int, n: int, m: int, p: int, isEven: bool)
    requires Account(digits, x, d, n, m, p, isEven)
    ensures 0 <= x < 10 * d && 0 < m < n && 0 < p && m + p <= 10 * d && AreDigits(digits)
  {
  }

  /** What one more digit makes of the account: an end with the best candidate, or the next account. */
  lemma RoundOutcome(digits: seq<char>, x: int, d: int, n: int, m: int, p: int, isEven: bool, digit: int, r: int)
    requires Account(digits, x, d, n, m, p, isEven) && 0 <= digit <= 9
    requires x == digit * d + r && 0 <= r < d
    ensures
      var minus := RoomBelow(r, m, isEven);
      var plus := RoomAbove(r, p, d, isEven);
      var more := digits + [DigitChar(digit)];
      var c := Number(more);
      && AreDigits(more)
      && (plus ==> c % 10 != 9)
      && (minus || plus ==>
            Best(Rounded(c, r, d, minus, plus), d, n - m, n, n + p, isEven))
      && (!minus && !plus ==> Account(more, 10 * r, d, 10 * n, 10 * m, 10 * p, isEven) && m < d && p < d)
  {
    hide Number, Generating, Best, Mult, NoMultiple, RoomBelow, RoomAbove, Rounded;
    var c := Number(digits);
    GeneratingBounds(c, x, d, n - m, n, n + p, isEven);
    TakeDigit(c, x, digit, r, d, n - m, n, n + p, isEven);
    NumberSnoc(digits, DigitChar(digit));
    StopHere(10 * c + digit, r, d, n, m, p, isEven);
    var minus := RoomBelow(r, m, isEven);
    var plus := RoomAbove(r, p, d, isEven);
    if !minus && !plus { NextRound(10 * c + digit, d, r, n, m, p, isEven); }
  }

  /** One round of the generator's loop. */
  method OneRound(numerator: Bignum, denominator: Bignum, deltaMinus: Bignum, deltaPlus: Bignum,
                  isEven: bool, buffer: array<char>, length: nat, ghost n: int)
    returns (done: bool)
    requires numerator.Valid() && denominator.Valid() && deltaMinus.Valid() && deltaPlus.Valid()
    requires Apart(numerator, denominator) && Apart(numerator, deltaMinus) && Apart(numerator, deltaPlus)
    requires Apart(denominator, deltaMinus) && Apart(denominator, deltaPlus)
    requires deltaMinus == deltaPlus || Apart(deltaMinus, deltaPlus)
    requires buffer as object !in {numerator.bigits, denominator.bigits, deltaMinus.bigits, deltaPlus.bigits}
    requires 10 * denominator.Value() < BPow(ROOM) && length < buffer.Length
    requires Account(buffer[..length], numerator.Value(), denominator.Value(), n,
                     deltaMinus.Value(), deltaPlus.Value(), isEven)
    modifies numerator, numerator.bigits, deltaMinus, deltaMinus.bigits, deltaPlus, deltaPlus.bigits, buffer
    ensures numerator.Valid() && deltaMinus.Valid() && deltaPlus.Valid()
    ensures done ==>
              && AreDigits(buffer[..length + 1])
              && Best(Number(buffer[..length + 1]), denominator.Value(),
                      n - old(deltaMinus.Value()), n, n + old(deltaPlus.Value()), isEven)
    ensures !done ==>
              && Account(buffer[..length + 1], numerator.Value(), denominator.Value(), 10 * n,
                         deltaMinus.Value(), deltaPlus.Value(), isEven)
              && deltaMinus.Value() == 10 * old(deltaMinus.Value())
              && deltaPlus.Value() == 10 * old(deltaPlus.Value())
              && old(deltaPlus.Value()) < denominator.Value()
  {
    hide BPow, Number, Best, Account, RoomBelow, RoomAbove, Rounded, Bignum.Valid, Bignum.Loose, Bignum.Value;
    ghost var digits, x, d := buffer[..length], numerator.Value(), denominator.Value();
    ghost var m, p := deltaMinus.Value(), deltaPlus.Value();
    AccountBounds(digits, x, d, n, m, p, isEven);
    ghost var digit := NextDigit(numerator, denominator, buffer, length);
    RoundOutcome(digits, x, d, n, m, p, isEven, digit, numerator.Value());
    var inDeltaRoomMinus, inDeltaRoomPlus := FindRooms(numerator, denominator, deltaMinus, deltaPlus, isEven);
    done := inDeltaRoomMinus || inDeltaRoomPlus;
    if done {
      RoundShortest(numerator, denominator, inDeltaRoomMinus, inDeltaRoomPlus, buffer, length + 1);
    } else {
      ScaleByTen(numerator, deltaMinus, deltaPlus);
    }
  }

  /** The digits are the best candidate at their scale and have no leading zero. */
  ghost predicate ShortestOutput(digits: seq<char>, d: int, n0: int, m0: int, p0: int, isEven: bool) {
    && digits != [] && AreDigits(digits)
    && var s := Pow(10, |digits| - 1);
       && Best(Number(digits), d, n0 * s - m0 * s, n0 * s, n0 * s + p0 * s, isEven)
       && s <= Number(digits)
  }

  /** size digits are sure to bring some decimal within the interval. */
  ghost predicate SizeSuffices(size: nat, d: int, m0: int, p0: int) {
    0 < size && d < Pow(10, size - 1) * (m0 + p0)
  }

  /**
   Dragon4: digits of numerator/denominator until the decimal lies within the rounding interval.
   It stops because the growing deltas close in on the denominator.
   */
  method GenerateShortestDigits(numerator: Bignum, denominator: Bignum, deltaMinus: Bignum, deltaPlus0: Bignum,
                                isEven: bool, buffer: array<char>, ghost size: nat)
    returns (length: nat)
    requires numerator.Valid() && denominator.Valid() && deltaMinus.Valid() && deltaPlus0.Valid()
    requires Apart(numerator, denominator) && Apart(numerator, deltaMinus) && Apart(numerator, deltaPlus0)
    requires Apart(denominator, deltaMinus) && Apart(denominator, deltaPlus0) && Apart(deltaMinus, deltaPlus0)
    requires buffer as object !in {numerator.bigits, denominator.bigits, deltaMinus.bigits, deltaPlus0.bigits}
    requires 0 < deltaMinus.Value() < numerator.Value() && 0 < deltaPlus0.Value()
    requires 10 * denominator.Value() < BPow(ROOM)
    requires
      var top := numerator.Value() + deltaPlus0.Value();
      if isEven then denominator.Value() <= top < 10 * denominator.Value()
      else denominator.Value() < top <= 10 * denominator.Value()
    requires size <= buffer.Length && SizeSuffices(size, denominator.Value(), deltaMinus.Value(), deltaPlus0.Value())
    modifies numerator, numerator.bigits, deltaMinus, deltaMinus.bigits, deltaPlus0, deltaPlus0.bigits, buffer
    ensures length <= size
    ensures ShortestOutput(buffer[..length], denominator.Value(), old(numerator.Value()),
                           old(deltaMinus.Value()), old(deltaPlus0.Value()), isEven)
  {
    hide Pow, BPow, Number, Account, Best, AtScale, ShortestOutput, SizeSuffices, Bignum.Valid, Bignum.Loose, Bignum.Value;
    var deltaPlus := deltaPlus0;
    var same := Bignum.Compare(deltaMinus, deltaPlus0);
    if same == 0 {
      deltaPlus := deltaMinus;
    }
    length := 0;
    ghost var d, n0, m0, p0 := denominator.Value(), numerator.Value(), deltaMinus.Value(), deltaPlus0.Value();
    ghost var n, s := n0, 1;
    FirstRound(buffer[..0], d, n0, m0, p0, isEven);
    BufferRoom(m0, p0, m0, p0, s, length, size, d);
    while true
      invariant numerator.Valid() && denominator.Valid() && deltaMinus.Valid() && deltaPlus.Valid()
      invariant length < size && s == Pow(10, length)
      invariant AtScale(n, n0, s) && AtScale(deltaMinus.Value(), m0, s) && AtScale(deltaPlus.Value(), p0, s)
      invariant Account(buffer[..length], numerator.Value(), d, n, deltaMinus.Value(), deltaPlus.Value(), isEven)
      decreases d - deltaPlus.Value()
    {
      ghost var m, p := deltaMinus.Value(), deltaPlus.Value();
      AccountBounds(buffer[..length], numerator.Value(), d, n, m, p, isEven);
      var done := OneRound(numerator, denominator, deltaMinus, deltaPlus, isEven, buffer, length, n);
      length := length + 1;
      if done {
        Finished(buffer[..length], d, n, m, p, n0, m0, p0, s, isEven);
        return;
      }
      AccountBounds(buffer[..length], numerator.Value(), d, 10 * n, 10 * m, 10 * p, isEven);
      ScaleStep(n, m, p, n0, m0, p0, s, length - 1);
      n, s := 10 * n, 10 * s;
      BufferRoom(10 * m, 10 * p, m0, p0, s, length, size, d);
    }
  }

  lemma ScaleStep(n: int, m: int, p: int, n0: int, m0: int, p0: int, s: int, k: nat)
    requires AtScale(n, n0, s) && AtScale(m, m0, s) && AtScale(p, p0, s) && s == Pow(10, k)
    ensures AtScale(10 * n, n0, 10 * s) && AtScale(10 * m, m0, 10 * s) && AtScale(10 * p, p0, 10 * s)
    ensures 10 * s == Pow(10, k + 1)
  {
  }

  lemma FirstRound(digits: seq<char>, d: int, n0: int, m0: int, p0: int, isEven: bool)
    requires digits == []
    requires 0 < d && 0 < m0 < n0 && 0 < p0
    requires if isEven then n0 + p0 < 10 * d else n0 + p0 <= 10 * d
    ensures Account(digits, n0, d, n0, m0, p0, isEven)
    ensures AtScale(n0, n0, 1) && AtScale(m0, m0, 1) && AtScale(p0, p0, 1) && Pow(10, 0) == 1
  {
    hide Mult;
    MultZero(d);
    MultZero(10 * d);
    MultNext(0, 10 * d);
    forall n: int
      ensures !Within(Mult(n, 10 * d), n0 - m0, n0 + p0, isEven)
    {
      if n <= 0 { MultOrder(n, 0, 10 * d); } else { MultOrder(1, n, 10 * d); }
    }
  }
  // ----- the printer

  /** Brings the fraction into the range of one leading digit and tells the decimal point. */
  method FixupMultiply10(estimatedPower: int, isEven: bool,
                         numerator: Bignum, denominator: Bignum, deltaMinus: Bignum, deltaPlus: Bignum)
    returns (decimalPoint: int)
    requires numerator.Valid() && denominator.Valid() && deltaMinus.Valid() && deltaPlus.Valid()
    requires Apart(numerator, denominator) && Apart(numerator, deltaMinus) && Apart(numerator, deltaPlus)
    requires Apart(denominator, deltaMinus) && Apart(denominator, deltaPlus) && Apart(deltaMinus, deltaPlus)
    requires denominator.Value() < BPow(START_ROOM) && deltaMinus.Value() < BPow(ROOM)
    requires 0 <= deltaPlus.Value() && 0 <= numerator.Value()
    modifies numerator, numerator.bigits, deltaMinus, deltaMinus.bigits, deltaPlus, deltaPlus.bigits
    ensures numerator.Valid() && deltaMinus.Valid() && deltaPlus.Valid()
    ensures
      var k := if RoomAbove(old(numerator.Value()), old(deltaPlus.Value()), denominator.Value(), isEven) then 1 else 10;
      && decimalPoint == (if k == 1 then estimatedPower + 1 else estimatedPower)
      && numerator.Value() == k * old(numerator.Value())
      && deltaMinus.Value() == k * old(deltaMinus.Value())
      && deltaPlus.Value() == k * old(deltaPlus.Value())
  {
    hide BPow, Bignum.Valid, Bignum.Loose, Bignum.Value;
    var compare := Bignum.PlusCompare(numerator, deltaPlus, denominator);
    var inRange := if isEven then compare >= 0 else compare > 0;
    if inRange {
      decimalPoint := estimatedPower + 1;
    } else {
      decimalPoint := estimatedPower;
      PowMonotoneB(START_ROOM, CAPACITY - 1);
      PowMonotoneB(ROOM, CAPACITY - 1);
      numerator.Times10();
      var same := Bignum.Compare(deltaMinus, deltaPlus);
      if same == 0 {
        deltaMinus.Times10();
        deltaPlus.AssignBignum(deltaMinus);
      } else {
        deltaMinus.Times10();
        deltaPlus.Times10();
      }
    }
  }
  /** What the start values say about the interval: its upper end and its positive lower end. */
  lemma ScaledEnds(d: Double, n: int, b: int, m: int, p: int, k: int)
    requires 0 < d.bits < INFINITY && Scaled(d, n, b, m, p, k)
    ensures d.UpperBoundary().Value() * b as real == (n + p) as real * Ten(k)
    ensures d.LowerBoundary().Value() * b as real == (n - m) as real * Ten(k)
    ensures 0 < m < n && 0 < p
  {
    hide Ten, Double.Value, Binary.Value, Double.UpperBoundary, Double.LowerBoundary;
    Previous(d);
    Midpoint(d);
    LowerPositive(d);
    EndsOf(d.LowerBoundary().Value(), d.Value(), d.UpperBoundary().Value(), b as real, n, m, p, Ten(k));
  }

  lemma EndsOf(low: real, v: real, high: real, r: real, n: int, m: int, p: int, t: real)
    requires 0.0 < low < v < high && 0.0 < r && 0.0 < t
    requires v * r == n as real * t && (v - low) * r == m as real * t && (high - v) * r == p as real * t
    ensures high * r == (n + p) as real * t
    ensures low * r == (n - m) as real * t
    ensures 0 < m < n && 0 < p
  {
  }

  lemma LowerPositive(d: Double)
    requires 0 < d.bits < INFINITY
    ensures 0.0 < d.LowerBoundary().Value()
  {
    hide Two;
    Fields(d);
    var f, e := d.Significand(), d.Exponent();
    RMulLt(0.0, (2 * f - 1) as real, Two(e - 1));
    RMulLt(0.0, (4 * f - 1) as real, Two(e - 2));
  }

  /** Room above means that the interval reaches the power of ten. */
  lemma RoomReaches(d: Double, n: int, b: int, m: int, p: int, k: int)
    requires 0 < d.bits < INFINITY && Scaled(d, n, b, m, p, k)
    ensures RoomAbove(n, p, b, d.IsEven()) <==> Reaches(d, k)
    ensures Reaches(d, k + 1) <==> if d.IsEven() then n + p >= 10 * b else n + p > 10 * b
    ensures Reaches(d, k - 1) <==> if d.IsEven() then 10 * (n + p) >= b else 10 * (n + p) > b
  {
    hide Ten, Double.Value, Binary.Value, Double.UpperBoundary, Double.LowerBoundary;
    ScaledEnds(d, n, b, m, p, k);
    TenAdd(k, 1);
    TenAdd(k - 1, 1);
    TwoSmall();
    EndOrder(d.UpperBoundary().Value(), b, n + p, Ten(k - 1), Ten(k), Ten(k + 1));
  }

  lemma EndOrder(high: real, b: int, n: int, t0: real, t1: real, t2: real)
    requires 0 < b && 0.0 < t0 && 0.0 < t1 && 0.0 < t2 && t2 == t1 * 10.0 && t1 == t0 * 10.0
    requires high * b as real == n as real * t1
    ensures t1 <= high <==> b <= n
    ensures t1 < high <==> b < n
    ensures t2 <= high <==> 10 * b <= n
    ensures t2 < high <==> 10 * b < n
    ensures t0 <= high <==> b <= 10 * n
    ensures t0 < high <==> b < 10 * n
  {
  }

  /** After the fix-up the fraction has one leading digit and the decimal point is right. */
  lemma FixupScaled(d: Double, n: int, b: int, m: int, p: int, estimate: int)
    requires 0 < d.bits < INFINITY && Scaled(d, n, b, m, p, estimate) && EstimateOk(d, estimate)
    ensures
      var k := if RoomAbove(n, p, b, d.IsEven()) then 1 else 10;
      var point := if k == 1 then estimate + 1 else estimate;
      && Scaled(d, k * n, b, k * m, k * p, point - 1)
      && 0 < k * m < k * n && 0 < k * p
      && (if d.IsEven() then b <= k * n + k * p < 10 * b else b < k * n + k * p <= 10 * b)
      && Reaches(d, point - 1) && !Reaches(d, point)
  {
    hide Ten, Double.Value, Binary.Value, Double.UpperBoundary, Double.LowerBoundary;
    RoomReaches(d, n, b, m, p, estimate);
    ScaledEnds(d, n, b, m, p, estimate);
    if !RoomAbove(n, p, b, d.IsEven()) {
      TenAdd(estimate - 1, 1);
      TwoSmall();
      ScaledTen(d.Value(), b, n, Ten(estimate), Ten(estimate - 1));
      ScaledTen(d.Value() - d.LowerBoundary().Value(), b, m, Ten(estimate), Ten(estimate - 1));
      ScaledTen(d.UpperBoundary().Value() - d.Value(), b, p, Ten(estimate), Ten(estimate - 1));
    }
  }

  lemma ScaledTen(x: real, b: int, n: int, t: real, t': real)
    requires x * b as real == n as real * t && t == t' * 10.0
    ensures x * b as real == (10 * n) as real * t'
  {
  }

  /** The digits the generator leaves are the shortest decimal of the double's rounding interval. */
  lemma OutputIsShortest(d: Double, digits: seq<char>, n: int, b: int, m: int, p: int, point: int)
    requires 0 < d.bits < INFINITY && Scaled(d, n, b, m, p, point - 1)
    requires ShortestOutput(digits, b, n, m, p, d.IsEven())
    ensures IsShortest(Number(digits), point - |digits|,
                       d.LowerBoundary().Value(), d.Value(), d.UpperBoundary().Value(), d.IsEven())
  {
    hide Ten, Pow, Number, Best, IsShortest, Double.Value, Double.IsEven, Binary.Value,
         Double.UpperBoundary, Double.LowerBoundary;
    ScaledEnds(d, n, b, m, p, point - 1);
    var k := |digits| - 1;
    var s, q := Pow(10, k), point - |digits|;
    TenAdd(k, q);
    TenNat(k);
    ShortestAtUnit(Number(digits), b, n, m, p, d.IsEven(), s, q, Ten(point - 1),
                   d.LowerBoundary().Value(), d.Value(), d.UpperBoundary().Value());
  }

  lemma ShortestAtUnit(c: int, b: int, n: int, m: int, p: int, closed: bool, s: nat, q: int, t: real,
                       low: real, v: real, high: real)
    requires Best(c, b, n * s - m * s, n * s, n * s + p * s, closed) && 0 < b && t == s as real * Ten(q)
    requires low * b as real == (n - m) as real * t
    requires v * b as real == n as real * t
    requires high * b as real == (n + p) as real * t
    ensures IsShortest(c, q, low, v, high, closed)
  {
    hide Ten, Best, IsShortest;
    AtUnit(low, b, n - m, t, s, Ten(q));
    AtUnit(v, b, n, t, s, Ten(q));
    AtUnit(high, b, n + p, t, s, Ten(q));
    MulDist(n, m, s);
    MulDist(n, p, s);
    BestIsShortest(c, b, n * s - m * s, n * s, n * s + p * s, closed, q, low, v, high);
  }

  lemma AtUnit(x: real, b: int, n: int, t: real, s: nat, u: real)
    requires x * b as real == n as real * t && t == s as real * u
    ensures x * b as real == (n * s) as real * u
  {
  }

  /** Seventeen digits always bring a decimal into the interval. */
  lemma SeventeenSuffice(d: Double, n: int, b: int, m: int, p: int, k: int)
    requires 0 < d.bits < INFINITY && Scaled(d, n, b, m, p, k) && Reaches(d, k)
    ensures SizeSuffices(17, b, m, p)
  {
    hide Ten, Two, Pow, Double.Value, Double.LowerBoundary;
    ScaledEnds(d, n, b, m, p, k);
    Gaps(d);
    Fields(d);
    TwoHalves(d.Exponent());
    SmallTens();
    var f, u := d.Significand(), Two(d.Exponent() - 1);
    var w := if d.LowerBoundaryIsCloser() then 1.5 else 2.0;
    assert d.UpperBoundary().Value() == (2 * f + 1) as real * u;
    assert 10_000_000_000_000_000.0 * w > (2 * f + 1) as real;
    WidthSuffices(d.UpperBoundary().Value(), (2 * f + 1) as real, w, u,
                  d.Value() - d.LowerBoundary().Value(), d.UpperBoundary().Value() - d.Value(), b, m, p, Ten(k));
  }

  lemma WidthSuffices(high: real, h: real, w: real, u: real, gap: real, gap': real, b: int, m: int, p: int, t: real)
    requires 0 < b && 0.0 < t && 0.0 < u && t <= high && high == h * u
    requires gap + gap' == w * u && 10_000_000_000_000_000.0 * w > h
    requires gap * b as real == m as real * t && gap' * b as real == p as real * t
    ensures b < 10_000_000_000_000_000 * (m + p)
  {
  }
  /** The start values at the right power of ten, ready for the generator. */
  method StartShortest(v: Double, estimatedPower: int, isEven: bool,
                       numerator: Bignum, denominator: Bignum, deltaMinus: Bignum, deltaPlus: Bignum)
    returns (decimalPoint: int)
    requires 0 < v.bits < INFINITY && EstimateOk(v, estimatedPower) && isEven == v.IsEven()
    requires numerator.Valid() && denominator.Valid() && deltaMinus.Valid() && deltaPlus.Valid()
    requires Apart(numerator, denominator) && Apart(numerator, deltaMinus) && Apart(numerator, deltaPlus)
    requires Apart(denominator, deltaMinus) && Apart(denominator, deltaPlus) && Apart(deltaMinus, deltaPlus)
    modifies numerator, numerator.bigits, denominator, denominator.bigits
    modifies deltaMinus, deltaMinus.bigits, deltaPlus, deltaPlus.bigits
    ensures numerator.Valid() && denominator.Valid() && deltaMinus.Valid() && deltaPlus.Valid()
    ensures Scaled(v, numerator.Value(), denominator.Value(), deltaMinus.Value(), deltaPlus.Value(), decimalPoint - 1)
    ensures Reaches(v, decimalPoint - 1) && !Reaches(v, decimalPoint)
    ensures 0 < deltaMinus.Value() < numerator.Value() && 0 < deltaPlus.Value()
    ensures 0 < denominator.Value() && 10 * denominator.Value() < BPow(ROOM)
    ensures
      var top := numerator.Value() + deltaPlus.Value();
      if isEven then denominator.Value() <= top < 10 * denominator.Value()
      else denominator.Value() < top <= 10 * denominator.Value()
  {
    hide Pow, BPow, Scaled, EstimateOk, Top, Bottom, RoomAbove, Reaches,
         Bignum.Valid, Bignum.Loose, Bignum.Value;
    Fields(v);
    EstimateRange(v, estimatedPower);
    StartIsScaled(v, estimatedPower);
    InitialScaledStartValues(v.Significand(), v.Exponent(), v.LowerBoundaryIsCloser(), estimatedPower, true,
                             numerator, denominator, deltaMinus, deltaPlus);
    ghost var n, b, m, p := numerator.Value(), denominator.Value(), deltaMinus.Value(), deltaPlus.Value();
    StartReady(v, n, b, m, p, estimatedPower);
    decimalPoint := FixupMultiply10(estimatedPower, isEven, numerator, denominator, deltaMinus, deltaPlus);
  }

  lemma StartReady(d: Double, n: int, b: int, m: int, p: int, estimate: int)
    requires 0 < d.bits < INFINITY && Scaled(d, n, b, m, p, estimate) && EstimateOk(d, estimate)
    requires b < BPow(START_ROOM)
    ensures 0 < b && 10 * b < BPow(ROOM) && 0 <= n && 0 <= p && m < BPow(ROOM)
    ensures
      var k := if RoomAbove(n, p, b, d.IsEven()) then 1 else 10;
      var point := if k == 1 then estimate + 1 else estimate;
      && Scaled(d, k * n, b, k * m, k * p, point - 1)
      && 0 < k * m < k * n && 0 < k * p
      && (if d.IsEven() then b <= k * n + k * p < 10 * b else b < k * n + k * p <= 10 * b)
      && Reaches(d, point - 1) && !Reaches(d, point)
  {
    hide BPow, EstimateOk, RoomAbove, Reaches;
    ScaledEnds(d, n, b, m, p, estimate);
    FixupScaled(d, n, b, m, p, estimate);
    TenRoom(b);
  }

  /** BignumDtoa in its shortest mode, given the estimated power of ten. */
  method BignumDtoaShortest(v: Double, estimatedPower: int, buffer: array<char>) returns (length: nat, decimalPoint: int)
    requires 0 < v.bits < INFINITY && EstimateOk(v, estimatedPower)
    requires buffer.Length > 17
    modifies buffer
    ensures length <= 17 && PrintsShortest(v, buffer[..length], decimalPoint)
    ensures buffer[length] == '\0'
  {
    hide Pow, BPow, Number, Scaled, EstimateOk, SizeSuffices, ShortestOutput, Reaches, PrintsShortest,
         Bignum.Valid, Bignum.Loose, Bignum.Value, Double.IsEven;
    var isEven := v.IsEven();
    var numerator := new Bignum();
    var denominator := new Bignum();
    var deltaMinus := new Bignum();
    var deltaPlus := new Bignum();
    decimalPoint := StartShortest(v, estimatedPower, isEven, numerator, denominator, deltaMinus, deltaPlus);
    ghost var n, b, m, p := numerator.Value(), denominator.Value(), deltaMinus.Value(), deltaPlus.Value();
    SeventeenSuffice(v, n, b, m, p, decimalPoint - 1);
    length := GenerateShortestDigits(numerator, denominator, deltaMinus, deltaPlus, isEven, buffer, 17);
    ghost var digits := buffer[..length];
    OutputPrints(v, digits, n, b, m, p, decimalPoint);
    buffer[length] := '\0';
    assert buffer[..length] == digits;
  }

  lemma OutputPrints(d: Double, digits: seq<char>, n: int, b: int, m: int, p: int, point: int)
    requires 0 < d.bits < INFINITY && Scaled(d, n, b, m, p, point - 1)
    requires ShortestOutput(digits, b, n, m, p, d.IsEven())
    ensures PrintsShortest(d, digits, point)
  {
    hide Pow, Number, Scaled, IsShortest, Best, Double.Value, Double.UpperBoundary, Double.LowerBoundary;
    OutputIsShortest(d, digits, n, b, m, p, point);
  }

  lemma TenRoom(b: int)
    requires 0 < b < BPow(START_ROOM)
    ensures 10 * b < BPow(ROOM)
  {
    hide BPow;
    BPowStep(START_ROOM);
    PowMonotoneB(START_ROOM + 1, ROOM);
  }
}
