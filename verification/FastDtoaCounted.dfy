/** The fast printer's counted mode: a given number of digits, or an honest refusal. */
module FastDtoaCounted {
  import opened Powers
  import opened Words
  import opened Decimals
  import opened Dragon
  import opened Exact
  import opened Ieee
  import opened Shortest
  import opened DiyFps
  import opened Boundaries
  import opened FastDtoas
  import opened Carry
  import opened FixedMode

  /** c units of t and a rest make high. */
  ghost predicate Floor(c: int, t: int, x: int, high: int) {
    0 <= x < t && Mult(c, t) + x == high
  }

  lemma FloorDigit(c: int, t: int, x: int, high: int, digit: int, r: int)
    requires Floor(c, 10 * t, x, high) && x == digit * t + r && 0 <= r < t
    ensures 0 <= digit <= 9 && Floor(10 * c + digit, t, r, high)
  {
  }

  lemma FloorTenfold(c: int, t: int, x: int, high: int)
    requires Floor(c, t, x, high)
    ensures Floor(c, 10 * t, 10 * x, 10 * high)
  {
  }

  // ----- rounding

  /** Every number less than a unit away from high is nearer to c units of t than to any other multiple. */
  ghost predicate NearestFor(c: int, t: int, high: int, unit: int) {
    forall x: real :: WithinUnit(x, high, unit) ==> Mult(2 * c - 1, t) as real < 2.0 * x < Mult(2 * c + 1, t) as real
  }

  lemma RoundsDown(c: int, t: int, rest: int, high: int, unit: int)
    requires Floor(c, t, rest, high) && 0 < unit < t && unit < t - unit && 2 * (rest + unit) <= t
    ensures NearestFor(c, t, high, unit)
  {
    hide Mult;
    HalfMultiples(c, t);
  }

  lemma HalfMultiples(c: int, t: int)
    ensures Mult(2 * c - 1, t) == 2 * Mult(c, t) - t && Mult(2 * c + 1, t) == 2 * Mult(c, t) + t
  {
    MulAssoc(2, c, t);
    MulDist(2 * c, 1, t);
  }

  lemma RoundsUp(c: int, t: int, rest: int, high: int, unit: int)
    requires Floor(c, t, rest, high) && 0 < unit < t && unit < t - unit && t <= 2 * (rest - unit)
    ensures NearestFor(c + 1, t, high, unit)
  {
    hide Mult;
    HalfMultiples(c, t);
    HalfMultiples(c + 1, t);
  }

  /** Rounds the buffer if the direction is beyond doubt. */
  method RoundWeedCounted(buffer: array<char>, length: nat, rest: UInt64, tenKappa: UInt64, unit: UInt64, kappa: int,
                          ghost high: int)
    returns (ok: bool, newKappa: int, ghost c: int)
    requires 0 < length <= buffer.Length && AreDigits(buffer[..length]) && buffer[0] != '0'
    requires 0 < unit && Floor(Number(buffer[..length]), tenKappa, rest, high)
    modifies buffer
    ensures ok ==> NearestFor(c, tenKappa, high, unit)
    ensures ok ==> AreDigits(buffer[..length]) && buffer[0] != '0'
    ensures ok ==> Dec(Number(buffer[..length]), newKappa) == Dec(c, kappa)
  {
    hide Number, Dec, NearestFor;
    FloorBounds(Number(buffer[..length]), tenKappa, rest, high);
    newKappa, c := kappa, Number(buffer[..length]);
    if unit >= tenKappa { return false, newKappa, c; }
    if Sub64(tenKappa, unit) <= unit { return false, newKappa, c; }
    if Sub64(tenKappa, rest) > rest && Sub64(tenKappa, 2 * rest) >= 2 * unit {
      RoundsDown(c, tenKappa, rest, high, unit);
      return true, newKappa, c;
    }
    if rest > unit && Sub64(tenKappa, Sub64(rest, unit)) <= Sub64(rest, unit) {
      RoundsUp(c, tenKappa, rest, high, unit);
      ghost var s := buffer[..length];
      buffer[length - 1] := buffer[length - 1] + 1 as char;
      LastRaised(s);
      assert buffer[..length] == s[length - 1 := s[length - 1] + 1 as char];
      var point := PropagateCarry(buffer, length, kappa + length);
      return true, point - length, c + 1;
    }
    return false, newKappa, c;
  }

  lemma FloorBounds(c: int, t: int, x: int, high: int)
    requires Floor(c, t, x, high)
    ensures 0 <= x < t
  {
  }

  // ----- generating

  lemma StartFloor(kappa: nat, one: nat, x: int, w: int)
    requires Pending(0, Place(kappa, one), x, w, 1)
    ensures Floor(0, Place(kappa, one), x, w) && w < Place(kappa, one)
  {
  }

  lemma WholeStep(integrals: nat, divisor: nat, digit: nat, rem: nat, one: nat, fractionals: nat, kappa: nat)
    requires integrals == digit * divisor + rem && rem < divisor == Pow(10, kappa) && fractionals < one
    ensures Whole(integrals, one, fractionals) == digit * Place(kappa, one) + Whole(rem, one, fractionals)
    ensures 0 <= Whole(rem, one, fractionals) < Place(kappa, one)
    ensures Place(kappa + 1, one) == 10 * Place(kappa, one)
  {
    IntegralStep(integrals, divisor, digit, rem, one, fractionals);
    PlaceStep(kappa + 1, one);
  }

  lemma FloorWord(c: int, t: int, x: int, high: UInt64)
    requires Floor(c, t, x, high) && 0 <= c
    ensures 0 <= x <= high
  {
  }

  lemma FirstStays(s: seq<char>, s': seq<char>, digit: nat)
    requires AreDigits(s) && AreDigits(s') && |s'| == |s| + 1 && s'[..|s|] == s && Number(s') == 10 * Number(s) + digit
    ensures if s == [] then digit > 0 ==> s'[0] != '0' else s'[0] == s[0]
  {
  }

  /** The integral part, until it ends or all digits asked for are there. */
  method CountedIntegrals(w: UInt64, shift: nat, one: UInt64, requestedDigits: nat, buffer: array<char>)
    returns (length: nat, kappa: nat, rest: UInt64, tenKappa: UInt64)
    requires 32 <= shift <= 60 && one == Pow(2, shift) && 0x4000_0000_0000_0000 <= w
    requires 0 < requestedDigits <= buffer.Length
    modifies buffer
    ensures 0 < length <= requestedDigits && AreDigits(buffer[..length]) && buffer[0] != '0'
    ensures tenKappa == Place(kappa, one) && 0 < Place(kappa + length - 1, one) <= w < Place(kappa + length, one)
    ensures Floor(Number(buffer[..length]), tenKappa, rest, w)
    ensures length < requestedDigits ==> kappa == 0
  {
    hide Number, Pow, Floor, Place, Whole, Leads, Pending;
    var integrals: UInt32, fractionals: UInt64, divisor: UInt32;
    integrals, fractionals, divisor, kappa := SplitAtPoint(w, 1, shift, one);
    StartFloor(kappa, one, Whole(integrals, one, fractionals), w);
    length, rest, tenKappa := 0, 0, 0;
    NumberOfNone(buffer[..0]);
    ghost var places := kappa;
    while kappa > 0
      invariant kappa + length == places && length < requestedDigits && AreDigits(buffer[..length])
      invariant 0 < places && 0 < Place(places - 1, one) <= w < Place(places, one)
      invariant length == 0 ==> kappa > 0 && divisor <= integrals
      invariant length > 0 ==> buffer[0] != '0' && rest == Whole(integrals, one, fractionals) && tenKappa == Place(kappa, one)
      invariant kappa > 0 ==> divisor == Pow(10, kappa - 1) && 0 < Place(kappa - 1, one) <= w
      invariant Floor(Number(buffer[..length]), Place(kappa, one), Whole(integrals, one, fractionals), w)
    {
      ghost var before := buffer[..length];
      ghost var x := Whole(integrals, one, fractionals);
      NumberOfNone(before);
      QuotientOf(integrals, divisor);
      var digit := integrals / divisor;
      FirstDigit(integrals, divisor, digit, integrals % divisor);
      WholeStep(integrals, divisor, digit, integrals % divisor, one, fractionals, kappa - 1);
      FloorDigit(Number(before), Place(kappa - 1, one), x, w, digit, Whole(integrals % divisor, one, fractionals));
      WriteDigit(buffer, length, digit);
      assert buffer[..length + 1][..length] == before;
      FirstStays(before, buffer[..length + 1], digit);
      integrals := integrals % divisor;
      length := length + 1;
      kappa := kappa - 1;
      NumberBound(buffer[..length]);
      FloorWord(Number(buffer[..length]), Place(kappa, one), Whole(integrals, one, fractionals), w);
      rest := RestWord(integrals, one, fractionals);
      PlaceIs(divisor, kappa, one);
      tenKappa := divisor * one;
      if length == requestedDigits { return; }
      if kappa > 0 { DivisorStep(divisor, kappa, one); }
      divisor := divisor / 10;
    }
  }

  /** The integral and the fractional part, put together again. */
  method RestWord(integrals: UInt32, one: UInt64, fractionals: UInt64) returns (rest: UInt64)
    requires 0 <= Whole(integrals, one, fractionals) < 0x1_0000_0000_0000_0000
    ensures rest == Whole(integrals, one, fractionals)
  {
    rest := integrals * one + fractionals;
  }

  /** One digit behind the point. */
  method CountedFractional(fractionals0: UInt64, shift: nat, one: UInt64, buffer: array<char>, length: nat, ghost high: int)
    returns (fractionals: UInt64)
    requires shift <= 60 && one == Pow(2, shift) && 0 < length < buffer.Length && AreDigits(buffer[..length])
    requires Floor(Number(buffer[..length]), one, fractionals0, high)
    modifies buffer
    ensures AreDigits(buffer[..length + 1]) && buffer[0] == old(buffer[0])
    ensures Floor(Number(buffer[..length + 1]), one, fractionals, 10 * high)
  {
    hide Number, Pow, Floor;
    ghost var c := Number(buffer[..length]);
    OneBound(shift);
    FloorBounds(c, one, fractionals0, high);
    var raised: UInt64 := fractionals0 * 10;
    var digit := ShiftRight(raised, shift);
    fractionals := LowBits(raised, shift);
    FloorTenfold(c, one, fractionals0, high);
    FloorDigit(c, one, raised, 10 * high, digit, fractionals);
    ghost var before := buffer[..length];
    WriteDigit(buffer, length, digit);
    assert buffer[..length + 1][..length] == before;
    FirstStays(before, buffer[..length + 1], digit);
  }

  /** The digits behind the point, as long as they are worth more than their error. */
  method CountedFractionals(fractionals0: UInt64, shift: nat, one: UInt64, requestedDigits: nat, buffer: array<char>,
                            length0: nat, ghost high: int)
    returns (length: nat, kappa: int, rest: UInt64, unit: UInt64)
    requires shift <= 60 && one == Pow(2, shift) && 0 < length0 <= requestedDigits <= buffer.Length
    requires AreDigits(buffer[..length0]) && Floor(Number(buffer[..length0]), one, fractionals0, high)
    modifies buffer
    ensures length0 <= length <= requestedDigits && AreDigits(buffer[..length]) && buffer[0] == old(buffer[0])
    ensures kappa == length0 - length && unit == Pow(10, -kappa)
    ensures fractionals0 <= 1 ==> length == length0
    ensures Floor(Number(buffer[..length]), one, rest, high * unit)
  {
    hide Number, Pow, Floor;
    length, kappa, rest, unit := length0, 0, fractionals0, 1;
    PowZero(10);
    OneBound(shift);
    while length < requestedDigits && rest > unit
      invariant length0 <= length <= requestedDigits && AreDigits(buffer[..length]) && buffer[0] == old(buffer[0])
      invariant kappa == length0 - length && unit == Pow(10, -kappa)
      invariant fractionals0 <= 1 ==> length == length0
      invariant Floor(Number(buffer[..length]), one, rest, high * unit)
    {
      FloorBounds(Number(buffer[..length]), one, rest, high * unit);
      PowTen(-kappa);
      UnitTenfold(high, unit);
      rest := CountedFractional(rest, shift, one, buffer, length, high * unit);
      unit := unit * 10;
      length := length + 1;
      kappa := kappa - 1;
    }
  }

  // ----- what success means for the number that was scaled

  /** x is nearer to c * 10^q than to any other multiple of 10^q. */
  predicate NearestAt(x: real, q: int, c: int) {
    Dec(2 * c - 1, q) < 2.0 * x < Dec(2 * c + 1, q)
  }

  /** The digits denote the multiple of 10^q nearest to v, with no other as near. */
  ghost predicate IsNearest(v: real, q: int, digits: seq<char>, point: int) {
    AreDigits(digits) && exists c: int :: NearestAt(v, q, c) && Dec(Number(digits), point - |digits|) == Dec(c, q)
  }

  ghost predicate NearestAround(w: Binary, q: int, c: int) {
    forall x: real :: Near(x, w) ==> NearestAt(x, q, c)
  }

  lemma NearestGrid(w: Binary, kappa: int, t: int, c: int, unit: int, one: nat)
    requires w.e <= 0 && one == Pow(2, -w.e) && 0 < unit && AtGrid(kappa, t, unit, one)
    requires NearestFor(c, t, w.f * unit, unit)
    ensures NearestAround(w, kappa, c)
  {
    hide Pow, Ten, AtGrid, Near, WithinUnit, Mult;
    GridStep(kappa, t, unit, one);
    MulLt(0, unit, one);
    forall x: real | Near(x, w)
      ensures NearestAt(x, kappa, c)
    {
      var s := (unit * one) as real;
      NearScaled(x, w, unit, one, x * s, w.f * unit);
      GridCancel(x, s, Ten(kappa), t, 2 * c - 1);
      GridCancel(x, s, Ten(kappa), t, 2 * c + 1);
    }
  }

  lemma GridCancel(x: real, s: real, ten: real, t: int, n: int)
    requires 0.0 < s && t as real == ten * s
    ensures Mult(n, t) as real < 2.0 * (x * s) <==> n as real * ten < 2.0 * x
    ensures 2.0 * (x * s) < Mult(n, t) as real <==> 2.0 * x < n as real * ten
  {
  }

  /**
   The digits are taken to start at place; where w is the very number on which that place begins, none is taken
   from behind the point.
   */
  ghost predicate LeadsAt(w: Binary, place: int, length: nat) {
    && place > 0 && w.e <= 0 && Place(place - 1, Pow(2, -w.e)) <= w.f < Place(place, Pow(2, -w.e))
    && (w.f == Place(place - 1, Pow(2, -w.e)) ==> length <= place)
  }

  /** A power of ten has no rest behind the point. */
  lemma NothingBehind(c: int, one: nat, rest: int, w: int, place: nat)
    requires place > 0 && Floor(c, one, rest, w)
    ensures w == Place(place - 1, one) ==> rest == 0
  {
    if w == Place(place - 1, one) {
      MulDist(Pow(10, place - 1), c, one);
      SmallMultiple(Pow(10, place - 1) - c, one, rest);
    }
  }

  lemma SmallMultiple(n: int, one: nat, rest: int)
    requires n * one == rest && 0 <= rest < one
    ensures rest == 0
  {
    if n >= 1 { MulLe(1, n, one); }
    if n <= -1 { MulLe(n, -1, one); }
  }

  /** The digits asked for, if they are sure to be the right ones. */
  method DigitGenCounted(w: DiyFp, requestedDigits: nat, buffer: array<char>)
    returns (ok: bool, length: nat, kappa: int, ghost c: int, ghost place: int)
    requires MINIMAL_TARGET_EXPONENT <= w.e <= MAXIMAL_TARGET_EXPONENT && 0x4000_0000_0000_0000 <= w.f
    requires 0 < requestedDigits <= buffer.Length
    modifies buffer
    ensures length <= buffer.Length
    ensures ok ==> length == requestedDigits && AreDigits(buffer[..length]) && buffer[0] != '0'
    ensures ok ==> NearestAround(w.AsBinary(), place - length, c)
    ensures ok ==> Dec(Number(buffer[..length]), kappa) == Dec(c, place - length)
    ensures ok ==> LeadsAt(w.AsBinary(), place, length)
  {
    hide Number, Pow, Floor, Place, NearestFor, NearestAround, AtGrid, Dec;
    var shift: nat := -w.e;
    OneBound(shift);
    var one: UInt64 := Pow(2, shift);
    var unit: UInt64 := 1;
    var rest, tenKappa, exponent: nat;
    length, exponent, rest, tenKappa := CountedIntegrals(w.f, shift, one, requestedDigits, buffer);
    kappa, place := exponent, exponent + length;
    if length < requestedDigits {
      PlaceZero(one);
      NothingBehind(Number(buffer[..length]), one, rest, w.f, length);
      length, kappa, rest, unit := CountedFractionals(rest, shift, one, requestedDigits, buffer, length, w.f);
      tenKappa := one;
      if length != requestedDigits { return false, length, kappa, 0, place; }
    }
    UnitPositive(kappa, unit);
    ShowAtGrid(kappa, tenKappa, unit, one);
    ok, kappa, c := RoundWeedCounted(buffer, length, rest, tenKappa, unit, kappa, w.f * unit);
    if ok { NearestGrid(w.AsBinary(), place - length, tenKappa, c, unit, one); }
  }

  lemma UnitPositive(kappa: int, unit: int)
    requires unit == 1 || (kappa <= 0 && unit == Pow(10, -kappa))
    ensures 0 < unit && (unit == 1 || kappa < 0)
  {
  }

  // ----- the printer

  lemma ShiftedDecimals(n: int, q: int, m: int, q': int, k: int)
    requires Dec(n, q) == Dec(m, q')
    ensures Dec(n, q - k) == Dec(m, q' - k)
  {
    hide Ten;
    TenAdd(q - k, k);
    TenAdd(q' - k, k);
    RMulAssoc(n as real, Ten(q - k), Ten(k));
    RMulAssoc(m as real, Ten(q' - k), Ten(k));
    RCancel(Dec(n, q - k), Dec(m, q' - k), Ten(k));
  }

  lemma NearestUnscaled(v: real, y: real, k: int, q: int, c: int)
    requires y == v * Ten(k) && NearestAt(y, q, c)
    ensures NearestAt(v, q - k, c)
  {
    hide Ten;
    TenAdd(q - k, k);
    UnscaleTwice(v, Ten(k), Ten(q - k), (2 * c - 1) as real, y, Ten(q));
    UnscaleTwice(v, Ten(k), Ten(q - k), (2 * c + 1) as real, y, Ten(q));
  }

  lemma UnscaleTwice(v: real, t: real, u: real, n: real, y: real, ut: real)
    requires 0.0 < t && y == v * t && ut == u * t
    ensures n * ut < 2.0 * y <==> n * u < 2.0 * v
    ensures 2.0 * y < n * ut <==> 2.0 * v < n * u
  {
  }

  /** The number behind w is below the place in front of the first digit. */
  lemma BelowPlace(y: real, w: Binary, place: nat)
    requires Near(y, w) && w.e <= 0 && w.f < Place(place, Pow(2, -w.e))
    ensures y < Ten(place)
  {
    hide Two, Ten, Pow;
    TwoNat(-w.e);
    TwoInverse(w.e);
    TenNat(place);
    IntMul(Pow(10, place), Pow(2, -w.e));
    RMulLe((w.f + 1) as real, Place(place, Pow(2, -w.e)) as real, Two(w.e));
    RMulAssoc(Ten(place), Two(-w.e), Two(w.e));
  }

  lemma Unscaled(v: real, k: int, place: int)
    requires v * Ten(k) < Ten(place)
    ensures v < Ten(place - k)
  {
    hide Ten;
    TenAdd(place - k, k);
    RCancel(v, Ten(place - k), Ten(k));
  }

  lemma ProductIsLarge(x: nat, p: nat)
    requires HALF <= x && HALF <= p
    ensures x * p >= 0 && 0x4000_0000_0000_0000 <= HighWord(x * p)
  {
  }

  /** What a success says about the double; place is where the digits were taken to start. */
  lemma CountedVerdict(v: real, y: real, w: Binary, k: int, c: int, digits: seq<char>, kappa: int, place: nat)
    requires y == v * Ten(k) && Near(y, w) && w.e <= 0 && NearestAround(w, place - |digits|, c) && AreDigits(digits)
    requires Dec(Number(digits), kappa) == Dec(c, place - |digits|) && LeadsAt(w, place, |digits|)
    ensures IsNearest(v, place - k - |digits|, digits, |digits| + kappa - k)
    ensures v < Ten(place - k)
  {
    hide Ten, Pow, Number, Dec, Near, NearestAt, Place;
    assert NearestAt(y, place - |digits|, c);
    NearestUnscaled(v, y, k, place - |digits|, c);
    ShiftedDecimals(Number(digits), kappa, c, place - |digits|, k);
    BelowPlace(y, w, place);
    Unscaled(v, k, place);
  }

  // ----- a double just below the place where its digits were taken to start

  /** The double is not further below that place than what the exact printer rounds up. */
  lemma AlmostThere(v: real, y: real, w: Binary, k: int, place: nat, n: nat)
    requires y == v * Ten(k) && Near(y, w) && w.e <= MAXIMAL_TARGET_EXPONENT && LeadsAt(w, place, n)
    ensures 2.0 * Ten(place - 1 - k) - Ten(place - 1 - n - k) < 2.0 * v
  {
    hide Ten, Near, LeadsAt;
    AlmostScaled(y, w, place, n);
    TenAdd(place - 1 - k, k);
    TenAdd(place - 1 - n - k, k);
    UnscaleSum(v, Ten(k), Ten(place - 1 - k), Ten(place - 1 - n - k));
  }

  lemma UnscaleSum(v: real, t: real, a: real, b: real)
    requires 0.0 < t && 2.0 * (a * t) - b * t < 2.0 * (v * t)
    ensures 2.0 * a - b < 2.0 * v
  {
    RMulDist(a, 0.5 * b, t);
    RCancel(a - 0.5 * b, v, t);
  }

  lemma AlmostScaled(y: real, w: Binary, place: nat, n: nat)
    requires Near(y, w) && w.e <= MAXIMAL_TARGET_EXPONENT && LeadsAt(w, place, n)
    ensures 2.0 * Ten(place - 1) - Ten(place - 1 - n) < 2.0 * y
  {
    hide Two, Ten, Pow;
    var one := Pow(2, -w.e);
    TwoNat(-w.e);
    TwoInverse(w.e);
    TenNat(place - 1);
    IntMul(Pow(10, place - 1), one);
    NearAbove(y, w.f, Two(w.e), one as real);
    if w.f > Place(place - 1, one) {
      RMulLe(Ten(place - 1), y, 1.0);
      RCancel(Ten(place - 1), y, one as real);
    } else {
      TwoMonotone(9, -w.e);
      TenMonotone(-1, place - 1 - n);
      SmallTwos();
      TwoNat(9);
      Tenth();
      OneUnitBelow(y, Ten(place - 1), Ten(place - 1 - n), one as real);
    }
  }

  lemma NearAbove(y: real, f: int, unit: real, one: real)
    requires (f - 1) as real * unit < y && unit * one == 1.0 && 0.0 < one
    ensures (f - 1) as real < y * one
  {
    RMulLt((f - 1) as real * unit, y, one);
    RMulAssoc((f - 1) as real, unit, one);
  }

  lemma Tenth()
    ensures Ten(-1) == 0.1
  {
    TenInverse(1);
    TwoSmall();
  }

  lemma OneUnitBelow(y: real, top: real, half: real, one: real)
    requires top * one - 1.0 < y * one && 0.1 <= half && 20.0 <= one
    ensures 2.0 * top - half < 2.0 * y
  {
    RMulDist(y, 0.05, one);
    RCancel(top, y + 0.05, one);
  }

  /** A number that close below a power of ten is rounded up to it. */
  lemma TopRounds(v: real, p: int, n: nat)
    requires 2.0 * Ten(p) - Ten(p - n) < 2.0 * v < 2.0 * Ten(p)
    ensures NearestAt(v, p - n, Pow(10, n)) && Dec(Pow(10, n), p - n) == Ten(p)
  {
    hide Ten, Pow;
    TenAdd(n, p - n);
    TenNat(n);
    var c := Pow(10, n);
    assert (2 * c - 1) as real == 2.0 * Ten(n) - 1.0 && (2 * c + 1) as real == 2.0 * Ten(n) + 1.0;
    HalfStepBelow(v, Ten(n), Ten(p - n), Ten(p));
  }

  lemma HalfStepBelow(v: real, x: real, u: real, top: real)
    requires 0.0 < u && top == x * u && 2.0 * top - u < 2.0 * v < 2.0 * top
    ensures (2.0 * x - 1.0) * u < 2.0 * v < (2.0 * x + 1.0) * u
  {
    assert (2.0 * x) * u == 2.0 * top;
    RMulDist(2.0 * x, 1.0, u);
  }

  /** Digits rounded one place too far to the left are then those of the true place as well. */
  lemma TruePlace(v: real, p: int, n: nat, digits: seq<char>, point: int)
    requires 0 < n && 2.0 * Ten(p) - Ten(p - n) < 2.0 * v < 2.0 * Ten(p)
    requires IsNearest(v, p - n + 1, digits, point)
    ensures IsNearest(v, p - n, digits, point) && Ten(p - 1) <= v
  {
    hide Ten, Pow, Number, Dec, NearestAt;
    TenMonotone(p - n, p - n + 1);
    TenMonotone(p - n, p - 1);
    TenAdd(p - 1, 1);
    TwoSmall();
    TopRounds(v, p, n);
    TopRounds(v, p, n - 1);
    var c :| NearestAt(v, p - n + 1, c) && Dec(Number(digits), point - |digits|) == Dec(c, p - n + 1);
    NearestIsUnique(v, p - n + 1, c, Pow(10, n - 1));
  }

  // ----- the one nearest of its length

  lemma NearestIsUnique(v: real, q: int, c: int, c': int)
    requires NearestAt(v, q, c) && NearestAt(v, q, c')
    ensures c == c'
  {
    hide Dec;
    DecOrder(2 * c - 1, 2 * c' + 1, q);
    DecOrder(2 * c' - 1, 2 * c + 1, q);
  }

  lemma NearestIsFixed(v: real, q: int, digits: seq<char>, point: int)
    requires IsNearest(v, q, digits, point)
    ensures IsFixed(v, -q, digits, point)
  {
    hide Dec, Number;
    var c :| NearestAt(v, q, c) && Dec(Number(digits), point - |digits|) == Dec(c, q);
    assert -(-q) == q;
    assert RoundsHalfUp(v, -q, c);
  }

  /** No other decimal with as many digits, at whatever power of ten, is as close to v. */
  ghost predicate IsClosest(v: real, digits: seq<char>, point: int) {
    && AreDigits(digits)
    && forall m: nat, q: int :: m < Pow(10, |digits|) && Dec(m, q) != Dec(Number(digits), point - |digits|) ==>
                                  Abs(Dec(Number(digits), point - |digits|) - v) < Abs(Dec(m, q) - v)
  }

  lemma OthersFarther(v: real, q: int, c: int, m: int)
    requires NearestAt(v, q, c) && m != c
    ensures Abs(Dec(c, q) - v) < Abs(Dec(m, q) - v)
  {
    hide Dec;
    HalfSteps(c, q);
    HalfSteps(m, q);
    DecOrder(2 * c + 1, 2 * m - 1, q);
    DecOrder(2 * m + 1, 2 * c - 1, q);
  }

  lemma HalfSteps(c: int, q: int)
    ensures Dec(2 * c - 1, q) == 2.0 * Dec(c, q) - Ten(q) && Dec(2 * c + 1, q) == 2.0 * Dec(c, q) + Ten(q)
  {
    hide Ten;
    RMulDist((2 * c) as real, 1.0, Ten(q));
    RMulAssoc(2.0, c as real, Ten(q));
  }

  /** A decimal of so many digits at a lower power of ten is below the place of v's first digit. */
  lemma FinerIsBelow(v: real, place: int, n: nat, m: nat, q: int)
    requires 0 < n && StartsAt(v, place) && m < Pow(10, n) && q < place - n
    ensures Dec(m, q) < Dec(Pow(10, n - 1), place - n) <= v
  {
    hide Ten, Pow;
    DecOrder(m, Pow(10, n), q);
    TenNat(n);
    TenNat(n - 1);
    TenAdd(n, q);
    TenAdd(n - 1, place - n);
    TenMonotone(n + q, place - 1);
  }

  lemma NearestIsClosest(v: real, place: int, digits: seq<char>, point: int)
    requires digits != [] && StartsAt(v, place) && IsNearest(v, place - |digits|, digits, point)
    ensures IsClosest(v, digits, point)
  {
    hide Dec, Number, Pow, Ten, NearestAt, StartsAt;
    var n, u := |digits|, place - |digits|;
    var c :| NearestAt(v, u, c) && Dec(Number(digits), point - n) == Dec(c, u);
    forall m: nat, q: int | m < Pow(10, n) && Dec(m, q) != Dec(c, u)
      ensures Abs(Dec(c, u) - v) < Abs(Dec(m, q) - v)
    {
      if q >= u {
        DecShift(m, u, q - u);
        OthersFarther(v, u, c, m * Pow(10, q - u));
      } else {
        FinerIsBelow(v, place, n, m, q);
        if c != Pow(10, n - 1) { OthersFarther(v, u, c, Pow(10, n - 1)); }
      }
    }
  }

  /** The rounded product meets the generator's demands. */
  lemma CountedReady(d: Double, w: Binary, power: Binary, k: int)
    requires 0 < d.bits < INFINITY && d.Significand() > 0 && w == Normalized(d.Significand(), d.Exponent())
    requires IsCachedFor(d, power, k)
    ensures w.f * power.f >= 0
    ensures
      var scaled := Binary(HighWord(w.f * power.f), w.e + power.e + 64);
      && MINIMAL_TARGET_EXPONENT <= scaled.e <= MAXIMAL_TARGET_EXPONENT && 0x4000_0000_0000_0000 <= scaled.f
      && Near(d.Value() * Ten(k), scaled)
  {
    hide Pow, Ten, Normalized, HighWord, Near, Double.Value, Binary.Value, Double.Significand, Double.Exponent;
    CommonExponent(d);
    UpperValue(d);
    ProductIsLarge(w.f, power.f);
    TimesIsNear(w, power, k, d.Value() * Ten(k));
  }

  method Grisu3Counted(v: Double, requestedDigits: nat, tenMk: DiyFp, mk: int, buffer: array<char>)
    returns (ok: bool, length: nat, decimalExponent: int, ghost place: int)
    requires 0 < v.bits < INFINITY && IsCachedFor(v, tenMk.AsBinary(), mk) && 0 < requestedDigits <= buffer.Length
    modifies buffer
    ensures ok ==> length == requestedDigits && buffer[0] != '0' && StartsAt(v.Value(), place)
    ensures ok ==> IsNearest(v.Value(), place - requestedDigits, buffer[..length], length + decimalExponent)
  {
    hide Number, Pow, Ten, Dec, IsNearest, IsCachedFor, NearestAround, Normalized, HighWord, Near, Place,
         Double.Value, Binary.Value, Double.Significand, Double.Exponent;
    var w := AsNormalizedDiyFp(v);
    CountedReady(v, w.AsBinary(), tenMk.AsBinary(), mk);
    ghost var y := v.Value() * Ten(mk);
    var scaledW := DiyFp.Times(w, tenMk);
    ghost var scaled := scaledW.AsBinary();
    assert Near(y, scaled);
    var kappa;
    ghost var c;
    ok, length, kappa, c, place := DigitGenCounted(scaledW, requestedDigits, buffer);
    decimalExponent := -mk + kappa;
    if ok {
      CountedVerdict(v.Value(), y, scaled, mk, c, buffer[..length], kappa, place);
      AlmostThere(v.Value(), y, scaled, mk, place, length);
      if v.Value() < Ten(place - 1 - mk) {
        TruePlace(v.Value(), place - 1 - mk, length, buffer[..length], length + decimalExponent);
        place := place - 1;
      }
    }
    place := place - mk;
  }

  /** FastDtoa in its precision mode. */
  method FastDtoaPrecision(v: Double, requestedDigits: nat, tenMk: DiyFp, mk: int, buffer: array<char>)
    returns (ok: bool, length: nat, decimalPoint: int, ghost place: int)
    requires 0 < v.bits < INFINITY && IsCachedFor(v, tenMk.AsBinary(), mk) && 0 < requestedDigits < buffer.Length
    modifies buffer
    ensures ok ==> length == requestedDigits && buffer[0] != '0' && buffer[length] == '\0'
    ensures ok ==> StartsAt(v.Value(), place)
    ensures ok ==> IsFixed(v.Value(), requestedDigits - place, buffer[..length], decimalPoint)
    ensures ok ==> IsClosest(v.Value(), buffer[..length], decimalPoint)
  {
    hide Number, IsFixed, IsNearest, IsClosest, StartsAt, IsCachedFor, Double.Value;
    var decimalExponent;
    ok, length, decimalExponent, place := Grisu3Counted(v, requestedDigits, tenMk, mk, buffer);
    decimalPoint := 0;
    if ok {
      decimalPoint := length + decimalExponent;
      ghost var digits := buffer[..length];
      NearestIsFixed(v.Value(), place - length, digits, decimalPoint);
      NearestIsClosest(v.Value(), place, digits, decimalPoint);
      buffer[length] := '\0';
      assert buffer[..length] == digits;
    }
  }
}
