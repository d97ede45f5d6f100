/** The table of powers of ten, taken as given, and the two ways of finding a power in it. */
module CachedPowers {
  import opened Powers
  import opened Exact
  import opened Ieee
  import opened DiyFps

  const DECIMAL_EXPONENT_DISTANCE: int := 8
  const MIN_DECIMAL_EXPONENT: int := -348
  const MAX_DECIMAL_EXPONENT: int := 340

  /** power is 10^k, rounded to a 64-bit significand. */
  ghost predicate IsCachedPower(power: Binary, k: int) {
    && HALF <= power.f < 2 * HALF
    && Binary(2 * power.f - 1, power.e - 1).Value() <= Ten(k) <= Binary(2 * power.f + 1, power.e - 1).Value()
  }

  /** What is known about the table: every eighth power of ten, rounded. */
  ghost predicate IsTable(table: seq<Binary>) {
    && |table| == 87
    && forall i | 0 <= i < |table| :: IsCachedPower(table[i], MIN_DECIMAL_EXPONENT + DECIMAL_EXPONENT_DISTANCE * i)
  }

  lemma PowerIsNormal(power: Binary, k: int)
    requires IsCachedPower(power, k)
    ensures HALF <= power.f < 2 * HALF
  {
  }

  /** The cached power at or just below the requested one. */
  method GetCachedPowerForDecimalExponent(table: seq<Binary>, requestedExponent: int)
    returns (power: DiyFp, foundExponent: int)
    requires IsTable(table)
    requires MIN_DECIMAL_EXPONENT <= requestedExponent < MAX_DECIMAL_EXPONENT + DECIMAL_EXPONENT_DISTANCE
    ensures fresh(power) && IsCachedPower(power.AsBinary(), foundExponent)
    ensures MIN_DECIMAL_EXPONENT <= foundExponent <= requestedExponent < foundExponent + DECIMAL_EXPONENT_DISTANCE
    ensures (foundExponent - MIN_DECIMAL_EXPONENT) % DECIMAL_EXPONENT_DISTANCE == 0
  {
    hide IsCachedPower;
    var index := (requestedExponent - MIN_DECIMAL_EXPONENT) / DECIMAL_EXPONENT_DISTANCE;
    assert IsCachedPower(table[index], MIN_DECIMAL_EXPONENT + DECIMAL_EXPONENT_DISTANCE * index);
    PowerIsNormal(table[index], MIN_DECIMAL_EXPONENT + DECIMAL_EXPONENT_DISTANCE * index);
    power := new DiyFp(table[index].f, table[index].e);
    foundExponent := MIN_DECIMAL_EXPONENT + DECIMAL_EXPONENT_DISTANCE * index;
  }

  /** Small powers of ten with the top bit of the significand set. */
  function AdjustmentPowerOfTen(exponent: int): (r: Binary)
    requires 0 < exponent < DECIMAL_EXPONENT_DISTANCE
    ensures HALF <= r.f < 2 * HALF && r.e <= 0
  {
    if exponent == 1 then Binary(0xa000_0000_0000_0000, -60)
    else if exponent == 2 then Binary(0xc800_0000_0000_0000, -57)
    else if exponent == 3 then Binary(0xfa00_0000_0000_0000, -54)
    else if exponent == 4 then Binary(0x9c40_0000_0000_0000, -50)
    else if exponent == 5 then Binary(0xc350_0000_0000_0000, -47)
    else if exponent == 6 then Binary(0xf424_0000_0000_0000, -44)
    else Binary(0x9896_8000_0000_0000, -40)
  }

  /** They are exact. */
  lemma AdjustmentExact(a: int)
    requires 0 < a < DECIMAL_EXPONENT_DISTANCE
    ensures
      var r := AdjustmentPowerOfTen(a);
      && r.f == Pow(10, a) * Pow(2, -r.e)
      && r.Value() == Ten(a)
  {
    hide Two, Ten;
    var r := AdjustmentPowerOfTen(a);
    SmallTens();
    LargeTwos();
    TwoNat(-r.e);
    TwoInverse(r.e);
    TenNat(a);
    IntMul(Pow(10, a), Pow(2, -r.e));
    RMulAssoc(Pow(10, a) as real, Two(-r.e), Two(r.e));
  }

  lemma LargeTwos()
    ensures Pow(2, 40) == 0x100_0000_0000 && Pow(2, 44) == 0x1000_0000_0000 && Pow(2, 47) == 0x8000_0000_0000
    ensures Pow(2, 50) == 0x4_0000_0000_0000 && Pow(2, 54) == 0x40_0000_0000_0000
    ensures Pow(2, 57) == 0x200_0000_0000_0000 && Pow(2, 60) == 0x1000_0000_0000_0000
  {
    PowValues();
    assert Pow(2, 4) == 16 && Pow(2, 8) == 256 && Pow(2, 3) == 8;
    PowAdd(2, 32, 8);
    PowAdd(2, 40, 4);
    PowAdd(2, 44, 3);
    PowAdd(2, 47, 3);
    PowAdd(2, 50, 4);
    PowAdd(2, 54, 3);
    PowAdd(2, 57, 3);
  }
}
