/** Fixed-capacity unsigned big integers: 128 bigits of 28 bits and an exponent in whole bigits. */
module Bignums {
  import opened Powers
  import opened Bigits
  import opened BigitLoops
  import opened Comba
  import opened Decimals
  import opened LeftToRight
  import opened SmallDivision

  type Chunk = x: int | 0 <= x < 0x1_0000_0000
  type DoubleChunk = x: int | 0 <= x < 0x1_0000_0000_0000_0000

  type UInt16 = x: int | 0 <= x < 0x1_0000

  const CAPACITY: nat := 128

  function Sign(x: int): int {
    if x < 0 then -1 else if x == 0 then 0 else 1
  }

  function Min(x: nat, y: nat): nat {
    if x < y then x else y
  }

  const FIVE_POWERS: seq<Chunk> :=
    [5, 25, 125, 625, 3125, 15625, 78125, 390625, 1953125, 9765625, 48828125, 244140625]

  lemma FivePowers()
    ensures |FIVE_POWERS| == 12
    ensures forall i | 0 <= i < 12 :: FIVE_POWERS[i] == Pow(5, i + 1)
  {
    assert Pow(5, 6) == 15625;
    PowAdd(5, 6, 1);
    PowAdd(5, 7, 1);
    PowAdd(5, 8, 1);
    PowAdd(5, 9, 1);
    PowAdd(5, 10, 1);
    PowAdd(5, 11, 1);
    forall i | 0 <= i < 12
      ensures FIVE_POWERS[i] == Pow(5, i + 1)
    {
    }
  }

  class Bignum {
    const bigits: array<Chunk>
    var used: nat
    var exponent: nat

    /** Every cell holds a bigit and the cells above used are zero. */
    ghost predicate Loose()
      reads this, bigits
    {
      && bigits.Length == CAPACITY
      && used <= CAPACITY
      && (forall i | 0 <= i < CAPACITY :: bigits[i] < 0x1000_0000)
      && (forall i | used <= i < CAPACITY :: bigits[i] == 0)
    }

    predicate IsClamped()
      requires used <= bigits.Length
      reads this, bigits
    {
      used == 0 || bigits[used - 1] != 0
    }

    ghost predicate Valid()
      reads this, bigits
      ensures Valid() ==> Loose() && used <= bigits.Length
    {
      Loose() && IsClamped() && (used == 0 ==> exponent == 0)
    }

    /** The number represented. */
    ghost function Value(): int
      requires used <= bigits.Length
      reads this, bigits
    {
      Val(bigits[..used]) * BPow(exponent)
    }

    lemma ValueDef()
      requires used <= bigits.Length
      ensures Value() == Val(bigits[..used]) * BPow(exponent)
    {
    }

    /** Number of bigits including those hidden in the exponent. */
    function BigitLength(): nat
      reads this
    {
      used + exponent
    }

    /** The value and the length determine each other up to one bigit. */
    lemma ValueRange()
      requires Valid()
      ensures used == 0 ==> Value() == 0
      ensures used > 0 ==> BPow(BigitLength() - 1) <= Value()
      ensures Value() < BPow(BigitLength())
      ensures 0 <= Value()
    {
      ValBound(bigits[..used]);
      BPowAdd(used, exponent);
      MulLt(Val(bigits[..used]), BPow(used), BPow(exponent));
      MulLe(0, Val(bigits[..used]), BPow(exponent));
      if used > 0 {
        ValTop(bigits[..used]);
        MulLe(1, bigits[used - 1], BPow(used - 1));
        BPowAdd(used - 1, exponent);
        MulLe(BPow(used - 1), Val(bigits[..used]), BPow(exponent));
      }
    }

    lemma LengthAtMost(k: nat)
      requires Valid() && Value() < BPow(k)
      ensures BigitLength() <= k
    {
      ValueRange();
      if BigitLength() > k {
        PowMonotone(0x1000_0000, k, BigitLength() - 1);
      }
    }

    constructor ()
      ensures Valid() && Value() == 0 && fresh(bigits)
    {
      bigits := new Chunk[CAPACITY](i => 0);
      used := 0;
      exponent := 0;
    }

    method Zero()
      requires Loose()
      modifies this, bigits
      ensures Valid() && Value() == 0 && used == 0
    {
      var i := 0;
      while i < used
        invariant 0 <= i <= used && Loose()
        invariant forall k | 0 <= k < i || used <= k < CAPACITY :: bigits[k] == 0
      {
        bigits[i] := 0;
        i := i + 1;
      }
      used := 0;
      exponent := 0;
    }

    method Clamp()
      requires Loose()
      modifies this
      ensures Valid() && Value() == old(Value())
      ensures exponent == old(exponent) || used == 0
      ensures used <= old(used)
    {
      hide BPow;
      while used > 0 && bigits[used - 1] == 0
        invariant Loose()
        invariant exponent == old(exponent)
        invariant Val(bigits[..used]) == old(Val(bigits[..used]))
        invariant used <= old(used)
      {
        ValPrefix(bigits[..], used - 1);
        used := used - 1;
      }
      if used == 0 {
        assert Val(bigits[..used]) == 0;
        exponent := 0;
      }
    }

    method AssignUInt16(value: Chunk)
      requires Loose() && value < 0x1_0000
      modifies this, bigits
      ensures Valid() && Value() == value
    {
      Zero();
      if value == 0 { return; }
      bigits[0] := value;
      used := 1;
      ValPrefix(bigits[..], 0);
      assert bigits[..][..0] == [];
    }

    method AssignUInt64(value: DoubleChunk)
      requires Loose()
      modifies this, bigits
      ensures Valid() && Value() == value && exponent == 0
    {
      hide Val;
      hide Acc;
      hide BPow;
      hide Value;
      Zero();
      if value == 0 { return; }
      var rest: DoubleChunk := value;
      var neededBigits := 64 / 28 + 1;
      var i := 0;
      AccZero(bigits[..], value);
      while i < neededBigits
        invariant 0 <= i <= neededBigits == 3
        invariant exponent == 0 && used == 0
        invariant forall k | 0 <= k < CAPACITY :: bigits[k] < 0x1000_0000
        invariant forall k | i <= k < CAPACITY :: bigits[k] == 0
        invariant i == 1 ==> rest < 0x10_0000_0000
        invariant i == 2 ==> rest < 0x100
        invariant i == 3 ==> rest == 0
        invariant Acc(bigits[..], i, rest, value)
      {
        ghost var before := bigits[..];
        bigits[i] := rest % 0x1000_0000;
        assert bigits[..][..i] == before[..i];
        AccStep(before, bigits[..], i, rest, rest / 0x1000_0000, value, 0);
        rest := rest / 0x1000_0000;
        i := i + 1;
      }
      used := neededBigits;
      AccDone(bigits[..], 3, value);
      ValueDef();
      assert BPow(0) == 1 by { BPowZero(); }
      Clamp();
    }

    /** Copies another number; the source's self-assignment is the identity. */
    method AssignBignum(other: Bignum)
      requires Valid() && other.Valid()
      requires this == other || bigits != other.bigits
      modifies this, bigits
      ensures Valid() && Value() == old(other.Value())
    {
      hide Val, BPow;
      ghost var from := other.bigits[..];
      exponent := other.exponent;
      CopyBigits(other);
      ZeroFrom(other.used, other);
      used := other.used;
      assert bigits[..used] == from[..used];
    }

    method CopyBigits(other: Bignum)
      requires bigits.Length == other.bigits.Length == CAPACITY && other.used <= CAPACITY
      requires AreBigits(bigits[..]) && AreBigits(other.bigits[..])
      requires this == other || bigits != other.bigits
      modifies bigits
      ensures AreBigits(bigits[..]) && other.bigits[..] == old(other.bigits[..])
      ensures forall k | 0 <= k < other.used :: bigits[k] == other.bigits[k]
      ensures forall k | other.used <= k < CAPACITY :: bigits[k] == old(bigits[k])
    {
      var i := 0;
      ghost var from, a := other.bigits[..], bigits[..];
      while i < other.used
        invariant 0 <= i <= other.used
        invariant other.bigits[..] == from
        invariant forall k | 0 <= k < i :: bigits[k] == from[k]
        invariant forall k | i <= k < CAPACITY :: bigits[k] == a[k]
      {
        bigits[i] := other.bigits[i];
        i := i + 1;
      }
    }

    method ZeroFrom(start: nat, other: Bignum)
      requires bigits.Length == CAPACITY && start <= CAPACITY && used <= CAPACITY
      requires this == other ==> used <= start
      requires this == other || bigits != other.bigits
      modifies bigits
      ensures other.bigits[..] == old(other.bigits[..])
      ensures forall k | 0 <= k < start :: bigits[k] == old(bigits[k])
      ensures forall k | start <= k < CAPACITY :: bigits[k] == if k < used then 0 else old(bigits[k])
    {
      ghost var a := bigits[..];
      var i := start;
      while i < used
        invariant start <= i && (i <= used || used < start)
        invariant this == other ==> bigits[..] == a
        invariant forall k | 0 <= k < CAPACITY :: bigits[k] == if start <= k < i && k < used then 0 else a[k]
      {
        bigits[i] := 0;
        i := i + 1;
      }
    }

    /** Writes out a pending carry, as at the end of both multiplications. */
    method AppendCarry(c: DoubleChunk)
      requires Loose() && (c == 0 ==> IsClamped())
      requires Val(bigits[..used]) + c * BPow(used) < BPow(CAPACITY)
      modifies this, bigits
      ensures Loose() && IsClamped() && exponent == old(exponent)
      ensures old(used) <= used
      ensures Val(bigits[..used]) == old(Val(bigits[..used]) + c * BPow(used))
    {
      hide Val;
      hide Acc;
      hide BPow;
      hide Value;
      var carry: DoubleChunk := c;
      ghost var x := Val(bigits[..used]) + c * BPow(used);
      AccBegin(bigits[..], used, carry, x);
      while carry != 0
        invariant Loose() && exponent == old(exponent) && old(used) <= used
        invariant carry == 0 ==> IsClamped()
        invariant Acc(bigits[..], used, carry, x)
        decreases carry
      {
        assert used < CAPACITY by { CarryFits(bigits[..], used, carry, x); }
        ghost var before := bigits[..];
        bigits[used] := carry % 0x1000_0000;
        assert bigits[..][..used] == before[..used];
        AccStep(before, bigits[..], used, carry, carry / 0x1000_0000, x, 0);
        used := used + 1;
        carry := carry / 0x1000_0000;
      }
      AccDone(bigits[..], used, x);
    }

    static lemma CarryFits(s: seq<int>, j: nat, carry: int, x: int)
      requires |s| == CAPACITY && j <= CAPACITY && AreBigits(s)
      requires Acc(s, j, carry, x) && carry > 0 && x < BPow(CAPACITY)
      ensures j < CAPACITY
    {
      if j == CAPACITY {
        ValBound(s[..j]);
        MulLe(1, carry, BPow(j));
      }
    }

    method MultiplyByUInt32(factor: Chunk)
      requires Valid() && Value() * factor < BPow(CAPACITY + exponent)
      modifies this, bigits
      ensures Valid() && Value() == old(Value()) * factor
      ensures exponent == old(exponent) || used == 0
    {
      hide Val;
      hide Acc;
      hide BPow;
      hide Value;
      hide Part;
      if factor == 1 { return; }
      if factor == 0 {
        Zero();
        return;
      }
      if used == 0 {
        assert Value() == 0 by { ValueRange(); }
        return;
      }
      ValueDef();
      var carry: DoubleChunk := 0;
      ghost var a, n := bigits[..], used;
      ghost var x := 0;
      AccStart(a);
      PartStart(a, 0, factor);
      var i := 0;
      while i < used
        invariant 0 <= i <= used == n && exponent == old(exponent)
        invariant carry < factor
        invariant forall k | 0 <= k < CAPACITY :: bigits[k] < 0x1000_0000
        invariant forall k | i <= k < CAPACITY :: bigits[k] == a[k]
        invariant Acc(bigits[..], i, carry, Part(a, i, 0, factor))
      {
        ghost var before, c := bigits[..], carry;
        MulAddBounds(factor, bigits[i], carry);
        var product: DoubleChunk := factor * bigits[i] + carry;
        bigits[i] := product % 0x1000_0000;
        carry := product / 0x1000_0000;
        assert bigits[..][..i] == before[..i];
        AccStep(before, bigits[..], i, c, carry, Part(a, i, 0, factor), factor * a[i]);
        PartStep(a, i, 0, factor);
        i := i + 1;
      }
      FinishMultiply(a, factor, carry);
    }

    method Times10()
      requires Valid() && Value() < BPow(CAPACITY - 1)
      modifies this, bigits
      ensures Valid() && Value() == 10 * old(Value())
    {
      hide BPow, Value;
      ValueRange();
      BPowStep(CAPACITY - 1);
      PowMonotoneB(CAPACITY, CAPACITY + exponent);
      MultiplyByUInt32(10);
    }

    /** The common end of both multiplications. */
    method FinishMultiply(ghost a: seq<int>, ghost factor: int, carry: DoubleChunk)
      requires Loose() && 0 < used <= |a| && factor > 0
      requires AreBigits(a[..used]) && a[used - 1] != 0
      requires Val(a[..used]) * BPow(exponent) * factor < BPow(CAPACITY + exponent)
      requires Acc(bigits[..], used, carry, Part(a, used, 0, factor))
      modifies this, bigits
      ensures Valid() && exponent == old(exponent)
      ensures Value() == Val(a[..old(used)]) * BPow(exponent) * factor
    {
      hide Val;
      hide Acc;
      hide BPow;
      hide Value;
      hide Part;
      ghost var v, p := Val(a[..used]), BPow(exponent);
      PartFull(a, used, factor);
      ProductFits(a[..used], exponent, factor);
      AccDef(bigits[..], used, carry, factor * v);
      if carry == 0 {
        TopSet(bigits[..], used);
      }
      AppendCarry(carry);
      ValueDef();
      MulRotate(factor, v, p);
    }

    static lemma ProductFits(a: seq<int>, e: nat, factor: int)
      requires a != [] && AreBigits(a) && a[|a| - 1] != 0 && factor > 0
      requires Val(a) * BPow(e) * factor < BPow(CAPACITY + e)
      ensures BPow(|a| - 1) <= factor * Val(a) < BPow(CAPACITY)
    {
      hide Val, BPow;
      var v, p := Val(a), BPow(e);
      BPowAdd(CAPACITY, e);
      MulRotate(factor, v, p);
      if factor * v >= BPow(CAPACITY) { MulLe(BPow(CAPACITY), factor * v, p); }
      ValTop(a);
      MulLe(1, a[|a| - 1], BPow(|a| - 1));
      MulLe(1, factor, v);
    }

    static lemma MulRotate(f: int, v: int, p: int)
      ensures (f * v) * p == v * p * f
    {
    }

    /** One bigit times a 64-bit factor in two halves; the carry stays below the factor. */
    static method MultiplyBigit(low: DoubleChunk, high: DoubleChunk, bigit0: Chunk, carry0: DoubleChunk, ghost factor: DoubleChunk)
      returns (bigit: Chunk, carry: DoubleChunk)
      requires low < 0x1_0000_0000 && high < 0x1_0000_0000 && factor == low + high * 0x1_0000_0000
      requires bigit0 < 0x1000_0000 && carry0 < factor
      ensures bigit < 0x1000_0000 && carry < factor
      ensures carry0 + factor * bigit0 == bigit + 0x1000_0000 * carry
    {
      MulSplit(factor, low, high, bigit0, carry0);
      var productLow: DoubleChunk := low * bigit0;
      var productHigh: DoubleChunk := high * bigit0;
      SplitCarry(factor, productLow, productHigh, factor * bigit0, carry0);
      var tmp: DoubleChunk := carry0 % 0x1000_0000 + productLow;
      bigit := tmp % 0x1000_0000;
      carry := carry0 / 0x1000_0000 + tmp / 0x1000_0000 + productHigh * 16;
    }

    method MultiplyByUInt64(factor: DoubleChunk)
      requires Valid() && Value() * factor < BPow(CAPACITY + exponent)
      modifies this, bigits
      ensures Valid() && Value() == old(Value()) * factor
      ensures exponent == old(exponent) || used == 0
    {
      hide Val;
      hide Acc;
      hide BPow;
      hide Value;
      hide Part;
      if factor == 1 { return; }
      if factor == 0 {
        Zero();
        return;
      }
      ValueRange();
      ValueDef();
      var carry: DoubleChunk := 0;
      var low: DoubleChunk := factor % 0x1_0000_0000;
      var high: DoubleChunk := factor / 0x1_0000_0000;
      ghost var a, n := bigits[..], used;
      AccStart(a);
      PartStart(a, 0, factor);
      var i := 0;
      while i < used
        invariant 0 <= i <= used == n && exponent == old(exponent)
        invariant carry < factor
        invariant forall k | 0 <= k < CAPACITY :: bigits[k] < 0x1000_0000
        invariant forall k | i <= k < CAPACITY :: bigits[k] == a[k]
        invariant Acc(bigits[..], i, carry, Part(a, i, 0, factor))
      {
        ghost var before, c := bigits[..], carry;
        var bigit;
        bigit, carry := MultiplyBigit(low, high, bigits[i], carry, factor);
        bigits[i] := bigit;
        assert bigits[..][..i] == before[..i];
        AccStep(before, bigits[..], i, c, carry, Part(a, i, 0, factor), factor * a[i]);
        PartStep(a, i, 0, factor);
        i := i + 1;
      }
      if used > 0 {
        ValueDef();
        FinishMultiply(a, factor, carry);
      } else {
        ValueRange();
      }
    }

    method BigitsShiftLeft(shift: nat)
      requires Valid() && 0 < used < CAPACITY && shift < 28
      modifies this, bigits
      ensures Valid() && exponent == old(exponent) && used <= old(used) + 1
      ensures Value() == old(Value()) * Pow(2, shift)
    {
      hide Val;
      hide Acc;
      hide BPow;
      hide Value;
      hide Part;
      hide Pow;
      ValueDef();
      ghost var p, q := Pow(2, shift), Pow(2, 28 - shift);
      ShiftHalves(shift);
      var carry: Chunk := 0;
      ghost var a, n := bigits[..], used;
      AccStart(a);
      PartStart(a, 0, p);
      var i := 0;
      while i < used
        invariant 0 <= i <= used == n && exponent == old(exponent)
        invariant carry < p
        invariant forall k | 0 <= k < CAPACITY :: bigits[k] < 0x1000_0000
        invariant forall k | i <= k < CAPACITY :: bigits[k] == a[k]
        invariant Acc(bigits[..], i, carry, Part(a, i, 0, p))
      {
        ghost var before, c := bigits[..], carry;
        ShiftWord(bigits[i], p, q, carry);
        var newCarry: Chunk := bigits[i] / Pow(2, 28 - shift);
        bigits[i] := ((Pow(2, shift) * bigits[i]) % 0x1_0000_0000 + carry) % 0x1000_0000;
        carry := newCarry;
        assert bigits[..][..i] == before[..i];
        AccStep(before, bigits[..], i, c, carry, Part(a, i, 0, p), p * a[i]);
        PartStep(a, i, 0, p);
        i := i + 1;
      }
      PartFull(a, used, p);
      AccDef(bigits[..], used, carry, p * Val(a[..used]));
      ghost var w := bigits[..];
      if carry != 0 {
        bigits[used] := carry;
        used := used + 1;
        assert bigits[..][..n] == w[..n];
        ValPrefix(bigits[..], n);
      } else {
        ShiftTop(a[..used], p);
        TopSet(bigits[..], used);
      }
      ValueDef();
      MulRotate(p, Val(a[..n]), BPow(exponent));
    }

    static lemma ShiftHalves(shift: nat)
      requires shift < 28
      ensures Pow(2, shift) > 0 && Pow(2, 28 - shift) > 0
      ensures Pow(2, shift) * Pow(2, 28 - shift) == 0x1000_0000
      ensures Pow(2, shift) < 0x1000_0000
    {
      PowAdd(2, shift, 28 - shift);
      PowValues();
      PowStrict(2, shift, 28);
    }

    static lemma ShiftTop(a: seq<int>, p: int)
      requires a != [] && AreBigits(a) && a[|a| - 1] != 0 && p > 0
      ensures BPow(|a| - 1) <= p * Val(a)
    {
      hide Val, BPow;
      ValTop(a);
      MulLe(1, a[|a| - 1], BPow(|a| - 1));
      MulLe(1, p, Val(a));
    }

    method ShiftLeft(shift: nat)
      requires Valid() && (used == 0 || used + 1 <= CAPACITY)
      modifies this, bigits
      ensures Valid() && Value() == old(Value()) * Pow(2, shift)
      ensures used <= old(used) + 1
    {
      hide Val, BPow, Value, Pow;
      if used == 0 {
        ValueRange();
        return;
      }
      ValueDef();
      ghost var v, e := Val(bigits[..used]), exponent;
      exponent := exponent + shift / 28;
      var localShift := shift % 28;
      ValueDef();
      ShiftSplit(v, e, shift);
      BigitsShiftLeft(localShift);
    }

    static lemma ShiftSplit(v: int, e: nat, shift: nat)
      ensures v * BPow(e + shift / 28) * Pow(2, shift % 28) == v * BPow(e) * Pow(2, shift)
    {
      hide Val, BPow;
      var k, r := shift / 28, shift % 28;
      BPowAdd(e, k);
      BPowAsPow2(k);
      PowAdd(2, 28 * k, r);
      MulAssoc(v, BPow(e) * BPow(k), Pow(2, r));
      MulAssoc(BPow(e), BPow(k), Pow(2, r));
      MulAssoc(v, BPow(e), BPow(k) * Pow(2, r));
    }

    method MultiplyByPowerOfTen(power: nat, ghost room: nat := CAPACITY - 1)
      requires Valid() && room < CAPACITY && Value() * Pow(5, power) < BPow(room + exponent)
      modifies this, bigits
      ensures Valid() && Value() == old(Value()) * Pow(10, power)
      ensures used <= room + 1
    {
      hide BPow, Value, Pow, TimesFive;
      ValueRange();
      PowMonotoneB(room + exponent, CAPACITY - 1 + exponent);
      if power == 0 {
        PowZero(10);
        PowZero(5);
        LengthAtMost(room + exponent);
        return;
      }
      if used == 0 { return; }
      ghost var v, e := Value(), exponent;
      PowValues();
      FivePowers();
      TimesFiveDef(v, 0);
      TimesFiveDef(v, power);
      var remaining := power;
      while remaining >= 27
        invariant Valid() && used > 0 && exponent == e
        invariant 0 <= remaining <= power && Value() == TimesFive(v, power - remaining)
      {
        FitsBelow(v, power - remaining, 27, power, e, 0x6765_c793_fa10_079d);
        MultiplyByUInt64(0x6765_c793_fa10_079d);
        ValueRange();
        remaining := remaining - 27;
      }
      while remaining >= 13
        invariant Valid() && used > 0 && exponent == e
        invariant 0 <= remaining <= power && Value() == TimesFive(v, power - remaining)
      {
        FitsBelow(v, power - remaining, 13, power, e, 1220703125);
        MultiplyByUInt32(1220703125);
        ValueRange();
        remaining := remaining - 13;
      }
      if remaining > 0 {
        FitsBelow(v, power - remaining, remaining, power, e, FIVE_POWERS[remaining - 1]);
        MultiplyByUInt32(FIVE_POWERS[remaining - 1]);
        ValueRange();
      }
      FewerDigits(e, room);
      ShiftLeft(power);
      PowBaseMul(5, 2, power);
      MulAssoc(v, Pow(5, power), Pow(2, power));
    }

    lemma FewerDigits(e: nat, room: nat)
      requires Valid() && used > 0 && exponent == e && Value() < BPow(room + e)
      ensures used <= room
    {
      LengthAtMost(room + e);
    }

    static ghost function TimesFive(v: int, k: nat): int {
      v * Pow(5, k)
    }

    static lemma TimesFiveDef(v: int, k: nat)
      ensures TimesFive(v, k) == v * Pow(5, k)
      ensures TimesFive(v, 0) == v
    {
    }

    /** One multiplication by f = 5^step on the way to 5^power stays within the capacity. */
    static lemma FitsBelow(v: int, done: nat, step: nat, power: nat, e: nat, f: nat)
      requires 0 < v && done + step <= power && f == Pow(5, step)
      requires TimesFive(v, power) < BPow(CAPACITY - 1 + e)
      ensures TimesFive(v, done) * f == TimesFive(v, done + step)
      ensures 0 < TimesFive(v, done) * f < BPow(CAPACITY + e)
    {
      hide Pow, BPow;
      PowAdd(5, done, step);
      MulAssoc(v, Pow(5, done), Pow(5, step));
      PowMonotone(5, done + step, power);
      MulLe(Pow(5, done + step), Pow(5, power), v);
      BPowDef(CAPACITY - 1 + e);
      BPowDef(CAPACITY + e);
      PowMonotone(0x1000_0000, CAPACITY - 1 + e, CAPACITY + e);
      MulLt(0, v, Pow(5, done + step));
    }

    /** The copying loops of Align. */
    method MoveUp(zeroDigits: nat, ghost a: seq<int>)
      requires Loose() && a == bigits[..] && used + zeroDigits <= CAPACITY
      modifies bigits
      ensures forall k | 0 <= k < CAPACITY :: bigits[k] < 0x1000_0000
      ensures forall k | 0 <= k < zeroDigits :: bigits[k] == 0
      ensures forall k | zeroDigits <= k < used + zeroDigits :: bigits[k] == a[k - zeroDigits]
      ensures forall k | used + zeroDigits <= k < CAPACITY :: bigits[k] == 0
    {
      var i := used - 1;
      while i >= 0
        invariant -1 <= i < used
        invariant forall k | 0 <= k < CAPACITY :: bigits[k] < 0x1000_0000
        invariant forall k | i + zeroDigits < k < used + zeroDigits :: bigits[k] == a[k - zeroDigits]
        invariant forall k | 0 <= k <= i :: bigits[k] == a[k]
        invariant forall k | used + zeroDigits <= k < CAPACITY :: bigits[k] == 0
      {
        bigits[i + zeroDigits] := bigits[i];
        i := i - 1;
      }
      ClearLow(zeroDigits);
    }

    method ClearLow(zeroDigits: nat)
      requires bigits.Length == CAPACITY && zeroDigits <= CAPACITY
      modifies bigits
      ensures forall k | 0 <= k < zeroDigits :: bigits[k] == 0
      ensures forall k | zeroDigits <= k < CAPACITY :: bigits[k] == old(bigits[k])
    {
      for i := 0 to zeroDigits
        invariant forall k | 0 <= k < i :: bigits[k] == 0
        invariant forall k | i <= k < CAPACITY :: bigits[k] == old(bigits[k])
      {
        bigits[i] := 0;
      }
    }

    /** Turns hidden zero bigits into real ones. */
    method UnhideZeros(zeroDigits: nat)
      requires Valid() && 0 < used && zeroDigits <= exponent && used + zeroDigits <= CAPACITY
      modifies this, bigits
      ensures Valid() && Value() == old(Value())
      ensures used == old(used) + zeroDigits && exponent == old(exponent) - zeroDigits
    {
      hide Val, BPow, Value;
      ValueDef();
      ghost var a, n := bigits[..], used;
      MoveUp(zeroDigits, a);
      used := used + zeroDigits;
      exponent := exponent - zeroDigits;
      MovedUp(bigits[..], a, n, zeroDigits, exponent);
      ValueDef();
    }

    /** Appends zero bigits below so that the exponent is no greater than other's. */
    method Align(other: Bignum)
      requires Valid()
      requires exponent > other.exponent ==> BigitLength() - other.exponent <= CAPACITY
      modifies this, bigits
      ensures Valid() && Value() == old(Value()) && BigitLength() == old(BigitLength())
      ensures this != other ==> exponent == if old(exponent) > other.exponent then other.exponent else old(exponent)
      ensures exponent <= old(exponent) && (exponent == old(exponent) ==> used == old(used))
    {
      hide Val, BPow, Value;
      if exponent > other.exponent {
        UnhideZeros(exponent - other.exponent);
      }
    }

    static lemma MovedUp(s: seq<int>, a: seq<int>, n: nat, z: nat, e: nat)
      requires |s| == |a| == CAPACITY && 0 < n && n + z <= CAPACITY && a[n - 1] != 0
      requires forall k | 0 <= k < z :: s[k] == 0
      requires forall k | z <= k < n + z :: s[k] == a[k - z]
      ensures Val(s[..n + z]) * BPow(e) == Val(a[..n]) * BPow(e + z)
      ensures s[n + z - 1] != 0
    {
      hide Val, BPow;
      Moved(s[..n + z], a[..n], z, e);
    }

    static lemma Moved(s: seq<int>, a: seq<int>, z: nat, e: nat)
      requires |s| == |a| + z
      requires forall k | 0 <= k < z :: s[k] == 0
      requires forall k | z <= k < |s| :: s[k] == a[k - z]
      ensures Val(s) * BPow(e) == Val(a) * BPow(e + z)
    {
      hide Val, BPow;
      assert s == s[..z] + a;
      ValConcat(s[..z], a);
      ValZeros(s[..z]);
      BPowAdd(e, z);
      MulAssoc(Val(a), BPow(z), BPow(e));
    }

    /** The second loop of AddBignum: moves a carry up past the end of the other number. */
    method CarryUp(start: nat, c: Chunk, ghost a: seq<int>, ghost o: seq<int>, ghost off: nat, ghost m: nat, ghost top: nat)
      returns (pos: nat)
      requires bigits.Length == |a| == CAPACITY && m <= |o|
      requires off + m == start <= top < CAPACITY && c <= 1
      requires AreBigits(a) && AreBigits(o) && AreBigits(bigits[..])
      requires forall k | top <= k < CAPACITY :: a[k] == 0
      requires forall k | start <= k < CAPACITY :: bigits[k] == a[k]
      requires Summed(bigits[..], a, o, off, m, start, 1, c)
      modifies bigits
      ensures start <= pos <= top + 1 && (pos > start ==> bigits[pos - 1] != 0)
      ensures AreBigits(bigits[..])
      ensures forall k | pos <= k < CAPACITY :: bigits[k] == a[k]
      ensures Summed(bigits[..], a, o, off, m, pos, 1, 0)
    {
      hide Val, BPow, Summed;
      pos := start;
      var carry: Chunk := c;
      while carry != 0
        invariant start <= pos <= top + 1 && carry <= 1
        invariant forall k | 0 <= k < CAPACITY :: bigits[k] < 0x1000_0000
        invariant forall k | pos <= k < CAPACITY :: bigits[k] == a[k]
        invariant carry == 0 && pos > start ==> bigits[pos - 1] != 0
        invariant Summed(bigits[..], a, o, off, m, pos, 1, carry)
        decreases carry, CAPACITY - pos
      {
        if pos > top { SummedCarryEnds(bigits[..], a, o, off, m, pos, top, carry); }
        ghost var before, c := bigits[..], carry;
        var sum: Chunk := bigits[pos] + carry;
        bigits[pos] := sum % 0x1000_0000;
        carry := sum / 0x1000_0000;
        assert bigits[..][..pos] == before[..pos];
        SummedTail(before, bigits[..], a, o, off, m, pos, 1, c, carry);
        pos := pos + 1;
      }
    }

    /** The first loop of AddBignum: adds other's bigits, moved up by off, and returns the carry. */
    method AddLoop(other: Bignum, off: nat, ghost a: seq<int>) returns (carry: Chunk)
      requires other.Valid() && bigits != other.bigits
      requires bigits.Length == CAPACITY && a == bigits[..] && AreBigits(a)
      requires off + other.used <= CAPACITY
      modifies bigits
      ensures carry <= 1
      ensures AreBigits(bigits[..])
      ensures forall k | off + other.used <= k < CAPACITY :: bigits[k] == a[k]
      ensures Summed(bigits[..], a, other.bigits[..], off, other.used, off + other.used, 1, carry)
    {
      hide Val, BPow, Summed;
      ghost var o := other.bigits[..];
      var pos := off;
      carry := 0;
      SummedStart(a, o, off, 1);
      var i := 0;
      while i < other.used
        invariant 0 <= i <= other.used && pos == off + i && carry <= 1
        invariant forall k | 0 <= k < CAPACITY :: bigits[k] < 0x1000_0000
        invariant forall k | pos <= k < CAPACITY :: bigits[k] == a[k]
        invariant Summed(bigits[..], a, o, off, i, pos, 1, carry)
      {
        ghost var before, c := bigits[..], carry;
        var sum: Chunk := bigits[pos] + other.bigits[i] + carry;
        bigits[pos] := sum % 0x1000_0000;
        carry := sum / 0x1000_0000;
        assert bigits[..][..pos] == before[..pos];
        SummedStep(before, bigits[..], a, o, off, i, 1, c, carry);
        pos := pos + 1;
        i := i + 1;
      }
    }

    /** The end of AddBignum: sets the length. */
    method AddFinish(pos: nat, ghost a: seq<int>, ghost o: seq<int>, ghost off: nat, ghost m: nat)
      requires bigits.Length == |a| == CAPACITY && m <= |o| && off + m <= pos <= CAPACITY && used <= CAPACITY
      requires AreBigits(bigits[..]) && AreBigits(a) && AreBigits(o)
      requires used > 0 ==> a[used - 1] != 0
      requires m > 0 ==> o[m - 1] != 0
      requires m == 0 ==> off == 0
      requires exponent > 0 ==> used > 0 || m > 0
      requires forall k | used <= k < CAPACITY :: a[k] == 0
      requires forall k | pos <= k < CAPACITY :: bigits[k] == a[k]
      requires pos > off + m ==> bigits[pos - 1] != 0
      requires Summed(bigits[..], a, o, off, m, pos, 1, 0)
      modifies this
      ensures Valid()
      ensures Value() == Val(a[..old(used)]) * BPow(old(exponent)) + Val(o[..m]) * BPow(off + old(exponent))
    {
      hide Val, BPow, Value, Summed;
      ghost var n := used;
      used := if pos > used then pos else used;
      AddDone(bigits[..], a, o, off, m, pos, n, used, exponent);
      ValueDef();
    }

    method AddBignum(other: Bignum)
      requires Valid() && other.Valid() && bigits != other.bigits
      requires
        var top := if BigitLength() > other.BigitLength() then BigitLength() else other.BigitLength();
        var low := if exponent < other.exponent then exponent else other.exponent;
        1 + top - low <= CAPACITY
      modifies this, bigits
      ensures Valid() && Value() == old(Value()) + other.Value()
    {
      hide Val, BPow, Value, Summed;
      Align(other);
      ValueDef();
      other.ValueDef();
      ghost var a, o, n := bigits[..], other.bigits[..], used;
      var off := other.exponent - exponent;
      var carry := AddLoop(other, off, a);
      ghost var top := if off + other.used > used then off + other.used else used;
      var pos := CarryUp(off + other.used, carry, a, o, off, other.used, top);
      AddFinish(pos, a, o, off, other.used);
    }

    static lemma AddDone(s: seq<int>, a: seq<int>, o: seq<int>, off: nat, m: nat, pos: nat, n: nat, used: nat, e: nat)
      requires |s| == |a| == CAPACITY && m <= |o| && off + m <= pos && n <= CAPACITY
      requires used == (if pos > n then pos else n) && used <= CAPACITY
      requires AreBigits(s) && AreBigits(a) && AreBigits(o)
      requires n > 0 ==> a[n - 1] != 0
      requires m > 0 ==> o[m - 1] != 0
      requires m == 0 ==> off == 0
      requires forall k | n <= k < CAPACITY :: a[k] == 0
      requires forall k | pos <= k < CAPACITY :: s[k] == a[k]
      requires pos > off + m ==> s[pos - 1] != 0
      requires Summed(s, a, o, off, m, pos, 1, 0)
      ensures used > 0 ==> s[used - 1] != 0
      ensures forall k | used <= k < CAPACITY :: s[k] == 0
      ensures Val(s[..used]) * BPow(e) == Val(a[..n]) * BPow(e) + Val(o[..m]) * BPow(off + e)
    {
      hide Val, BPow, Summed;
      SummedDone(s, a, o, off, m, pos, used, 1);
      TrimZeros(a, n, used);
      AddTop(s[..used], a[..n], o[..m], off, used, pos);
      ScaleSum(Val(a[..n]), Val(o[..m]), off, e, 1);
    }

    static lemma AddTop(s: seq<int>, a: seq<int>, o: seq<int>, off: nat, used: nat, pos: nat)
      requires |s| == used && AreBigits(s) && AreBigits(a) && AreBigits(o)
      requires Val(s) == Val(a) + BPow(off) * Val(o)
      requires a != [] ==> a[|a| - 1] != 0
      requires o != [] ==> o[|o| - 1] != 0
      requires o == [] ==> off == 0
      requires used == |a| || used == pos == off + |o| || (used == pos && used > 0 && s[used - 1] != 0)
      ensures used > 0 ==> s[used - 1] != 0
    {
      hide Val, BPow, AreBigits;
      ValBound(a);
      ValBound(o);
      ProductOrder(BPow(off), 0, Val(o));
      if used > 0 && (used == |a| || used == off + |o|) {
        if used == |a| { LastTop(a); } else { HigherTop(o, off); }
        WholeTop(s);
      }
    }

    static lemma ProductOrder(p: int, x: int, y: int)
      requires 0 <= p && x <= y
      ensures p * x <= p * y
    {
    }

    static lemma HigherTop(o: seq<int>, off: nat)
      requires o != [] && AreBigits(o) && o[|o| - 1] != 0
      ensures BPow(off + |o| - 1) <= BPow(off) * Val(o)
    {
      hide Val, BPow;
      LastTop(o);
      BPowAdd(off, |o| - 1);
      ProductOrder(BPow(off), BPow(|o| - 1), Val(o));
    }

    static lemma WholeTop(s: seq<int>)
      requires s != [] && AreBigits(s) && BPow(|s| - 1) <= Val(s)
      ensures s[|s| - 1] != 0
    {
      assert s[..|s|] == s;
      TopSet(s, |s|);
    }

    /** A last bigit that is not zero counts. */
    static lemma LastTop(a: seq<int>)
      requires a != [] && AreBigits(a) && a[|a| - 1] != 0
      ensures BPow(|a| - 1) <= Val(a)
    {
      hide Val, BPow;
      ValTop(a);
      MulLe(1, a[|a| - 1], BPow(|a| - 1));
    }

    /** Factoring the exponent of the aligned number out of a sum. */
    static lemma ScaleSum(va: int, vo: int, off: nat, e: nat, f: int)
      ensures (va + f * (BPow(off) * vo)) * BPow(e) == va * BPow(e) + f * (vo * BPow(off + e))
      ensures f * (vo * BPow(off + e)) <= va * BPow(e) ==> f * (BPow(off) * vo) <= va
    {
      hide BPow;
      var p, q := BPow(off), BPow(e);
      BPowAdd(off, e);
      MulDist(va, f * (p * vo), q);
      MulAssoc(f, p * vo, q);
      MulAssoc(vo, p, q);
      if f * (p * vo) > va { MulLt(va, f * (p * vo), q); }
    }

    method AddUInt64(operand: DoubleChunk)
      requires Valid() && BigitLength() + 1 <= CAPACITY
      modifies this, bigits
      ensures Valid() && Value() == old(Value()) + operand
    {
      hide Val, BPow, Value;
      if operand == 0 { return; }
      var other := new Bignum();
      other.AssignUInt64(operand);
      other.SmallLength();
      AddBignum(other);
    }

    lemma One()
      requires Valid() && Value() == 1
      ensures BigitLength() <= 1
    {
      BPowStep(0);
      BPowZero();
      LengthAtMost(1);
    }

    lemma SmallLength()
      requires Valid() && Value() < 0x1_0000_0000_0000_0000
      ensures BigitLength() <= 3
    {
      PowValues();
      PowAdd(2, 64, 20);
      BPowAsPow2(3);
      LengthAtMost(3);
    }

    /** The last loop of both subtractions: moves a borrow up past the end of the other number. */
    method BorrowUp(start: nat, c: Chunk, ghost a: seq<int>, ghost o: seq<int>, ghost off: nat, ghost m: nat, ghost n: nat, ghost f: int)
      returns (j: nat)
      requires bigits.Length == |a| == CAPACITY && m <= |o|
      requires off + m == start <= n <= CAPACITY && c < 0x1000_0000
      requires AreBigits(a) && AreBigits(bigits[..])
      requires forall k | start <= k < CAPACITY :: bigits[k] == a[k]
      requires f * (BPow(off) * Val(o[..m])) <= Val(a[..n])
      requires Summed(bigits[..], a, o, off, m, start, -f, -(c as int))
      modifies bigits
      ensures start <= j <= n
      ensures AreBigits(bigits[..])
      ensures forall k | j <= k < CAPACITY :: bigits[k] == a[k]
      ensures Summed(bigits[..], a, o, off, m, j, -f, 0)
    {
      hide Val, BPow, Summed;
      var i := start;
      var borrow: Chunk := c;
      while borrow != 0
        invariant start <= i <= n && borrow < 0x1000_0000
        invariant forall k | 0 <= k < CAPACITY :: bigits[k] < 0x1000_0000
        invariant forall k | i <= k < CAPACITY :: bigits[k] == a[k]
        invariant Summed(bigits[..], a, o, off, m, i, -f, -(borrow as int))
        decreases n - i
      {
        if i == n { SummedBorrowEnds(bigits[..], a, o, off, m, n, f, borrow); }
        ghost var before, c := bigits[..], borrow;
        var difference: Chunk := (bigits[i] - borrow) % 0x1_0000_0000;
        BorrowWord(bigits[i], borrow, difference);
        bigits[i] := difference % 0x1000_0000;
        borrow := difference / 0x8000_0000;
        assert bigits[..][..i] == before[..i];
        SummedTail(before, bigits[..], a, o, off, m, i, -f, -(c as int), -(borrow as int));
        i := i + 1;
      }
      j := i;
    }

    /** The first loop of SubtractBignum: returns the borrow. */
    method SubtractLoop(other: Bignum, offset: nat, ghost a: seq<int>) returns (borrow: Chunk)
      requires other.Valid() && bigits != other.bigits
      requires bigits.Length == CAPACITY && a == bigits[..] && AreBigits(a)
      requires offset + other.used <= CAPACITY
      modifies bigits
      ensures borrow <= 1
      ensures AreBigits(bigits[..])
      ensures forall k | offset + other.used <= k < CAPACITY :: bigits[k] == a[k]
      ensures Summed(bigits[..], a, other.bigits[..], offset, other.used, offset + other.used, -1, -(borrow as int))
    {
      hide Val, BPow, Summed;
      ghost var o := other.bigits[..];
      borrow := 0;
      SummedStart(a, o, offset, -1);
      var i := 0;
      while i < other.used
        invariant 0 <= i <= other.used && borrow <= 1
        invariant forall k | 0 <= k < CAPACITY :: bigits[k] < 0x1000_0000
        invariant forall k | i + offset <= k < CAPACITY :: bigits[k] == a[k]
        invariant Summed(bigits[..], a, o, offset, i, i + offset, -1, -(borrow as int))
      {
        ghost var before, c, j := bigits[..], borrow, i + offset;
        var difference: Chunk := (bigits[i + offset] - other.bigits[i] - borrow) % 0x1_0000_0000;
        BorrowWord(bigits[i + offset], other.bigits[i] + borrow, difference);
        bigits[i + offset] := difference % 0x1000_0000;
        borrow := difference / 0x8000_0000;
        assert bigits[..][..j] == before[..j];
        SummedStep(before, bigits[..], a, o, offset, i, -1, -(c as int), -(borrow as int));
        i := i + 1;
      }
    }

    method SubtractBignum(other: Bignum)
      requires Valid() && other.Valid() && bigits != other.bigits
      requires other.Value() <= Value()
      requires exponent > other.exponent ==> BigitLength() - other.exponent <= CAPACITY
      modifies this, bigits
      ensures Valid() && Value() == old(Value()) - other.Value()
      ensures exponent <= old(exponent)
    {
      hide Val, BPow, Value, Summed;
      Align(other);
      ValueDef();
      other.ValueDef();
      ghost var a, o, n := bigits[..], other.bigits[..], used;
      var offset := other.exponent - exponent;
      SubtractBegin(a[..n], o[..other.used], offset, exponent, 1);
      var borrow := SubtractLoop(other, offset, a);
      var j := BorrowUp(offset + other.used, borrow, a, o, offset, other.used, n, 1);
      SubtractDone(bigits[..], a, o, offset, other.used, j, n, exponent, 1);
      ValueDef();
      Clamp();
    }

    static lemma SubtractDone(s: seq<int>, a: seq<int>, o: seq<int>, off: nat, m: nat, j: nat, n: nat, e: nat, f: int)
      requires j <= n <= |s| == |a| && m <= |o|
      requires forall k | j <= k < n :: s[k] == a[k]
      requires Summed(s, a, o, off, m, j, -f, 0)
      ensures Val(s[..n]) * BPow(e) == Val(a[..n]) * BPow(e) - f * (Val(o[..m]) * BPow(off + e))
    {
      hide Val, BPow, Summed;
      SummedDone(s, a, o, off, m, j, n, -f);
      ScaleSum(Val(a[..n]), Val(o[..m]), off, e, -f);
    }

    static lemma SubtractBegin(a: seq<int>, o: seq<int>, off: nat, e: nat, f: int)
      requires AreBigits(a) && AreBigits(o) && f >= 1
      requires o != [] ==> o[|o| - 1] != 0
      requires o == [] ==> off == 0
      requires f * (Val(o) * BPow(off + e)) <= Val(a) * BPow(e)
      ensures f * (BPow(off) * Val(o)) <= Val(a)
      ensures off + |o| <= |a|
    {
      hide Val, BPow;
      ScaleSum(Val(a), Val(o), off, e, f);
      ValBound(o);
      MulLe(0, Val(o), BPow(off));
      MulLe(1, f, BPow(off) * Val(o));
      FitsUnder(a, o, off);
    }

    /** A number no greater than a reaches no higher than a. */
    static lemma FitsUnder(a: seq<int>, o: seq<int>, off: nat)
      requires AreBigits(a) && AreBigits(o)
      requires o != [] ==> o[|o| - 1] != 0
      requires o == [] ==> off == 0
      requires BPow(off) * Val(o) <= Val(a)
      ensures off + |o| <= |a|
    {
      hide Val, BPow;
      if o != [] && off + |o| > |a| {
        ValTop(o);
        ValBound(a);
        MulLe(1, o[|o| - 1], BPow(|o| - 1));
        BPowAdd(off, |o| - 1);
        MulLe(BPow(|o| - 1), Val(o), BPow(off));
        BPowDef(|a|);
        BPowDef(off + |o| - 1);
        PowMonotone(0x1000_0000, |a|, off + |o| - 1);
      }
    }

    /** The first loop of SubtractTimes: returns the borrow, which never exceeds the factor. */
    method SubtractTimesLoop(other: Bignum, factor: nat, diff: nat, ghost a: seq<int>) returns (borrow: Chunk)
      requires other.Valid() && bigits != other.bigits && factor < 0x1_0000
      requires bigits.Length == CAPACITY && a == bigits[..] && AreBigits(a)
      requires diff + other.used <= CAPACITY
      modifies bigits
      ensures borrow <= factor
      ensures AreBigits(bigits[..])
      ensures forall k | diff + other.used <= k < CAPACITY :: bigits[k] == a[k]
      ensures Summed(bigits[..], a, other.bigits[..], diff, other.used, diff + other.used, -(factor as int), -(borrow as int))
    {
      hide Val, BPow, Summed;
      ghost var o := other.bigits[..];
      borrow := 0;
      SummedStart(a, o, diff, -(factor as int));
      var i := 0;
      while i < other.used
        invariant 0 <= i <= other.used && borrow <= factor
        invariant forall k | 0 <= k < CAPACITY :: bigits[k] < 0x1000_0000
        invariant forall k | i + diff <= k < CAPACITY :: bigits[k] == a[k]
        invariant Summed(bigits[..], a, o, diff, i, i + diff, -(factor as int), -(borrow as int))
      {
        ghost var before, c, j := bigits[..], borrow, i + diff;
        TimesFits(factor, other.bigits[i]);
        var product: DoubleChunk := factor * other.bigits[i];
        var remove: DoubleChunk := borrow + product;
        var difference: Chunk := (bigits[i + diff] - remove % 0x1000_0000) % 0x1_0000_0000;
        BorrowTimes(bigits[i + diff], other.bigits[i], factor, borrow, remove, difference,
                    difference / 0x8000_0000 + remove / 0x1000_0000);
        bigits[i + diff] := difference % 0x1000_0000;
        borrow := difference / 0x8000_0000 + remove / 0x1000_0000;
        assert bigits[..][..j] == before[..j];
        MulNegate(factor, o[i]);
        SummedStep(before, bigits[..], a, o, diff, i, -(factor as int), -(c as int), -(borrow as int));
        i := i + 1;
      }
    }

    /** A few single subtractions are cheaper than the loop. */
    method SubtractFew(other: Bignum, factor: nat)
      requires Valid() && other.Valid() && bigits != other.bigits
      requires exponent <= other.exponent && factor < 3
      requires factor * other.Value() <= Value()
      modifies this, bigits
      ensures Valid() && Value() == old(Value()) - factor * other.Value()
      ensures exponent <= old(exponent)
    {
      hide Val, BPow, Value;
      other.ValueRange();
      for i := 0 to factor
        invariant Valid() && exponent <= old(exponent)
        invariant i == 0 ==> Value() == old(Value())
        invariant i == 1 ==> Value() == old(Value()) - other.Value()
        invariant i == 2 ==> Value() == old(Value()) - other.Value() - other.Value()
      {
        SubtractBignum(other);
      }
    }

    method SubtractTimes(other: Bignum, factor: nat)
      requires Valid() && other.Valid() && bigits != other.bigits
      requires exponent <= other.exponent && factor < 0x1_0000
      requires factor * other.Value() <= Value()
      modifies this, bigits
      ensures Valid() && Value() == old(Value()) - factor * other.Value()
      ensures exponent <= old(exponent)
    {
      hide Val, BPow, Value, Summed;
      if factor < 3 {
        SubtractFew(other, factor);
        return;
      }
      ValueDef();
      other.ValueDef();
      ghost var a, o, n := bigits[..], other.bigits[..], used;
      var diff := other.exponent - exponent;
      SubtractBegin(a[..n], o[..other.used], diff, exponent, factor);
      var borrow := SubtractTimesLoop(other, factor, diff, a);
      var j := BorrowUp(diff + other.used, borrow, a, o, diff, other.used, n, factor);
      SubtractDone(bigits[..], a, o, diff, other.used, j, n, exponent, factor);
      ValueDef();
      if j < used { return; }
      Clamp();
    }

    // ----- comparison

    /** All bigits, including those hidden in the exponent. */
    ghost function Full(): seq<int>
      requires Loose()
      reads this, bigits
    {
      Zeros(exponent) + bigits[..used]
    }

    lemma FullValue()
      requires Loose()
      ensures |Full()| == BigitLength() && AreBigits(Full())
      ensures Val(Full()) == Value()
      ensures forall k | 0 <= k < exponent :: Full()[k] == 0
    {
      hide Val, BPow;
      ValConcat(Zeros(exponent), bigits[..used]);
      ValZeros(Zeros(exponent));
    }

    function BigitAt(index: nat): (c: Chunk)
      requires Loose()
      reads this, bigits
      ensures c == At(Full(), index)
    {
      if index >= BigitLength() then 0
      else if index < exponent then 0
      else bigits[index - exponent]
    }

    static method Compare(a: Bignum, b: Bignum) returns (r: int)
      requires a.Valid() && b.Valid()
      ensures r == Sign(a.Value() - b.Value())
    {
      hide Val, BPow, High, At;
      a.FullValue();
      b.FullValue();
      a.ValueRange();
      b.ValueRange();
      var bigitLengthA, bigitLengthB := a.BigitLength(), b.BigitLength();
      if bigitLengthA < bigitLengthB {
        LongerIsGreater(bigitLengthA, bigitLengthB);
        return -1;
      }
      if bigitLengthA > bigitLengthB {
        LongerIsGreater(bigitLengthB, bigitLengthA);
        return 1;
      }
      ghost var fa, fb := a.Full(), b.Full();
      var low := if a.exponent < b.exponent then a.exponent else b.exponent;
      var i := (bigitLengthA as int) - 1;
      HighAbove(fa, i + 1);
      HighAbove(fb, i + 1);
      while i >= low
        invariant low - 1 <= i < bigitLengthA
        invariant High(fa, i + 1) == High(fb, i + 1)
      {
        var bigitA, bigitB := a.BigitAt(i), b.BigitAt(i);
        CompareStep(fa, fb, i);
        if bigitA < bigitB { return -1; }
        if bigitA > bigitB { return 1; }
        i := i - 1;
      }
      HighExact(fa, low);
      HighExact(fb, low);
      return 0;
    }

    /** Compares a + b with c without adding. */
    static method PlusCompare(a: Bignum, b: Bignum, c: Bignum) returns (r: int)
      requires a.Valid() && b.Valid() && c.Valid()
      ensures r == Sign(a.Value() + b.Value() - c.Value())
      decreases a.BigitLength() < b.BigitLength()
    {
      hide Val, BPow, High, At;
      if a.BigitLength() < b.BigitLength() {
        r := PlusCompare(b, a, c);
        return;
      }
      a.ValueRange();
      b.ValueRange();
      c.ValueRange();
      if a.BigitLength() + 1 < c.BigitLength() {
        TwoShorter(a.BigitLength(), b.BigitLength(), c.BigitLength());
        return -1;
      }
      if a.BigitLength() > c.BigitLength() {
        LongerIsGreater(c.BigitLength(), a.BigitLength());
        return 1;
      }
      if a.exponent >= b.BigitLength() && a.BigitLength() < c.BigitLength() {
        a.HiddenRoom();
        LongerIsGreater(a.BigitLength(), c.BigitLength());
        PowMonotoneB(b.BigitLength(), a.exponent);
        return -1;
      }
      r := PlusCompareDigits(a, b, c);
    }

    /** With e hidden bigits a number stays B^e below the next power. */
    lemma HiddenRoom()
      requires Valid()
      ensures Value() + BPow(exponent) <= BPow(BigitLength())
    {
      hide Val, BPow;
      ValBound(bigits[..used]);
      BPowAdd(used, exponent);
      MulLe(Val(bigits[..used]) + 1, BPow(used), BPow(exponent));
    }

    /** The loop of PlusCompare, on numbers whose lengths do not decide. */
    static method PlusCompareDigits(a: Bignum, b: Bignum, c: Bignum) returns (r: int)
      requires a.Valid() && b.Valid() && c.Valid()
      requires b.BigitLength() <= a.BigitLength() <= c.BigitLength()
      ensures r == Sign(a.Value() + b.Value() - c.Value())
    {
      hide Val, BPow, High, At;
      a.FullValue();
      b.FullValue();
      c.FullValue();
      ghost var fa, fb, fc := a.Full(), b.Full(), c.Full();
      var borrow: Chunk := 0;
      var minExponent := Min(Min(a.exponent, b.exponent), c.exponent);
      var i := (c.BigitLength() as int) - 1;
      HighAbove(fa, i + 1);
      HighAbove(fb, i + 1);
      HighAbove(fc, i + 1);
      ghost var d := 0;
      while i >= minExponent
        invariant minExponent - 1 <= i < c.BigitLength()
        invariant 0 <= d <= 1 && borrow == d * 0x1000_0000
        invariant High(fc, i + 1) - High(fa, i + 1) - High(fb, i + 1) == d
      {
        var chunkA, chunkB, chunkC := a.BigitAt(i), b.BigitAt(i), c.BigitAt(i);
        PlusStep(fa, fb, fc, i, d);
        var sum: Chunk := chunkA + chunkB;
        if sum > chunkC + borrow { return 1; }
        borrow := chunkC + borrow - sum;
        if borrow > 1 { return -1; }
        d := borrow;
        borrow := borrow * 0x1000_0000;
        i := i - 1;
      }
      HighExact(fa, minExponent);
      HighExact(fb, minExponent);
      HighExact(fc, minExponent);
      ExactDifference(High(fa, minExponent), High(fb, minExponent), High(fc, minExponent), d, BPow(minExponent));
      if borrow == 0 { return 0; }
      return -1;
    }

    // ----- division with a small quotient

    /** The top bigit pins the value to one step of its weight; a single bigit is the whole value. */
    lemma TopRange()
      requires Valid() && used > 0
      ensures bigits[used - 1] * BPow(BigitLength() - 1) <= Value()
      ensures Value() < (bigits[used - 1] + 1) * BPow(BigitLength() - 1)
      ensures used == 1 ==> Value() == bigits[used - 1] * BPow(BigitLength() - 1)
    {
      hide Val, BPow;
      var t, p, e := bigits[used - 1] as int, BPow(used - 1), BPow(exponent);
      ValTop(bigits[..used]);
      BPowAdd(used - 1, exponent);
      MulLe(t * p, Val(bigits[..used]), e);
      MulLt(Val(bigits[..used]), (t + 1) * p, e);
      MulAssoc(t, p, e);
      MulAssoc(t + 1, p, e);
      if used == 1 {
        ValPrefix(bigits[..], 0);
        EmptyVal(bigits[..]);
        BPowZero();
      }
    }

    static lemma EmptyVal(s: seq<int>)
      ensures Val(s[..0]) == 0
    {
    }

    /** A quotient below 16 makes the divisor's top bigit as large as the source asserts. */
    lemma SmallQuotientTop(other: Bignum)
      requires Valid() && other.Valid() && other.used > 0
      requires Value() < 16 * other.Value() && BigitLength() > other.BigitLength()
      ensures other.bigits[other.used - 1] >= 0x1000_0000 / 16
    {
      hide Val, BPow;
      ValueRange();
      other.TopRange();
      var n, t := other.BigitLength(), other.bigits[other.used - 1];
      LongerIsGreater(n, BigitLength());
      BPowStep(n - 1);
      if t < 0x100_0000 { MulLe(t + 1, 0x100_0000, BPow(n - 1)); }
    }

    /**
     Quotient and remainder when the quotient fits 16 bits and, if the divisor is shorter, its
     top bigit is at least 2^28/16. The lengths that are asserted to agree between the loops do so unless
     LengthsDisagree.
     */
    method DivideModuloIntBignum(other: Bignum) returns (result: UInt16, ghost agreed: bool)
      requires Valid() && other.Valid() && bigits != other.bigits && other.used > 0
      requires Value() < 0x1_0000 * other.Value()
      requires BigitLength() > other.BigitLength() ==> other.bigits[other.used - 1] >= 0x1000_0000 / 16
      requires exponent > other.exponent ==> BigitLength() - other.exponent <= CAPACITY
      modifies this, bigits
      ensures Valid()
      ensures old(Value()) == result * other.Value() + Value()
      ensures 0 <= Value() < other.Value()
      ensures agreed <==> !LengthsDisagree(old(Value()), other.Value(), other.BigitLength())
    {
      hide Val, BPow, Value, Valid, Loose, LengthsDisagree;
      ValueRange();
      other.ValueRange();
      if BigitLength() < other.BigitLength() {
        LongerIsGreater(BigitLength(), other.BigitLength());
        NeverLonger(Value(), BigitLength(), other.Value(), other.BigitLength());
        return 0, true;
      }
      ghost var v, ov, n := Value(), other.Value(), other.BigitLength();
      Align(other);
      result := RemoveLongParts(other);
      agreed := BigitLength() == n;
      StillSmall(v, ov, result, Value());
      var quotient := DivideSameLength(other);
      ghost var rest := Value();
      CombineQuotients(v, ov, result, quotient, rest);
      result := result + quotient;
    }

    /** The first loop of the division: takes off top-bigit multiples until the lengths agree. */
    method RemoveLongParts(other: Bignum) returns (result: UInt16)
      requires Valid() && other.Valid() && bigits != other.bigits && other.used > 0
      requires exponent <= other.exponent && BigitLength() >= other.BigitLength()
      requires Value() < 0x1_0000 * other.Value()
      requires BigitLength() > other.BigitLength() ==> other.bigits[other.used - 1] >= 0x1000_0000 / 16
      modifies this, bigits
      ensures Valid() && exponent <= other.exponent && 0 < Value()
      ensures old(Value()) == result * other.Value() + Value()
      ensures BigitLength() <= other.BigitLength()
      ensures BigitLength() < other.BigitLength() ==>
                other.used >= 2 && other.bigits[other.used - 1] == 0xFFF_FFFF
      ensures BigitLength() < other.BigitLength() <==>
                LengthsDisagree(old(Value()), other.Value(), other.BigitLength())
    {
      hide Val, BPow, Value, LengthsDisagree;
      result := 0;
      ghost var v, ov, n := Value(), other.Value(), other.BigitLength();
      ValueRange();
      other.ValueRange();
      ghost var longer := BigitLength() > n;
      ghost var length := BigitLength();
      while BigitLength() > other.BigitLength()
        invariant Valid() && exponent <= other.exponent && 0 < Value()
        invariant v == result * ov + Value() && Value() < 0x1_0000 * ov
        invariant BigitLength() < n ==> other.used >= 2 && other.bigits[other.used - 1] == 0xFFF_FFFF
        invariant if longer then BigitLength() > n || BPow(n) - ov <= Value() else BigitLength() == n
        decreases Value()
      {
        var factor := bigits[used - 1];
        OneLonger(other);
        ghost var w := Value();
        SubtractTimes(other, factor);
        AddQuotient(v, ov, result, factor, w, Value());
        result := result + factor;
        if BigitLength() < n {
          ValueRange();
          LongerIsGreater(BigitLength(), n);
          other.NearlyFull(n);
        }
      }
      ValueRange();
      WhatIsLeft(v, length, ov, n, result, Value(), BigitLength());
    }

    static lemma NeverLonger(v: int, length: nat, o: int, n: nat)
      requires 0 <= v < BPow(length) && length <= n
      ensures !LengthsDisagree(v, o, n)
    {
      PowMonotoneB(length, n);
    }

    /** What the first loop of the division leaves is too short exactly when it is the rest, and the rest is. */
    static lemma WhatIsLeft(v: int, length: nat, o: int, n: nat, q: nat, w: int, left: nat)
      requires 0 < v < BPow(length) && 0 < length && BPow(length - 1) <= v && 0 < n && BPow(n - 1) <= o < BPow(n)
      requires v == q * o + w && 0 < w < BPow(left) && 0 < left <= n && BPow(left - 1) <= w && n <= length
      requires if length > n then BPow(n) - o <= w else left == n
      ensures left < n <==> LengthsDisagree(v, o, n)
    {
      hide BPow;
      if length == n {
        NeverLonger(v, length, o, n);
      } else {
        LongerIsGreater(n, length);
        if left < n { LongerIsGreater(left, n); }
        if w < o { RestIs(v, o, q, w); } else { RestBelow(v, o, q, w); }
      }
    }

    lemma OneLonger(other: Bignum)
      requires Valid() && other.Valid() && other.used > 0
      requires BigitLength() > other.BigitLength()
      requires Value() < 0x1_0000 * other.Value()
      ensures used > 0 && 0 < bigits[used - 1] < 0x1_0000
      ensures bigits[used - 1] * other.Value() <= Value()
      ensures Value() - bigits[used - 1] * other.Value() >= BPow(other.BigitLength()) - other.Value() > 0
      ensures Value() - bigits[used - 1] * other.Value() < Value()
    {
      hide Val, BPow;
      var n, v := other.BigitLength(), Value();
      ValueRange();
      other.ValueRange();
      LongerIsGreater(n, BigitLength());
      if BigitLength() > n + 1 {
        LongerIsGreater(n + 1, BigitLength());
        BPowStep(n);
      }
      TopRange();
      TopMultiples(v, other.Value(), bigits[used - 1], BPow(n));
    }

    lemma NearlyFull(n: nat)
      requires Valid() && used > 0 && BigitLength() == n
      requires BPow(n) - Value() < BPow(n - 1)
      ensures used >= 2 && bigits[used - 1] == 0xFFF_FFFF
    {
      hide Val, BPow;
      var t, p := bigits[used - 1] as int, BPow(n - 1);
      BPowStep(n - 1);
      TopRange();
      if t < 0xFFF_FFFF { MulLe(t + 1, 0xFFF_FFFF, p); }
      if used == 1 { MulLe(t, 0xFFF_FFFF, p); }
    }

    /** Lowering the top bigit lowers the value by that many top places. */
    static lemma ReplaceTop(s: seq<int>, t: seq<int>, e: nat)
      requires 0 < |s| == |t| && s[..|s| - 1] == t[..|s| - 1]
      ensures Val(t) * BPow(e) == Val(s) * BPow(e) - (s[|s| - 1] - t[|s| - 1]) * BPow(|s| - 1 + e)
    {
      var n := |s| - 1;
      BPowAdd(n, e);
      var x, y, p, q := s[n], t[n], BPow(n), BPow(e);
      MulDist(Val(s[..n]), x * p, q);
      MulDist(Val(s[..n]), y * p, q);
      MulAssoc(x, p, q);
      MulAssoc(y, p, q);
      MulDist(x, y, p * q);
    }

    /** The estimate also does no harm when this is shorter, which needs a divisor with top bigit 2^28-1. */
    lemma EstimateHolds(other: Bignum)
      requires Valid() && other.Valid() && used > 0 && other.used > 0
      requires BigitLength() <= other.BigitLength()
      requires Value() < 0x1_0000 * other.Value()
      requires BigitLength() < other.BigitLength() ==> other.bigits[other.used - 1] == 0xFFF_FFFF
      ensures
        var t, b, v, o := bigits[used - 1] as int, other.bigits[other.used - 1] as int, Value(), other.Value();
        var e := SmallDivision.Quotient(t, b + 1);
        && 0 <= e < 0x1_0000 && e * o <= v
        && b * (e + 1) < 0x1_0000_0000
        && (b * (e + 1) > t ==> v - e * o < o)
    {
      hide Val, BPow;
      var t, b, v, o := bigits[used - 1] as int, other.bigits[other.used - 1] as int, Value(), other.Value();
      ValueRange();
      other.ValueRange();
      if BigitLength() < other.BigitLength() {
        LongerIsGreater(BigitLength(), other.BigitLength());
      } else {
        TopRange();
        other.TopRange();
        Estimate(v, t, o, b, SmallDivision.Quotient(t, b + 1), BPow(BigitLength() - 1));
      }
    }

    /** Division by a one-bigit number of the same length, which only changes the top bigit. */
    method DivideSingle(other: Bignum) returns (result: UInt16)
      requires Valid() && other.Valid() && bigits != other.bigits && other.used == 1
      requires exponent <= other.exponent && BigitLength() == other.BigitLength() && 0 < used
      requires Value() < 0x1_0000 * other.Value()
      modifies this, bigits
      ensures Valid()
      ensures old(Value()) == result * other.Value() + Value()
      ensures 0 <= Value() < other.Value()
    {
      hide Val, BPow, Value, SmallDivision.Quotient;
      ValueDef();
      TopRange();
      other.TopRange();
      var thisBigit := bigits[used - 1];
      var otherBigit := other.bigits[0];
      ghost var p, a := BPow(BigitLength() - 1), bigits[..];
      var quotient: Chunk := SmallDivision.Quotient(thisBigit, otherBigit);
      SingleDivision(Value(), thisBigit, otherBigit, quotient, p);
      bigits[used - 1] := thisBigit - otherBigit * quotient;
      ReplaceTop(a[..used], bigits[..used], exponent);
      ValueDef();
      Clamp();
      return quotient;
    }

    /** Division of numbers whose lengths agree, or of a shorter one by a divisor with top bigit 2^28-1. */
    method DivideSameLength(other: Bignum) returns (result: UInt16)
      requires Valid() && other.Valid() && bigits != other.bigits && other.used > 0
      requires exponent <= other.exponent && BigitLength() <= other.BigitLength() && 0 < Value()
      requires Value() < 0x1_0000 * other.Value()
      requires BigitLength() < other.BigitLength() ==>
                other.used >= 2 && other.bigits[other.used - 1] == 0xFFF_FFFF
      modifies this, bigits
      ensures Valid()
      ensures old(Value()) == result * other.Value() + Value()
      ensures 0 <= Value() < other.Value()
    {
      hide Val, BPow, Value, SmallDivision.Quotient;
      ValueRange();
      if other.used == 1 {
        result := DivideSingle(other);
        return;
      }
      other.ValueRange();
      var thisBigit := bigits[used - 1];
      var otherBigit := other.bigits[other.used - 1];
      ghost var v, ov := Value(), other.Value();
      EstimateHolds(other);
      var divisionEstimate: UInt16 := SmallDivision.Quotient(thisBigit, otherBigit + 1);
      result := divisionEstimate;
      SubtractTimes(other, divisionEstimate);
      ValueRange();
      var over: Chunk := otherBigit * (divisionEstimate + 1);
      if over > thisBigit { return; }
      result := SubtractWhileFits(other, result, v);
    }

    /** The last loop of the division: takes other off until it no longer fits. */
    method SubtractWhileFits(other: Bignum, start: UInt16, ghost v: int) returns (result: UInt16)
      requires Valid() && other.Valid() && bigits != other.bigits && other.used > 0
      requires exponent <= other.exponent
      requires v == start * other.Value() + Value() && v < 0x1_0000 * other.Value()
      modifies this, bigits
      ensures Valid()
      ensures v == result * other.Value() + Value() && 0 <= Value() < other.Value()
    {
      hide Val, BPow, Value;
      ghost var ov := other.Value();
      result := start;
      ValueRange();
      other.ValueRange();
      var comparison := Compare(other, this);
      while comparison <= 0
        invariant Valid() && exponent <= other.exponent && 0 <= Value()
        invariant v == result * ov + Value()
        invariant comparison == Sign(ov - Value())
        decreases Value()
      {
        OneMore(v, ov, result, Value());
        SubtractBignum(other);
        ValueRange();
        result := result + 1;
        comparison := Compare(other, this);
      }
    }

    // ----- squaring and powers

    /** One column of the square: adds its terms, read from the copy at offset n, to the accumulator. */
    method AddColumn(n: nat, k: nat, first: nat, last: nat, start: DoubleChunk, ghost a: seq<int>)
      returns (accumulator: DoubleChunk)
      requires bigits.Length == CAPACITY && |a| == n && 2 * n <= CAPACITY && AreBigits(a)
      requires first <= last <= n && last <= k + 1 && k < first + n
      requires forall p | n <= p < 2 * n && k < p :: bigits[p] == a[p - n]
      requires start < 0x4000_0000_0000_0000
      ensures accumulator == start + Column(a, k, last) - Column(a, k, first)
      ensures accumulator < 0x8000_0000_0000_0000
    {
      hide Column;
      accumulator := start;
      ColumnSmall(a, k, first);
      var index2 := first;
      while index2 < last
        invariant first <= index2 <= last && 0 <= Column(a, k, index2) <= 0x4000_0000_0000_0000
        invariant accumulator == start + Column(a, k, index2) - Column(a, k, first)
      {
        var chunk1: Chunk, chunk2: Chunk := bigits[n + (k - index2)], bigits[n + index2];
        ColumnGrows(a, k, index2, chunk1, chunk2);
        accumulator := accumulator + (chunk1 as int) * (chunk2 as int);
        index2 := index2 + 1;
      }
    }

    method Square()
      requires Valid() && 2 * used <= CAPACITY
      modifies this, bigits
      ensures Valid() && Value() == old(Value()) * old(Value())
      ensures exponent == 2 * old(exponent) || used == 0
    {
      hide Val, BPow, Value, Column, Columns, Acc;
      ValueDef();
      ghost var a, e := bigits[..used], exponent;
      var n := used;
      var i := 0;
      while i < n
        invariant 0 <= i <= n == used && exponent == e
        invariant forall k | 0 <= k < CAPACITY :: bigits[k] < 0x1000_0000
        invariant forall k | 0 <= k < n :: bigits[k] == a[k]
        invariant forall k | n <= k < n + i :: bigits[k] == a[k - n]
        invariant forall k | n + i <= k < CAPACITY :: bigits[k] == 0
      {
        bigits[n + i] := bigits[i];
        i := i + 1;
      }
      SquareColumns(n, a);
      used := 2 * n;
      exponent := exponent * 2;
      ValueDef();
      SquareScale(Val(a), e);
      Clamp();
    }

    static lemma SquareScale(v: int, e: nat)
      ensures (v * v) * BPow(2 * e) == (v * BPow(e)) * (v * BPow(e))
    {
      hide BPow;
      BPowAdd(e, e);
      var p := BPow(e);
      MulAssoc(v * v, p, p);
      MulAssoc(v, v, p);
      MulAssoc(v, v * p, p);
      MulAssoc(v, p, v * p);
      assert v * p * p == p * (v * p);
    }

    /** One round of the column loops of Square: column k, plus what is carried in, fills cell k. */
    method SquareColumn(n: nat, k: nat, c: DoubleChunk, ghost a: seq<int>) returns (accumulator: DoubleChunk)
      requires bigits.Length == CAPACITY && |a| == n && k < 2 * n <= CAPACITY && AreBigits(a)
      requires AreBigits(bigits[..]) && c < 0x4000_0000_0000_0000
      requires forall p | n <= p < 2 * n && k <= p :: bigits[p] == a[p - n]
      requires Acc(bigits[..], k, c, Columns(a, k, n))
      modifies bigits
      ensures bigits[..] == old(bigits[..])[k := bigits[k]] && bigits[k] < 0x1000_0000
      ensures accumulator < 0x4000_0000_0000_0000
      ensures Acc(bigits[..], k + 1, accumulator, Columns(a, k + 1, n))
    {
      hide Val, BPow, Column, Columns, Acc;
      ColumnBound(a, k, n);
      if k < n {
        accumulator := AddColumn(n, k, 0, k + 1, c, a);
        ColumnComplete(a, k, n);
        ColumnNone(a, k);
      } else {
        accumulator := AddColumn(n, k, k - n + 1, n, c, a);
        ColumnEmpty(a, k, k - n + 1);
      }
      ghost var before, sum := bigits[..], accumulator;
      MaskedWord(sum);
      bigits[k] := accumulator % 0x1_0000_0000 % 0x1000_0000;
      accumulator := accumulator / 0x1000_0000;
      assert bigits[..] == before[k := bigits[k]];
      AccStep(before, bigits[..], k, c, accumulator, Columns(a, k, n), Column(a, k, n));
      ColumnsStep(a, k);
    }

    /** Both column loops of Square, on a number copied to the cells from n up. */
    method SquareColumns(n: nat, ghost a: seq<int>)
      requires bigits.Length == CAPACITY && |a| == n && 2 * n <= CAPACITY && AreBigits(a)
      requires AreBigits(bigits[..])
      requires forall k | n <= k < 2 * n :: bigits[k] == a[k - n]
      requires forall k | 2 * n <= k < CAPACITY :: bigits[k] == 0
      modifies bigits
      ensures AreBigits(bigits[..])
      ensures forall k | 2 * n <= k < CAPACITY :: bigits[k] == 0
      ensures Val(bigits[..2 * n]) == Val(a) * Val(a)
    {
      hide Val, BPow, Column, Columns, Acc;
      var accumulator: DoubleChunk := 0;
      AccZero(bigits[..], 0);
      NoColumnsYet(a);
      var k := 0;
      while k < 2 * n
        invariant 0 <= k <= 2 * n && accumulator < 0x4000_0000_0000_0000
        invariant forall j | 0 <= j < CAPACITY :: bigits[j] < 0x1000_0000
        invariant forall j | n <= j < 2 * n && k <= j :: bigits[j] == a[j - n]
        invariant forall j | 2 * n <= j < CAPACITY :: bigits[j] == 0
        invariant Acc(bigits[..], k, accumulator, Columns(a, k, n))
      {
        ghost var before := bigits[..];
        accumulator := SquareColumn(n, k, accumulator, a);
        assert forall j | 0 <= j < CAPACITY && j != k :: bigits[..][j] == before[j];
        k := k + 1;
      }
      SquareDone(bigits[..], a, accumulator);
    }

    static lemma MaskedWord(x: int)
      requires 0 <= x
      ensures x == x % 0x1_0000_0000 % 0x1000_0000 + 0x1000_0000 * (x / 0x1000_0000)
      ensures 0 <= x % 0x1_0000_0000 % 0x1000_0000 < 0x1000_0000
      ensures x < 0x8000_0000_0000_0000 ==> 0 <= x / 0x1000_0000 < 0x10_0000_0000
    {
      var q, r := x / 0x1000_0000, x % 0x1000_0000;
      DivUnique(x, 0x1_0000_0000, q / 16, (q % 16) * 0x1000_0000 + r);
      DivUnique((q % 16) * 0x1000_0000 + r, 0x1000_0000, q % 16, r);
    }

    static lemma NoColumnsYet(a: seq<int>)
      ensures Columns(a, 0, |a|) == 0
    {
    }

    static lemma ColumnNone(a: seq<int>, k: nat)
      ensures Column(a, k, 0) == 0
    {
    }

    /** The square fits twice the length, so nothing is left in the accumulator. */
    static lemma SquareDone(s: seq<int>, a: seq<int>, c: int)
      requires AreBigits(s) && AreBigits(a) && 2 * |a| <= |s| && 0 <= c
      requires Acc(s, 2 * |a|, c, Columns(a, 2 * |a|, |a|))
      ensures c == 0
      ensures Val(s[..2 * |a|]) == Val(a) * Val(a)
    {
      hide Val, BPow, Columns, Acc;
      var n, v, p := |a|, Val(a), BPow(|a|);
      ColumnsSquare(a);
      AccDef(s, 2 * n, c, v * v);
      ValBound(a);
      ValBound(s[..2 * n]);
      BPowAdd(n, n);
      MulLe(v, p, v);
      MulLt(v, p, p);
      if c > 0 { MulLe(1, c, BPow(2 * n)); }
    }

    /** The 64-bit phase of AssignPowerUInt16: stops when the next square might not fit. */
    static method PowerInWord(base: UInt16, bitSize: nat, powerExponent: nat, firstMask: nat)
      returns (thisValue: DoubleChunk, delayedMultiplication: bool, mask: nat)
      requires 0 < base < Pow(2, bitSize) && bitSize <= 16 && IsMask(firstMask)
      requires Powered(base, base, powerExponent, firstMask)
      ensures IsMask(mask)
      ensures Powered(if delayedMultiplication then thisValue * base else thisValue, base, powerExponent, mask)
    {
      hide Pow, Powered, IsMask;
      thisValue, delayedMultiplication, mask := base, false, firstMask;
      while mask != 0 && thisValue <= 0xFFFF_FFFF
        invariant IsMask(mask)
        invariant delayedMultiplication ==> thisValue > 0xFFFF_FFFF
        invariant !delayedMultiplication ==> Powered(thisValue, base, powerExponent, mask)
        invariant delayedMultiplication ==> Powered(thisValue * base, base, powerExponent, mask)
        decreases mask
      {
        PoweredStep(thisValue, base, powerExponent, mask);
        DoneStep(powerExponent, mask);
        MaskHalf(mask);
        SquareFits(thisValue);
        thisValue := thisValue * thisValue;
        if (powerExponent / mask) % 2 != 0 {
          var highBitsZero := thisValue < Pow(2, 64 - bitSize);
          WordRoom(thisValue, base, bitSize);
          if highBitsZero {
            thisValue := thisValue * base;
          } else {
            delayedMultiplication := true;
          }
        }
        mask := mask / 2;
      }
    }

    static lemma MaskHalf(m: nat)
      requires IsMask(m) && m > 0
      ensures IsMask(m / 2) && m / 2 < m
    {
    }

    static lemma SquareFits(v: int)
      requires 0 <= v <= 0xFFFF_FFFF
      ensures 0 <= v * v < 0x1_0000_0000_0000_0000
    {
      MulLe(v, 0xFFFF_FFFF, v);
    }

    /** Room below 2^(64-b) leaves 64 bits for a factor of b bits; above it the value exceeds 32 bits. */
    static lemma WordRoom(v: int, base: int, b: nat)
      requires 0 <= v && 0 < base < Pow(2, b) && b <= 16
      ensures v < Pow(2, 64 - b) ==> 0 <= v * base < 0x1_0000_0000_0000_0000
      ensures v >= Pow(2, 64 - b) ==> v > 0xFFFF_FFFF
    {
      hide Pow;
      PowAdd(2, 64 - b, b);
      PowValues();
      if v < Pow(2, 64 - b) { ProductBelow(v, base, Pow(2, 64 - b), Pow(2, b)); }
      PowStrict(2, 32, 64 - b);
    }

    /** The big phase of AssignPowerUInt16. */
    method PowerInBigits(base: UInt16, powerExponent: nat, firstMask: nat, ghost b: nat)
      requires Valid() && exponent == 0 && 0 < base < Pow(2, b) && 0 <= b * powerExponent
      requires b * powerExponent / 28 + 2 <= CAPACITY
      requires IsMask(firstMask) && Powered(Value(), base, powerExponent, firstMask)
      modifies this, bigits
      ensures Valid() && exponent == 0 && Value() == Pow(base, powerExponent)
    {
      hide Pow, Powered, IsMask, BPow, Value;
      var mask := firstMask;
      while mask != 0
        invariant Valid() && exponent == 0 && IsMask(mask)
        invariant Powered(Value(), base, powerExponent, mask)
        decreases mask
      {
        PoweredStep(Value(), base, powerExponent, mask);
        DoneStep(powerExponent, mask);
        MaskHalf(mask);
        PowerRoom(base, b, powerExponent, mask, Value());
        LengthAtMost(CAPACITY / 2);
        Square();
        if (powerExponent / mask) % 2 != 0 {
          BPowEq(CAPACITY + exponent, CAPACITY);
          MultiplyByUInt32(base);
        }
        mask := mask / 2;
      }
      PoweredEnd(Value(), base, powerExponent);
    }

    static lemma BPowEq(m: nat, n: nat)
      requires m == n
      ensures BPow(m) == BPow(n)
    {
    }

    /** No intermediate power exceeds the capacity that the final size was checked against. */
    static lemma PowerRoom(base: nat, b: nat, e: nat, m: nat, v: int)
      requires 0 < base < Pow(2, b) && m > 0 && IsMask(m) && 0 <= b * e && b * e / 28 + 2 <= CAPACITY
      requires Powered(v, base, e, m)
      ensures v < BPow(CAPACITY / 2)
      ensures (e / m) % 2 != 0 ==> v * v * base < BPow(CAPACITY)
    {
      hide Pow, BPow, IsMask;
      var d := Done(e, m);
      DoneBound(e, m);
      PowerFits(base, b, d);
      MulLe(2 * d, e, b);
      assert b * (2 * d) == 2 * (b * d);
      PowMonotoneB(b * d / 28 + 1, CAPACITY / 2);
      if (e / m) % 2 != 0 {
        PoweredStep(v, base, e, m);
        DoneStep(e, m);
        MaskHalf(m);
        DoneAtMost(e, m / 2);
        PowerFits(base, b, Done(e, m / 2));
        MulLe(Done(e, m / 2), e, b);
        PowMonotoneB(b * Done(e, m / 2) / 28 + 1, CAPACITY);
      }
    }

    static method RemoveTwos(base0: UInt16) returns (base: UInt16, shifts: nat)
      requires base0 != 0
      ensures base == OddPart(base0) && base0 == base * Pow(2, shifts)
    {
      hide Pow;
      base, shifts := base0, 0;
      PowZero(2);
      while base % 2 == 0
        invariant 0 < base && OddPart(base) == OddPart(base0)
        invariant base0 == base * Pow(2, shifts)
        decreases base
      {
        PowAdd(2, 1, shifts);
        PowOne(2);
        MulAssoc(base / 2, 2, Pow(2, shifts));
        base := base / 2;
        shifts := shifts + 1;
      }
    }

    static method CountBits(base: UInt16) returns (bitSize: nat)
      ensures bitSize == BitSize(base)
    {
      bitSize := 0;
      var tmpBase := base;
      while tmpBase != 0
        invariant BitSize(base) == bitSize + BitSize(tmpBase)
        decreases tmpBase
      {
        tmpBase := tmpBase / 2;
        bitSize := bitSize + 1;
      }
    }

    /** The mask of the second highest bit of the exponent, or zero for 1. */
    static method FirstMask(powerExponent: nat) returns (mask: nat)
      requires powerExponent > 0
      ensures IsMask(mask)
      ensures mask == 0 ==> powerExponent == 1
      ensures mask > 0 ==> 2 * mask <= powerExponent < 4 * mask
    {
      mask := 1;
      while powerExponent >= mask
        invariant IsMask(mask) && 1 <= mask <= 2 * powerExponent && (mask > 1 ==> mask % 2 == 0)
        decreases 2 * powerExponent - mask
      {
        mask := mask * 2;
      }
      assert IsMask(mask / 2);
      mask := mask / 4;
    }

    static lemma SmallBits(base: nat, b: nat)
      requires 0 < base < 0x1_0000 && b == BitSize(base)
      ensures 0 < b <= 16 && base < Pow(2, b)
    {
      PowValues();
      if b > 16 { PowMonotone(2, 16, b - 1); }
    }

    method AssignPowerUInt16(base0: UInt16, powerExponent: nat)
      requires Loose() && base0 != 0
      requires BitSize(OddPart(base0)) * powerExponent / 28 + 2 <= CAPACITY
      modifies this, bigits
      ensures Valid() && Value() == Pow(base0, powerExponent)
    {
      hide Pow, Powered, IsMask, BPow, Value, BitSize, OddPart;
      if powerExponent == 0 {
        PowZero(base0);
        AssignUInt16(1);
        return;
      }
      Zero();
      var base, shifts := RemoveTwos(base0);
      var bitSize := CountBits(base);
      var firstMask := FirstMask(powerExponent);
      PoweredStart(base, powerExponent, firstMask);
      SmallBits(base, bitSize);
      var thisValue, delayedMultiplication, mask := PowerInWord(base, bitSize, powerExponent, firstMask);
      AssignUInt64(thisValue);
      if delayedMultiplication {
        WordTimesBase(thisValue, base);
        BPowEq(CAPACITY + exponent, CAPACITY);
        MultiplyByUInt32(base);
      }
      BitsTimesPower(bitSize, powerExponent);
      PowerInBigits(base, powerExponent, mask, bitSize);
      PowerFits(base, bitSize, powerExponent);
      PowMonotoneB(bitSize * powerExponent / 28 + 1, CAPACITY - 1);
      LengthAtMost(CAPACITY - 1);
      PowMul(2, shifts, powerExponent);
      PowBaseMul(base, Pow(2, shifts), powerExponent);
      ShiftLeft(shifts * powerExponent);
    }

    static lemma BitsTimesPower(b: nat, e: nat)
      ensures b * e >= 0
    {
    }

    static lemma WordTimesBase(v: int, base: int)
      requires 0 <= v < 0x1_0000_0000_0000_0000 && 0 < base < 0x1_0000
      ensures v * base < BPow(CAPACITY)
    {
      MulLe(v, 0xFFFF_FFFF_FFFF_FFFF, base);
      PowValues();
      BPowAsPow2(4);
      PowAdd(2, 64, 32);
      PowAdd(2, 96, 16);
      PowMonotoneB(4, CAPACITY);
    }

    // ----- decimal strings

    static method ReadUInt64(buffer: seq<char>, from: nat, digitsToRead: nat) returns (result: DoubleChunk)
      requires from + digitsToRead <= |buffer| && AreDigits(buffer) && digitsToRead <= 19
      ensures result == Number(buffer[from..from + digitsToRead])
    {
      hide Pow, Number;
      NumberEmpty(buffer[from..from]);
      result := 0;
      ghost var s := buffer[from..from + digitsToRead];
      assert s[..0] == buffer[from..from];
      var i := from;
      while i < from + digitsToRead
        invariant from <= i <= from + digitsToRead
        invariant result == Number(s[..i - from])
      {
        var digit := buffer[i] as int - '0' as int;
        assert s[i - from] == buffer[i];
        NumberPrefix(s, i - from);
        NumberFits(s[..i - from + 1]);
        result := result * 10 + digit;
        i := i + 1;
      }
      assert s[..digitsToRead] == s;
    }

    static lemma NumberFits(s: seq<char>)
      requires AreDigits(s) && |s| <= 19
      ensures 0 <= Number(s) < 0x1_0000_0000_0000_0000
    {
      hide Number;
      NumberBound(s);
      PowMonotone(10, |s|, 19);
      PowTenValues();
    }

    method AssignDecimalString(value: seq<char>)
      requires Loose() && AreDigits(value)
      requires Pow(10, |value|) <= BPow(CAPACITY - 2)
      modifies this, bigits
      ensures Valid() && Value() == Number(value)
    {
      hide Pow, Number, BPow, Value;
      Zero();
      var length: nat, pos: nat := |value|, 0;
      NumberEmpty(value[..0]);
      while length >= 19
        invariant pos + length == |value| && Valid() && Value() == Number(value[..pos])
      {
        AppendDigits(value, pos, 19);
        pos := pos + 19;
        length := length - 19;
      }
      AppendDigits(value, pos, length);
      assert value[..pos + length] == value;
      Clamp();
    }

    /** One round of AssignDecimalString: takes in the next n digits. */
    method AppendDigits(value: seq<char>, pos: nat, n: nat)
      requires Valid() && AreDigits(value) && pos + n <= |value| && n <= 19
      requires Pow(10, |value|) <= BPow(CAPACITY - 2)
      requires Value() == Number(value[..pos])
      modifies this, bigits
      ensures Valid() && Value() == Number(value[..pos + n])
    {
      hide Pow, Number, BPow, Value;
      var digits := ReadUInt64(value, pos, n);
      DigitsRoom(value, pos, n, exponent);
      MultiplyByPowerOfTen(n);
      LengthAtMost(CAPACITY - 2);
      AddUInt64(digits);
      assert value[..pos + n] == value[..pos] + value[pos..pos + n];
      NumberConcat(value[..pos], value[pos..pos + n]);
    }

    static lemma DigitsRoom(value: seq<char>, pos: nat, n: nat, e: nat)
      requires AreDigits(value) && pos + n <= |value|
      requires Pow(10, |value|) <= BPow(CAPACITY - 2)
      ensures Number(value[..pos]) * Pow(5, n) < BPow(CAPACITY - 1 + e)
      ensures Number(value[..pos]) * Pow(10, n) < BPow(CAPACITY - 2)
    {
      hide Pow, Number, BPow;
      NumberBound(value[..pos]);
      PowAdd(10, pos, n);
      PowMonotone(10, pos + n, |value|);
      PowBelow(5, 10, n);
      PowMonotoneB(CAPACITY - 2, CAPACITY - 1 + e);
      ProductsBelow(Number(value[..pos]), Pow(10, pos), Pow(10, n), Pow(5, n), BPow(CAPACITY - 2));
    }

    static lemma ProductsBelow(v: int, x: int, y: int, z: int, b: int)
      requires 0 <= v < x && 0 < z <= y && x * y <= b
      ensures v * y < b && v * z < b
    {
      MulLt(v, x, y);
      MulLe(z, y, v);
    }
  }
}
