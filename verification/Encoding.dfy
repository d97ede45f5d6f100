/** Packing a significand and an exponent into the 64 bits of a double. */
module Encoding {
  import opened Words
  import opened Ieee

  const EXPONENT_BIAS: int := 0x433
  const MAX_EXPONENT: int := 972

  /** Drops low bits until the significand has 53. */
  function Shrunk(f: UInt64, e: int): (r: Binary)
    ensures 0 <= r.f < 2 * HIDDEN_BIT
  {
    if f >= 0x20_0000_0000_0000 then Shrunk(f / 2, e + 1) else Binary(f, e)
  }

  lemma PackedFields(g: nat, k: int)
    requires g < 2 * HIDDEN_BIT && DENORMAL_EXPONENT <= k < MAX_EXPONENT && (g >= HIDDEN_BIT || k == DENORMAL_EXPONENT)
    ensures
      var biased := if k == DENORMAL_EXPONENT && g < HIDDEN_BIT then 0 else k + EXPONENT_BIAS;
      var d := Double(g % 0x10_0000_0000_0000 + biased * 0x10_0000_0000_0000);
      d.bits < INFINITY && d.Significand() == g && d.Exponent() == k
  {
    var biased := if k == DENORMAL_EXPONENT && g < HIDDEN_BIT then 0 else k + EXPONENT_BIAS;
    assert 0 <= biased < 0x7FF;
    var d := Double(g % 0x10_0000_0000_0000 + biased * 0x10_0000_0000_0000);
    SplitFields(d.bits, biased, g % 0x10_0000_0000_0000);
  }

  lemma SplitFields(bits: nat, b: nat, m: nat)
    requires bits == m + b * 0x10_0000_0000_0000 && m < 0x10_0000_0000_0000 && b < 0x7FF
    ensures bits / 0x10_0000_0000_0000 % 0x800 == b && bits % 0x10_0000_0000_0000 == m
    ensures bits < INFINITY
  {
  }

  /**
   The double of f * 2^e. Numbers whose exponent is below that of the denormals become zero, even if
   their significand is large.
   */
  method DiyFpToUint64(f: UInt64, e: int) returns (d: Double)
    ensures d.bits <= INFINITY
    ensures
      var r := Shrunk(f, e);
      if r.e >= MAX_EXPONENT then d.bits == INFINITY
      else if r.e < DENORMAL_EXPONENT then d.bits == 0
      else
        && d.bits < INFINITY && d.Value() == r.Value()
        && (r.f >= HIDDEN_BIT || r.e == DENORMAL_EXPONENT ==> d.Significand() == r.f && d.Exponent() == r.e)
  {
    hide Double.Value, Binary.Value;
    var significand: UInt64, exponent := f, e;
    while significand >= 0x20_0000_0000_0000
      invariant Shrunk(significand, exponent) == Shrunk(f, e)
      decreases significand
    {
      significand := significand / 2;
      exponent := exponent + 1;
    }
    if exponent >= MAX_EXPONENT {
      return Double(INFINITY);
    }
    if exponent < DENORMAL_EXPONENT {
      return Double(0);
    }
    ghost var r := Shrunk(f, e);
    while exponent > DENORMAL_EXPONENT && significand < 0x10_0000_0000_0000
      invariant DENORMAL_EXPONENT <= exponent < MAX_EXPONENT && significand < 2 * HIDDEN_BIT
      invariant Binary(significand, exponent).Value() == r.Value()
      invariant r.f >= HIDDEN_BIT || r.e == DENORMAL_EXPONENT ==> Binary(significand, exponent) == r
      decreases exponent - DENORMAL_EXPONENT
    {
      TwoStep(significand, exponent);
      significand := significand * 2;
      exponent := exponent - 1;
    }
    PackedFields(significand, exponent);
    var biasedExponent: nat := if exponent == DENORMAL_EXPONENT && significand < 0x10_0000_0000_0000 then 0
                               else exponent + EXPONENT_BIAS;
    d := Double(significand % 0x10_0000_0000_0000 + biasedExponent * 0x10_0000_0000_0000);
    FromFields(d);
  }

  lemma FromFields(d: Double)
    ensures d.Value() == Binary(d.Significand(), d.Exponent()).Value()
  {
  }

}
