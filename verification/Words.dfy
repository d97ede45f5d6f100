/** Machine words and their shifts. */
module Words {
  import opened Powers

  type UInt32 = x: int | 0 <= x < 0x1_0000_0000
  type UInt64 = x: int | 0 <= x < 0x1_0000_0000_0000_0000

  /** A 64-bit sum that does not wrap. */
  function Add64(a: UInt64, b: UInt64): (r: UInt64)
    requires a + b < 0x1_0000_0000_0000_0000
  {
    a + b
  }

  /** A 64-bit difference that does not wrap. */
  function Sub64(a: UInt64, b: UInt64): (r: UInt64)
    requires b <= a
  {
    a - b
  }

  /** x << n, with nothing lost. */
  function ShiftLeft(x: int, n: nat): int {
    x * Pow(2, n)
  }

  /** x >> n. */
  function ShiftRight(x: nat, n: nat): (q: nat)
    ensures q * Pow(2, n) <= x < q * Pow(2, n) + Pow(2, n)
    ensures q <= x
  {
    QuotientOf(x, Pow(2, n));
    x / Pow(2, n)
  }

  /** x & ((1 << n) - 1). */
  function LowBits(x: nat, n: nat): (r: nat)
    ensures r < Pow(2, n) && x == ShiftRight(x, n) * Pow(2, n) + r
  {
    QuotientOf(x, Pow(2, n));
    x % Pow(2, n)
  }

  lemma QuotientOf(x: nat, p: nat)
    requires p > 0
    ensures 0 <= x / p <= x
    ensures x / p * p + x % p == x && 0 <= x % p < p
  {
    DivMod(x, p, x / p, x % p);
  }

  lemma DivMod(x: int, p: int, q: int, r: int)
    requires 0 <= x && p > 0 && 0 <= r < p && x == p * q + r
    ensures 0 <= q <= x && q * p == p * q
  {
  }
}
