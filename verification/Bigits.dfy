/** Little-endian numbers in base 2^28, the number system under Bignum. */
module Bigits {
  import opened Powers

  function BPow(n: nat): (r: nat)
    ensures r > 0
  {
    Pow(0x1000_0000, n)
  }

  /** The number denoted by s, least significant bigit first. */
  function Val(s: seq<int>): int {
    if s == [] then 0 else Val(s[..|s| - 1]) + s[|s| - 1] * BPow(|s| - 1)
  }

  predicate AreBigits(s: seq<int>) {
    forall i | 0 <= i < |s| :: 0 <= s[i] < 0x1000_0000
  }

  lemma BPowZero()
    ensures BPow(0) == 1
  {
  }

  lemma BPowDef(n: nat)
    ensures BPow(n) == Pow(0x1000_0000, n)
  {
  }

  lemma BPowStep(n: nat)
    ensures BPow(n + 1) == 0x1000_0000 * BPow(n)
  {
  }

  lemma BPowAsPow2(n: nat)
    ensures BPow(n) == Pow(2, 28 * n)
  {
    PowValues();
    PowMul(2, 28, n);
  }

  lemma BPowAdd(m: nat, n: nat)
    ensures BPow(m + n) == BPow(m) * BPow(n)
  {
    PowAdd(0x1000_0000, m, n);
  }

  lemma ValSnoc(s: seq<int>, x: int)
    ensures Val(s + [x]) == Val(s) + x * BPow(|s|)
  {
  }

  /** A prefix one longer: the form in which loops use ValSnoc. */
  lemma ValPrefix(s: seq<int>, i: nat)
    requires i < |s|
    ensures Val(s[..i + 1]) == Val(s[..i]) + s[i] * BPow(i)
  {
    assert s[..i + 1] == s[..i] + [s[i]];
    ValSnoc(s[..i], s[i]);
  }

  lemma {:induction false} ValBound(s: seq<int>)
    requires AreBigits(s)
    ensures 0 <= Val(s) < BPow(|s|)
  {
    if s == [] {
    } else {
      var n := |s| - 1;
      ValBound(s[..n]);
      BPowStep(n);
      MulLe(s[n], 0x1000_0000 - 1, BPow(n));
      MulLe(0, s[n], BPow(n));
    }
  }

  /** The top bigit pins the value to one step of its weight. */
  lemma ValTop(s: seq<int>)
    requires s != [] && AreBigits(s)
    ensures s[|s| - 1] * BPow(|s| - 1) <= Val(s) < (s[|s| - 1] + 1) * BPow(|s| - 1)
  {
    ValBound(s[..|s| - 1]);
    MulDist(s[|s| - 1], 1, BPow(|s| - 1));
  }

  lemma MulTerm(p: int, v: int, x: int, q: int)
    ensures p * v + x * (p * q) == p * (v + x * q)
  {
  }

  lemma {:induction false} ValConcat(s: seq<int>, t: seq<int>)
    ensures Val(s + t) == Val(s) + BPow(|s|) * Val(t)
  {
    if t == [] {
      assert s + t == s;
    } else {
      var n := |t| - 1;
      assert s + t == (s + t[..n]) + [t[n]];
      ValSnoc(s + t[..n], t[n]);
      ValConcat(s, t[..n]);
      BPowAdd(|s|, n);
      MulTerm(BPow(|s|), Val(t[..n]), t[n], BPow(n));
    }
  }

  lemma {:induction false} ValZeros(s: seq<int>)
    requires forall i | 0 <= i < |s| :: s[i] == 0
    ensures Val(s) == 0
  {
    if s == [] {
    } else {
      ValZeros(s[..|s| - 1]);
    }
  }

  function Zeros(n: nat): (s: seq<int>)
    ensures |s| == n && forall i | 0 <= i < n :: s[i] == 0
  {
    seq(n, i => 0)
  }

  // ----- reading from the top: bigit i and everything above bigit i

  function At(s: seq<int>, i: nat): int {
    if i < |s| then s[i] else 0
  }

  function High(s: seq<int>, i: nat): int {
    if i < |s| then Val(s[i..]) else 0
  }

  lemma HighStep(s: seq<int>, i: nat)
    ensures High(s, i) == At(s, i) + 0x1000_0000 * High(s, i + 1)
  {
    if i < |s| {
      assert s[i..] == [s[i]] + s[i + 1..];
      ValConcat([s[i]], s[i + 1..]);
      ValSnoc([], s[i]);
      assert [] + [s[i]] == [s[i]];
      assert BPow(1) == 0x1000_0000 * BPow(0) == 0x1000_0000;
      assert Val([s[i]]) == s[i];
    }
  }

  lemma HighSplit(s: seq<int>, i: nat)
    requires AreBigits(s)
    ensures BPow(i) * High(s, i) <= Val(s) < BPow(i) * High(s, i) + BPow(i)
  {
    if i < |s| {
      assert s == s[..i] + s[i..];
      ValConcat(s[..i], s[i..]);
      ValBound(s[..i]);
    } else {
      ValBound(s);
      PowMonotone(0x1000_0000, |s|, i);
    }
  }

  /** Nothing is lost below i when the low bigits are zero. */
  lemma HighExact(s: seq<int>, i: nat)
    requires forall k | 0 <= k < i && k < |s| :: s[k] == 0
    ensures Val(s) == BPow(i) * High(s, i)
  {
    hide Val, BPow;
    if i < |s| {
      assert s == s[..i] + s[i..];
      ValConcat(s[..i], s[i..]);
      ValZeros(s[..i]);
    } else {
      ValZeros(s);
    }
  }
}
