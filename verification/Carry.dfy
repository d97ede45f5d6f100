/** Rounding up a digit string: a last digit of ten is carried to the left. */
module Carry {
  import opened Powers
  import opened Decimals
  import opened Exact
  import opened Shortest

  /** Digits, except that the i-th character may stand for ten. */
  predicate AlmostDigits(s: seq<char>, i: nat) {
    i < |s| && '0' <= s[i] <= ':' && forall k | 0 <= k < |s| && k != i :: IsDigit(s[k])
  }

  predicate AllZero(s: seq<char>) {
    forall k | 0 <= k < |s| :: s[k] == '0'
  }

  lemma {:induction false} ZerosNumber(s: seq<char>)
    requires AllZero(s)
    ensures Number(s) == 0
  {
    if s == [] {
    } else {
      ZerosNumber(s[..|s| - 1]);
    }
  }

  lemma NumberCons(c: char, s: seq<char>)
    ensures Number([c] + s) == DigitOf(c) * Pow(10, |s|) + Number(s)
  {
    hide Number, Pow;
    NumberConcat([c], s);
    NumberSnoc([], c);
    NumberEmpty([]);
    assert [] + [c] == [c];
  }

  /** Raising the last digit raises the number by one; a nine comes out as ten. */
  lemma LastRaised(s: seq<char>)
    requires s != [] && AreDigits(s)
    ensures
      var s' := s[|s| - 1 := s[|s| - 1] + 1 as char];
      AlmostDigits(s', |s| - 1) && Number(s') == Number(s) + 1
  {
  }

  /** A digit of ten is a zero with one more to its left. */
  lemma CarryStep(s: seq<char>, i: nat, s': seq<char>)
    requires 0 < i < |s| && AlmostDigits(s, i) && s[i] == ':'
    requires s' == s[i := '0'][i - 1 := s[i - 1] + 1 as char]
    ensures Number(s') == Number(s) && AlmostDigits(s', i - 1)
  {
    var a, b := s[..i - 1], s[i + 1..];
    assert s == (a + [s[i - 1]] + [s[i]]) + b;
    assert s' == (a + [s[i - 1] + 1 as char] + ['0']) + b;
    NumberConcat(a + [s[i - 1]] + [s[i]], b);
    NumberConcat(a + [s[i - 1] + 1 as char] + ['0'], b);
    NumberSnoc(a + [s[i - 1]], s[i]);
    NumberSnoc(a, s[i - 1]);
    NumberSnoc(a + [s[i - 1] + 1 as char], '0');
    NumberSnoc(a, s[i - 1] + 1 as char);
  }

  /** A leading ten before zeros only: one in the place to the left. */
  lemma CarryOut(s: seq<char>, point: int)
    requires s != [] && s[0] == ':' && AllZero(s[1..])
    ensures Dec(Number(s[0 := '1']), point + 1 - |s|) == Dec(Number(s), point - |s|)
  {
    hide Ten, Pow;
    var z := s[1..];
    assert s == [':'] + z && s[0 := '1'] == ['1'] + z;
    NumberCons(':', z);
    NumberCons('1', z);
    ZerosNumber(z);
    DecTenfold(Pow(10, |z|), point - |s|);
  }

  lemma DecTenfold(n: int, q: int)
    ensures Dec(n, q + 1) == Dec(10 * n, q)
  {
    hide Ten;
    TenAdd(1, q);
    TwoSmall();
    IntMul(10, n);
    RMulAssoc(n as real, 10.0, Ten(q));
  }

  /** Carries until there is no ten left, past the first place if need be. */
  method PropagateCarry(buffer: array<char>, length: nat, point: int) returns (newPoint: int)
    requires 0 < length <= buffer.Length && AlmostDigits(buffer[..length], length - 1)
    modifies buffer
    ensures AreDigits(buffer[..length])
    ensures Dec(Number(buffer[..length]), newPoint - length) == Dec(Number(old(buffer[..length])), point - length)
    ensures old(buffer[0]) != '0' ==> buffer[0] != '0'
    ensures point <= newPoint <= point + 1
  {
    hide Number, Dec;
    ghost var number := Number(buffer[..length]);
    ghost var first := buffer[0];
    newPoint := point;
    var i := length - 1;
    while i > 0
      invariant 0 <= i < length
      invariant AlmostDigits(buffer[..length], i) && Number(buffer[..length]) == number
      invariant AllZero(buffer[i + 1..length])
      invariant first <= buffer[0]
    {
      if buffer[i] != ':' { return; }
      ghost var before := buffer[..length];
      buffer[i] := '0';
      buffer[i - 1] := buffer[i - 1] + 1 as char;
      CarryStep(before, i, buffer[..length]);
      assert buffer[i..length] == ['0'] + buffer[i + 1..length];
      i := i - 1;
    }
    if buffer[0] == ':' {
      ghost var before := buffer[..length];
      assert before[1..] == buffer[1..length];
      CarryOut(before, point);
      buffer[0] := '1';
      newPoint := point + 1;
      assert buffer[..length] == before[0 := '1'];
    }
  }
}
