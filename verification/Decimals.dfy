/** Strings of decimal digits and the numbers they denote. */
module Decimals {
  import opened Powers

  predicate IsDigit(c: char) {
    '0' <= c <= '9'
  }

  predicate AreDigits(s: seq<char>) {
    forall i | 0 <= i < |s| :: IsDigit(s[i])
  }

  function DigitOf(c: char): int {
    c as int - '0' as int
  }

  function DigitChar(digit: int): (c: char)
    requires 0 <= digit <= 9
    ensures IsDigit(c) && DigitOf(c) == digit
  {
    ('0' as int + digit) as char
  }

  /** The number written as s, most significant digit first. */
  function Number(s: seq<char>): int {
    if s == [] then 0 else 10 * Number(s[..|s| - 1]) + DigitOf(s[|s| - 1])
  }

  lemma NumberEmpty(s: seq<char>)
    requires s == []
    ensures Number(s) == 0
  {
  }

  lemma NumberSnoc(s: seq<char>, c: char)
    ensures Number(s + [c]) == 10 * Number(s) + DigitOf(c)
  {
  }

  lemma NumberPrefix(s: seq<char>, i: nat)
    requires i < |s|
    ensures Number(s[..i + 1]) == 10 * Number(s[..i]) + DigitOf(s[i])
  {
    assert s[..i + 1] == s[..i] + [s[i]];
    NumberSnoc(s[..i], s[i]);
  }

  lemma {:induction false} NumberBound(s: seq<char>)
    requires AreDigits(s)
    ensures 0 <= Number(s) < Pow(10, |s|)
  {
    if s == [] {
    } else {
      NumberBound(s[..|s| - 1]);
    }
  }

  lemma {:induction false} NumberConcat(s: seq<char>, t: seq<char>)
    ensures Number(s + t) == Number(s) * Pow(10, |t|) + Number(t)
  {
    if t == [] {
      assert s + t == s;
    } else {
      var n := |t| - 1;
      assert s + t == (s + t[..n]) + [t[n]];
      NumberSnoc(s + t[..n], t[n]);
      NumberConcat(s, t[..n]);
      MulAssoc(10, Pow(10, n), Number(s));
    }
  }

  /** Digit strings of one length that denote the same number are the same. */
  lemma {:induction false} NumberInjective(s: seq<char>, t: seq<char>)
    requires AreDigits(s) && AreDigits(t) && |s| == |t| && Number(s) == Number(t)
    ensures s == t
  {
    if s == [] {
    } else {
      var n := |s| - 1;
      assert DigitOf(s[n]) == DigitOf(t[n]);
      NumberInjective(s[..n], t[..n]);
      assert s == s[..n] + [s[n]] && t == t[..n] + [t[n]];
    }
  }
}
