/** Writing integers into a digit buffer, with a given number of digits or without leading zeros. */
module FillDigits {
  import opened Powers
  import opened Decimals
  import opened Words

  /** The last k digits of n. */
  function Padded(n: nat, k: nat): (s: seq<char>)
    ensures |s| == k
  {
    if k == 0 then [] else Padded(n / 10, k - 1) + [DigitChar(n % 10)]
  }

  /** The digits of n without leading zeros; none for zero. */
  function Digits(n: nat): seq<char> {
    if n == 0 then [] else Digits(n / 10) + [DigitChar(n % 10)]
  }

  lemma {:induction false} PaddedNumber(n: nat, k: nat)
    requires n < Pow(10, k)
    ensures AreDigits(Padded(n, k)) && Number(Padded(n, k)) == n
  {
    if k == 0 {
    } else {
      hide Pow, Number, Padded;
      PowTen(k - 1);
      TenthBelow(n, Pow(10, k - 1));
      PaddedNumber(n / 10, k - 1);
      PaddedLast(n, k);
      LastDigitOf(Padded(n / 10, k - 1), n);
    }
  }

  lemma LastDigitOf(s: seq<char>, n: nat)
    requires AreDigits(s) && Number(s) == n / 10
    ensures AreDigits(s + [DigitChar(n % 10)]) && Number(s + [DigitChar(n % 10)]) == n
  {
    hide Number;
    NumberSnoc(s, DigitChar(n % 10));
  }

  lemma PaddedLast(n: nat, k: nat)
    requires k > 0
    ensures Padded(n, k) == Padded(n / 10, k - 1) + [DigitChar(n % 10)]
  {
  }

  lemma TenthBelow(n: nat, p: nat)
    requires n < 10 * p
    ensures n / 10 < p && n == 10 * (n / 10) + n % 10
  {
  }

  lemma {:induction false} DigitsNumber(n: nat)
    ensures AreDigits(Digits(n)) && Number(Digits(n)) == n
    ensures n > 0 ==> Digits(n) != [] && Digits(n)[0] != '0'
  {
    if n == 0 {
      NumberEmpty(Digits(n));
    } else {
      DigitsNumber(n / 10);
      NumberSnoc(Digits(n / 10), DigitChar(n % 10));
    }
  }

  lemma {:induction false} DigitsFewest(n: nat, k: nat)
    requires n < Pow(10, k)
    ensures |Digits(n)| <= k
  {
    if n == 0 {
    } else {
      DigitsFewest(n / 10, k - 1);
    }
  }

  lemma {:induction false} PaddedSplits(q: nat, r: nat, j: nat, k: nat, n: nat)
    requires n == q * Pow(10, k) + r && r < Pow(10, k)
    ensures Padded(n, j + k) == Padded(q, j) + Padded(r, k)
  {
    hide Pow;
    if k == 0 {
      PowZero(10);
      assert Padded(q, j) + Padded(r, k) == Padded(q, j);
    } else {
      PowTen(k - 1);
      DropDigit(q, Pow(10, k - 1), Pow(10, k), r, n);
      PaddedSplits(q, r / 10, j, k - 1, n / 10);
      assert Padded(n, j + k) == Padded(n / 10, j + k - 1) + [DigitChar(n % 10)];
    }
  }

  lemma {:induction false} DigitsSplit(q: nat, r: nat, k: nat, n: nat)
    requires q > 0 && n == q * Pow(10, k) + r && r < Pow(10, k)
    ensures Digits(n) == Digits(q) + Padded(r, k)
  {
    if k == 0 {
      assert Digits(q) + Padded(r, k) == Digits(q);
    } else {
      DropDigit(q, Pow(10, k - 1), Pow(10, k), r, n);
      MulLe(1, q, Pow(10, k));
      DigitsSplit(q, r / 10, k - 1, n / 10);
    }
  }

  lemma DropDigit(q: nat, p: nat, p10: nat, r: nat, n: nat)
    requires p10 == 10 * p && n == q * p10 + r && r < p10
    ensures n / 10 == q * p + r / 10 && n % 10 == r % 10 && r / 10 < p
  {
    MulAssoc(q, 10, p);
    MulAssoc(10, q, p);
  }

  method FillDigits32FixedLength(number: UInt32, requestedLength: nat, buffer: array<char>, length: nat)
    returns (newLength: nat)
    requires length + requestedLength <= buffer.Length
    modifies buffer
    ensures newLength == length + requestedLength
    ensures buffer[..newLength] == old(buffer[..length]) + Padded(number, requestedLength)
  {
    var rest: nat := number;
    ghost var before := buffer[..length];
    var i := requestedLength - 1;
    while i >= 0
      invariant -1 <= i < requestedLength
      invariant buffer[..length] == before
      invariant Padded(rest, i + 1) + buffer[length + i + 1..length + requestedLength] == Padded(number, requestedLength)
    {
      ghost var tail := buffer[length + i + 1..length + requestedLength];
      buffer[length + i] := DigitChar(rest % 10);
      assert buffer[length + i..length + requestedLength] == [DigitChar(rest % 10)] + tail;
      assert Padded(rest, i + 1) + tail == Padded(rest / 10, i) + ([DigitChar(rest % 10)] + tail);
      rest := rest / 10;
      i := i - 1;
    }
    newLength := length + requestedLength;
    assert buffer[..newLength] == buffer[..length] + buffer[length..newLength];
  }

  function Backwards(s: seq<char>): (r: seq<char>)
    ensures |r| == |s| && forall k | 0 <= k < |s| :: r[k] == s[|s| - 1 - k]
  {
    seq(|s|, k requires 0 <= k < |s| => s[|s| - 1 - k])
  }

  lemma NoDigits()
    ensures Digits(0) == []
  {
  }

  lemma DigitsRest(n: nat, s: seq<char>)
    requires n > 0
    ensures Digits(n) + Backwards(s) == Digits(n / 10) + Backwards(s + [DigitChar(n % 10)])
    ensures |Digits(n)| == |Digits(n / 10)| + 1
  {
    assert Backwards(s + [DigitChar(n % 10)]) == [DigitChar(n % 10)] + Backwards(s);
  }

  method FillDigits32(number: UInt32, buffer: array<char>, length: nat) returns (newLength: nat)
    requires length + |Digits(number)| <= buffer.Length
    modifies buffer
    ensures newLength == length + |Digits(number)|
    ensures buffer[..newLength] == old(buffer[..length]) + Digits(number)
  {
    hide Digits, Backwards;
    var rest: nat := number;
    ghost var before := buffer[..length];
    var numberLength := 0;
    assert buffer[length..length] == [] && Digits(number) + Backwards([]) == Digits(number);
    while rest != 0
      invariant numberLength + |Digits(rest)| == |Digits(number)|
      invariant buffer[..length] == before
      invariant Digits(rest) + Backwards(buffer[length..length + numberLength]) == Digits(number)
    {
      var digit := rest % 10;
      DigitsRest(rest, buffer[length..length + numberLength]);
      rest := rest / 10;
      buffer[length + numberLength] := DigitChar(digit);
      assert buffer[length..length + numberLength + 1] == buffer[length..length + numberLength] + [DigitChar(digit)];
      numberLength := numberLength + 1;
    }
    NoDigits();
    newLength := length + numberLength;
    Exchange(buffer, length, newLength);
    assert buffer[..newLength] == buffer[..length] + buffer[length..newLength];
  }

  /** The outer parts of s, up to i and behind j, are exchanged in t. */
  ghost predicate Exchanged(s: seq<char>, t: seq<char>, i: nat, j: int) {
    && |s| == |t| && i + j == |s| - 1 && i <= j + 1
    && (forall k | 0 <= k < i || j < k < |s| :: t[k] == s[|s| - 1 - k])
    && (forall k | i <= k <= j :: t[k] == s[k])
  }

  lemma ExchangeOne(s: seq<char>, t: seq<char>, i: nat, j: int)
    requires Exchanged(s, t, i, j) && i < j
    ensures Exchanged(s, t[i := t[j]][j := t[i]], i + 1, j - 1)
  {
  }

  lemma AllExchanged(s: seq<char>, t: seq<char>, i: nat, j: int)
    requires Exchanged(s, t, i, j) && i >= j
    ensures t == Backwards(s)
  {
  }

  /** Reverses the digits from one position up to another. */
  method Exchange(buffer: array<char>, from: nat, to: nat)
    requires from <= to <= buffer.Length
    modifies buffer
    ensures buffer[..from] == old(buffer[..from])
    ensures buffer[from..to] == Backwards(old(buffer[from..to]))
  {
    hide Exchanged, Backwards;
    ghost var head, was := buffer[..from], buffer[from..to];
    var i, j := from, to - 1;
    NothingExchanged(was);
    while i < j
      invariant from <= i <= to && j < to && j >= from - 1
      invariant buffer[..from] == head && Exchanged(was, buffer[from..to], i - from, j - from)
    {
      ghost var now := buffer[from..to];
      ExchangeOne(was, now, i - from, j - from);
      var tmp := buffer[i];
      buffer[i] := buffer[j];
      buffer[j] := tmp;
      assert buffer[from..to] == now[i - from := now[j - from]][j - from := now[i - from]];
      i := i + 1;
      j := j - 1;
    }
    AllExchanged(was, buffer[from..to], i - from, j - from);
  }

  lemma NothingExchanged(s: seq<char>)
    ensures Exchanged(s, s, 0, |s| - 1)
  {
  }

  method FillDigits64FixedLength(number: UInt64, buffer: array<char>, length: nat) returns (newLength: nat)
    requires number < 100_000_000_000_000_000 && length + 17 <= buffer.Length
    modifies buffer
    ensures newLength == length + 17 && buffer[..newLength] == old(buffer[..length]) + Padded(number, 17)
  {
    hide Pow, Padded;
    SmallTens();
    var part2 := number % 10_000_000;
    var rest := number / 10_000_000;
    var part1 := rest % 10_000_000;
    var part0 := rest / 10_000_000;
    PaddedSplits(part0, part1, 3, 7, rest);
    PaddedSplits(rest, part2, 10, 7, number);
    newLength := FillDigits32FixedLength(part0, 3, buffer, length);
    newLength := FillDigits32FixedLength(part1, 7, buffer, newLength);
    newLength := FillDigits32FixedLength(part2, 7, buffer, newLength);
  }

  method FillDigits64(number: UInt64, buffer: array<char>, length: nat) returns (newLength: nat)
    requires length + |Digits(number)| <= buffer.Length
    modifies buffer
    ensures newLength == length + |Digits(number)|
    ensures buffer[..newLength] == old(buffer[..length]) + Digits(number)
  {
    hide Pow, Padded, Digits;
    SmallTens();
    var part2 := number % 10_000_000;
    var rest := number / 10_000_000;
    var part1 := rest % 10_000_000;
    var part0 := rest / 10_000_000;
    if part0 != 0 {
      DigitsSplit(part0, part1, 7, rest);
      DigitsSplit(rest, part2, 7, number);
      newLength := FillDigits32(part0, buffer, length);
      newLength := FillDigits32FixedLength(part1, 7, buffer, newLength);
      newLength := FillDigits32FixedLength(part2, 7, buffer, newLength);
    } else if part1 != 0 {
      DigitsSplit(rest, part2, 7, number);
      newLength := FillDigits32(part1, buffer, length);
      newLength := FillDigits32FixedLength(part2, 7, buffer, newLength);
    } else {
      newLength := FillDigits32(part2, buffer, length);
    }
  }
}
