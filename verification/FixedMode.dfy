/** What a fixed-digits printer owes: the number rounded half up to a multiple of 10^-n. */
module FixedMode {
  import opened Powers
  import opened Words
  import opened Decimals
  import opened Exact
  import opened Shortest

  /** c is v * 10^n, rounded to the nearest integer, and up when in the middle. */
  predicate RoundsHalfUp(v: real, n: int, c: int) {
    Dec(2 * c - 1, -n) <= 2.0 * v < Dec(2 * c + 1, -n)
  }

  lemma HalfUpIsUnique(v: real, n: int, c: int, c': int)
    requires RoundsHalfUp(v, n, c) && RoundsHalfUp(v, n, c')
    ensures c == c'
  {
    hide Dec;
    DecOrder(2 * c' + 1, 2 * c - 1, -n);
    DecOrder(2 * c + 1, 2 * c' - 1, -n);
  }

  /** y is v rounded half up to n digits after the point. */
  ghost predicate IsRounded(v: real, n: int, y: real) {
    exists c: int :: RoundsHalfUp(v, n, c) && y == Dec(c, -n)
  }

  /** The digits with that decimal point denote v rounded half up to n digits after the point. */
  ghost predicate IsFixed(v: real, n: int, digits: seq<char>, point: int) {
    AreDigits(digits) && IsRounded(v, n, Dec(Number(digits), point - |digits|))
  }

  /** All fixed-digits results for one number denote the same decimal. */
  lemma FixedIsUnique(v: real, n: int, digits: seq<char>, point: int, digits': seq<char>, point': int)
    requires IsFixed(v, n, digits, point) && IsFixed(v, n, digits', point')
    ensures Dec(Number(digits), point - |digits|) == Dec(Number(digits'), point' - |digits'|)
  {
    hide Dec, RoundsHalfUp, Number;
    var c :| RoundsHalfUp(v, n, c) && Dec(Number(digits), point - |digits|) == Dec(c, -n);
    var c' :| RoundsHalfUp(v, n, c') && Dec(Number(digits'), point' - |digits'|) == Dec(c', -n);
    HalfUpIsUnique(v, n, c, c');
  }

  // ----- generating digits from a binary fraction

  /** After k digits t is written and the fraction f is left, with its binary point at bit point. */
  predicate Generated(whole: nat, k: nat, t: nat, f: nat, point: nat) {
    f < Pow(2, point) && whole * Pow(5, k) == t * Pow(2, point) + f
  }

  /** One more digit: times five, and the point moves by one. */
  lemma FractionDigit(whole: nat, k: nat, t: nat, f: nat, point: nat)
    requires Generated(whole, k, t, f, point) && f > 0
    ensures point > 0
    ensures
      var d := ShiftRight(5 * f, point - 1);
      && d <= 9
      && Generated(whole, k + 1, 10 * t + d, LowBits(5 * f, point - 1), point - 1)
  {
    hide ShiftRight, LowBits;
    var p := Pow(2, point - 1);
    var d, r := ShiftRight(5 * f, point - 1), LowBits(5 * f, point - 1);
    assert Pow(2, point) == 2 * p && Pow(5, k + 1) == 5 * Pow(5, k);
    if d >= 10 { MulLe(10, d, p); }
    OneMore(whole, Pow(5, k), t, f, d, r, p);
  }

  lemma OneMore(whole: int, q: int, t: int, f: int, d: int, r: int, p: int)
    requires whole * q == t * (2 * p) + f && 5 * f == d * p + r
    ensures whole * (5 * q) == (10 * t + d) * p + r
  {
  }

  /** The first bit after the point; none is left when the point has reached the last bit. */
  function NextBit(f: nat, point: nat): nat {
    if point == 0 then 0 else ShiftRight(f, point - 1) % 2
  }

  lemma NextBitIsHalf(f: nat, point: nat)
    requires f < Pow(2, point)
    ensures NextBit(f, point) == if 2 * f >= Pow(2, point) then 1 else 0
  {
    hide ShiftRight;
    if point > 0 { HalfBit(f, Pow(2, point - 1), ShiftRight(f, point - 1)); }
  }

  lemma HalfBit(f: nat, p: nat, b: nat)
    requires b * p <= f < b * p + p && f < 2 * p
    ensures b < 2 && (b == 1 <==> f >= p)
  {
  }

  /** Writing all n digits, or stopping early with nothing left, and rounding by the next bit. */
  lemma Finished(x: real, whole: nat, bits: nat, k: nat, t: nat, f: nat, point: nat, n: int)
    requires Generated(whole, k, t, f, point) && point + k == bits && (k == n || (k < n && f == 0))
    requires x * Pow(2, bits) as real == whole as real
    ensures IsRounded(x, n, Dec(t + NextBit(f, point), -(k as int)))
  {
    hide Pow, Dec, RoundsHalfUp, NextBit;
    NextBitIsHalf(f, point);
    var y := x * Pow(10, k) as real;
    Shifted(x, whole, k, t, f, point);
    var c := t + NextBit(f, point);
    HalfUpAt(x, k, y, t as real, f, Pow(2, point), c);
    if k < n {
      NothingLeft(y, t, Pow(2, point));
      WholeDecimal(x, k, y, t);
      DecShift(t, -n, n - k);
      ExactHalfUp(x, n, t * Pow(10, n - k));
    }
  }

  /** y = t + f / 2^point in whole numbers. */
  lemma Shifted(x: real, whole: nat, k: nat, t: nat, f: nat, point: nat)
    requires Generated(whole, k, t, f, point) && x * Pow(2, point + k) as real == whole as real
    ensures (x * Pow(10, k) as real) * Pow(2, point) as real == t as real * Pow(2, point) as real + f as real
  {
    hide Pow;
    PowAdd(2, point, k);
    PowBaseMul(5, 2, k);
    ShiftedCore(x, whole, Pow(2, point), Pow(2, k), Pow(5, k), Pow(2, point + k), Pow(10, k), t, f);
  }

  lemma ShiftedCore(x: real, whole: int, p: int, q: int, five: int, pq: int, ten: int, t: int, f: int)
    requires pq == p * q && ten == five * q && x * pq as real == whole as real && whole * five == t * p + f
    ensures (x * ten as real) * p as real == t as real * p as real + f as real
  {
  }

  lemma HalfUpAt(x: real, k: nat, y: real, t: real, f: int, p: int, c: int)
    requires y == x * Pow(10, k) as real && y * p as real == t * p as real + f as real && 0 <= f < p
    requires c as real == t + (if 2 * f >= p then 1.0 else 0.0)
    ensures RoundsHalfUp(x, k, c)
  {
    hide Pow, Ten;
    var h := c as real;
    RMulDist(h, 0.5, p as real);
    RCancel(h - 0.5, y, p as real);
    RCancel(y, h + 0.5, p as real);
    assert h - 0.5 <= y < h + 0.5 by { Ends(t, h, y, f, p); }
    TenNat(k);
    TenInverse(k);
    TimesTen(x, y, Ten(k), Ten(-(k as int)));
    RMulLe((2 * c - 1) as real, 2.0 * y, Ten(-(k as int)));
    RMulLt(2.0 * y, (2 * c + 1) as real, Ten(-(k as int)));
  }

  lemma Ends(t: real, h: real, y: real, f: int, p: int)
    requires y * p as real == t * p as real + f as real && 0 <= f < p
    requires h == t + (if 2 * f >= p then 1.0 else 0.0)
    ensures h - 0.5 <= y < h + 0.5
  {
    RMulDist(y, t, p as real);
    Fraction(y - t, p as real, f as real);
  }

  lemma Fraction(z: real, p: real, f: real)
    requires z * p == f && 0.0 <= f < p
    ensures 0.0 <= z < 1.0 && (z >= 0.5 <==> f + f >= p)
  {
    var half := 0.5 * p;
    HalfCancel(z, 0.5, p, f, half);
    HalfCancel(z, 0.0, p, f, 0.0);
    HalfCancel(z, 1.0, p, f, p);
  }

  lemma HalfCancel(z: real, h: real, p: real, f: real, hp: real)
    requires z * p == f && h * p == hp && 0.0 < p
    ensures z < h <==> f < hp
  {
  }

  lemma TimesTen(x: real, y: real, a: real, a': real)
    requires y == x * a && a * a' == 1.0
    ensures (2.0 * y) * a' == 2.0 * x
  {
  }

  lemma NothingLeft(y: real, t: int, p: int)
    requires p > 0 && y * p as real == t as real * p as real
    ensures y == t as real
  {
  }

  lemma WholeDecimal(x: real, k: nat, y: real, t: int)
    requires y == x * Pow(10, k) as real && y == t as real
    ensures x == Dec(t, -(k as int))
  {
  }

  lemma ExactHalfUp(x: real, n: int, c: int)
    requires x == Dec(c, -n)
    ensures RoundsHalfUp(x, n, c)
  {
  }

  /** A number that is written out in full is fixed at any number of digits. */
  lemma WholeIsFixed(x: nat, n: int, digits: seq<char>)
    requires 0 <= n && AreDigits(digits) && Number(digits) == x
    ensures IsFixed(x as real, n, digits, |digits|)
  {
    hide Ten, Number, RoundsHalfUp;
    TwoSmall();
    assert Dec(x, 0) == x as real;
    DecShift(x, -n, n);
    ExactHalfUp(x as real, n, x * Pow(10, n));
  }

  /** Less than half of the last place is nothing. */
  lemma NothingIsFixed(v: real, n: int, point: int)
    requires 0.0 <= v && 2.0 * v < Ten(-n)
    ensures IsFixed(v, n, [], point)
  {
    hide Ten;
    var t := Ten(-n);
    assert Dec(0, point) == 0.0 && Dec(0, -n) == 0.0 && Dec(1, -n) == t && Dec(-1, -n) == -t;
    assert RoundsHalfUp(v, n, 0);
  }

  // ----- digit strings that start with a non-zero digit

  lemma LeadingDigit(s: seq<char>)
    requires s != [] && AreDigits(s) && s[0] != '0'
    ensures Pow(10, |s| - 1) <= Number(s) < Pow(10, |s|)
  {
  }

  /** Of one length and value there is only one. */
  lemma SameDigits(s: seq<char>, p: int, t: seq<char>, q: int)
    requires |s| == |t| > 0 && AreDigits(s) && AreDigits(t) && s[0] != '0' && t[0] != '0'
    requires Dec(Number(s), p - |s|) == Dec(Number(t), q - |t|)
    ensures s == t && p == q
  {
    hide Dec, Number, Pow;
    if p < q { HigherPoint(s, p, t, q); }
    if q < p { HigherPoint(t, q, s, p); }
    DecOrder(Number(s), Number(t), p - |s|);
    DecOrder(Number(t), Number(s), p - |s|);
    NumberInjective(s, t);
  }

  lemma HigherPoint(s: seq<char>, p: int, t: seq<char>, q: int)
    requires |s| == |t| > 0 && AreDigits(s) && AreDigits(t) && s[0] != '0' && t[0] != '0' && p < q
    ensures Dec(Number(s), p - |s|) < Dec(Number(t), q - |t|)
  {
    hide Dec, Number, Pow;
    LeadingDigit(s);
    LeadingDigit(t);
    var n := |s| - 1;
    PowTen(n);
    DecShift(Pow(10, n), p - |s|, 1);
    SmallTens();
    DecOrder(Number(s), 10 * Pow(10, n), p - |s|);
    DecOrder(Pow(10, n), Number(t), p - |s| + 1);
    DecLe(Number(t), p - |s| + 1, q - |t|);
  }

  // ----- a given number of digits

  /** v's first digit stands just behind that place. */
  predicate StartsAt(v: real, place: int) {
    Ten(place - 1) <= v < Ten(place)
  }

  /** The digits are v rounded half up at the last of them, counted from v's first digit, which is not zero. */
  ghost predicate IsPrecise(v: real, digits: seq<char>, point: int) {
    && digits != [] && digits[0] != '0'
    && exists place: int :: StartsAt(v, place) && IsFixed(v, |digits| - place, digits, point)
  }

  lemma SamePlace(v: real, p: int, q: int)
    requires StartsAt(v, p) && StartsAt(v, q)
    ensures p == q
  {
    hide Ten;
    if p < q { TenMonotone(p, q - 1); }
    if q < p { TenMonotone(q, p - 1); }
  }

  /** A number and a count of digits leave one string and one decimal point. */
  lemma PreciseIsUnique(v: real, digits: seq<char>, point: int, digits': seq<char>, point': int)
    requires IsPrecise(v, digits, point) && IsPrecise(v, digits', point') && |digits| == |digits'|
    ensures digits == digits' && point == point'
  {
    hide StartsAt, IsFixed;
    var p :| StartsAt(v, p) && IsFixed(v, |digits| - p, digits, point);
    var q :| StartsAt(v, q) && IsFixed(v, |digits| - q, digits', point');
    SamePlace(v, p, q);
    SameFixed(v, |digits| - p, digits, point, digits', point');
  }

  lemma SameFixed(v: real, n: int, digits: seq<char>, point: int, digits': seq<char>, point': int)
    requires IsFixed(v, n, digits, point) && IsFixed(v, n, digits', point')
    requires |digits| == |digits'| > 0 && digits[0] != '0' && digits'[0] != '0'
    ensures digits == digits' && point == point'
  {
    hide Dec, Number, IsRounded;
    FixedIsUnique(v, n, digits, point, digits', point');
    SameDigits(digits, point, digits', point');
  }

  // ----- the digits of a fixed-mode print

  /** v's first digit stands just behind the point's place of a string that does not start with a zero. */
  lemma PlaceOf(s: seq<char>, p: int)
    requires s != [] && AreDigits(s) && s[0] != '0'
    ensures StartsAt(Dec(Number(s), p - |s|), p) && Dec(Number(s), p - |s|) > 0.0
  {
    hide Number, Pow, Ten;
    LeadingDigit(s);
    var n := |s|;
    DecOrder(Pow(10, n - 1), Number(s), p - n);
    DecOrder(Number(s), Pow(10, n), p - n);
    TenNat(n);
    TenNat(n - 1);
    TenAdd(n, p - n);
    TenAdd(n - 1, p - n);
  }

  predicate Zeros(s: seq<char>) {
    forall k | 0 <= k < |s| :: s[k] == '0'
  }

  lemma {:induction false} NumberOfZeros(s: seq<char>, k: nat)
    ensures Number(s + seq(k, _ => '0')) == Number(s) * Pow(10, k)
  {
    if k == 0 {
      assert s + seq(k, _ => '0') == s;
    } else {
      NumberOfZeros(s, k - 1);
      assert s + seq(k, _ => '0') == (s + seq(k - 1, _ => '0')) + ['0'];
      NumberSnoc(s + seq(k - 1, _ => '0'), '0');
      MulAssoc(10, Number(s), Pow(10, k - 1));
      MulAssoc(Number(s), 10, Pow(10, k - 1));
    }
  }

  /** Of two strings for one decimal, the longer one is the shorter one with zeros behind. */
  lemma ZerosBehind(s: seq<char>, t: seq<char>, p: int)
    requires AreDigits(s) && AreDigits(t) && |s| <= |t| && Dec(Number(s), p - |s|) == Dec(Number(t), p - |t|)
    ensures s <= t && Zeros(t[|s|..]) && (|s| < |t| ==> t[|t| - 1] == '0')
  {
    hide Dec, Number, Pow;
    var k := |t| - |s|;
    var u := s + seq(k, _ => '0');
    NumberOfZeros(s, k);
    DecShift(Number(s), p - |t|, k);
    assert p - |t| + k == p - |s|;
    DecOrder(Number(u), Number(t), p - |t|);
    DecOrder(Number(t), Number(u), p - |t|);
    NumberInjective(u, t);
    assert |s| < |t| ==> u[|t| - 1] == '0';
  }

  /** Without zeros in front, a decimal fixes the point; without zeros at the end, one string is the other one trimmed. */
  lemma TrimmedOf(s: seq<char>, p: int, t: seq<char>, q: int)
    requires AreDigits(s) && AreDigits(t) && Dec(Number(s), p - |s|) == Dec(Number(t), q - |t|)
    requires (s != [] ==> s[0] != '0' && s[|s| - 1] != '0') && (t != [] ==> t[0] != '0')
    ensures s <= t && Zeros(t[|s|..]) && (s == [] <==> t == []) && (s != [] ==> p == q)
  {
    hide Dec, Number;
    NumberEmpty([]);
    if s == [] || t == [] {
      if s != [] { PlaceOf(s, p); }
      if t != [] { PlaceOf(t, q); }
      NoNumber(p - |s|);
      NoNumber(q - |t|);
    } else {
      PlaceOf(s, p);
      PlaceOf(t, q);
      SamePlace(Dec(Number(s), p - |s|), p, q);
      if |s| <= |t| {
        ZerosBehind(s, t, p);
      } else {
        ZerosBehind(t, s, p);
      }
    }
  }

  lemma NoNumber(q: int)
    ensures Dec(0, q) == 0.0
  {
  }

  /**
   What the exact printer leaves in fixed mode: v rounded half up to n digits after the point, no zero in front, written
   down to the n-th place as seen from v's own first digit; and for nothing at all a point at that place.
   */
  ghost predicate PrintsFixed(v: real, n: int, digits: seq<char>, point: int) {
    && IsFixed(v, n, digits, point)
    && (digits == [] ==> point == -n)
    && (digits != [] ==> digits[0] != '0' && HasFixedLength(v, n, |digits|))
  }

  ghost predicate HasFixedLength(v: real, n: int, length: nat) {
    exists place: int :: StartsAt(v, place) && length == if place + n == 0 then 1 else place + n
  }

  /** There is one such print. */
  lemma FixedPrintIsUnique(v: real, n: int, digits: seq<char>, point: int, digits': seq<char>, point': int)
    requires PrintsFixed(v, n, digits, point) && PrintsFixed(v, n, digits', point')
    ensures digits == digits' && point == point'
  {
    hide Dec, Number, IsRounded, StartsAt;
    FixedIsUnique(v, n, digits, point, digits', point');
    NumberEmpty([]);
    NoNumber(point - |digits|);
    NoNumber(point' - |digits'|);
    if digits != [] { PlaceOf(digits, point); }
    if digits' != [] { PlaceOf(digits', point'); }
    if digits != [] && digits' != [] {
      var p :| StartsAt(v, p) && |digits| == if p + n == 0 then 1 else p + n;
      var q :| StartsAt(v, q) && |digits'| == if q + n == 0 then 1 else q + n;
      SamePlace(v, p, q);
      SameDigits(digits, point, digits', point');
    }
  }

  /** What the fast printer leaves: the same, cut behind the last digit that is not zero. */
  ghost predicate PrintsFixedTrimmed(v: real, n: int, digits: seq<char>, point: int) {
    && IsFixed(v, n, digits, point)
    && (digits == [] ==> point == -n)
    && (digits != [] ==> digits[0] != '0' && digits[|digits| - 1] != '0')
  }

  /** There is one such print, too. */
  lemma TrimmedPrintIsUnique(v: real, n: int, digits: seq<char>, point: int, digits': seq<char>, point': int)
    requires PrintsFixedTrimmed(v, n, digits, point) && PrintsFixedTrimmed(v, n, digits', point')
    ensures digits == digits' && point == point'
  {
    hide Dec, Number, IsRounded;
    FixedIsUnique(v, n, digits, point, digits', point');
    TrimmedOf(digits, point, digits', point');
    TrimmedOf(digits', point', digits, point);
  }
}
