/**
 Numbers just above half the smallest double. The 64-bit floats would drop them if they came out just
 below that half; that they never do takes the digits of 2^-1075 and of 10^-348.
 */
module Smallest {
  import opened Powers
  import opened Words
  import opened Decimals
  import opened Exact
  import opened Ieee
  import opened Shortest
  import opened DiyFps
  import opened CachedPowers
  import opened DiyFpStrtods

  /** The leading nineteen digits of 2^-1075. */
  const LEADING: int := 2470328229206232720

  /** The significand of 10^-348. */
  const FIRST_POWER: int := 0xfa8f_d5a0_081c_0288

  /** 5^k between two numbers of 128 bits, scaled. */
  ghost predicate Bracket(k: nat, lo: nat, hi: nat, shift: nat) {
    lo * Pow(2, shift) <= Pow(5, k) <= hi * Pow(2, shift)
  }

  lemma BracketSum(k: nat, lo: nat, hi: nat, s: nat, k': nat, lo': nat, hi': nat, s': nat, t: nat, p: nat, low: nat, high: nat)
    requires Bracket(k, lo, hi, s) && Bracket(k', lo', hi', s') && p == Pow(2, t)
    requires low * p <= lo * lo' && hi * hi' <= high * p
    ensures Bracket(k + k', low, high, s + s' + t)
  {
    hide Pow;
    PowAdd(5, k, k');
    PowAdd(2, s, s');
    PowAdd(2, s + s', t);
    BracketProduct(lo, hi, Pow(2, s), Pow(5, k), lo', hi', Pow(2, s'), Pow(5, k'), p, low, high);
  }

  lemma BracketProduct(lo: nat, hi: nat, x: nat, v: nat, lo': nat, hi': nat, y: nat, v': nat, p: nat, low: nat, high: nat)
    requires lo * x <= v <= hi * x && lo' * y <= v' <= hi' * y
    requires low * p <= lo * lo' && hi * hi' <= high * p
    ensures low * ((x * y) * p) <= v * v' <= high * ((x * y) * p)
  {
    SplitScale(lo, x, lo', y);
    SplitScale(hi, x, hi', y);
    ProductAtMost(lo * x, lo' * y, v, v');
    ProductAtMost(v, v', hi * x, hi' * y);
    MulLe(low * p, lo * lo', x * y);
    MulLe(hi * hi', high * p, x * y);
    MulAssoc(low, p, x * y);
    MulAssoc(high, p, x * y);
  }

  lemma SplitScale(m: int, x: int, n: int, y: int)
    ensures (m * x) * (n * y) == (m * n) * (x * y)
  {
    MulAssoc(m, x, n * y);
    MulAssoc(x, n, y);
    MulAssoc(n, x, y);
    MulAssoc(m, n, x * y);
  }

  lemma TwoLiterals()
    ensures Pow(2, 49) == 0x2_0000_0000_0000 && Pow(2, 89) == 0x200_0000_0000_0000_0000_0000
    ensures Pow(2, 127) == 0x8000_0000_0000_0000_0000_0000_0000_0000
    ensures Pow(2, 128) == 0x1_0000_0000_0000_0000_0000_0000_0000_0000
    ensures Pow(2, 65) == 0x2_0000_0000_0000_0000 && Pow(2, 59) == 0x800_0000_0000_0000
    ensures Pow(2, 125) == 0x2000_0000_0000_0000_0000_0000_0000_0000
  {
    PowValues();
    LargeTwos();
    PowNext(59);
    PowNext(64);
    PowNext(60);
    PowAdd(2, 28, 61);
    PowAdd(2, 61, 64);
    PowNext(48);
    PowNext(49);
    PowAdd(2, 64, 64);
    PowNext(127);
  }

  lemma FiveTo38()
    ensures Pow(5, 38) == 0x12c_ed32_a16a_1b11_e826_2889
  {
    assert Pow(5, 6) == 15625;
    PowAdd(5, 6, 6);
    PowAdd(5, 12, 6);
    PowAdd(5, 18, 1);
    PowAdd(5, 19, 19);
  }

  lemma FiveTo342()
    ensures Bracket(342, 0x8921_79be_91d4_3a43_8808_3f89_43a1_1489, 0x8921_79be_91d4_3a43_8808_3f89_43a1_148f, 667)
  {
    hide Bracket, Pow;
    TwoLiterals();
    FiveTo38();
    ExactBracket(38, 0x12c_ed32_a16a_1b11_e826_2889);
    BracketSum(38, 0x12c_ed32_a16a_1b11_e826_2889, 0x12c_ed32_a16a_1b11_e826_2889, 0,
               38, 0x12c_ed32_a16a_1b11_e826_2889, 0x12c_ed32_a16a_1b11_e826_2889, 0, 49, 0x2_0000_0000_0000,
               0xb0de_6538_8cc8_ada8_3b25_a55f_4329_4bcb, 0xb0de_6538_8cc8_ada8_3b25_a55f_4329_4bcc);
    BracketSum(76, 0xb0de_6538_8cc8_ada8_3b25_a55f_4329_4bcb, 0xb0de_6538_8cc8_ada8_3b25_a55f_4329_4bcc, 49,
               76, 0xb0de_6538_8cc8_ada8_3b25_a55f_4329_4bcb, 0xb0de_6538_8cc8_ada8_3b25_a55f_4329_4bcc, 49,
               127, 0x8000_0000_0000_0000_0000_0000_0000_0000,
               0xf465_18c2_ef5b_8cd1_7eb2_5866_5fc2_5d67, 0xf465_18c2_ef5b_8cd1_7eb2_5866_5fc2_5d6b);
    BracketSum(152, 0xf465_18c2_ef5b_8cd1_7eb2_5866_5fc2_5d67, 0xf465_18c2_ef5b_8cd1_7eb2_5866_5fc2_5d6b, 225,
               152, 0xf465_18c2_ef5b_8cd1_7eb2_5866_5fc2_5d67, 0xf465_18c2_ef5b_8cd1_7eb2_5866_5fc2_5d6b, 225,
               128, 0x1_0000_0000_0000_0000_0000_0000_0000_0000,
               0xe950_df20_247c_83fd_47c6_b82e_f32a_2064, 0xe950_df20_247c_83fd_47c6_b82e_f32a_206d);
    BracketSum(304, 0xe950_df20_247c_83fd_47c6_b82e_f32a_2064, 0xe950_df20_247c_83fd_47c6_b82e_f32a_206d, 578,
               38, 0x12c_ed32_a16a_1b11_e826_2889, 0x12c_ed32_a16a_1b11_e826_2889, 0, 89, 0x200_0000_0000_0000_0000_0000,
               0x8921_79be_91d4_3a43_8808_3f89_43a1_1489, 0x8921_79be_91d4_3a43_8808_3f89_43a1_148f);
  }

  lemma ExactBracket(k: nat, n: nat)
    requires Pow(5, k) == n
    ensures Bracket(k, n, n, 0)
  {
  }

  /** Comparing m * 10^-q with k * 2^-(q + t) is comparing m * 2^t with k * 5^q. */
  lemma DecimalBelowTwo(m: nat, q: nat, t: nat, k: nat)
    requires m * Pow(2, t) < k * Pow(5, q)
    ensures Dec(m, -(q as int)) < k as real * Two(-((q + t) as int))
  {
    hide Pow, Two, Ten;
    CrossScale(m, q, t, k);
    Inverses(q, t);
    CrossDecide(m as real, Ten(-(q as int)), Pow(10, q) as real, k as real, Two(-((q + t) as int)), Pow(2, q + t) as real);
  }

  lemma TwoBelowDecimal(m: nat, q: nat, t: nat, k: nat)
    requires k * Pow(5, q) < m * Pow(2, t)
    ensures k as real * Two(-((q + t) as int)) < Dec(m, -(q as int))
  {
    hide Pow, Two, Ten;
    CrossScale(m, q, t, k);
    Inverses(q, t);
    CrossDecide2(m as real, Ten(-(q as int)), Pow(10, q) as real, k as real, Two(-((q + t) as int)), Pow(2, q + t) as real);
  }

  /** Both sides times 2^q. */
  lemma CrossScale(m: nat, q: nat, t: nat, k: nat)
    ensures m * Pow(2, t) < k * Pow(5, q) ==> m as real * Pow(2, q + t) as real < k as real * Pow(10, q) as real
    ensures k * Pow(5, q) < m * Pow(2, t) ==> k as real * Pow(10, q) as real < m as real * Pow(2, q + t) as real
  {
    hide Pow;
    PowBaseMul(5, 2, q);
    PowAdd(2, t, q);
    IntMul(m, Pow(2, q + t));
    IntMul(k, Pow(10, q));
    ScaledOrder(m, Pow(2, t), k, Pow(5, q), Pow(2, q));
  }

  lemma ScaledOrder(m: int, x: int, k: int, y: int, s: int)
    requires 0 < s
    ensures m * x < k * y ==> m * (x * s) < k * (y * s)
    ensures k * y < m * x ==> k * (y * s) < m * (x * s)
  {
    MulAssoc(m, x, s);
    MulAssoc(k, y, s);
    if m * x < k * y { MulLt(m * x, k * y, s); }
    if k * y < m * x { MulLt(k * y, m * x, s); }
  }

  lemma Inverses(q: nat, t: nat)
    ensures Ten(-(q as int)) * Pow(10, q) as real == 1.0 && Two(-((q + t) as int)) * Pow(2, q + t) as real == 1.0
  {
    hide Pow, Two, Ten;
    TenNat(q);
    TenInverse(q);
    TwoNat(q + t);
    TwoInverse(q + t);
  }

  lemma CrossDecide(m: real, t: real, p: real, k: real, u: real, w: real)
    requires 0.0 < t && 0.0 < u && t * p == 1.0 && u * w == 1.0 && m * w < k * p
    ensures m * t < k * u
  {
    RMulLt(0.0, t, u);
    RMulLt(m * w, k * p, t * u);
    Cancelled(m, t, p, k, u, w);
  }

  lemma Cancelled(m: real, t: real, p: real, k: real, u: real, w: real)
    requires t * p == 1.0 && u * w == 1.0
    ensures (m * w) * (t * u) == m * t
    ensures (k * p) * (t * u) == k * u
  {
    RMulAssoc(m, w, t * u);
    Rotate(w, t, u);
    RMulAssoc(k, p, t * u);
    RMulAssoc(p, t, u);
  }

  lemma CrossDecide2(m: real, t: real, p: real, k: real, u: real, w: real)
    requires 0.0 < t && 0.0 < u && t * p == 1.0 && u * w == 1.0 && k * p < m * w
    ensures k * u < m * t
  {
    RMulLt(0.0, t, u);
    RMulLt(k * p, m * w, t * u);
    Cancelled(m, t, p, k, u, w);
  }

  // ----- the digits

  /** Half the smallest double and a little more, between two decimals. */
  lemma HalfSmallest()
    ensures Dec(10 * LEADING + 8, -343) < Two(-1075)
    ensures Two(-1075) + Two(-1134) < Dec(LEADING + 6, -342)
  {
    hide Pow, Two, Bracket, Dec;
    FiveTo342();
    HalfBelow();
    HalfAbove();
    TwoAdd(59, -1134);
    TwoNat(59);
    TwoLiterals();
    RMulDist(0x800_0000_0000_0000 as real, 1.0, Two(-1134));
    DecimalBelowTwo(10 * LEADING + 8, 343, 732, 1);
    TwoBelowDecimal(LEADING + 6, 342, 792, 0x800_0000_0000_0001);
  }

  lemma HalfBelow()
    ensures (10 * LEADING + 8) * Pow(2, 732) < Pow(5, 343)
  {
    hide Pow, Bracket;
    FiveTo342();
    FiveNext(342);
    TwoLiterals();
    PowAdd(2, 65, 667);
    BracketBelow(342, 0x8921_79be_91d4_3a43_8808_3f89_43a1_1489, 0x8921_79be_91d4_3a43_8808_3f89_43a1_148f, 667);
    var x := Pow(2, 667);
    MulAssoc(10 * LEADING + 8, 0x2_0000_0000_0000_0000, x);
    MulAssoc(5, 0x8921_79be_91d4_3a43_8808_3f89_43a1_1489, x);
    MulLt((10 * LEADING + 8) * 0x2_0000_0000_0000_0000, 5 * 0x8921_79be_91d4_3a43_8808_3f89_43a1_1489, x);
  }

  lemma HalfAbove()
    ensures 0x800_0000_0000_0001 * Pow(5, 342) < (LEADING + 6) * Pow(2, 792)
  {
    hide Pow, Bracket;
    FiveTo342();
    TwoLiterals();
    PowAdd(2, 125, 667);
    BracketBelow(342, 0x8921_79be_91d4_3a43_8808_3f89_43a1_1489, 0x8921_79be_91d4_3a43_8808_3f89_43a1_148f, 667);
    var x := Pow(2, 667);
    MulAssoc(LEADING + 6, 0x2000_0000_0000_0000_0000_0000_0000_0000, x);
    MulAssoc(0x800_0000_0000_0001, 0x8921_79be_91d4_3a43_8808_3f89_43a1_148f, x);
    MulLt(0x800_0000_0000_0001 * 0x8921_79be_91d4_3a43_8808_3f89_43a1_148f,
          (LEADING + 6) * 0x2000_0000_0000_0000_0000_0000_0000_0000, x);
    MulLe(Pow(5, 342), 0x8921_79be_91d4_3a43_8808_3f89_43a1_148f * x, 0x800_0000_0000_0001);
  }

  lemma BracketBelow(k: nat, lo: nat, hi: nat, s: nat)
    requires Bracket(k, lo, hi, s)
    ensures lo * Pow(2, s) <= Pow(5, k) <= hi * Pow(2, s)
  {
  }

  lemma FiveNext(k: nat)
    ensures Pow(5, k + 1) == 5 * Pow(5, k)
  {
  }

  /** A number just above half the smallest double starts with its digits, and has at least nineteen. */
  lemma LeadingDigits(s: seq<char>, exponent: int)
    requires AreDigits(s) && s != [] && Pow(10, |s| - 1) <= Number(s)
    requires Two(-1075) < Dec(Number(s), exponent) < Two(-1075) + Two(-1134)
    ensures |s| >= 19 && exponent + |s| == -323
    ensures LEADING <= Number(s[..19]) && LEADING + 1 <= LeadingSignificand(s) <= LEADING + 6
  {
    hide Pow, Two, Number, Dec;
    HalfSmallest();
    var n := Number(s);
    PlaceOfFirst(s, exponent);
    if |s| <= 18 {
      DecShift(n, -341, exponent + 341);
      var j := n * Pow(10, exponent + 341);
      DecShift(j, -342, 1);
      DecShift(j, -343, 2);
      SmallTens();
      DecOrder(10 * LEADING + 8, 100 * j, -343);
      DecOrder(10 * j, LEADING + 6, -342);
    } else {
      FirstNineteen(s, exponent);
    }
  }

  lemma PlaceOfFirst(s: seq<char>, exponent: int)
    requires AreDigits(s) && s != [] && Pow(10, |s| - 1) <= Number(s)
    requires Dec(10 * LEADING + 8, -343) < Dec(Number(s), exponent) < Dec(LEADING + 6, -342)
    ensures exponent + |s| == -323
  {
    hide Pow, Number, Dec, Ten;
    NumberBound(s);
    PowTenValues();
    PowTen(18);
    PowTen(17);
    var m := |s|;
    DecShift(1, exponent, m - 1);
    DecShift(1, exponent, m);
    DecOrder(Pow(10, m - 1), Number(s), exponent);
    DecOrder(Number(s), Pow(10, m), exponent);
    DecShift(1, -342, 19);
    DecShift(1, -343, 19);
    DecOrder(LEADING + 6, Pow(10, 19), -342);
    DecOrder(Pow(10, 19), 10 * LEADING + 8, -343);
    if exponent + m - 1 >= -323 { DecLe(1, -323, exponent + m - 1); }
    if exponent + m <= -324 { DecLe(1, exponent + m, -324); }
  }

  lemma FirstNineteen(s: seq<char>, exponent: int)
    requires AreDigits(s) && |s| >= 19 && exponent + |s| == -323
    requires Dec(10 * LEADING + 8, -343) < Dec(Number(s), exponent) < Dec(LEADING + 6, -342)
    ensures LEADING <= Number(s[..19]) && LEADING + 1 <= LeadingSignificand(s) <= LEADING + 6
  {
    hide Pow, Number, Dec, Ten;
    Prefixed(s, 19, exponent);
    var a := Number(s[..19]);
    DecOrder(a, LEADING + 6, -342);
    DecShift(a + 1, -343, 1);
    DecShift(LEADING + 6, -343, 1);
    SmallTens();
    DecOrder(10 * LEADING + 8, 10 * (a + 1), -343);
    if a == LEADING {
      if |s| == 19 {
        assert s[..19] == s;
        DecShift(a, -343, 1);
        DecOrder(10 * LEADING + 8, 10 * a, -343);
      } else {
        Prefixed(s, 20, exponent);
        NumberPrefix(s, 19);
        DecOrder(10 * LEADING + 8, Number(s[..20]) + 1, -343);
      }
    }
  }

  /** A number lies between its first k digits and those plus one. */
  lemma Prefixed(s: seq<char>, k: nat, exponent: int)
    requires AreDigits(s) && k <= |s|
    ensures var a, q := Number(s[..k]), exponent + |s| - k; Dec(a, q) <= Dec(Number(s), exponent) < Dec(a + 1, q)
  {
    hide Pow, Number, Dec;
    var a, r := Number(s[..k]), |s| - k;
    assert s == s[..k] + s[k..];
    NumberConcat(s[..k], s[k..]);
    NumberBound(s[k..]);
    DecShift(a, exponent, r);
    DecShift(a + 1, exponent, r);
    MulDist(a, 1, Pow(10, r));
    DecOrder(a * Pow(10, r), Number(s), exponent);
    DecOrder(Number(s), (a + 1) * Pow(10, r), exponent);
  }

  // ----- the path through the 64-bit floats

  lemma FirstEntry(exponent: int, found: int)
    requires exponent == -342 && MIN_DECIMAL_EXPONENT <= found <= exponent < found + DECIMAL_EXPONENT_DISTANCE
    requires (found - MIN_DECIMAL_EXPONENT) % DECIMAL_EXPONENT_DISTANCE == 0
    ensures found == MIN_DECIMAL_EXPONENT
  {
  }

  /** The first entry of the table is at least this large. */
  lemma FirstPower(p: Binary)
    requires IsCachedPower(p, MIN_DECIMAL_EXPONENT)
    ensures p.e == -1220 && FIRST_POWER <= p.f
  {
    hide Pow, Two, Ten, Bracket;
    TenBetween();
    var t, u := Ten(-348), Two(-1220);
    TwoHalves(-1220);
    if p.e >= -1219 {
      TwoMonotone(-1220, p.e - 1);
      ProductFloor((2 * p.f - 1) as real, (FIRST_POWER + 1) as real, Two(p.e - 1), u);
    } else if p.e <= -1221 {
      TwoMonotone(p.e - 1, -1222);
      TwoHalves(-1221);
      ProductFloor((2 * FIRST_POWER - 1) as real * 2.0, (2 * p.f + 1) as real, Two(-1222), Two(p.e - 1));
      RMulAssoc((2 * FIRST_POWER - 1) as real, 2.0, Two(-1222));
    } else if p.f < FIRST_POWER {
      ProductFloor((2 * FIRST_POWER - 1) as real, (2 * p.f + 1) as real, Two(-1221), Two(p.e - 1));
    }
  }

  /** 10^-348 to within a unit of 64 bits. */
  lemma TenBetween()
    ensures (2 * FIRST_POWER - 1) as real * Two(-1221) < Ten(-348)
    ensures Ten(-348) < (FIRST_POWER + 1) as real * Two(-1220)
  {
    hide Pow, Two, Ten;
    FiveTo348();
    TwoBelowDecimal(1, 348, 873, 2 * FIRST_POWER - 1);
    DecimalBelowTwo(1, 348, 872, FIRST_POWER + 1);
  }

  lemma FiveTo348()
    ensures (2 * FIRST_POWER - 1) * Pow(5, 348) < 1 * Pow(2, 873)
    ensures 1 * Pow(2, 872) < (FIRST_POWER + 1) * Pow(5, 348)
  {
    hide Pow, Bracket;
    FiveTo342();
    BracketBelow(342, 0x8921_79be_91d4_3a43_8808_3f89_43a1_1489, 0x8921_79be_91d4_3a43_8808_3f89_43a1_148f, 667);
    var x, y := Pow(2, 667), Pow(5, 342);
    PowAdd(5, 6, 342);
    PowAdd(2, 206, 667);
    PowAdd(2, 205, 667);
    MorePowers();
    MulAssoc(2 * FIRST_POWER - 1, 15625, y);
    MulAssoc(FIRST_POWER + 1, 15625, y);
    MulLe(y, 0x8921_79be_91d4_3a43_8808_3f89_43a1_148f * x, (2 * FIRST_POWER - 1) * 15625);
    MulLe(0x8921_79be_91d4_3a43_8808_3f89_43a1_1489 * x, y, (FIRST_POWER + 1) * 15625);
    MulAssoc((2 * FIRST_POWER - 1) * 15625, 0x8921_79be_91d4_3a43_8808_3f89_43a1_148f, x);
    MulAssoc((FIRST_POWER + 1) * 15625, 0x8921_79be_91d4_3a43_8808_3f89_43a1_1489, x);
    MulLt((2 * FIRST_POWER - 1) * 15625 * 0x8921_79be_91d4_3a43_8808_3f89_43a1_148f, Pow(2, 206), x);
    MulLt(Pow(2, 205), (FIRST_POWER + 1) * 15625 * 0x8921_79be_91d4_3a43_8808_3f89_43a1_1489, x);
  }

  lemma MorePowers()
    ensures Pow(5, 6) == 15625
    ensures Pow(2, 206) == 2 * Pow(2, 205) == 0x4000_0000_0000_0000_0000_0000_0000_0000_0000_0000_0000_0000_0000
  {
    TwoLiterals();
    LargeTwos();
    PowAdd(2, 128, 50);
    PowAdd(2, 178, 28);
    PowNext(205);
    PowValues();
  }

  lemma TinyPath(significand: UInt64, p: Binary, f: UInt64, e: int)
    requires LEADING + 1 <= significand <= LEADING + 6 && IsCachedPower(p, MIN_DECIMAL_EXPONENT)
    requires
      var a, r := AdjustmentPowerOfTen(6), Normalized(significand, 0);
      r.f * a.f >= 0 &&
      var g := HighWord(r.f * a.f);
      p.f >= 0 && g * p.f >= 0 && f == HighWord(g * p.f) && e == r.e + a.e + 64 + p.e + 64
    ensures f > 0 && Normalized(f, e).e + 64 >= -1074
  {
    hide Pow, Two, Ten, HighWord, IsCachedPower;
    FirstPower(p);
    assert Normalized(significand, 0) == Normalized(2 * significand, -1) == Normalized(4 * significand, -2);
    var g := HighWord(4 * significand * 0xf424_0000_0000_0000);
    HighWordMonotone(4 * (LEADING + 1) * 0xf424_0000_0000_0000, 4 * significand * 0xf424_0000_0000_0000);
    FirstProduct();
    ProductAtMost(0x82c7_30be_c1ca_c961, FIRST_POWER, g, p.f);
    HighWordMonotone(0x82c7_30be_c1ca_c961 * FIRST_POWER, g * p.f);
  }

  lemma FirstProduct()
    ensures HighWord(4 * (LEADING + 1) * 0xf424_0000_0000_0000) == 0x82c7_30be_c1ca_c961
    ensures HighWord(0x82c7_30be_c1ca_c961 * FIRST_POWER) == 0x8000_0000_0000_0000
  {
  }
}
