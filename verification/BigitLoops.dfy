/**
 The invariant shared by the carry and borrow loops over bigits, and the word arithmetic of
 one iteration of each. Loops keep the invariant by name and leave its arithmetic here.
 */
module BigitLoops {
  import opened Powers
  import opened Bigits

  /** The bigits of s below j, together with a (possibly negative) carry into bigit j, make x. */
  ghost predicate Acc(s: seq<int>, j: nat, c: int, x: int)
    requires j <= |s|
  {
    Val(s[..j]) + c * BPow(j) == x
  }

  lemma AccStart(s: seq<int>)
    ensures Acc(s, 0, 0, 0)
  {
  }

  lemma AccZero(s: seq<int>, x: int)
    ensures Acc(s, 0, x, x)
  {
  }

  lemma AccBegin(s: seq<int>, j: nat, c: int, x: int)
    requires j <= |s| && x == Val(s[..j]) + c * BPow(j)
    ensures Acc(s, j, c, x)
  {
  }

  lemma AccDef(s: seq<int>, j: nat, c: int, x: int)
    requires j <= |s| && Acc(s, j, c, x)
    ensures Val(s[..j]) + c * BPow(j) == x
    ensures c == 0 ==> Val(s[..j]) == x
  {
  }

  /** Writing bigit j: the carry c and the amount y due at weight j split into t[j] and a carry c'. */
  lemma AccStep(s: seq<int>, t: seq<int>, j: nat, c: int, c': int, x: int, y: int)
    requires j < |s| == |t| && s[..j] == t[..j]
    requires Acc(s, j, c, x)
    requires c + y == t[j] + 0x1000_0000 * c'
    ensures Acc(t, j + 1, c', x + y * BPow(j))
  {
    ValPrefix(t, j);
    var p := BPow(j);
    BPowStep(j);
    calc {
      Val(s[..j]) + t[j] * p + c' * (0x1000_0000 * p);
      { MulAssoc(c', 0x1000_0000, p); }
      Val(s[..j]) + t[j] * p + (c' * 0x1000_0000) * p;
      { MulDist(t[j], c' * 0x1000_0000, p); }
      Val(s[..j]) + (t[j] + c' * 0x1000_0000) * p;
      { assert t[j] + c' * 0x1000_0000 == c + y; }
      Val(s[..j]) + (c + y) * p;
      { MulDist(c, y, p); }
      Val(s[..j]) + c * p + y * p;
    }
  }

  /** f times the low i bigits of a, moved up by off bigits: what a multiplying loop has consumed. */
  ghost function Part(a: seq<int>, i: nat, off: nat, f: int): int
    requires i <= |a|
  {
    f * (BPow(off) * Val(a[..i]))
  }

  lemma PartStart(a: seq<int>, off: nat, f: int)
    ensures Part(a, 0, off, f) == 0
  {
    assert a[..0] == [];
    assert Val(a[..0]) == 0;
  }

  lemma PartStep(a: seq<int>, i: nat, off: nat, f: int)
    requires i < |a|
    ensures Part(a, i + 1, off, f) == Part(a, i, off, f) + (f * a[i]) * BPow(off + i)
  {
    ValPrefix(a, i);
    BPowAdd(off, i);
    var p, v, q := BPow(off), Val(a[..i]), BPow(i);
    MulTerm(p, v, a[i], q);
    assert f * (p * v + a[i] * (p * q)) == f * (p * v) + f * (a[i] * (p * q)) by {
      MulDist(p * v, a[i] * (p * q), f);
    }
    MulAssoc(f, a[i], p * q);
  }

  lemma PartFull(a: seq<int>, n: nat, f: int)
    requires n <= |a|
    ensures Part(a, n, 0, f) == f * Val(a[..n])
  {
    assert BPow(0) == 1;
  }

  /**
   The invariant of adding f times o, moved up by off bigits, into a: bigits of s below j hold
   the result so far, m bigits of o have been consumed, and c is due at bigit j.
   */
  ghost predicate Summed(s: seq<int>, a: seq<int>, o: seq<int>, off: nat, m: nat, j: nat, f: int, c: int)
    requires j <= |s| && j <= |a| && m <= |o|
  {
    Acc(s, j, c, Val(a[..j]) + Part(o, m, off, f))
  }

  lemma SummedStart(a: seq<int>, o: seq<int>, off: nat, f: int)
    requires off <= |a|
    ensures Summed(a, a, o, off, 0, off, f, 0)
  {
    PartStart(o, off, f);
  }

  /** An iteration that consumes one more bigit of o. */
  lemma SummedStep(s: seq<int>, t: seq<int>, a: seq<int>, o: seq<int>, off: nat, m: nat, f: int, c: int, c': int)
    requires off + m < |s| == |t| == |a| && m < |o| && s[..off + m] == t[..off + m]
    requires Summed(s, a, o, off, m, off + m, f, c)
    requires c + (a[off + m] + f * o[m]) == t[off + m] + 0x1000_0000 * c'
    ensures Summed(t, a, o, off, m + 1, off + m + 1, f, c')
  {
    hide Acc, Part;
    var j := off + m;
    AccStep(s, t, j, c, c', Val(a[..j]) + Part(o, m, off, f), a[j] + f * o[m]);
    PartStep(o, m, off, f);
    ValPrefix(a, j);
    MulDist(a[j], f * o[m], BPow(j));
  }

  /** An iteration past the end of o that only moves the carry on. */
  lemma SummedTail(s: seq<int>, t: seq<int>, a: seq<int>, o: seq<int>, off: nat, m: nat, j: nat, f: int, c: int, c': int)
    requires j < |s| == |t| == |a| && m <= |o| && s[..j] == t[..j]
    requires Summed(s, a, o, off, m, j, f, c)
    requires c + a[j] == t[j] + 0x1000_0000 * c'
    ensures Summed(t, a, o, off, m, j + 1, f, c')
  {
    hide Acc, Part;
    AccStep(s, t, j, c, c', Val(a[..j]) + Part(o, m, off, f), a[j]);
    ValPrefix(a, j);
  }

  /** With no carry left the untouched bigits above j complete the sum. */
  lemma SummedDone(s: seq<int>, a: seq<int>, o: seq<int>, off: nat, m: nat, j: nat, n: nat, f: int)
    requires j <= n <= |s| == |a| && m <= |o|
    requires Summed(s, a, o, off, m, j, f, 0)
    requires forall k | j <= k < n :: s[k] == a[k]
    ensures Val(s[..n]) == Val(a[..n]) + f * (BPow(off) * Val(o[..m]))
  {
    assert s[..n] == s[..j] + s[j..n];
    assert a[..n] == a[..j] + a[j..n];
    assert s[j..n] == a[j..n];
    ValConcat(s[..j], s[j..n]);
    ValConcat(a[..j], a[j..n]);
  }

  /** Above every used bigit of both numbers an addition carries at most once. */
  lemma SummedCarryEnds(s: seq<int>, a: seq<int>, o: seq<int>, off: nat, m: nat, j: nat, n: nat, c: int)
    requires n < j <= |s| && j <= |a| && m <= |o| && off + m <= n
    requires AreBigits(s) && AreBigits(a) && AreBigits(o) && forall k | n <= k < |a| :: a[k] == 0
    requires Summed(s, a, o, off, m, j, 1, c)
    ensures c <= 0
  {
    hide Acc, BPow;
    AccDef(s, j, c, Val(a[..j]) + Part(o, m, off, 1));
    ValBound(s[..j]);
    TrimZeros(a, n, j);
    ValBound(a[..n]);
    ValBound(o[..m]);
    PartBound(o, m, off, n);
    BPowStep(n);
    PowMonotone(0x1000_0000, n + 1, j);
    BPowDef(n + 1);
    BPowDef(j);
    if c > 0 { MulLe(1, c, BPow(j)); }
  }

  lemma PartBound(o: seq<int>, m: nat, off: nat, n: nat)
    requires m <= |o| && AreBigits(o) && off + m <= n
    ensures Part(o, m, off, 1) < BPow(n)
  {
    ValBound(o[..m]);
    BPowAdd(off, m);
    MulLt(Val(o[..m]), BPow(m), BPow(off));
    PowMonotone(0x1000_0000, off + m, n);
  }

  lemma TrimZeros(a: seq<int>, n: nat, j: nat)
    requires n <= j <= |a| && forall k | n <= k < j :: a[k] == 0
    ensures Val(a[..j]) == Val(a[..n])
  {
    assert a[..j] == a[..n] + a[n..j];
    ValConcat(a[..n], a[n..j]);
    ValZeros(a[n..j]);
  }

  /** A subtraction of no more than there is cannot still borrow past the top. */
  lemma SummedBorrowEnds(s: seq<int>, a: seq<int>, o: seq<int>, off: nat, m: nat, n: nat, f: int, borrow: int)
    requires n <= |s| && n <= |a| && m <= |o| && AreBigits(s)
    requires Summed(s, a, o, off, m, n, -f, -borrow)
    requires f * (BPow(off) * Val(o[..m])) <= Val(a[..n])
    ensures borrow <= 0
  {
    hide Acc, Part, BPow;
    AccDef(s, n, -borrow, Val(a[..n]) + Part(o, m, off, -f));
    PartNegate(o, m, off, f);
    ValBound(s[..n]);
    if borrow > 0 { MulLe(1, borrow, BPow(n)); }
  }

  lemma PartNegate(o: seq<int>, m: nat, off: nat, f: int)
    requires m <= |o|
    ensures Part(o, m, off, -f) == -(f * (BPow(off) * Val(o[..m])))
  {
  }

  /** A finished loop leaves exactly x, and a value of at least B^(j-1) has its top bigit set. */
  lemma AccDone(s: seq<int>, j: nat, x: int)
    requires j <= |s| && Acc(s, j, 0, x)
    ensures Val(s[..j]) == x
  {
  }

  lemma TopSet(s: seq<int>, j: nat)
    requires 0 < j <= |s| && AreBigits(s[..j])
    requires BPow(j - 1) <= Val(s[..j])
    ensures s[j - 1] != 0
  {
    ValPrefix(s, j - 1);
    ValBound(s[..j][..j - 1]);
    assert s[..j][..j - 1] == s[..j - 1];
  }

  // ----- comparing from the top

  lemma LongerIsGreater(m: nat, n: nat)
    requires m < n
    ensures BPow(m) <= BPow(n - 1)
  {
    PowMonotone(0x1000_0000, m, n - 1);
  }

  lemma PowMonotoneB(m: nat, n: nat)
    requires m <= n
    ensures BPow(m) <= BPow(n)
  {
    PowMonotone(0x1000_0000, m, n);
  }

  lemma TwoShorter(m: nat, n: nat, k: nat)
    requires n <= m && m + 1 < k
    ensures BPow(m) + BPow(n) <= BPow(k - 1)
  {
    PowMonotone(0x1000_0000, n, m);
    PowMonotone(0x1000_0000, m + 1, k - 1);
  }

  lemma ExactDifference(x: int, y: int, z: int, d: int, p: int)
    requires z - x - y == d && p > 0
    ensures p * z - p * x - p * y == d * p
    ensures d > 0 ==> d * p > 0
  {
    assert p * z - p * x - p * y == p * (z - x - y);
    if d > 0 { MulLt(0, d, p); }
  }

  lemma HighAbove(s: seq<int>, i: nat)
    requires |s| <= i
    ensures High(s, i) == 0
  {
  }

  /** The highest bigit that differs decides. */
  lemma CompareStep(s: seq<int>, t: seq<int>, i: nat)
    requires AreBigits(s) && AreBigits(t)
    requires High(s, i + 1) == High(t, i + 1)
    ensures At(s, i) < At(t, i) ==> Val(s) < Val(t)
    ensures At(s, i) > At(t, i) ==> Val(s) > Val(t)
    ensures At(s, i) == At(t, i) ==> High(s, i) == High(t, i)
  {
    hide Val, BPow, High, At;
    HighStep(s, i);
    HighStep(t, i);
    HighSplit(s, i);
    HighSplit(t, i);
    if High(s, i) < High(t, i) { MulLe(High(s, i) + 1, High(t, i), BPow(i)); }
    if High(t, i) < High(s, i) { MulLe(High(t, i) + 1, High(s, i), BPow(i)); }
  }

  /**
   PlusCompare at bigit i, when above i the third number leads the sum of the others by d:
   the lead at i is d' and a lead outside 0..1 decides.
   */
  lemma PlusStep(s: seq<int>, t: seq<int>, u: seq<int>, i: nat, d: int)
    requires AreBigits(s) && AreBigits(t) && AreBigits(u)
    requires High(u, i + 1) - High(s, i + 1) - High(t, i + 1) == d
    ensures
      var d' := At(u, i) + d * 0x1000_0000 - At(s, i) - At(t, i);
      && High(u, i) - High(s, i) - High(t, i) == d'
      && (d' < 0 ==> Val(s) + Val(t) > Val(u))
      && (d' > 1 ==> Val(s) + Val(t) < Val(u))
  {
    hide Val, BPow, High, At;
    HighStep(s, i);
    HighStep(t, i);
    HighStep(u, i);
    HighSplit(s, i);
    HighSplit(t, i);
    HighSplit(u, i);
    PlusDecides(Val(s), Val(t), Val(u), High(s, i), High(t, i), High(u, i), BPow(i));
  }

  lemma PlusDecides(vs: int, vt: int, vu: int, hs: int, ht: int, hu: int, p: int)
    requires p * hs <= vs < p * hs + p && p * ht <= vt < p * ht + p && p * hu <= vu < p * hu + p
    ensures hu - hs - ht < 0 ==> vs + vt > vu
    ensures hu - hs - ht > 1 ==> vs + vt < vu
  {
    var d := hu - hs - ht;
    PlusScale(hs, ht, hu, p);
    if d < 0 { MulLe(d, -1, p); }
    if d > 1 { MulLe(2, d, p); }
  }

  lemma PlusScale(hs: int, ht: int, hu: int, p: int)
    ensures p * hu - p * hs - p * ht == (hu - hs - ht) * p
  {
    MulDist(hu - hs, ht, p);
    MulDist(hu, hs, p);
  }

  // ----- word arithmetic

  lemma TimesFits(f: int, x: int)
    requires 0 <= f < 0x1_0000 && 0 <= x < 0x1000_0000
    ensures 0 <= f * x < 0x1000_0000_0000
  {
    MulLe(f, 0xFFFF, x);
    MulLe(0, f, x);
  }

  lemma MulNegate(f: int, x: int)
    ensures -f * x == -(f * x)
  {
  }

  /** One bigit times a factor plus a carry below that factor: splits into a bigit and such a carry. */
  lemma MulAddBounds(f: int, x: int, c: int)
    requires 0 <= x < 0x1000_0000 && 0 <= c < f
    ensures 0 <= f * x <= f * x + c < f * 0x1000_0000
    ensures (f * x + c) / 0x1000_0000 < f
    ensures f * x + c == (f * x + c) % 0x1000_0000 + 0x1000_0000 * ((f * x + c) / 0x1000_0000)
  {
    MulLe(x, 0x1000_0000 - 1, f);
    MulLe(0, x, f);
  }

  /** The split product of MultiplyByUInt64 adds up to factor * x + carry, so its parts fit 64 bits. */
  lemma MulSplit(factor: int, low: int, high: int, x: int, carry: int)
    requires 0 <= low < 0x1_0000_0000 && 0 <= high < 0x1_0000_0000
    requires factor == low + high * 0x1_0000_0000
    requires 0 <= x < 0x1000_0000 && 0 <= carry < factor
    ensures 0 <= low * x < 0x1000_0000_0000_0000 && 0 <= high * x < 0x1000_0000_0000_0000
    ensures factor * x == low * x + high * x * 0x1_0000_0000 && (factor * x + carry) / 0x1000_0000 < factor
  {
    HalfProduct(low, x);
    HalfProduct(high, x);
    MulDist(low, high * 0x1_0000_0000, x);
    HighProduct(high, x);
    MulAddBounds(factor, x, carry);
  }

  lemma HalfProduct(half: int, x: int)
    requires 0 <= half < 0x1_0000_0000 && 0 <= x < 0x1000_0000
    ensures 0 <= half * x < 0x1000_0000_0000_0000
  {
    MulLe(0, half, x);
    MulLe(half, 0xFFFF_FFFF, x);
  }

  lemma HighProduct(high: int, x: int)
    ensures (high * 0x1_0000_0000) * x == high * x * 0x1_0000_0000
  {
  }

  /** One round of the carry, on the two products that make up fx. */
  lemma SplitCarry(factor: int, lx: int, hx: int, fx: int, carry: int)
    requires 0 <= lx && 0 <= hx && 0 <= carry && fx == lx + hx * 0x1_0000_0000 && (fx + carry) / 0x1000_0000 < factor
    ensures var tmp := carry % 0x1000_0000 + lx;
            var carry' := carry / 0x1000_0000 + tmp / 0x1000_0000 + hx * 16;
            && carry' < factor
            && carry + fx == tmp % 0x1000_0000 + 0x1000_0000 * carry'
  {
    var tmp := carry % 0x1000_0000 + lx;
    var carry' := carry / 0x1000_0000 + tmp / 0x1000_0000 + hx * 16;
    assert carry + fx == tmp % 0x1000_0000 + 0x1000_0000 * carry';
    DivUnique(fx + carry, 0x1000_0000, carry', tmp % 0x1000_0000);
  }

  lemma DivUnique(n: int, d: int, q: int, r: int)
    requires 0 <= r < d && n == r + d * q
    ensures n / d == q && n % d == r
  {
    var q', r' := n / d, n % d;
    assert d * (q - q') == r' - r;
    if q > q' { MulLe(1, q - q', d); }
    if q < q' { MulLe(q - q', -1, d); }
  }

  /** A 32-bit subtraction that may wrap, as used by both subtracting loops. */
  lemma BorrowWord(a: int, o: int, difference: int)
    requires 0 <= a < 0x1000_0000 && 0 <= o <= 0x1000_0000
    requires difference == (a - o) % 0x1_0000_0000
    ensures a - o == difference % 0x1000_0000 - 0x1000_0000 * (difference / 0x8000_0000)
    ensures difference / 0x8000_0000 == if a < o then 1 else 0
  {
    if a < o {
      DivUnique(a - o, 0x1_0000_0000, -1, a - o + 0x1_0000_0000);
    } else {
      DivUnique(a - o, 0x1_0000_0000, 0, a - o);
    }
  }

  /** One step of SubtractTimes: the borrow never exceeds the factor. */
  lemma BorrowTimes(a: int, o: int, f: int, borrow: int, remove: int, difference: int, borrow': int)
    requires 0 <= a < 0x1000_0000 && 0 <= o < 0x1000_0000 && 0 <= borrow <= f
    requires remove == borrow + f * o
    requires difference == (a - remove % 0x1000_0000) % 0x1_0000_0000
    requires borrow' == difference / 0x8000_0000 + remove / 0x1000_0000
    ensures 0 <= f * o <= f * 0x1000_0000
    ensures 0 <= borrow' <= f
    ensures -borrow + (a - f * o) == difference % 0x1000_0000 + 0x1000_0000 * -borrow'
  {
    MulLe(o, 0x1000_0000 - 1, f);
    MulLe(0, o, f);
    BorrowWord(a, remove % 0x1000_0000, difference);
    assert remove == remove % 0x1000_0000 + 0x1000_0000 * (remove / 0x1000_0000);
    assert remove <= f * 0x1000_0000;
    assert remove / 0x1000_0000 <= f;
    if remove / 0x1000_0000 == f {
      assert remove % 0x1000_0000 == 0;
    }
  }

  /** One step of BigitsShiftLeft, by s bits with p = 2^s and q = 2^(28-s). */
  lemma ShiftWord(x: int, p: int, q: int, carry: int)
    requires p > 0 && q > 0 && p * q == 0x1000_0000 && 0 <= x < 0x1000_0000 && 0 <= carry < p
    ensures 0 <= x / q < p && 0 <= p * x
    ensures (p * x) % 0x1_0000_0000 + carry < 0x1_0000_0000
    ensures carry + p * x == ((p * x) % 0x1_0000_0000 + carry) % 0x1000_0000 + 0x1000_0000 * (x / q)
  {
    var h, l := x / q, x % q;
    assert x == h * q + l by { assert q * h == h * q; }
    MulLe(0, x, p);
    assert h < p by {
      if h >= p { MulLe(p, h, q); }
    }
    assert p * x == h * 0x1000_0000 + l * p by {
      assert p * (h * q + l) == p * (h * q) + p * l by { MulDist(h * q, l, p); }
      MulAssoc(h, q, p);
      assert q * p == 0x1000_0000;
    }
    MulLe(l, q - 1, p);
    assert q * p == 0x1000_0000;
    assert (q - 1) * p == 0x1000_0000 - p by { MulDist(q, 1, p); }
    MulLe(0, l, p);
    var lp := l * p;
    assert 0 <= lp + carry < 0x1000_0000;
    WrapShift(h, lp, carry);
  }

  lemma WrapShift(h: int, lp: int, carry: int)
    requires 0 <= h && 0 <= lp && 0 <= carry && lp + carry < 0x1000_0000
    ensures (h * 0x1000_0000 + lp) % 0x1_0000_0000 + carry < 0x1_0000_0000
    ensures ((h * 0x1000_0000 + lp) % 0x1_0000_0000 + carry) % 0x1000_0000 == lp + carry
  {
    var k, m := h / 16, h % 16;
    assert h == 16 * k + m;
    DivUnique(h * 0x1000_0000 + lp, 0x1_0000_0000, k, m * 0x1000_0000 + lp);
    DivUnique(m * 0x1000_0000 + lp + carry, 0x1000_0000, m, lp + carry);
  }
}
