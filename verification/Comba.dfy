/** Column-by-column squaring of a number in base 2^28. */
module Comba {
  import opened Powers
  import opened Bigits

  /** The first m terms of column k of a * a: the sum of a[j] * a[k-j] over j below m. */
  ghost function Column(a: seq<int>, k: nat, m: nat): int
    requires m <= |a|
  {
    if m == 0 then 0
    else Column(a, k, m - 1) + Term(a, k, m - 1)
  }

  ghost function Term(a: seq<int>, k: nat, j: nat): int
    requires j < |a|
  {
    if j <= k then a[j] * At(a, k - j) else 0
  }

  /** The first n columns, each cut to m terms, at their weights. */
  ghost function Columns(a: seq<int>, n: nat, m: nat): int
    requires m <= |a|
  {
    if n == 0 then 0 else Columns(a, n - 1, m) + Column(a, n - 1, m) * BPow(n - 1)
  }

  /** What term j contributes to the first n columns. */
  ghost function Shifted(a: seq<int>, n: nat, j: nat): int
    requires j < |a|
  {
    if n == 0 then 0 else Shifted(a, n - 1, j) + Term(a, n - 1, j) * BPow(n - 1)
  }

  lemma {:induction false} ColumnsByTerm(a: seq<int>, n: nat, m: nat)
    requires m < |a|
    ensures Columns(a, n, m + 1) == Columns(a, n, m) + Shifted(a, n, m)
  {
    if n == 0 {
    } else {
      ColumnsByTerm(a, n - 1, m);
      MulDist(Column(a, n - 1, m), Term(a, n - 1, m), BPow(n - 1));
    }
  }

  lemma {:induction false} ShiftedValue(a: seq<int>, n: nat, j: nat)
    requires j < |a|
    ensures n <= j ==> Shifted(a, n, j) == 0
    ensures j <= n <= j + |a| ==> Shifted(a, n, j) == a[j] * (BPow(j) * Val(a[..n - j]))
    ensures n >= j + |a| ==> Shifted(a, n, j) == a[j] * (BPow(j) * Val(a))
  {
    hide Val, BPow, Shifted, Term;
    assert a[..|a|] == a;
    ShiftedNext(a, n, j);
    if n == 0 {
      if j == 0 { NoValue(a, a[j], BPow(j)); }
    } else {
      ShiftedValue(a, n - 1, j);
      if n == j { NoValue(a, a[j], BPow(j)); }
      if j < n <= j + |a| { OneMoreTerm(a, n - 1 - j, j); } else { NoTerm(a, n - 1, j); }
    }
  }

  lemma OneMoreTerm(a: seq<int>, i: nat, j: nat)
    requires i < |a| && j < |a|
    ensures a[j] * (BPow(j) * Val(a[..i + 1])) == a[j] * (BPow(j) * Val(a[..i])) + Term(a, i + j, j) * BPow(i + j)
  {
    hide Val, BPow;
    ValPrefix(a, i);
    BPowAdd(j, i);
    MulTermLeft(a[j], BPow(j), Val(a[..i]), a[i], BPow(i));
  }

  lemma NoTerm(a: seq<int>, k: nat, j: nat)
    requires j < |a| && (k < j || k >= j + |a|)
    ensures Term(a, k, j) == 0
  {
  }

  lemma ShiftedNext(a: seq<int>, n: nat, j: nat)
    requires j < |a|
    ensures Shifted(a, n, j) == if n == 0 then 0 else Shifted(a, n - 1, j) + Term(a, n - 1, j) * BPow(n - 1)
  {
  }

  lemma NoValue(a: seq<int>, x: int, p: int)
    ensures Val(a[..0]) == 0 && x * (p * Val(a[..0])) == 0
  {
  }

  lemma MulTermLeft(x: int, p: int, v: int, y: int, q: int)
    ensures x * (p * (v + y * q)) == x * (p * v) + (x * y) * (p * q)
  {
  }

  lemma {:induction false} NoColumns(a: seq<int>, n: nat)
    ensures Columns(a, n, 0) == 0
  {
    if n == 0 {
    } else {
      NoColumns(a, n - 1);
    }
  }

  lemma {:induction false} ColumnsPartial(a: seq<int>, m: nat)
    requires m <= |a|
    ensures Columns(a, 2 * |a|, m) == Val(a[..m]) * Val(a)
  {
    hide Val, BPow;
    if m == 0 {
      NoColumns(a, 2 * |a|);
      NoValue(a, 0, 0);
    } else {
      ColumnsPartial(a, m - 1);
      ColumnsByTerm(a, 2 * |a|, m - 1);
      ShiftedValue(a, 2 * |a|, m - 1);
      ValPrefix(a, m - 1);
      MulDist(Val(a[..m - 1]), a[m - 1] * BPow(m - 1), Val(a));
      MulAssoc(a[m - 1], BPow(m - 1), Val(a));
    }
  }

  /** All the columns together make the square. */
  lemma ColumnsSquare(a: seq<int>)
    ensures Columns(a, 2 * |a|, |a|) == Val(a) * Val(a)
  {
    ColumnsPartial(a, |a|);
    assert a[..|a|] == a;
  }

  lemma ColumnsStep(a: seq<int>, n: nat)
    ensures Columns(a, n + 1, |a|) == Columns(a, n, |a|) + Column(a, n, |a|) * BPow(n)
  {
  }

  lemma {:induction false} ColumnBound(a: seq<int>, k: nat, m: nat)
    requires m <= |a| && AreBigits(a)
    ensures 0 <= Column(a, k, m) <= m * 0x100_0000_0000_0000
  {
    if m == 0 {
    } else {
      ColumnBound(a, k, m - 1);
      if m - 1 <= k {
        var x, y := a[m - 1], At(a, k - (m - 1));
        MulLe(x, 0xFFF_FFFF, y);
        MulLe(0, x, y);
      }
    }
  }

  lemma ColumnStep(a: seq<int>, k: nat, j: nat, x: int, y: int)
    requires j < |a| && j <= k < j + |a| && x == a[k - j] && y == a[j]
    ensures Column(a, k, j + 1) == Column(a, k, j) + x * y
  {
  }

  lemma ColumnSmall(a: seq<int>, k: nat, m: nat)
    requires m <= |a| <= 64 && AreBigits(a)
    ensures 0 <= Column(a, k, m) <= 0x4000_0000_0000_0000
  {
    ColumnBound(a, k, m);
  }

  lemma ColumnGrows(a: seq<int>, k: nat, j: nat, x: int, y: int)
    requires j < |a| <= 64 && j <= k < j + |a| && x == a[k - j] && y == a[j] && AreBigits(a)
    ensures Column(a, k, j + 1) == Column(a, k, j) + x * y
    ensures 0 <= Column(a, k, j) <= Column(a, k, j + 1) <= 0x4000_0000_0000_0000
  {
    hide Column;
    ColumnStep(a, k, j, x, y);
    ColumnBound(a, k, j + 1);
    ColumnBound(a, k, j);
    MulLe(0, x, y);
  }

  /** Terms past index k do not exist, so a low column is complete after k + 1 of them. */
  lemma {:induction false} ColumnComplete(a: seq<int>, k: nat, m: nat)
    requires k + 1 <= m <= |a|
    ensures Column(a, k, m) == Column(a, k, k + 1)
  {
    if m == k + 1 {
    } else {
      ColumnComplete(a, k, m - 1);
    }
  }

  /** In a high column the terms whose partner lies beyond the number vanish. */
  lemma {:induction false} ColumnEmpty(a: seq<int>, k: nat, m: nat)
    requires m <= |a| && |a| + m <= k + 1
    ensures Column(a, k, m) == 0
  {
    if m == 0 {
    } else {
      ColumnEmpty(a, k, m - 1);
    }
  }
}
