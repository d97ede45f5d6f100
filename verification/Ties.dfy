/** When two shortest decimals are equally close: the code takes the even one, its documentation the upper one. */
module Ties {
  import opened Decimals
  import opened Exact
  import opened Ieee
  import opened Shortest

  ghost predicate IsShortestOf(d: Double, c: int, q: int) {
    IsShortest(c, q, d.LowerBoundary().Value(), d.Value(), d.UpperBoundary().Value(), d.IsEven())
  }

  predicate InIntervalOf(d: Double, c: int, q: int) {
    Inside(Dec(c, q), d.LowerBoundary().Value(), d.UpperBoundary().Value(), d.IsEven())
  }

  /** The double lies halfway between two neighbours at 10^q in its interval, and no coarser decimal is in there. */
  ghost predicate Tied(d: Double, c: int, q: int) {
    && InIntervalOf(d, c, q) && InIntervalOf(d, c + 1, q)
    && NoneAt(q + 1, d.LowerBoundary().Value(), d.UpperBoundary().Value(), d.IsEven())
    && Dec(c, q) + Dec(c + 1, q) == 2.0 * d.Value()
  }

  /** What the documentation promises: of equally close decimals, the upper one. */
  ghost predicate TiesUp(d: Double, c: int, q: int) {
    forall n: int :: n != c && InIntervalOf(d, n, q) && Abs(Dec(n, q) - d.Value()) == Abs(Dec(c, q) - d.Value()) ==> n < c
  }

  /** Two equally close decimals, with none closer in between, are neighbours on either side of the double. */
  lemma TiesAreNeighbours(d: Double, c: int, n: int, q: int)
    requires IsShortestOf(d, c, q) && n > c && InIntervalOf(d, n, q)
    requires Abs(Dec(n, q) - d.Value()) == Abs(Dec(c, q) - d.Value())
    ensures n == c + 1 && Dec(c, q) + Dec(n, q) == 2.0 * d.Value()
  {
    hide Dec, Double.Value, Double.LowerBoundary, Double.UpperBoundary, NoneAt;
    DecOrder(c, n, q);
    DecOrder(c, c + 1, q);
    DecOrder(c + 1, n, q);
    assert InIntervalOf(d, c + 1, q);
  }

  /** A tie is at the power of ten of the shortest decimal, which is one of the two: the even one. */
  lemma TieIsShortest(d: Double, c: int, q: int, k: int, p: int)
    requires d.IsFinite() && IsShortestOf(d, c, q) && Tied(d, k, p)
    ensures p == q && c == if k % 2 == 0 then k else k + 1
  {
    hide Dec, Double.Value, Double.LowerBoundary, Double.UpperBoundary;
    NoCoarser(c, q, d.LowerBoundary().Value(), d.Value(), d.UpperBoundary().Value(), d.IsEven(), k, p);
    if p < q { DecShift(c, p + 1, q - (p + 1)); }
    DecOrder(k, k + 1, q);
    DecOrder(c, k, q);
    DecOrder(k + 1, c, q);
  }

  /** The promise is kept for just those doubles that are not in the middle above an even decimal. */
  lemma TiesUpExactly(d: Double, c: int, q: int)
    requires d.IsFinite() && IsShortestOf(d, c, q)
    ensures TiesUp(d, c, q) <==> !exists k: int, p: int :: Tied(d, k, p) && k % 2 == 0
  {
    hide Dec, Double.Value, Double.LowerBoundary, Double.UpperBoundary;
    if !TiesUp(d, c, q) {
      var n :| n != c && InIntervalOf(d, n, q) && Abs(Dec(n, q) - d.Value()) == Abs(Dec(c, q) - d.Value()) && n >= c;
      TiesAreNeighbours(d, c, n, q);
      assert Tied(d, c, q);
    }
    forall k: int, p: int | Tied(d, k, p) && k % 2 == 0
      ensures !TiesUp(d, c, q)
    {
      TieIsShortest(d, c, q, k, p);
      DecOrder(c, c + 1, q);
    }
  }

  /** So for the printed digits, whichever printer left them. */
  lemma PrintedTiesUp(d: Double, digits: seq<char>, point: int)
    requires d.IsFinite() && PrintsShortest(d, digits, point)
    ensures TiesUp(d, Number(digits), point - |digits|) <==> !exists k: int, p: int :: Tied(d, k, p) && k % 2 == 0
  {
    hide TiesUp, Tied, IsShortest, Number;
    TiesUpExactly(d, Number(digits), point - |digits|);
  }

  // ----- a double that meets such a tie

  /** 2^50 + 1/4, halfway between 11258999068426242 and 11258999068426243 tenths. */
  lemma TieIsReached()
    ensures
      var d := Double(0x4310_0000_0000_0001);
      && Tied(d, 11258999068426242, -1) && IsShortestOf(d, 11258999068426242, -1) && !TiesUp(d, 11258999068426242, -1)
  {
    hide Dec, Inside, IsShortest, Tied, TiesUp, Double.Value, Double.LowerBoundary, Double.UpperBoundary, Double.IsEven;
    Quarters();
    AmongTenths();
    TieOfQuarter();
    var d, c := Double(0x4310_0000_0000_0001), 11258999068426242;
    assert c % 2 == 0;
    TiesUpExactly(d, c, -1);
  }

  /** Around 2^50 + 1/4 there are two tenths within 1/8, and no integer. */
  lemma AmongTenths()
    ensures forall n: int :: Inside(Dec(n, -1), 1125899906842624.125, 1125899906842624.375, false)
                             <==> n == 11258999068426242 || n == 11258999068426243
    ensures NoneAt(0, 1125899906842624.125, 1125899906842624.375, false)
  {
    hide Dec;
    forall n: int
      ensures Inside(Dec(n, -1), 1125899906842624.125, 1125899906842624.375, false)
              <==> n == 11258999068426242 || n == 11258999068426243
    {
      Tenths(n);
    }
    forall n: int
      ensures !Inside(Dec(n, 0), 1125899906842624.125, 1125899906842624.375, false)
    {
      Whole(n);
    }
  }

  lemma TieOfQuarter()
    requires
      var d := Double(0x4310_0000_0000_0001);
      && d.Value() == 1125899906842624.25 && !d.IsEven()
      && d.LowerBoundary().Value() == 1125899906842624.125 && d.UpperBoundary().Value() == 1125899906842624.375
    requires forall n: int :: Inside(Dec(n, -1), 1125899906842624.125, 1125899906842624.375, false)
                              <==> n == 11258999068426242 || n == 11258999068426243
    requires NoneAt(0, 1125899906842624.125, 1125899906842624.375, false)
    ensures
      var d := Double(0x4310_0000_0000_0001);
      Tied(d, 11258999068426242, -1) && IsShortestOf(d, 11258999068426242, -1)
  {
    hide Dec, Inside, NoneAt, Double.Value, Double.LowerBoundary, Double.UpperBoundary, Double.IsEven;
    Tenths(11258999068426242);
    Tenths(11258999068426243);
  }

  lemma Whole(n: int)
    ensures Dec(n, 0) == n as real
  {
    hide Ten;
    TwoSmall();
  }

  lemma Tenths(n: int)
    ensures Dec(n, -1) == n as real / 10.0
  {
    hide Ten;
    TenInverse(1);
    TwoSmall();
    assert Ten(-1) == 0.1;
  }

  lemma Quarters()
    ensures
      var d := Double(0x4310_0000_0000_0001);
      && d.Value() == 1125899906842624.25 && !d.IsEven()
      && d.LowerBoundary().Value() == 1125899906842624.125 && d.UpperBoundary().Value() == 1125899906842624.375
  {
    hide Two;
    var d := Double(0x4310_0000_0000_0001);
    assert d.Significand() == 0x10_0000_0000_0001 && d.Exponent() == -2 && !d.LowerBoundaryIsCloser();
    TwoHalves(-1);
    TwoHalves(-2);
    TwoInverse(1);
    TwoSmall();
    assert Two(-2) == 0.25 && Two(-3) == 0.125;
  }
}
