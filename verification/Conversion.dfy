/** Printing with the fast printer and, where it refuses, the exact one; and reading back what was printed. */
module Conversion {
  import opened Decimals
  import opened Exact
  import opened Ieee
  import opened Shortest
  import opened DiyFps
  import opened CachedPowers
  import opened FastDtoas
  import opened BignumDtoas
  import opened StartValues
  import opened Strtods
  import opened FixedMode
  import opened FixedDtoas
  import opened CountedDigits
  import opened FastDtoaCounted

  /** The shortest mode of DoubleToAscii for a non-negative double; the sign is dealt with before. */
  method DoubleToAscii(v: Double, tenMk: DiyFp, mk: int, estimatedPower: int, buffer: array<char>)
    returns (length: nat, point: int)
    requires v.bits < INFINITY && 17 < buffer.Length
    requires v.bits > 0 ==> IsCachedFor(v, tenMk.AsBinary(), mk) && EstimateOk(v, estimatedPower)
    modifies buffer
    ensures length <= 17 && buffer[length] == '\0'
    ensures v.bits == 0 ==> buffer[..length] == ['0'] && point == 1
    ensures v.bits > 0 ==> PrintsShortest(v, buffer[..length], point)
  {
    hide PrintsShortest, IsCachedFor, EstimateOk;
    if v.bits == 0 {
      buffer[0], buffer[1] := '0', '\0';
      assert buffer[..1] == ['0'];
      return 1, 1;
    }
    var fastWorked;
    fastWorked, length, point := FastDtoaShortest(v, tenMk, mk, buffer);
    if fastWorked { return; }
    length, point := BignumDtoaShortest(v, estimatedPower, buffer);
  }

  /** When the fast printer does not refuse, it leaves what the exact one would have left. */
  method FastRefinesExact(v: Double, tenMk: DiyFp, mk: int, estimatedPower: int, fast: array<char>, exact: array<char>)
    returns (ok: bool, length: nat, point: int, exactLength: nat, exactPoint: int)
    requires 0 < v.bits < INFINITY && fast != exact && 17 < fast.Length && 17 < exact.Length
    requires IsCachedFor(v, tenMk.AsBinary(), mk) && EstimateOk(v, estimatedPower)
    modifies fast, exact
    ensures length <= fast.Length && exactLength <= exact.Length
    ensures ok ==> fast[..length] == exact[..exactLength] && point == exactPoint
  {
    hide PrintsShortest, IsCachedFor, EstimateOk;
    ok, length, point := FastDtoaShortest(v, tenMk, mk, fast);
    exactLength, exactPoint := BignumDtoaShortest(v, estimatedPower, exact);
    if ok {
      PrintsAlike(v, fast[..length], point, exact[..exactLength], exactPoint);
    } else {
      length := 0;
    }
  }

  /** Whatever reads a shortest decimal as the double it rounds to gives the printed double back. */
  lemma RoundTrip(d: Double, digits: seq<char>, point: int, w: Double)
    requires d.IsFinite() && PrintsShortest(d, digits, point)
    requires RoundsTo(Dec(Number(digits), point - |digits|), w)
    ensures w == d
  {
    hide Number, IsShortest, RoundsTo;
    ShortestReadsBack(Number(digits), point - |digits|, d);
    RoundsToUnique(Dec(Number(digits), point - |digits|), d, w);
  }

  /** Printing and reading a double gives the same bits. */
  method PrintAndRead(v: Double, tenMk: DiyFp, mk: int, estimatedPower: int, table: seq<Binary>) returns (w: Double)
    requires v.bits < INFINITY && IsTable(table)
    requires v.bits > 0 ==> IsCachedFor(v, tenMk.AsBinary(), mk) && EstimateOk(v, estimatedPower)
    ensures w == v
  {
    hide PrintsShortest, IsCachedFor, EstimateOk, IsTable, Number, RoundsTo;
    var buffer := new char[18];
    var length, point := DoubleToAscii(v, tenMk, mk, estimatedPower, buffer);
    var digits := buffer[..length];
    PrintedDigits(v, digits, point);
    w := Strtod(digits, point - length, table);
    if v.bits > 0 {
      RoundTrip(v, digits, point, w);
    } else {
      ZeroRoundTrip(w);
    }
  }

  lemma PrintedDigits(v: Double, digits: seq<char>, point: int)
    ensures PrintsShortest(v, digits, point) ==> AreDigits(digits)
  {
  }

  lemma ZeroRoundTrip(w: Double)
    requires RoundsTo(Dec(Number(['0']), 0), w)
    ensures w == Double(0)
  {
    hide Ten, RoundsTo;
    NumberSnoc([], '0');
    NumberEmpty([]);
    assert [] + ['0'] == ['0'];
    ZeroRounds(0);
    RoundsToUnique(Dec(0, 0), w, Double(0));
  }

  // ----- fixed and precision mode

  /** The fixed mode of DoubleToAscii for a non-negative double. */
  method DoubleToAsciiFixed(v: Double, requestedDigits: nat, estimatedPower: int, buffer: array<char>)
    returns (length: nat, point: int)
    requires v.bits < INFINITY && (v.bits > 0 ==> EstimateFits(v, estimatedPower))
    requires 37 <= buffer.Length && estimatedPower + 1 + requestedDigits < buffer.Length
    modifies buffer
    ensures length < buffer.Length && buffer[length] == '\0'
    ensures v.bits == 0 ==> buffer[..length] == ['0'] && point == 1
    ensures v.bits > 0 && v.Exponent() <= 20 && requestedDigits <= 20 ==>
              PrintsFixedTrimmed(v.Value(), requestedDigits, buffer[..length], point)
    ensures v.bits > 0 && (v.Exponent() > 20 || requestedDigits > 20) ==>
              PrintsFixed(v.Value(), requestedDigits, buffer[..length], point)
  {
    hide IsRounded, HasFixedLength, EstimateFits, Double.Value, Double.Exponent, Number;
    if v.bits == 0 {
      buffer[0], buffer[1] := '0', '\0';
      assert buffer[..1] == ['0'];
      return 1, 1;
    }
    var fastWorked;
    ghost var emptied;
    fastWorked, length, point, emptied := FastFixedDtoa(v, requestedDigits, buffer);
    if fastWorked { return; }
    length, point := BignumDtoaFixed(v, estimatedPower, requestedDigits, buffer);
  }

  /** When the fast fixed printer does not refuse, it leaves what the exact one would have left without its trailing zeros. */
  method FastFixedRefinesExact(v: Double, requestedDigits: nat, estimatedPower: int, fast: array<char>, exact: array<char>)
    returns (ok: bool, length: nat, point: int, exactLength: nat, exactPoint: int)
    requires 0 < v.bits < INFINITY && EstimateFits(v, estimatedPower) && fast != exact
    requires 37 <= fast.Length && 1 < exact.Length && estimatedPower + 1 + requestedDigits < exact.Length
    modifies fast, exact
    ensures length <= fast.Length && exactLength <= exact.Length
    ensures ok ==> point == exactPoint && fast[..length] <= exact[..exactLength] && Zeros(exact[length..exactLength])
    ensures ok && length > 0 ==> fast[length - 1] != '0'
  {
    hide IsRounded, HasFixedLength, EstimateFits, Double.Value, Number, Dec;
    ghost var emptied;
    ok, length, point, emptied := FastFixedDtoa(v, requestedDigits, fast);
    exactLength, exactPoint := BignumDtoaFixed(v, estimatedPower, requestedDigits, exact);
    if ok {
      FixedIsUnique(v.Value(), requestedDigits, fast[..length], point, exact[..exactLength], exactPoint);
      TrimmedOf(fast[..length], point, exact[..exactLength], exactPoint);
      assert exact[..exactLength][length..] == exact[length..exactLength];
    }
  }

  /** The precision mode of DoubleToAscii for a non-negative double; no digits leave the point as it was. */
  method DoubleToAsciiPrecision(v: Double, requestedDigits: nat, tenMk: DiyFp, mk: int, estimatedPower: int,
                                buffer: array<char>, point0: int)
    returns (length: nat, point: int)
    requires v.bits < INFINITY && requestedDigits < buffer.Length
    requires v.bits > 0 ==> IsCachedFor(v, tenMk.AsBinary(), mk) && EstimateFits(v, estimatedPower)
    modifies buffer
    ensures length < buffer.Length && buffer[length] == '\0'
    ensures requestedDigits == 0 ==> length == 0 && point == point0
    ensures requestedDigits > 0 && v.bits == 0 ==> buffer[..length] == ['0'] && point == 1
    ensures requestedDigits > 0 && v.bits > 0 ==> length == requestedDigits && IsPrecise(v.Value(), buffer[..length], point)
  {
    hide IsRounded, IsCachedFor, EstimateFits, Double.Value, Number, Dec, Ten;
    if requestedDigits == 0 {
      buffer[0] := '\0';
      return 0, point0;
    }
    if v.bits == 0 {
      buffer[0], buffer[1] := '0', '\0';
      assert buffer[..1] == ['0'];
      return 1, 1;
    }
    var fastWorked;
    ghost var place;
    fastWorked, length, point, place := FastDtoaPrecision(v, requestedDigits, tenMk, mk, buffer);
    if fastWorked { return; }
    length, point, place := BignumDtoaPrecision(v, estimatedPower, requestedDigits, buffer);
  }

  /** When the fast printer does not refuse a number of digits, it leaves what the exact one would have left. */
  method FastPrecisionRefinesExact(v: Double, requestedDigits: nat, tenMk: DiyFp, mk: int, estimatedPower: int,
                                   fast: array<char>, exact: array<char>)
    returns (ok: bool, length: nat, point: int, exactLength: nat, exactPoint: int)
    requires 0 < v.bits < INFINITY && fast != exact
    requires 0 < requestedDigits < fast.Length && requestedDigits < exact.Length
    requires IsCachedFor(v, tenMk.AsBinary(), mk) && EstimateFits(v, estimatedPower)
    modifies fast, exact
    ensures length <= fast.Length && exactLength <= exact.Length
    ensures ok ==> fast[..length] == exact[..exactLength] && point == exactPoint
  {
    hide IsRounded, IsCachedFor, EstimateFits, Double.Value, Number, Dec, Ten;
    ghost var place, exactPlace;
    ok, length, point, place := FastDtoaPrecision(v, requestedDigits, tenMk, mk, fast);
    exactLength, exactPoint, exactPlace := BignumDtoaPrecision(v, estimatedPower, requestedDigits, exact);
    if ok {
      PreciseIsUnique(v.Value(), fast[..length], point, exact[..exactLength], exactPoint);
    } else {
      length := 0;
    }
  }
}
