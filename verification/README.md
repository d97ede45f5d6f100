# Numbers and lock-free containers, verified

A Dafny 4.11 model of two parts of the native code that the app ships, with proofs about it; `dafny verify dfyconfig.toml`
verifies the whole project.

**Printing and reading doubles** (`double-conversion`). Big integers of 128 bigits, the exact printer in its three modes, the
fast printer in its two double modes, the fixed printer in 64 and 128 bits, and the reader. They are modelled in the form the
code has: classes whose methods update fields and arrays in place, loops with invariants, 64-bit words as subset types, so that
every sum, difference, product and shift is shown to fit or is cut where the code cuts it. Doubles are their bits; the reals they
and their boundaries stand for are exact. The specifications do not mention how digits are made: `Shortest.IsShortest` (inside the
rounding interval, no coarser decimal in it, none of the length closer, ties to even), `FixedMode.RoundsHalfUp`,
`Ieee.RoundsTo` (the interval of reals read as a double) each have at most one solution, and the round trip and the three
"fast refines exact" results rest on that.

**Concurrent containers** (`folly`). Step machines under sequential consistency: a state, one predicate per atomic step of one
thread, an invariant that every step keeps, and theorems about every state of every run, stated on links and cells alone, and
about every call: each answer is true at one moment of the call, whatever the other threads do meanwhile (`AnswerIsRight`,
`InsertLinks`), and a call that is left alone ends (`LoneCallEnds`).
Recorded history (`layers` and `linked`, `chains`, `shut`, `reach` and `home`) decides nothing: what a step demands of it always
holds, as the results about progress show (`NobodyIsStuck` of the skip list, the recycler and the hash map, `NeverWaits` of the
unordered map). The one demand on the surroundings is that a node linked into the list is a new one.

| modules | files of the source |
|---|---|
| Powers, Exact, Decimals, Words | arithmetic used throughout |
| Bigits, BigitLoops, Comba, LeftToRight, SmallDivision, Bignums, DivisionLength | bignum.h, bignum.cc |
| Ieee, Encoding, Boundaries, DiyFps, CachedPowers | ieee.h, diy-fp.h, diy-fp.cc, cached-powers.cc |
| Shortest, Ties, Dragon, StartValues, BignumDtoas, CountedDigits, Carry | bignum-dtoa.cc |
| FastDtoas, FastDtoaCounted | fast-dtoa.cc |
| UInt128s, FillDigits, FixedMode, FixedDtoas | fixed-dtoa.cc |
| Trimming, DiyFpStrtods, Smallest, Strtods | strtod.cc |
| Conversion | the fall-backs of double-conversion.cc and the round trip |
| SkipListState, SkipListSteps, SkipListChains, SkipListStability, SkipListProofs, SkipListRuns, SkipListOrder, SkipListProgress, SkipListLookup, SkipListCalls, SkipListHeight, SkipListAlone | ConcurrentSkipList.h |
| Recycler, RecyclerRuns | ConcurrentSkipList-inl.h |
| HashMapState, HashMapProofs, HashMapRuns, HashMapProgress, HashMapLookup, HashMapCalls, HashMapAlone | AtomicHashArray.h, AtomicHashArray-inl.h, AtomicHashMap-inl.h |
| UnorderedMap, UnorderedMapProofs, UnorderedMapRuns, UnorderedMapCalls, UnorderedMapAlone | AtomicUnorderedMap.h |

## Where the code and its documentation differ

- For two shortest decimals at the same distance the exact printer takes the even one (bignum-dtoa.cc:246-257); bignum-dtoa.h:61
  says it rounds up. The model follows the code; `TieIsReached` is a double for which the two differ, and `TiesUpExactly` says for
  which doubles they agree.
- The assert that the lengths agree (bignum.cc:515) does not follow from the operation's demands; `LengthsNeedNotAgree` is an
  input that breaks it, `LengthsDisagree` says exactly when it fails, `SomeDisagree` for which divisors it can, and the rest of the
  division is proved right there too.
- When the binary point has reached the last bit, fixed-dtoa.cc:262 shifts by minus one. `ShiftsByMinusOne` says exactly for which
  doubles and counts; nothing is left then, and the model takes the next bit as zero.
- ieee.h:243-245 turns a significand of one at too small an exponent into zero. `Smallest` shows that no decimal that should be
  read as the smallest double gets there, so the claims about the reader hold for subnormal results as well.

## What is taken as given

- Each cached power is within half a unit of its power of ten, and normalized (`IsCachedPower`, `IsTable`).
- The entry looked up for printing brings the product into the generator's range of exponents (`IsCachedFor`).
- The estimated power of ten is right or one too low: for the upper boundary in shortest mode (`EstimateOk`), for the double
  itself in the other two (`EstimateFits`).
- Buffers are as large as the results that the headers ask room for.

## Model

| member | source | states |
|---|---|---|
| Conversion.PrintAndRead | ios/Pods/DoubleConversion/double-conversion/bignum-dtoa.h:57-60 | for every non-negative finite double, printing its shortest decimal and reading it back gives the same bits |
| Conversion.RoundTrip | ios/Pods/DoubleConversion/double-conversion/bignum-dtoa.h:57-62 | a shortest decimal of a double is read as that very double by anything that rounds to nearest even |
| Conversion.DoubleToAscii | ios/Pods/DoubleConversion/double-conversion/double-conversion.cc:355-414 | shortest mode with the fall-back: the buffer holds the shortest decimal of the double, closest among its length, null-terminated |
| Conversion.FastRefinesExact | ios/Pods/DoubleConversion/double-conversion/fast-dtoa.cc:635-663 | whenever the fast printer does not refuse, its digits and point are those of the exact printer |
| Conversion.DoubleToAsciiFixed | ios/Pods/DoubleConversion/double-conversion/double-conversion.cc:379-414 | fixed mode with the fall-back: the double rounded half up to the requested place, as one string with one point, known from exponent and count alone to be the padded one or the one without zeros at the end; zero is "0" with point 1 |
| Conversion.FastFixedRefinesExact | ios/Pods/DoubleConversion/double-conversion/fixed-dtoa.cc:309-402 | when the 64/128-bit fixed printer does not refuse, its point is that of the big-integer one and its string is that one's without the zeros at the end |
| Conversion.FastPrecisionRefinesExact | ios/Pods/DoubleConversion/double-conversion/fast-dtoa.cc:591-632 | whenever the fast counted printer does not refuse, its digits and point are those of the exact printer, also where it took a double just below a power of ten for that power |
| Conversion.DoubleToAsciiPrecision | ios/Pods/DoubleConversion/double-conversion/double-conversion.cc:370-414 | precision mode with the fall-back: exactly the digits asked for, the first not zero, the double rounded half up at the last of them; no digits for none |
| FixedMode.PreciseIsUnique | ios/Pods/DoubleConversion/double-conversion/bignum-dtoa.h:72-76 | a number and a count of digits leave one string and one decimal point |
| Strtods.Strtod | ios/Pods/DoubleConversion/double-conversion/strtod.cc:448-472 | for every digit string of any length and every exponent the result is the double that the exact decimal rounds to under roundTiesToEven (section 4.3.1 of IEEE 754-2008), overflow to infinity and underflow to zero included |
| Strtods.ComputeGuess | ios/Pods/DoubleConversion/double-conversion/strtod.cc:423-446 | the guess is the right double or the one below it, and the right one when the answer is "sure" |
| Strtods.DiyFpStrtod | ios/Pods/DoubleConversion/double-conversion/strtod.cc:274-381 | true only with the correctly rounded double, false only with that double or the one just below; for normal and subnormal results |
| Strtods.Decide | ios/Pods/DoubleConversion/double-conversion/strtod.cc:460-471 | one exact comparison with the guess's upper boundary turns an almost right guess into the right double |
| Strtods.CompareBufferWithDiyFp | ios/Pods/DoubleConversion/double-conversion/strtod.cc:392-418 | the exact sign of buffer * 10^exponent - f * 2^e, with every bignum within its 128 bigits for up to 780 digits |
| Strtods.ScaleByTen | ios/Pods/DoubleConversion/double-conversion/strtod.cc:300-329 | after both multiplications the input is strictly within error/8 units of the exact decimal, and error stays at most 45 |
| Strtods.Overflows | ios/Pods/DoubleConversion/double-conversion/strtod.cc:429-432 | a decimal of at least 10^309 is read as infinity |
| Strtods.Underflows | ios/Pods/DoubleConversion/double-conversion/strtod.cc:433-436 | a decimal below 10^-324 is read as zero |
| Shortest.ShortestIsUnique | ios/Pods/DoubleConversion/double-conversion/bignum-dtoa.h:57-62 | an interval has at most one shortest closest decimal, so the specification leaves the printers no choice |
| Shortest.FewestDigits | ios/Pods/DoubleConversion/double-conversion/bignum-dtoa.h:57-62 | no decimal in the rounding interval, at whatever power of ten, has fewer digits |
| Shortest.ShortestReadsBack | ios/Pods/DoubleConversion/double-conversion/bignum-dtoa.h:57-60 | a shortest decimal lies in the rounding interval of the double it was made from |
| Shortest.PrintsAlike | ios/Pods/DoubleConversion/double-conversion/fast-dtoa.h:62-71 | two correct shortest outputs are the same string with the same point |
| Shortest.SureIsShortest | ios/Pods/DoubleConversion/double-conversion/fast-dtoa.cc:80-134 | what is shortest and closest with nothing left to chance is shortest however the boundaries count |
| Ties.TiesUpExactly | ios/Pods/DoubleConversion/double-conversion/bignum-dtoa.h:60-61 | the documented rounding up of ties holds for a double exactly unless it lies halfway between two shortest decimals of which the lower is even |
| Ties.PrintedTiesUp | ios/Pods/DoubleConversion/double-conversion/bignum-dtoa.cc:246-257 | the same said of the printed digits |
| Ties.TieIsShortest | ios/Pods/DoubleConversion/double-conversion/bignum-dtoa.cc:246-257 | a tie is at the power of ten of the shortest decimal, which is the even one of the two |
| Ties.TieIsReached | ios/Pods/DoubleConversion/double-conversion/bignum-dtoa.cc:246-257 | 2^50 + 1/4 is such a double, and is printed with the lower one |
| BignumDtoas.BignumDtoaShortest | ios/Pods/DoubleConversion/double-conversion/bignum-dtoa.cc:89-169 | prints the shortest decimal inside the rounding interval, at most 17 digits, null-terminated |
| BignumDtoas.GenerateShortestDigits | ios/Pods/DoubleConversion/double-conversion/bignum-dtoa.cc:185-274 | terminates because the gap between denominator and growing deltas shrinks; its digits are the best candidate in the interval (closed if and only if even), ties to the even digit |
| BignumDtoas.OneRound | ios/Pods/DoubleConversion/double-conversion/bignum-dtoa.cc:195-272 | one round either stops with the best candidate or leaves no candidate of this length behind |
| BignumDtoas.RoundShortest | ios/Pods/DoubleConversion/double-conversion/bignum-dtoa.cc:232-272 | the last digit is raised or kept by comparing twice the remainder with the denominator, ties to the even digit |
| BignumDtoas.RoundOutcome | ios/Pods/DoubleConversion/double-conversion/bignum-dtoa.cc:208-272 | rounding up never meets a last digit of nine; what stops is the best candidate, and what goes on has left none behind |
| BignumDtoas.OutputIsShortest | ios/Pods/DoubleConversion/double-conversion/bignum-dtoa.cc:185-274 | the whole-number result is the shortest decimal of the double |
| BignumDtoas.SeventeenSuffice | ios/Pods/DoubleConversion/double-conversion/fast-dtoa.h:47-49 | seventeen digits always tell the boundaries of a double apart |
| BignumDtoas.FixupMultiply10 | ios/Pods/DoubleConversion/double-conversion/bignum-dtoa.cc:612-639 | multiplies by ten exactly when the upper end is below one, equal deltas or not |
| BignumDtoas.FixupScaled | ios/Pods/DoubleConversion/double-conversion/bignum-dtoa.cc:601-639 | with an estimate that is right or one too low, the fix-up ends with one digit before the point |
| StartValues.InitialScaledStartValues | ios/Pods/DoubleConversion/double-conversion/bignum-dtoa.cc:568-598 | numerator, denominator and deltas for each sign of exponent and estimate, with and without deltas |
| StartValues.PositiveExponentStart | ios/Pods/DoubleConversion/double-conversion/bignum-dtoa.cc:417-446 | start values for a non-negative exponent |
| StartValues.NegativeExponentPositivePowerStart | ios/Pods/DoubleConversion/double-conversion/bignum-dtoa.cc:450-480 | start values for a negative exponent and a non-negative power |
| StartValues.NegativeExponentNegativePowerStart | ios/Pods/DoubleConversion/double-conversion/bignum-dtoa.cc:484-527 | start values for a negative exponent and a negative power, the power of ten made in the numerator |
| StartValues.StartIsScaled | ios/Pods/DoubleConversion/double-conversion/bignum-dtoa.cc:532-598 | the start values are the double and its distances to both boundaries, over a common denominator |
| StartValues.UnitBounds | ios/Pods/DoubleConversion/double-conversion/bignum-dtoa.cc:129-141 | all start values of all doubles fit the bignum |
| Dragon.GoOn | ios/Pods/DoubleConversion/double-conversion/bignum-dtoa.cc:208-231 | with neither neighbour inside, no decimal of this length is inside, and generation goes on one digit further |
| Dragon.RoundDown | ios/Pods/DoubleConversion/double-conversion/bignum-dtoa.cc:232-262 | when the code rounds down, the digits so far are the best candidate |
| Dragon.RoundUp | ios/Pods/DoubleConversion/double-conversion/bignum-dtoa.cc:232-272 | when the code rounds up, the digits so far plus one are the best candidate |
| Dragon.BestIsShortest | ios/Pods/DoubleConversion/double-conversion/bignum-dtoa.cc:185-274 | the best candidate among whole multiples is the shortest decimal in exact reals |
| CountedDigits.GenerateCountedDigits | ios/Pods/DoubleConversion/double-conversion/bignum-dtoa.cc:283-318 | for count >= 1 the digits denote v rounded half up in the last of count places, carries included, and start with a non-zero digit |
| CountedDigits.BignumToFixed | ios/Pods/DoubleConversion/double-conversion/bignum-dtoa.cc:326-367 | the one string and point for v rounded half up to the requested place, in the three cases of the decimal point: no zero in front, as long as v's first digit says, and for no digits the point at that place |
| CountedDigits.BignumDtoaFixed | ios/Pods/DoubleConversion/double-conversion/bignum-dtoa.cc:89-169 | the same one string and point for every positive finite double, the shortcut for tiny ones included |
| CountedDigits.BignumDtoaPrecision | ios/Pods/DoubleConversion/double-conversion/bignum-dtoa.cc:89-169 | exactly the requested number of digits, the first not zero, rounded half up at the place they reach |
| CountedDigits.OddIsNoPowerOfTen | ios/Pods/DoubleConversion/double-conversion/bignum-dtoa.cc:616-639 | a double with an odd significand is no power of ten, so the fix-up never leaves a first digit of ten |
| CountedDigits.PlainFixup | ios/Pods/DoubleConversion/double-conversion/bignum-dtoa.cc:612-639 | without deltas the fix-up ends with numerator / denominator at least one and below ten |
| CountedDigits.LastDigit | ios/Pods/DoubleConversion/double-conversion/bignum-dtoa.cc:297-304 | the last digit is rounded half up by the remainder and may be ten |
| Carry.PropagateCarry | ios/Pods/DoubleConversion/double-conversion/bignum-dtoa.cc:305-316 | carrying a digit of ten leaves the value as it was, through the first place if need be |
| FixedDtoas.FastFixedDtoa | ios/Pods/DoubleConversion/double-conversion/fixed-dtoa.cc:309-402 | succeeds exactly for exponents and counts up to 20; the digits then denote v rounded half up to the place, without leading or trailing zeros; the shift by minus one is reached exactly when the exponent is negative, at least -count, and the significand odd |
| FixedDtoas.ShiftIsReached | ios/Pods/DoubleConversion/double-conversion/fixed-dtoa.cc:261-264 | 2^51 + 1/2 with one digit gets there |
| FixedDtoas.FillFractionals | ios/Pods/DoubleConversion/double-conversion/fixed-dtoa.cc:230-286 | appends the digits of a binary fraction and rounds half up, in 64 bits or 128, whenever the asserts on the fraction and on the 128-bit products hold |
| FixedDtoas.CallersFit | ios/Pods/DoubleConversion/double-conversion/fixed-dtoa.cc:239-253 | a fraction of up to 56 bits meets those asserts in both branches |
| FixedDtoas.Fill64 | ios/Pods/DoubleConversion/double-conversion/fixed-dtoa.cc:239-260 | the multiply-by-five loop loses nothing and never overflows 64 bits; the point comes to zero, where the code shifts by minus one, exactly when the fraction is odd and has at most as many bits as digits were asked for, or no bits at all |
| FixedDtoas.Fill128 | ios/Pods/DoubleConversion/double-conversion/fixed-dtoa.cc:266-281 | the same loop in 128 bits |
| FixedDtoas.Room64 | ios/Pods/DoubleConversion/double-conversion/fixed-dtoa.cc:242-253 | five times the fraction fits 64 bits in every round |
| FixedDtoas.Room128 | ios/Pods/DoubleConversion/double-conversion/fixed-dtoa.cc:270-275 | five times a fraction that began below 2^119 fits 128 bits in every round |
| FixedDtoas.RoundUp | ios/Pods/DoubleConversion/double-conversion/fixed-dtoa.cc:189-216 | one unit more in the last place, an empty buffer standing for zero |
| FixedDtoas.TrimZeros | ios/Pods/DoubleConversion/double-conversion/fixed-dtoa.cc:291-306 | removes leading and trailing zeros in place and keeps the value |
| FixedDtoas.DivideByTenToSeventeen | ios/Pods/DoubleConversion/double-conversion/fixed-dtoa.cc:337-361 | quotient and remainder by 10^17 of a number of up to 73 bits in 64-bit steps |
| FixedDtoas.TooSmall | ios/Pods/DoubleConversion/double-conversion/fixed-dtoa.cc:382-388 | below 2^-75 nothing is left at 20 digits |
| FixedMode.FixedIsUnique | ios/Pods/DoubleConversion/double-conversion/bignum-dtoa.h:63-71 | all correct fixed outputs for one number denote one decimal |
| FixedMode.FixedPrintIsUnique | ios/Pods/DoubleConversion/double-conversion/bignum-dtoa.h:63-71 | a number and a count leave one string and one decimal point to the exact fixed printer |
| FixedMode.TrimmedPrintIsUnique | ios/Pods/DoubleConversion/double-conversion/fixed-dtoa.cc:275-301 | and one string and one decimal point to the fast one, which cuts zeros off at both ends |
| FixedMode.TrimmedOf | ios/Pods/DoubleConversion/double-conversion/fixed-dtoa.cc:275-301 | with no zero in front, a decimal fixes the point, and the string with no zero at the end is the other one without its trailing zeros |
| FixedMode.FractionDigit | ios/Pods/DoubleConversion/double-conversion/fixed-dtoa.cc:253-259 | times five and the point one bit lower is times ten: the next digit is below ten and the invariant goes on |
| FixedMode.Finished | ios/Pods/DoubleConversion/double-conversion/fixed-dtoa.cc:261-264 | all digits written, or none left, and rounding by the next bit, make v rounded half up |
| FixedMode.SameDigits | ios/Pods/DoubleConversion/double-conversion/bignum-dtoa.h:72-76 | strings of one length that start with a non-zero digit and denote one decimal are the same |
| FillDigits.FillDigits32FixedLength | ios/Pods/DoubleConversion/double-conversion/fixed-dtoa.cc:120-127 | appends exactly the last digits asked for |
| FillDigits.FillDigits32 | ios/Pods/DoubleConversion/double-conversion/fixed-dtoa.cc:130-150 | appends the digits without leading zeros, written backwards and exchanged in place |
| FillDigits.FillDigits64FixedLength | ios/Pods/DoubleConversion/double-conversion/fixed-dtoa.cc:153-165 | appends 17 digits of a number below 10^17 |
| FillDigits.FillDigits64 | ios/Pods/DoubleConversion/double-conversion/fixed-dtoa.cc:168-186 | appends the digits of any 64-bit number without leading zeros |
| FillDigits.DigitsNumber | ios/Pods/DoubleConversion/double-conversion/fixed-dtoa.cc:130-150 | those digits denote the number and do not start with a zero |
| FillDigits.PaddedNumber | ios/Pods/DoubleConversion/double-conversion/fixed-dtoa.cc:120-127 | the fixed number of digits denotes the number |
| UInt128s.UInt128.Multiply | ios/Pods/DoubleConversion/double-conversion/fixed-dtoa.cc:42-57 | the 128-bit product by a 32-bit number, with the final carry zero |
| UInt128s.UInt128.Shift | ios/Pods/DoubleConversion/double-conversion/fixed-dtoa.cc:59-78 | exact shift in both directions over the whole range of amounts |
| UInt128s.UInt128.DivModPowerOf2 | ios/Pods/DoubleConversion/double-conversion/fixed-dtoa.cc:82-95 | quotient and remainder by a power of two on either side of the word boundary |
| UInt128s.UInt128.BitAt | ios/Pods/DoubleConversion/double-conversion/fixed-dtoa.cc:101-107 | the bit at a position of either word |
| Bignums.Bignum.DivideModuloIntBignum | ios/Pods/DoubleConversion/double-conversion/bignum.cc:486-549 | returns the quotient and leaves the remainder, for any quotient that fits 16 bits; the lengths asserted equal in between are so exactly unless the dividend is longer and its remainder r has B^n - divisor <= r < B^(n-1), n being the divisor's length |
| Bignums.Bignum.RemoveLongParts | ios/Pods/DoubleConversion/double-conversion/bignum.cc:503-513 | the loop keeps quotient times divisor plus rest; the rest falls short of the divisor's length exactly when the dividend was longer and the remainder lies between B^n - divisor and B^(n-1) |
| SmallDivision.SomeDisagree | ios/Pods/DoubleConversion/double-conversion/bignum.cc:515-515 | some dividend breaks the asserted equality of lengths exactly when the divisor is above B^n - B^(n-1) |
| Bignums.Bignum.DivideSameLength | ios/Pods/DoubleConversion/double-conversion/bignum.cc:517-548 | the estimate by the top bigits and the final subtractions leave the remainder, also when the lengths do not agree |
| Bignums.Bignum.OneLonger | ios/Pods/DoubleConversion/double-conversion/bignum.cc:503-513 | the two asserts on the top bigits follow from the bound on the quotient |
| DivisionLength.LengthsNeedNotAgree | ios/Pods/DoubleConversion/double-conversion/bignum.cc:515-515 | with this = B^2 and other = B^2 - 1 the asserted equality of lengths fails: one bigit against two |
| SmallDivision.Estimate | ios/Pods/DoubleConversion/double-conversion/bignum.cc:533-542 | the estimate from the top bigits is never too large, and the early return is right |
| Bignums.Bignum.SubtractTimes | ios/Pods/DoubleConversion/double-conversion/bignum.cc:738-763 | subtracts a multiple in place with one borrow |
| Bignums.Bignum.PlusCompare | ios/Pods/DoubleConversion/double-conversion/bignum.cc:636-670 | the sign of a + b - c, with the early exits of the code |
| BigitLoops.PlusStep | ios/Pods/DoubleConversion/double-conversion/bignum.cc:652-670 | the running lead decides as soon as it leaves zero or one |
| Bignums.Bignum.Compare | ios/Pods/DoubleConversion/double-conversion/bignum.cc:618-633 | the sign of a - b |
| Bignums.Bignum.Square | ios/Pods/DoubleConversion/double-conversion/bignum.cc:340-409 | the exact square, in place |
| Comba.ColumnsSquare | ios/Pods/DoubleConversion/double-conversion/bignum.cc:360-403 | the columns of the in-place method add up to the square |
| Comba.ColumnSmall | ios/Pods/DoubleConversion/double-conversion/bignum.cc:353-360 | a column of up to 64 products of bigits fits the 64-bit accumulator |
| Bignums.Bignum.SquareColumn | ios/Pods/DoubleConversion/double-conversion/bignum.cc:367-399 | one column is summed from bigits not yet overwritten |
| Bignums.Bignum.AssignPowerUInt16 | ios/Pods/DoubleConversion/double-conversion/bignum.cc:412-482 | exactly base^n through the word phase, the delayed multiplication and the bignum phase |
| Bignums.Bignum.PowerInWord | ios/Pods/DoubleConversion/double-conversion/bignum.cc:440-466 | the 64-bit phase never overflows and stops with at most one multiplication owing |
| Bignums.Bignum.PowerInBigits | ios/Pods/DoubleConversion/double-conversion/bignum.cc:471-478 | the remaining bits of the exponent by squaring and multiplying |
| Bignums.Bignum.MultiplyByUInt64 | ios/Pods/DoubleConversion/double-conversion/bignum.cc:273-297 | exact product for every 64-bit factor, the carry always below the factor |
| Bignums.Bignum.MultiplyBigit | ios/Pods/DoubleConversion/double-conversion/bignum.cc:284-292 | one bigit times the factor in two halves, without wrapping: bigit and carry together are the product and the old carry |
| Bignums.Bignum.MultiplyByUInt32 | ios/Pods/DoubleConversion/double-conversion/bignum.cc:247-270 | exact product for every 32-bit factor |
| Bignums.Bignum.MultiplyByPowerOfTen | ios/Pods/DoubleConversion/double-conversion/bignum.cc:300-337 | value * 10^n by 64- and 32-bit powers of five and one shift |
| Bignums.Bignum.ShiftLeft | ios/Pods/DoubleConversion/double-conversion/bignum.cc:238-244 | value * 2^n, whole bigits in the exponent |
| Bignums.Bignum.BigitsShiftLeft | ios/Pods/DoubleConversion/double-conversion/bignum.cc:722-735 | value * 2^n for n below a bigit |
| Bignums.Bignum.AddBignum | ios/Pods/DoubleConversion/double-conversion/bignum.cc:169-208 | exact sum with numbers of any alignment |
| Bignums.Bignum.SubtractBignum | ios/Pods/DoubleConversion/double-conversion/bignum.cc:211-235 | exact difference |
| Bignums.Bignum.Align | ios/Pods/DoubleConversion/double-conversion/bignum.cc:698-719 | moves the exponent without moving the value |
| Bignums.Bignum.Clamp | ios/Pods/DoubleConversion/double-conversion/bignum.cc:673-681 | drops leading zero bigits and keeps the value |
| Bignums.Bignum.AssignDecimalString | ios/Pods/DoubleConversion/double-conversion/bignum.cc:102-120 | the number a digit string denotes, 19 digits at a time |
| Bignums.Bignum.ReadUInt64 | ios/Pods/DoubleConversion/double-conversion/bignum.cc:89-99 | the number 19 digits denote, within 64 bits |
| Bignums.Bignum.AssignUInt64 | ios/Pods/DoubleConversion/double-conversion/bignum.cc:59-73 | a word split into bigits |
| Bignums.Bignum.AssignBignum | ios/Pods/DoubleConversion/double-conversion/bignum.cc:76-86 | a copy, with what was above zeroed |
| FastDtoas.DigitGen | ios/Pods/DoubleConversion/double-conversion/fast-dtoa.cc:300-396 | true only if buffer * 10^kappa is strictly inside, no coarser decimal is even in the unsafe interval, and no other candidate is as close, for all true values within a unit of the inputs |
| FastDtoas.RoundWeed | ios/Pods/DoubleConversion/double-conversion/fast-dtoa.cc:61-166 | lowers the last digit towards w without wrapping and says exactly whether the result is beyond doubt |
| FastDtoas.WeededIsSure | ios/Pods/DoubleConversion/double-conversion/fast-dtoa.cc:141-165 | a weeded candidate is the one to print for every true low, w and high within one unit |
| FastDtoas.WeededIsShortest | ios/Pods/DoubleConversion/double-conversion/fast-dtoa.cc:300-396 | what weeding decides on scaled words holds for the numbers that were scaled |
| FastDtoas.IntegralDigits | ios/Pods/DoubleConversion/double-conversion/fast-dtoa.cc:333-369 | every integral digit is below ten and no coarser multiple lies in the unsafe interval |
| FastDtoas.FractionalDigits | ios/Pods/DoubleConversion/double-conversion/fast-dtoa.cc:377-395 | unit, interval and remainder grow together and never wrap |
| FastDtoas.BiggestPowerTen | ios/Pods/DoubleConversion/double-conversion/fast-dtoa.cc:240-256 | the largest power of ten up to the number, even if it has one bit less than told |
| FastDtoas.TimesIsNear | ios/Pods/DoubleConversion/double-conversion/fast-dtoa.cc:548-566 | a rounded product with a cached power is strictly less than one unit off |
| FastDtoas.Grisu3 | ios/Pods/DoubleConversion/double-conversion/fast-dtoa.cc:519-583 | true only with the surely shortest decimal of the double |
| FastDtoas.FastDtoaShortest | ios/Pods/DoubleConversion/double-conversion/fast-dtoa.cc:635-663 | true only with the shortest decimal, at most 17 digits, null-terminated |
| FastDtoaCounted.DigitGenCounted | ios/Pods/DoubleConversion/double-conversion/fast-dtoa.cc:428-505 | true only if the digits are nearer to every true w than any other multiple of the last place |
| FastDtoaCounted.RoundWeedCounted | ios/Pods/DoubleConversion/double-conversion/fast-dtoa.cc:181-223 | rounds only when the direction is the same for all numbers within a unit, without wrapping |
| FastDtoaCounted.Grisu3Counted | ios/Pods/DoubleConversion/double-conversion/fast-dtoa.cc:591-632 | exactly the requested digits, v rounded at their last place, the first not zero |
| FastDtoaCounted.FastDtoaPrecision | ios/Pods/DoubleConversion/double-conversion/fast-dtoa.h:65-71 | exactly the digits asked for with the decimal point, strictly closer to the double than any other decimal of as many digits, so that a tie is refused |
| FastDtoaCounted.NearestIsClosest | ios/Pods/DoubleConversion/double-conversion/fast-dtoa.h:67-71 | the nearest multiple of the last place is closest among all decimals of as many digits, at whatever power of ten |
| DiyFps.DiyFp.Multiply | ios/Pods/DoubleConversion/double-conversion/diy-fp.cc:34-55 | the high word of the 128-bit product, halves rounded up, from four half-word products |
| DiyFps.DiyFp.Normalize | ios/Pods/DoubleConversion/double-conversion/diy-fp.h:77-95 | the one shift that sets the top bit |
| DiyFps.NormalizedUnique | ios/Pods/DoubleConversion/double-conversion/diy-fp.h:77-95 | any shift that sets the top bit is that one |
| Boundaries.AsNormalizedDiyFp | ios/Pods/DoubleConversion/double-conversion/ieee.h:66-80 | the normalized double, denormals included |
| Boundaries.NormalizedBoundaries | ios/Pods/DoubleConversion/double-conversion/ieee.h:171-185 | both boundaries at one exponent, with the closer lower one at powers of two |
| Ieee.BoundariesMeet | ios/Pods/DoubleConversion/double-conversion/ieee.h:162-198 | the upper boundary of a double is the lower one of the next |
| Ieee.Midpoint | ios/Pods/DoubleConversion/double-conversion/ieee.h:162-165 | a boundary lies halfway between two neighbours |
| Ieee.RoundsToUnique | ios/Pods/DoubleConversion/double-conversion/ieee.h:162-198 | no real is read as two doubles |
| Ieee.RoundsToNearest | ios/Pods/DoubleConversion/double-conversion/ieee.h:162-198 | the rounding interval is roundTiesToEven: nothing is nearer, and only an even double wins a tie |
| Ieee.DecideOne | ios/Pods/DoubleConversion/double-conversion/strtod.cc:460-471 | comparing with the upper boundary decides between a guess and its successor |
| Ieee.Fields | ios/Pods/DoubleConversion/double-conversion/ieee.h:111-134 | significand and exponent as the encodings of section 3.4 of IEEE 754-2008 give them |
| Encoding.DiyFpToUint64 | ios/Pods/DoubleConversion/double-conversion/ieee.h:233-258 | packs a significand and an exponent, with infinity, zero and denormals |
| CachedPowers.GetCachedPowerForDecimalExponent | ios/Pods/DoubleConversion/double-conversion/cached-powers.cc:162-174 | the table index gives the entry at or just below the requested exponent |
| CachedPowers.AdjustmentExact | ios/Pods/DoubleConversion/double-conversion/strtod.cc:251-268 | the seven adjustment powers are exact |
| DiyFpStrtods.ReadUint64 | ios/Pods/DoubleConversion/double-conversion/strtod.cc:158-170 | reads as many digits as are sure to fit 64 bits |
| DiyFpStrtods.ReadDiyFp | ios/Pods/DoubleConversion/double-conversion/strtod.cc:176-194 | the leading digits, off by at most half a unit |
| DiyFpStrtods.ReadNormalized | ios/Pods/DoubleConversion/double-conversion/strtod.cc:277-293 | read and normalized: 8 * the distance stays within error |
| DiyFpStrtods.NormalizeWithError | ios/Pods/DoubleConversion/double-conversion/strtod.cc:291-293 | normalizing scales the error with the significand |
| DiyFpStrtods.ExactTimes | ios/Pods/DoubleConversion/double-conversion/strtod.cc:309-317 | multiplying by an exact power adds half a unit of error |
| DiyFpStrtods.CachedTimes | ios/Pods/DoubleConversion/double-conversion/strtod.cc:320-329 | multiplying by a cached power adds its half unit, the rounding and the product of errors, strictly |
| DiyFpStrtods.ScaleByAdjustment | ios/Pods/DoubleConversion/double-conversion/strtod.cc:306-318 | no error is added when the product fits the word |
| DiyFpStrtods.ScaleByCachedPower | ios/Pods/DoubleConversion/double-conversion/strtod.cc:320-329 | the error after the cached power |
| DiyFpStrtods.FindPrecision | ios/Pods/DoubleConversion/double-conversion/strtod.cc:336-353 | how many bits are dropped, with the shift for very small results |
| DiyFpStrtods.RoundDiyFp | ios/Pods/DoubleConversion/double-conversion/strtod.cc:336-380 | sure only if every number within the error rounds the same way, and otherwise right or one too low |
| DiyFpStrtods.BitsDecide | ios/Pods/DoubleConversion/double-conversion/strtod.cc:357-367 | what the dropped bits and the error say about the halfway point |
| DiyFpStrtods.RoundedWell | ios/Pods/DoubleConversion/double-conversion/strtod.cc:363-380 | the rounded significand is the right double or the one below |
| DiyFpStrtods.MagnitudeKnown | ios/Pods/DoubleConversion/double-conversion/strtod.cc:336-353 | a result shifted out altogether is at most a little above half the smallest double |
| Smallest.LeadingDigits | ios/Pods/DoubleConversion/double-conversion/strtod.cc:274-381 | a decimal just above half the smallest double starts with known 19 digits |
| Smallest.FirstPower | ios/Pods/DoubleConversion/double-conversion/cached-powers.cc:44-46 | the entry for 10^-348 is known from the half-unit bound alone |
| Smallest.TinyPath | ios/Pods/DoubleConversion/double-conversion/ieee.h:243-245 | those decimals never reach the branch that drops a rounded-up one |
| Trimming.TrimLeadingZeros | ios/Pods/DoubleConversion/double-conversion/strtod.cc:91-98 | keeps the number |
| Trimming.TrimTrailingZeros | ios/Pods/DoubleConversion/double-conversion/strtod.cc:101-108 | keeps the number up to the power of ten |
| Trimming.CutToMaxSignificantDigits | ios/Pods/DoubleConversion/double-conversion/strtod.cc:111-126 | 779 digits and a final one |
| Trimming.CutBetween | ios/Pods/DoubleConversion/double-conversion/strtod.cc:111-126 | cut and uncut lie strictly between the same two multiples of the 779th digit's unit |
| Trimming.NoBoundaryBetween | ios/Pods/DoubleConversion/double-conversion/strtod.cc:86-89 | no boundary of a double lies strictly between two such multiples |
| Trimming.CutRounds | ios/Pods/DoubleConversion/double-conversion/strtod.cc:111-126 | cutting does not change to which double any decimal rounds |
| Trimming.TrimAndCut | ios/Pods/DoubleConversion/double-conversion/strtod.cc:133-150 | trimming and cutting never change what is read |
| SkipListRuns.LayersSorted | ios/Pods/RCT-Folly/folly/ConcurrentSkipList.h:222-399 | in every state of every run, whatever list the links of a layer describe is strictly sorted |
| SkipListRuns.LayersExist | ios/Pods/RCT-Folly/folly/ConcurrentSkipList.h:222-399 | in every state the links of each layer lead to nil |
| SkipListRuns.LayersNest | ios/Pods/RCT-Folly/folly/ConcurrentSkipList.h:222-399 | each upper layer is a subsequence of every layer below |
| SkipListRuns.NeverLost | ios/Pods/RCT-Folly/folly/ConcurrentSkipList.h:306-399 | a fully linked unmarked node is in every layer below its height |
| SkipListRuns.KeysUnique | ios/Pods/RCT-Folly/folly/ConcurrentSkipList.h:306-346 | no two fully linked unmarked nodes hold one key |
| SkipListRuns.ChainUnique | ios/Pods/RCT-Folly/folly/ConcurrentSkipList-inl.h:111-119 | links describe at most one list |
| SkipListRuns.RunKeeps | ios/Pods/RCT-Folly/folly/ConcurrentSkipList.h:222-525 | the invariant holds in every state of every run, under any interleaving |
| SkipListProofs.NextKeeps | ios/Pods/RCT-Folly/folly/ConcurrentSkipList.h:222-525 | every single step of add, remove and growHeight keeps the order, nesting and reachability of the layers and what locks protect; what a whole call achieves is said of SkipListCalls and SkipListHeight |
| SkipListProofs.ScanKeeps | ios/Pods/RCT-Folly/folly/ConcurrentSkipList.h:222-249 | a search without locks only records neighbours that were right when read |
| SkipListProofs.TestPredKeeps | ios/Pods/RCT-Folly/folly/ConcurrentSkipList.h:271-297 | validation under locks, or a retry that frees them |
| SkipListProofs.StorePredKeeps | ios/Pods/RCT-Folly/folly/ConcurrentSkipList.h:338-341 | the store that links a node into one layer |
| SkipListProofs.StoreUnlinkKeeps | ios/Pods/RCT-Folly/folly/ConcurrentSkipList.h:390-392 | the store that takes a node out of one layer |
| SkipListProofs.GrowSwapKeeps | ios/Pods/RCT-Folly/folly/ConcurrentSkipList.h:511-523 | publishing a taller head |
| SkipListLookup.LookupFinds | ios/Pods/RCT-Folly/folly/ConcurrentSkipList.h:450-474 | a lookup running against add, remove and growHeight answers with the node that held its key fully linked when it began and is not marked when it ends, whatever it stands on has been taken out meanwhile |
| SkipListLookup.AnswerIsInList | ios/Pods/RCT-Folly/folly/ConcurrentSkipList.h:260-266 | a node answered with holds the key, is not marked and was in the list when its mark was read |
| SkipListLookup.MissIsRight | ios/Pods/RCT-Folly/folly/ConcurrentSkipList.h:260-266 | a lookup that answers with nothing overlaps a state in which no fully linked unmarked node held the key |
| SkipListLookup.LookupGoesOn | ios/Pods/RCT-Folly/folly/ConcurrentSkipList.h:450-474 | a lookup never waits |
| SkipListLookup.RunOk | ios/Pods/RCT-Folly/folly/ConcurrentSkipList.h:222-525 | everything that was in the list since a time links, layer by layer, to such places only, and in the layers of the node looked for no link passes it by |
| SkipListCalls.AnswerIsRight | ios/Pods/RCT-Folly/folly/ConcurrentSkipList.h:300-399 | every add and every remove, among any others, overlaps the one moment at which its answer is true: "new" is said of the step, by its own thread, before which nobody held the key and after which the node answered with is in the list; "not new" of a state in which that node was in the list; "removed" of the step, by its own thread, that took the only node of the key out; "not removed" of a state in which nobody held the key |
| SkipListCalls.AnswersForIt | ios/Pods/RCT-Folly/folly/ConcurrentSkipList.h:326-345 | an add answers "new" with a node exactly if its own thread made it fully linked, and a remove "true", for a node, exactly if its own thread marked it |
| SkipListCalls.RemoveRemoves | ios/Pods/RCT-Folly/folly/ConcurrentSkipList.h:359-399 | a remove that begins while a node of its key is in the list ends with that node marked, and answers with it exactly if it was its own thread that did so |
| SkipListCalls.RemovedIsGone | ios/Pods/RCT-Folly/folly/ConcurrentSkipList.h:390-396 | when a remove has answered with a node, no layer has it any more |
| SkipListCalls.RemoverRuns | ios/Pods/RCT-Folly/folly/ConcurrentSkipList.h:222-249 | until somebody marks the node, a remove is on its way to it: no link of the node's layers passes it by, and its top layer is where it is found |
| SkipListCalls.SubjectRuns | ios/Pods/RCT-Folly/folly/ConcurrentSkipList.h:313-323 | a node that an add found and waits for holds the key and was in the list at some time of the call, or is not marked yet |
| SkipListHeight.GrowGrows | ios/Pods/RCT-Folly/folly/ConcurrentSkipList.h:502-525 | when growHeight is done the head is taller than when it began, and as tall as asked unless another thread replaced the head first |
| SkipListHeight.RunRises | ios/Pods/RCT-Folly/folly/ConcurrentSkipList.h:502-525 | from any state of a run to a later one the head is the same or taller |
| SkipListAlone.LoneCallEnds | ios/Pods/RCT-Folly/folly/ConcurrentSkipList.h:300-399 | while all other threads rest, a call of add, remove or growHeight, however far it has come, can always go on, and is over within a number of steps known beforehand: it searches at most once more |
| SkipListAlone.CheckSucceeds | ios/Pods/RCT-Folly/folly/ConcurrentSkipList.h:271-297 | the validation under locks never fails over neighbours that no other thread has changed |
| SkipListAlone.RunInHands | ios/Pods/RCT-Folly/folly/ConcurrentSkipList.h:381-392 | a marked node that is still in a layer is being taken out by some thread |
| SkipListOrder.NoDeadlock | ios/Pods/RCT-Folly/folly/ConcurrentSkipList.h:271-297 | no circle of threads, of whatever length, ever waits for each other's locks |
| SkipListOrder.WantsLeft | ios/Pods/RCT-Folly/folly/ConcurrentSkipList.h:280-290 | the lock a thread needs next belongs to a node strictly left of all those it has locked |
| SkipListProgress.NobodyIsStuck | ios/Pods/RCT-Folly/folly/ConcurrentSkipList.h:222-525 | in every state of every run, from every thread a chain of who holds the lock or is linking in the node that the one before waits for ends at a thread that can go on |
| SkipListProgress.RunInGoodHands | ios/Pods/RCT-Folly/folly/ConcurrentSkipList.h:331-346 | a node that is not fully linked yet is being linked in by some thread |
| SkipListProgress.OnlyTwoWaits | ios/Pods/RCT-Folly/folly/ConcurrentSkipList.h:222-525 | a thread is stopped by nothing but a lock or a node that is not fully linked yet |
| RecyclerRuns.NeverDestroyedEarly | ios/Pods/RCT-Folly/folly/ConcurrentSkipList-inl.h:258-304 | a node that was linked at any time while an accessor was there is not destroyed before that accessor leaves |
| RecyclerRuns.DestroyedOnce | ios/Pods/RCT-Folly/folly/ConcurrentSkipList-inl.h:292-302 | no node is destroyed twice, or while linked |
| RecyclerRuns.NoneLost | ios/Pods/RCT-Folly/folly/ConcurrentSkipList-inl.h:258-304 | an unlinked node is destroyed, waits, or is in one accessor's hands |
| RecyclerRuns.DirtyExact | ios/Pods/RCT-Folly/folly/ConcurrentSkipList-inl.h:258-304 | while the lock is free, dirty says exactly whether nodes wait |
| RecyclerRuns.RefsExact | ios/Pods/RCT-Folly/folly/ConcurrentSkipList-inl.h:258-277 | the count is that of the accessors inside, and positive whenever a node is added |
| RecyclerRuns.NobodyIsStuck | ios/Pods/RCT-Folly/folly/ConcurrentSkipList-inl.h:258-304 | nothing but the lock stops an accessor, and whoever has the lock can go on |
| RecyclerRuns.LastOneDestroysAll | ios/Pods/RCT-Folly/folly/ConcurrentSkipList-inl.h:284-302 | whoever takes the count from one to zero under the lock has destroyed every node that waited before it is out |
| RecyclerRuns.OnlyOneDestroysAll | ios/Pods/RCT-Folly/folly/ConcurrentSkipList-inl.h:273-302 | an accessor that releases while it is the only one, with the lock free, destroys every node that waited |
| Recycler.NextKeeps | ios/Pods/RCT-Folly/folly/ConcurrentSkipList-inl.h:258-304 | every step of addRef, add and both paths of releaseRef keeps the invariant |
| Recycler.LeaveReach | ios/Pods/RCT-Folly/folly/ConcurrentSkipList-inl.h:280-295 | under the lock, the last accessor to leave puts all waiting nodes out of everybody's reach |
| HashMapRuns.KeyLiveOnce | ios/Pods/RCT-Folly/folly/AtomicHashMap-inl.h:133-208 | under any interleaving a key is live in at most one cell of at most one sub-map |
| HashMapRuns.FullIsFinal | ios/Pods/RCT-Folly/folly/AtomicHashArray-inl.h:178-202 | once an insert has found an array full after the wait, no later step adds a key to it |
| HashMapRuns.MovedOnForGood | ios/Pods/RCT-Folly/folly/AtomicHashMap-inl.h:138-151 | an insert that moves on leaves an array behind that will never hold its key |
| HashMapLookup.FindFinds | ios/Pods/RCT-Folly/folly/AtomicHashMap-inl.h:298-321 | a find running against inserts, erases and new sub-maps answers with the one cell of a key that is live when it begins and not erased when it ends |
| HashMapLookup.MissIsRight | ios/Pods/RCT-Folly/folly/AtomicHashMap-inl.h:298-321 | a find that misses overlaps a state in which the key was live nowhere |
| HashMapLookup.EraseErases | ios/Pods/RCT-Folly/folly/AtomicHashArray-inl.h:294-343 | an erase that began while its key was live ends with the cell erased: it reports success, or another thread erased the cell meanwhile |
| HashMapCalls.AnswerIsRight | ios/Pods/RCT-Folly/folly/AtomicHashMap-inl.h:116-208 | every insert and every erase, among any others, overlaps the one moment at which its answer is true: "inserted" is said of the step, by its own thread, before which the key was live nowhere and after which it is in the cell answered with; "already there" of a state in which the key was in that cell; "full" of a state in which the key was live nowhere and no array could be added; "erased" of the step, by its own thread, that left the key live nowhere; "not erased" of a state in which it was live nowhere; otherwise its own constructor threw |
| HashMapCalls.InsertedIt | ios/Pods/RCT-Folly/folly/AtomicHashArray-inl.h:205-252 | an insert answers "inserted" with a cell exactly if its own thread wrote the key into that cell, and ends with an exception exactly if its own constructor threw |
| HashMapCalls.ErasedIt | ios/Pods/RCT-Folly/folly/AtomicHashArray-inl.h:314-333 | an erase answers "erased" exactly if its own thread erased the key |
| HashMapCalls.EraseDoes | ios/Pods/RCT-Folly/folly/AtomicHashArray-inl.h:294-343 | an erase that begins while its key is live at a cell ends with that cell erased; if it does not say so, another thread did it |
| HashMapCalls.RefusedAbsent | ios/Pods/RCT-Folly/folly/AtomicHashMap-inl.h:157-161 | an insert that is refused for want of room has been through every array, and none holds its key |
| HashMapLookup.FoundWasLive | ios/Pods/RCT-Folly/folly/AtomicHashArray-inl.h:103-110 | what a find answers with held the key when it was read |
| HashMapLookup.RunNewIsEmpty | ios/Pods/RCT-Folly/folly/AtomicHashMap-inl.h:163-208 | a sub-map that is not published yet holds no key |
| HashMapRuns.PendingExact | ios/Pods/RCT-Folly/folly/AtomicHashArray-inl.h:178-243 | the pending count is exactly that of the inserts between announcing and leaving |
| HashMapRuns.RunEvolves | ios/Pods/RCT-Folly/folly/AtomicHashArray-inl.h:164-343 | cells only go from empty to a key to erased, and a shut array gets no new keys |
| HashMapProofs.NextKeeps | ios/Pods/RCT-Folly/folly/AtomicHashArray-inl.h:164-343 | every step of insert, sub-map allocation and erase keeps the order of keys in probe sequences and arrays, the counts and the lock of a cell; what a whole call achieves is said of HashMapCalls |
| HashMapProofs.ClaimKeeps | ios/Pods/RCT-Folly/folly/AtomicHashMap-inl.h:163-195 | one inserter claims the next slot, the others wait |
| HashMapProgress.OnlyThreeWaits | ios/Pods/RCT-Folly/folly/AtomicHashArray-inl.h:164-343 | an insert waits only for a locked cell, for the pending inserts of a full array, or for an array that somebody else is adding; nothing else stops any thread |
| HashMapProgress.NobodyIsStuck | ios/Pods/RCT-Folly/folly/AtomicHashArray-inl.h:178-261 | in every state of every run each thread can go on, or waits for one that can: the writer of the locked cell, a pending insert, or the thread that adds the array |
| HashMapAlone.LoneCallEnds | ios/Pods/RCT-Folly/folly/AtomicHashMap-inl.h:116-208 | while all other threads rest, a call of insert or erase, however far it has come, can always go on, and is over within a number of steps known beforehand: it goes over all the arrays at most once more |
| HashMapProgress.RunAttended | ios/Pods/RCT-Folly/folly/AtomicHashMap-inl.h:163-195 | a locked cell has a writer, and the slot behind the published sub-maps is only taken while somebody builds there |
| UnorderedMapRuns.BucketsInOrder | ios/Pods/RCT-Folly/folly/AtomicUnorderedMap.h:261-316 | in every reachable state each bucket's word leads to nil without repeating a slot, every slot is in its key's bucket and CONSTRUCTING or LINKED, and no key occurs twice |
| UnorderedMapRuns.KeyLinkedOnce | ios/Pods/RCT-Folly/folly/AtomicUnorderedMap.h:261-316 | no key is linked at two slots |
| UnorderedMapRuns.LinkedForever | ios/Pods/RCT-Folly/folly/AtomicUnorderedMap.h:284-302 | a linked key stays linked at its slot |
| UnorderedMapRuns.FoundForever | ios/Pods/RCT-Folly/folly/AtomicUnorderedMap.h:426-435 | what a find has found is linked there ever after |
| UnorderedMapRuns.FindFinds | ios/Pods/RCT-Folly/folly/AtomicUnorderedMap.h:426-435 | a find that starts once its key is linked finds it, at that very slot |
| UnorderedMapRuns.NeverWaits | ios/Pods/RCT-Folly/folly/AtomicUnorderedMap.h:261-316 | no thread ever has to wait for another: in every state each has a next step |
| UnorderedMapCalls.InsertLinks | ios/Pods/RCT-Folly/folly/AtomicUnorderedMap.h:261-316 | when findOrConstruct is done its key is linked at the very slot it answers with; it ends without one exactly if its own constructor threw or its own allocation was given up |
| UnorderedMapCalls.ConstructedIsOwn | ios/Pods/RCT-Folly/folly/AtomicUnorderedMap.h:278-312 | "constructed" is said exactly if the slot answered with is one that the call itself had taken |
| UnorderedMapCalls.ConstructedIsNew | ios/Pods/RCT-Folly/folly/AtomicUnorderedMap.h:296-302 | "constructed" is said exactly of the one step, by its own thread, before which the key was linked nowhere and after which it is at that slot |
| UnorderedMapAlone.LoneCallEnds | ios/Pods/RCT-Folly/folly/AtomicUnorderedMap.h:261-316 | whatever the other threads are in the middle of, a call of findOrConstruct or find during which none of them moves is over within a number of its own steps known beforehand, attempts at taken slots not counted |
| UnorderedMapProofs.NextKeeps | ios/Pods/RCT-Folly/folly/AtomicUnorderedMap.h:261-316 | every step keeps chains acyclic, in their buckets and free of duplicates, and only lets them grow; what a whole call achieves is said of UnorderedMapCalls |
| UnorderedMapProofs.StillMissing | ios/Pods/RCT-Folly/folly/AtomicUnorderedMap.h:296-304 | an unchanged chain head at the compare-and-swap means that the key is still missing, whatever happened to the state bits |
| UnorderedMapProofs.AllocateKeeps | ios/Pods/RCT-Folly/folly/AtomicUnorderedMap.h:439-450 | taking a slot changes only the state part of a word that may already head a chain |

## Left out

- The table of cached powers, the lookup by binary exponent and `EstimatePower`: a finite table and one floating-point formula, kept as the preconditions above.
- `DoubleStrtod` (strtod.cc:197-246): hardware floating point; the model is of builds where it always declines.
- Strtod: the exponent is an unbounded integer; strtod.cc:429 and 433 add it to the length as an `int`, which can overflow at the ends of that type.
- Single precision (`Strtof`, `FAST_DTOA_SHORTEST_SINGLE`, `BIGNUM_DTOA_SHORTEST_SINGLE`): repetition of the double case.
- Hexadecimal strings, `StringToIeee`, `StringBuilder` and the `To*` formatting: parsing and padding around what is proved here.
- Signs: the model is of non-negative doubles, as the printers are called.
- Long functions are cut into several methods where one proof would be too long; each part keeps the branches and their order.
- Skip list: random heights are any height allowed, the size counter is left out, growHeight may start at any time, `lower_bound`, iterators and skippers are left out, and the locks an operation holds are freed in one step.
- Recycler: memory itself; a node is a number that is linked, unlinked and destroyed once.
- Hash map: values, iterators and the non-thread-safe `clear`; thread-cached counters are atomic.
- Unordered map: values; reading a slot's key is one step; the random part of the choice of a slot is any choice, and an allocation may be given up after any number of attempts.
- Weak memory orders, allocators, and exceptions other than a constructor that throws.
- The app's own TypeScript and Swift: views and calls into SDKs.
