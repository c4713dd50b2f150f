# Formal model of spdlite

spdlite is a small C++ logging library that carries its own copy of the {fmt} formatting library. This project models
the parts where a mistake would be hardest to see, and proves what they promise for all inputs, all runs or all
interleavings:

- **Numbers to text.** The multi-word integer `bigint` as a class over 32-bit words, every operation against the number
  it stands for; the arbitrary-precision formatter on top of it, to a given number of digits and in its shortest mode;
  the fast fixed-precision path; a method that runs both paths on one input and shows that they give one text, the
  rounding IEEE 754 asks for (section 4.3.1 of IEEE 754-2008, ties to even); and that the shortest digits read back.
  Then the integer tricks around them: portable wide multiplication, division by magic constants, trailing zeros by
  modular inverses, digit counting by tables, two-digits-at-a-time printing, digit grouping, and the layout of a decimal
  in fixed or exponential notation, which is read back by an independent reader.
- **Text encodings.** The branchless UTF-8 decoder with its zero-padded tail against the byte ranges of section 4 of RFC
  3629, the surrogate-aware encoder, and the round trips between UTF-16 and UTF-8.
- **Format strings.** The parser as a bijection between format strings and lists of pieces, the standard specifiers as a
  bijection with lists of parts, the overflow check in wrapping arithmetic, which mixtures of automatic and manual
  argument indexing pass, references inside specifiers included, and which literals pass the compile-time check but not
  the run-time parser.
- **Bounded output.** Both output buffers with a limit deliver exactly the first elements, whatever the pieces.
- **The rotating file sink** as a state machine over a directory: what is on disk after any run of writes and restarts,
  with and without failing file operations.
- **The cached header**, patched in place, against one rendered from scratch.
- **Locked dispatch**: loggers, threads and shared sinks as a state machine over the steps that locks separate, over all
  interleavings.

The objects the library changes in place are classes here (`Bigint`, `Formatter`, `RotatingFileSink`, `Directory`,
`IteratorBuffer`) and its loops are loops; each is proved against a function or a value, and the theorems are about
those. `dafny verify dfyconfig.toml` checks everything. One module per file; `Words`, `WordSteps`, `Convolution`,
`Rounding`, `Decimal` and `DragonDigits` hold the arithmetic the others rest on, and `Common` what all share.

## What the proofs found

These properties fail somewhere. Each is kept as the code has it and proved with the exact condition, and with a
concrete input.

- With the fix-up flag, the exponent of the arbitrary-precision formatter stays one too large when the value lies below
  the power of ten and the value plus half a unit in the last place reaches it. The digits asked for then start with a
  zero, unless rounding to them reaches the power of ten (`LeadingDigit`, `LeadingZeroExample`,
  `LongLeadingZeroExample`). `format_float` passes the flag for every float type without the fast path and in constant
  evaluation, so formatting a long double with a precision gets there.
- `compare` of two equal big integers with different exponents does not give 0 (`CompareResult`), and a zero with many
  places counts as larger (`Compare`). This has three effects.
  - `divmod_assign` can return 0 for a quotient of 1. In the formatter that bites exactly when the value is a power of
    ten and the shifted binary exponent reaches a word further than the decimal exponent; then a ':' appears among the
    digits (`FormatDragon`). Only three significands can do that, and none of them belongs to an IEEE format
    (`StuckSignificands`, `FormatsNeverStuck`, `StuckExample`); in the shortest mode it does no harm (`ShortestDigits`).
  - In the shortest mode the lower end of the rounding interval is left out for even significands when the binary
    exponent reaches a word further than the decimal one (`LowEnd`). The digits still identify the value, but are not
    the shortest when that end is a shorter decimal (`ShorterEnd`, `EndDecides`). Printing the 64-bit long double that
    4.8e28 stands for gets there (`LongerExample`), and so does formatting the double 3.584e25 in constant evaluation
    (`DoubleLongerExample`).
  - For significands of more than 64 bits the lower end can count for odd significands, and a value of one digit can
    get a zero (`ExtraZero`). The first makes a 113-bit long double read back as its neighbour (`ReadsBack`,
    `MisreadExample`), which callers reach where long double has that many bits. The second needs an exact estimate of
    the exponent, which `format_float` does not give for those values (`ExtraZeroExample`). Up to 64 bits every value
    reads back (`NarrowReadsBack`).
- In the shortest mode, an exact estimate of the exponent just below a power of ten makes the text a single ':'
  (`FormatShortest`, `TenExactly`, `TenExample`). `format_float` does not give such an estimate: it rounds up the
  logarithm of the value's top bit, so the value is about twice the power of ten at most (`EstimateRulesOutTen`).
- The 64-bit division by 1000 and the 64-bit removal of trailing zeros are right exactly below the bounds stated in
  `DivideBy1000Exact` and `RemoveTrailingZeros64` (`DivideBy1000Example`, `RemoveTrailingZeros64Example`). Dragonbox,
  the only caller and not part of this model, is designed to stay below both: it divides numbers below 2^53 * 1000 and
  strips significands of at most 17 digits.
- The cached header shows zeros for the date when all calls since the last renaming fell in the first second of the
  epoch (`CachedHeaderExact`, `EpochSecondExample`). A clock that stands there reaches it.
- Pruning old archives stops at the first one that cannot be deleted (`PruneDeletes`, `StuckPruneExample`). Any archive
  that another process or its permissions protect reaches it.
- After a named argument, in a field or inside a specifier, the run-time parser accepts manual indices again even when
  automatic ones came first (`ModesMixOnlyAfterName`, `MixedExample`, `NestedNameExample`). The compile-time check of
  literals leaves the indexing state alone at a named field. So a literal with the name in a field does not compile
  (`MixedUnchecked`) and only run-time format strings get there, while one with the name inside a specifier compiles
  (`NestedChecked`). The other way round, a literal such as {a}{} passes the check and is refused at run time; exactly
  the literals with an automatic reference in or after a named field do that (`CheckedAtRunTime`, `CheckedRefused`).
- A number of more than ten digits is refused even when leading zeros make it small (`IntValueExact`,
  `LeadingZerosExample`). As a precision such a number reaches the check (`LongPrecisionExample`); a width or an index
  cannot start with a zero.
- The raw-memory output buffer loses what is appended after an early `out()` (`Out`, `EarlyOutLoses`). The library's own
  caller asks once, at the end (`FormatToN`).

## Model

| member | source | states |
|---|---|---|
| Bigints.Bigint.SubtractBigits | include/spdlite/fmt/format.h:2679-2683 | one word minus word and borrow in wrapping 64-bit arithmetic: the borrow out is 1 exactly when the subtraction would go below zero, and the word is right with it |
| Bigints.Bigint.RemoveLeadingZeros | include/spdlite/fmt/format.h:2685-2689 | keeps the number, leaves a non-zero top word or a single zero |
| Bigints.Bigint.SubtractAligned | include/spdlite/fmt/format.h:2692-2702 | the exact difference; one word past the divisor is enough for the last borrow whenever the dividend has at most one word more |
| Bigints.Bigint.MultiplyWord | include/spdlite/fmt/format.h:2704-2713 | multiplies the number by a 32-bit value, keeping a non-zero top word |
| Bigints.Bigint.MultiplyWide | include/spdlite/fmt/format.h:2715-2734 | multiplies the number by a 64-bit or 128-bit value; the split products never overflow the accumulator |
| Bigints.Bigint.ShiftLeft | include/spdlite/fmt/format.h:2772-2785 | multiplies the number by a power of two, whole words going to the exponent |
| Bigints.Bigint.Compare | include/spdlite/fmt/format.h:2793-2806 | the sign of the difference of two numbers with any exponents, except that equal numbers with different exponents compare by their exponents, and a zero with more places than the other number has counts as larger |
| Bigints.Bigint.AddCompare | include/spdlite/fmt/format.h:2809-2826 | the sign of x + y - z for any exponents, early exits and running borrow included |
| Bigints.Bigint.AddCompareDigits | include/spdlite/fmt/format.h:2815-2825 | the borrow loop alone decides the sign correctly once the word counts fit |
| Bigints.Bigint.AssignPow10 | include/spdlite/fmt/format.h:2829-2844 | assigns exactly 10^e for every exponent |
| Bigints.Bigint.RaiseFive | include/spdlite/fmt/format.h:2831-2842 | the bitmask loop: after each bit the number is 5 to the processed high bits |
| Bigints.Bigint.SquareWords | include/spdlite/fmt/format.h:2849-2869 | the two column loops give the words of the square |
| Bigints.Bigint.Square | include/spdlite/fmt/format.h:2846-2872 | squares the number and doubles the exponent |
| Bigints.Bigint.Align | include/spdlite/fmt/format.h:2876-2885 | takes the smaller exponent and keeps the number |
| Bigints.Bigint.DivmodAssign | include/spdlite/fmt/format.h:2889-2900 | leaves the remainder and returns the quotient of division by repeated subtraction, for every pair of exponents; the one exception is an equal number with a larger exponent, which is left alone with quotient 0 |
| Convolution.ColumnsProduct | include/spdlite/fmt/format.h:2852-2869 | the weighted sum of all columns of cross products is the product of the two numbers |
| Convolution.ColumnStep | include/spdlite/fmt/format.h:2857-2860 | one column plus carry stays below 2^128, and storing its low word while carrying the rest keeps the sum of the columns |
| Rounding.NearestEven | include/spdlite/fmt/format.h:3022-3026 | half-even rounding by quotient and remainder is the nearest integer, the even one on ties, and no other |
| DragonDigits.NextDigit | include/spdlite/fmt/format.h:3018-3020 | one digit: quotient and remainder of the running numerator, or 0 and no change when stuck |
| DragonDigits.LeadingDigits | include/spdlite/fmt/format.h:3017-3021 | after i digits the value times 10^i is digits times denominator plus remainder |
| Decimal.PropagateCarry | include/spdlite/fmt/format.h:3026-3032 | the carry loop keeps the number the digits denote and leaves digits behind a possible overflow in front |
| DragonDigits.LastDigit | include/spdlite/fmt/format.h:3022-3044 | the last digit with half-even rounding and carry: the text denotes the rounded number, with the extra zero in fixed notation or the larger exponent otherwise |
| Dragon.SetUp | include/spdlite/fmt/format.h:2925-2961 | all three set-ups give numerator/denominator = f * 2^e / 10^exp10, the upper boundary half a unit in the last place away, the lower one as far or half as far, and the word exponents of all of them |
| Dragon.FixUp | include/spdlite/fmt/format.h:2964-2975 | an exponent one too large is corrected exactly when the value plus half a unit does not reach the power of ten; numerator and, for the shortest mode, both boundaries are scaled along |
| Dragon.Generate | include/spdlite/fmt/format.h:3005-3045 | digit generation for any digit count, including zero and negative counts |
| Dragon.FormatDragon | include/spdlite/fmt/format.h:2913-3045 | the digits times the final power of ten are f * 2^e rounded half-even to a multiple of the power of ten that lies the requested number of digits below the exponent after the fix-up, for every 128-bit significand, with or without fixed notation; with the fix-up the first of these digits can be a zero (`LeadingDigit` says when); all digits are decimal exactly when the input is not a stuck one |
| DragonFacts.DenotesUnique | include/spdlite/fmt/format.h:3005-3045 | at most one text of digits and exponent denotes a given rounded number |
| DragonFacts.LeadingDigit | include/spdlite/fmt/format.h:2964-3044 | with or without fix-up, the first digit is significant if and only if the value reaches 10^x, x being the exponent after the fix-up, or misses it by at most half a unit of the last digit |
| DragonFacts.ExactEstimateLeads | include/spdlite/fmt/format.h:3016-3044 | so an estimate that is the exponent of the first digit always gives a significant first digit |
| DragonFacts.LeadingZeroExample | include/spdlite/fmt/format.h:2964-2975 | the double nearest 1e23, formatted to seventeen digits with the estimate 23, starts with a zero |
| DragonFacts.LongLeadingZeroExample | include/spdlite/fmt/format.h:2964-2975 | so does the 64-bit long double nearest 1e28 with twenty-one digits |
| DragonFacts.StuckSignificands | include/spdlite/fmt/format.h:2793-2806 | only 5^30, 5^31 and 2 * 5^31 can be stuck significands |
| DragonFacts.FormatsNeverStuck | include/spdlite/fmt/format.h:1588-1613 | no normal significand of 24, 53, 64 or 113 bits is stuck |
| DragonFacts.StuckExample | include/spdlite/fmt/format.h:2927-2938 | a concrete input the formatter accepts and gets stuck on |
| Shortest.TestsDecide | include/spdlite/fmt/format.h:2983-2985 | the two tests after each division decide whether the digits so far, or the next number above them, lie in the rounding interval, and nothing else of that length does when neither passes |
| Shortest.StopsShortest | include/spdlite/fmt/format.h:2987-2994 | the digit the loop stops with gives a decimal in the interval, the closest of its length, the even one of two, with no shorter one before; rounding it up never carries after the first digit |
| Shortest.NoCarry | include/spdlite/fmt/format.h:2987-2994 | after the first digit rounding up cannot carry, since the shorter number would have been found |
| ShortestDragon.ShortestDigits | include/spdlite/fmt/format.h:2977-3003 | the digit loop ends, with a shortest decimal of the interval, or for a trapped value with the value and one zero behind it |
| ShortestFormat.WithinCovers | include/spdlite/fmt/format.h:2976-2985 | what the loop tests on big integers is membership in the rounding interval of f * 2^e, and its gaps order decimals as their distances from the value do |
| ShortestFormat.NoneFewer | include/spdlite/fmt/format.h:2977-3003 | when no multiple of a larger unit lies in the interval, no number with fewer digits does, whatever its exponent |
| ShortestFormat.FormatShortest | include/spdlite/fmt/format.h:2913-3003 | the shortest mode for every 128-bit significand: the digits lie in the rounding interval, no number with fewer digits does, and none of their length is closer; whether the lower end counts is decided by `LowEnd`, the one family that gets an extra zero by `ExtraZero`, and the text is a single ':' if and only if `TenFirst`, all three read off the arguments |
| ShortestFacts.ReadsBack | include/spdlite/fmt/format.h:2977-3003 | a decimal in the interval reads back as the value if and only if it is not the lower end of an odd significand |
| ShortestFacts.ReadsBackCloser | include/spdlite/fmt/format.h:2977-3003 | when the predecessor is closer, decimals above the value read back at its exponent and those below at the one under it |
| ShortestFacts.NarrowReadsBack | include/spdlite/fmt/format.h:2977-3003 | for significands of at most 64 bits nothing goes wrong with reading back: no extra zero, no lower end of an odd significand, and the digits read back as the value |
| ShortestFormat.TenExactly | include/spdlite/fmt/format.h:2987-2994 | the shortest decimal is a first digit of value ten if and only if the interval reaches the next power of ten and the value is nearer to that than to nine units, or nine units lie outside |
| ShortestFacts.TenOnlyBeyond | include/spdlite/fmt/format.h:2964-2975 | an exponent that the fix-up has lowered rules a first digit of value ten out |
| ShortestFacts.EstimateRulesOutTen | include/spdlite/fmt/format.h:2964-2994 | so does every estimate that the value exceeds less than threefold, with or without the fix-up |
| ShortestFacts.TenExample | include/spdlite/fmt/format.h:2987-2994 | the double nearest 1e23 with the exact exponent 22 meets the condition for a single ':' |
| ShortestFacts.ShorterEnd | include/spdlite/fmt/format.h:2793-2806 | where the comparison leaves out the lower end of an even significand, the digits are still the shortest if and only if that end is no shorter decimal |
| ShortestFacts.EndDecides | include/spdlite/fmt/format.h:2793-2806 | the same condition without the result: the digits are the shortest of the whole interval if and only if the lower end is a multiple of no power of ten that exceeds the interval's width |
| ShortestFacts.LongerExample | include/spdlite/fmt/format.h:2983-2983 | the 64-bit long double nearest 4.8e28 is printed with more than two digits although 4.8e28 identifies it |
| ShortestFacts.DoubleLongerExample | include/spdlite/fmt/format.h:2983-2983 | so is the double 3.584e25 in constant evaluation, with more than four digits |
| ShortestFacts.MisreadExample | include/spdlite/fmt/format.h:2983-2983 | a 113-bit long double whose shortest digits read back as the number below it |
| ShortestFacts.ExtraZeroExample | include/spdlite/fmt/format.h:2983-2983 | a 113-bit input and exact exponent that meet the condition for an extra zero |
| WideMultiply.UMul128Exact | include/spdlite/fmt/format.h:1386-1412 | the portable multiplication by 32-bit halves returns the full 128-bit product, and its upper half is the quotient by 2^64 |
| WideMultiply.UMul192UpperExact | include/spdlite/fmt/format.h:1442-1447 | the upper 128 bits of a 64 by 128-bit product |
| WideMultiply.UMul192LowerExact | include/spdlite/fmt/format-inl.h:198-203 | the lower 128 bits of a 64 by 128-bit product |
| WideMultiply.AddWordExact | include/spdlite/fmt/format.h:391-414 | adding a word to the two-word fallback integer carries correctly |
| WideMultiply.FallbackTimesExact | include/spdlite/fmt/format.h:354-359 | the two-word fallback product with a 32-bit factor is exact |
| Magic.MagicQuotient | include/spdlite/fmt/format-inl.h:259-268 | multiplying by a rounded-up reciprocal and shifting gives the quotient if and only if the excess stays below the gap to the next multiple |
| Magic.DivideBy100Exact | include/spdlite/fmt/format-inl.h:260-263 | the 32-bit form divides by 100 for every input |
| Magic.DivideBy1000Exact | include/spdlite/fmt/format-inl.h:265-268 | the 64-bit form divides by 1000 exactly under the stated condition, hence whenever 152 n < 2^71 |
| Magic.DivideBy1000Example | include/spdlite/fmt/format-inl.h:265-268 | an argument past the bound for which the quotient is wrong |
| Magic.RotatedQuotient | include/spdlite/fmt/format-inl.h:179-186 | multiplying by the inverse of the odd factor and rotating gives at most max/d exactly on multiples of d, and then the quotient |
| Magic.RemoveTrailingZeros32 | include/spdlite/fmt/format-inl.h:1155-1173 | all trailing zeros are removed and their number added; setting the lowest bit of the even count adds one |
| Magic.RemoveTrailingZeros64 | include/spdlite/fmt/format-inl.h:1176-1208 | the result has no trailing zero, and times 10^s is the input if and only if the input is not a multiple of 10^8 or its quotient by 10^8 fits 32 bits |
| Magic.RemoveTrailingZeros64Example | include/spdlite/fmt/format-inl.h:1176-1188 | (2^32 + 1) * 10^8 comes out wrong |
| FastPath.ThresholdHalves | include/spdlite/fmt/format.h:3134-3143 | each threshold decides strictly more than half, and the top bit at least half |
| FastPath.PrintSubsegment | include/spdlite/fmt/format.h:3280-3316 | the fixed-point digit loop prints the exact leading digits of every nine-digit segment for every count |
| FastPath.SplitSegment | include/spdlite/fmt/format.h:3268-3272 | the first magic multiplication is exact division by 10^10 for all 19-digit segments |
| FastPath.SecondSplit | include/spdlite/fmt/format.h:3363-3368 | the second magic multiplication is exact division by ten, and the last digit survives wrapping |
| FastPath.PrintFirst | include/spdlite/fmt/format.h:3318-3356 | digits and rounding decision inside or at the end of the first segment |
| FastPath.PrintSecond | include/spdlite/fmt/format.h:3363-3394 | digits and rounding decision inside or at the end of the second segment |
| FastPath.PrintBoth | include/spdlite/fmt/format.h:3318-3394 | both segments together |
| FastPath.StickyRounding | include/spdlite/fmt/format.h:3258-3394 | rounding a truncated value with a flag for a lost tail is rounding the value itself |
| FastPath.HalfDigit | include/spdlite/fmt/format.h:3241-3256 | with no digit to print, one comparison with the segment and the tail flag rounds |
| FastPath.RoundUpLast | include/spdlite/fmt/format.h:3397-3412 | incrementing the last digit with carry, in both notations |
| FastPath.FormatSegment | include/spdlite/fmt/format.h:3236-3413 | for every 18 or 19 digit first segment, tail flag and precision: the text is the value rounded half-even, with zero and negative precision included |
| Agreement.HandOver | include/spdlite/fmt/format.h:3414-3419 | the exponent passed on to the slow path satisfies its precondition |
| Agreement.FormatBoth | include/spdlite/fmt/format.h:3236-3430 | the fast path and the arbitrary-precision path, run on one input for any digit count the fast path takes, zero included, give the same exponent, and the same text exactly unless the long division is stuck with more than one digit |
| Agreement.FormatBelow | include/spdlite/fmt/format.h:3236-3256 | for a negative count the fast path leaves the buffer empty and the long division writes a zero at the requested position; both mean zero, which is the correct rounding |
| Digits.CountDigitsFallback | include/spdlite/fmt/format.h:1053-1066 | four digits per round gives the length of the decimal text |
| Digits.CountDigits64 | include/spdlite/fmt/format.h:1076-1091 | bit scan and table give the same count for every 64-bit number |
| Digits.CountDigits32 | include/spdlite/fmt/format.h:1123-1142 | one packed addition and a shift give the same count for every 32-bit number |
| Digits.Table64Ok | include/spdlite/fmt/format.h:1080-1084 | every entry of the 64-bit table bounds all numbers with that top bit |
| Digits.DecimalsDenote | include/spdlite/fmt/format.h:1219-1238 | the decimal text holds digits, reads back as the number and has no leading zero |
| Digits.DoFormatDecimal | include/spdlite/fmt/format.h:1219-1238 | writes the decimal text right-aligned, returns its start and touches nothing else |
| SignificandPrinting.WriteSignificand | include/spdlite/fmt/format.h:2405-2425 | the backward two-digit writer gives the decimal text with a point after the integral digits |
| DigitGrouping.GroupSizes | include/spdlite/fmt/format.h:1880-1886 | groups counted from the right have the sizes of the grouping, the last one repeating |
| DigitGrouping.CountSeparators | include/spdlite/fmt/format.h:1901-1906 | counts the separator positions inside the number |
| DigitGrouping.Apply | include/spdlite/fmt/format.h:1909-1929 | writes a separator exactly where a position calls for one |
| DigitGrouping.GroupedSize | include/spdlite/fmt/format.h:1901-1929 | grouping adds exactly the counted separators |
| DigitGrouping.GroupingReversible | include/spdlite/fmt/format.h:1909-1929 | stripping the separators gives the digits back |
| FloatLayout.WriteIntegral | include/spdlite/fmt/format.h:2508-2532 | 1234e5: the text reads back as the number and has the precomputed size |
| FloatLayout.WriteMixed | include/spdlite/fmt/format.h:2534-2547 | 1234e-2: the text reads back as the number and has the precomputed size |
| FloatLayout.WriteSmall | include/spdlite/fmt/format.h:2549-2562 | 1234e-6: the text reads back as the number and has the precomputed size |
| FloatLayout.WriteFixed | include/spdlite/fmt/format.h:2499-2563 | fixed notation of any decimal, grouped or not, reads back as the number and has the precomputed size |
| FloatLayout.WriteExponent | include/spdlite/fmt/format.h:1530-1561 | at least two exponent digits that read back as the exponent, in the precomputed size |
| FloatLayout.WriteExponential | include/spdlite/fmt/format.h:2579-2601 | mantissa and exponent read back as the number, in the precomputed size |
| FloatLayout.ReadGroupedAll | include/spdlite/fmt/format.h:1909-1929 | a reader that skips separators reads grouped and plain digits alike |
| Utf8.DecodeExact | include/spdlite/fmt/format.h:594-629 | the branchless decoder reports no error exactly for the well-formed sequences of RFC 3629, with their length and scalar value, even when the bytes past the end read as zero |
| Utf8.Decode | include/spdlite/fmt/format.h:637-644 | one decoding step gives the code point and view, or one invalid byte |
| Utf8.VisitTail | include/spdlite/fmt/format.h:654-667 | the zero-padded tail loop continues with exactly the views of the last bytes |
| Utf8.ForEachCodepoint | include/spdlite/fmt/format.h:635-668 | visits exactly the views of the text, stopping after the first one refused |
| Utf8.ViewsPartition | include/spdlite/fmt/format.h:635-668 | the views tile the text; each is a well-formed sequence with its scalar value or one invalid byte |
| Utf16.EncodedScalar | include/spdlite/fmt/format.h:1363-1376 | encoding a scalar value gives a well-formed sequence that decodes to it |
| Utf16.EncodeBack | include/spdlite/fmt/format.h:1363-1376 | encoding the scalar value of a well-formed sequence gives the sequence back |
| Transcoding.ReadPoint | include/spdlite/fmt/format.h:1350-1361 | one step takes a basic unit, a surrogate pair or a lone surrogate, and looks ahead correctly |
| Transcoding.ToUtf8 | include/spdlite/fmt/format.h:1347-1382 | succeeds exactly for well-formed UTF-16 or under the replacing policy, with the encoded code points; when it aborts, the output ends before the first lone surrogate |
| Transcoding.ReplacementReads | include/spdlite/fmt/format.h:1352-1360 | under the replacing policy every lone surrogate reads back as U+FFFD and all other code points are kept in order |
| Transcoding.Utf8ToUtf16 | include/spdlite/fmt/format-inl.h:1410-1423 | succeeds exactly for well-formed UTF-8, with the code units of its code points |
| Transcoding.RoundTrip16 | include/spdlite/fmt/format.h:1347-1382 | well-formed UTF-16 survives the way through UTF-8 |
| Transcoding.RoundTrip8 | include/spdlite/fmt/format-inl.h:1410-1423 | well-formed UTF-8 survives the way through UTF-16 |
| FormatParser.ParseNonnegativeInt | include/spdlite/fmt/base.h:1322-1346 | wrapping 32-bit accumulation with one check at the end |
| FormatParser.IntValueExact | include/spdlite/fmt/base.h:1336-1345 | the check is the exact overflow check if and only if there are at most ten digits or the number is too large anyway; without leading zeros always |
| FormatParser.LeadingZerosExample | include/spdlite/fmt/base.h:1336-1345 | the text 00000000001 is refused |
| FormatParser.ParseFormatString | include/spdlite/fmt/base.h:1608-1675 | the loop over text runs, doubled braces and fields computes the parse, with every reference, those inside specifiers included, checked and counted by the indexing state |
| FormatRoundTrip.ParseUnparse | include/spdlite/fmt/base.h:1608-1675 | parsing a written list of pieces gives the list back, with the numbers of the arguments that each field and each specifier takes |
| FormatRoundTrip.UnparseParse | include/spdlite/fmt/base.h:1608-1675 | writing the pieces of a parsed format string gives the string back, unless an index was clamped to the largest int |
| FormatRoundTrip.ParseAccepts | include/spdlite/fmt/base.h:888-910 | the references of an accepted format string, in the order in which fields and their specifiers take them, pass the indexing checks one after the other, automatic ones numbered from zero |
| FormatRoundTrip.AcceptedShape | include/spdlite/fmt/base.h:888-910 | references that pass are numbered automatic ones followed by others, the first of which is a name when both parts are there |
| FormatRoundTrip.ShapeAccepted | include/spdlite/fmt/base.h:888-910 | and all references of that shape pass |
| FormatRoundTrip.ModesMixOnlyAfterName | include/spdlite/fmt/base.h:900-910 | an automatic reference and an index in one string come in this order and have a name between them, in a field or inside a specifier |
| FormatRoundTrip.MixedExample | include/spdlite/fmt/base.h:900-910 | a format string that mixes both and is accepted at run time |
| FormatSpecs.ParseFormatSpecs | include/spdlite/fmt/base.h:1470-1606 | the loop over standard specifiers finds the parts that the scan defines, and where it stops |
| FormatSpecs.ScanWritten | include/spdlite/fmt/base.h:1470-1606 | any fitting parts in the order alignment, sign, hash, zero, width, precision, locale, type are read back from their text, whatever follows the closing brace |
| FormatSpecs.ScanSound | include/spdlite/fmt/base.h:1470-1606 | and nothing else is: what was read are fitting parts in that order, their text, unless an index was clamped, is what was consumed, and their references pass the indexing checks |
| FormatSpecs.SpecifierExact | include/spdlite/fmt/base.h:1470-1606 | the two together as an equivalence for specifiers that end at a closing brace |
| FormatSpecs.TakesAtMostTwo | include/spdlite/fmt/base.h:1447-1467 | a specifier takes at most two further arguments, and at most one when the type has no precision |
| FormatSpecs.StandardWritable | include/spdlite/fmt/base.h:1404-1443 | every fitting specifier, with the arguments its width and precision take, is one that the round trips of whole format strings cover |
| FormatSpecs.NestedExample | include/spdlite/fmt/base.h:1424-1430 | in {:{}}{} the second field gets argument 2 |
| FormatSpecs.NestedNameExample | include/spdlite/fmt/base.h:1396-1400 | {:{a}}{0} is accepted: a name inside a specifier lets the modes mix too |
| FormatSpecs.LongPrecisionExample | include/spdlite/fmt/base.h:1412-1415 | a precision of 1 written with ten leading zeros is refused |
| FormatChecker.CheckedAtRunTime | include/spdlite/fmt/base.h:1731-1741 | a format string that passes the compile-time check is accepted at run time if and only if no automatic reference is taken by a named field or after one, and then with the pieces that were checked |
| FormatChecker.CheckedAlike | include/spdlite/fmt/base.h:1731-1741 | without named fields the check and the run-time parser do the same |
| FormatChecker.StandardSteady | include/spdlite/fmt/base.h:1470-1606 | the standard specifiers look at the indexing state only to take their references, as the two theorems before ask of a specifier parser |
| FormatChecker.CheckedRefused | include/spdlite/fmt/base.h:1736-1741 | {a}{} passes the check and is refused at run time |
| FormatChecker.MixedUnchecked | include/spdlite/fmt/base.h:1736-1741 | {}{a}{0}, accepted at run time, does not pass the check |
| FormatChecker.NestedChecked | include/spdlite/fmt/base.h:1396-1400 | {:{a}}{0} passes it |
| OutputBuffers.IteratorBuffer.Flush | include/spdlite/fmt/base.h:1917-1923 | both flushes: what was passed on stays the first elements |
| OutputBuffers.IteratorBuffer.PushBack | include/spdlite/fmt/base.h:1835-1838 | appends one element, flushing or leaving raw memory when full, and keeps what is known of an earlier loss |
| OutputBuffers.IteratorBuffer.AppendSome | include/spdlite/fmt/base.h:1849-1871 | every round of appending takes at least one element; raw memory is only left when full, and once left never entered again |
| OutputBuffers.IteratorBuffer.Append | include/spdlite/fmt/base.h:1848-1872 | appends the whole run; raw memory is only left when full, and once left never entered again |
| OutputBuffers.IteratorBuffer.Out | include/spdlite/fmt/base.h:1938-1983 | the output is the first elements up to the limit if and only if nothing was appended since the first call, or the memory was full by then; the generic kind always delivers them |
| OutputBuffers.EarlyOutLoses | include/spdlite/fmt/base.h:1945-1983 | appending, asking, appending and asking again loses the second element although there is room |
| OutputBuffers.FormatToN | include/spdlite/fmt/base.h:2888-2894 | whatever pieces the output comes in, its first elements are delivered and its full size reported, for both kinds of buffer |
| ArchiveNames.ParseDigits | include/spdlite/sinks/rotating_file_sink.h:222-234 | the digit loop with its overflow guard reads the index, refusing 0 and the largest size |
| ArchiveNames.ParseArchiveIndex | include/spdlite/sinks/rotating_file_sink.h:207-235 | reads an index exactly from names of the stem, dot, digits, extension shape |
| ArchiveNames.ArchiveRoundTrip | include/spdlite/sinks/rotating_file_sink.h:111-117 | archive names read back as their index |
| ArchiveNames.ArchiveShape | include/spdlite/sinks/rotating_file_sink.h:207-235 | only names of the archive shape read as an index |
| ArchiveNames.CanonicalArchive | include/spdlite/sinks/rotating_file_sink.h:207-235 | a name without leading zeros is the archive name of its index |
| ArchiveNames.BaseIsNoArchive | include/spdlite/sinks/rotating_file_sink.h:207-235 | the active file is never taken for an archive |
| ArchiveNames.NamingLawful | include/spdlite/sinks/rotating_file_sink.h:111-235 | for every non-empty base name the two name functions have what all theorems about the sink ask of them: archive names read back, the active name does not |
| RotatingSink.RotatingFileSink.Rename | include/spdlite/sinks/rotating_file_sink.h:156-167 | five attempts, each deleting the target and renaming |
| RotatingSink.RotatingFileSink.Rotate | include/spdlite/sinks/rotating_file_sink.h:134-151 | one rotation in place, for every combination of failures |
| RotatingSink.RotatingFileSink.Write | include/spdlite/sinks/rotating_file_sink.h:95-108 | one write in place: dropped when closed, rotating when full, counting only complete writes |
| RotatingSink.RotatingFileSink.Scan | include/spdlite/sinks/rotating_file_sink.h:181-191 | the highest archive index listed |
| RotatingSink.RotatingFileSink.ScanAndPrune | include/spdlite/sinks/rotating_file_sink.h:171-204 | scanning and pruning in place |
| RotatingSink.RotatingFileSink.Create | include/spdlite/sinks/rotating_file_sink.h:63-93 | construction: refused settings, a failing open, or a sink resumed from the directory |
| RotatingJournal.RenameMoves | include/spdlite/sinks/rotating_file_sink.h:156-167 | whatever attempts fail, renaming moves the file or leaves it |
| RotatingJournal.RotateFollows | include/spdlite/sinks/rotating_file_sink.h:134-151 | a rotation whose operations succeed in the end closes one file of the journal |
| RotatingJournal.WriteFollows | include/spdlite/sinks/rotating_file_sink.h:95-108 | a write keeps the directory equal to the journal that never deletes anything, cut off below the window |
| RotatingJournal.SizeBound | include/spdlite/sinks/rotating_file_sink.h:95-108 | a completed write leaves at most max_size bytes, or the one message, even when the rename fails |
| RotatingJournal.PruneDeletes | include/spdlite/sinks/rotating_file_sink.h:193-202 | pruning deletes exactly the stale archives listed before the first one that cannot be deleted |
| RotatingJournal.StuckPruneExample | include/spdlite/sinks/rotating_file_sink.h:193-202 | with archives 1, 2 and 9, one to keep, and 1 impossible to delete, 2 stays as well |
| RotatingJournal.StartFollows | include/spdlite/sinks/rotating_file_sink.h:63-93 | a sink started on any canonically named directory continues from what it finds |
| RotatingJournal.HoldsUnique | include/spdlite/sinks/rotating_file_sink.h:134-151 | a directory is determined by its active file, its archives and the rest |
| RotatingRuns.RestartTransparent | include/spdlite/sinks/rotating_file_sink.h:81-92 | with at least one archive kept, a restarted sink is the sink it replaces and prunes nothing |
| RotatingRuns.RestartWithoutArchives | include/spdlite/sinks/rotating_file_sink.h:81-92 | without archives only the counter starts again, and the directory does not show it |
| RotatingRuns.RunFollows | include/spdlite/sinks/rotating_file_sink.h:63-151 | any run of writes and restarts keeps the directory equal to the journal of its messages |
| RotatingRuns.RestartsDontShow | include/spdlite/sinks/rotating_file_sink.h:81-92 | two runs with the same messages and any restarts leave the same directory |
| RotatingRuns.HistoryOnDisk | include/spdlite/sinks/rotating_file_sink.h:95-151 | earlier text plus every message written is what was dropped, in whole files, followed by what is on disk |
| RotatingRuns.ArchivesKept | include/spdlite/sinks/rotating_file_sink.h:134-151 | starting without archives, those on disk are exactly the last max_files closed files |
| RotatingRuns.FaultyRun | include/spdlite/sinks/rotating_file_sink.h:63-204 | whatever fails during any run of writes and restarts, deletions and openings included, no archive inside the window is lost or overwritten and no index is reused; only a sink that keeps no archives counts again after a restart |
| RotatingRuns.SizeRun | include/spdlite/sinks/rotating_file_sink.h:81-108 | after any run of writes and restarts whose openings and writes succeed, whatever renames and deletions fail, the active file holds at most max_size bytes, or its last message |
| HeaderText.PaddedDenotes | include/spdlite/formatter.h:46-75 | padded numbers hold digits that read back |
| HeaderText.Put9 | include/spdlite/formatter.h:71-75 | nine digits written as three groups of three |
| HeaderCache.SlotsDisjoint | include/spdlite/formatter.h:163-186 | the stamp, fraction, thread and level slots lie in the header in order and apart |
| HeaderCache.NewHeader | include/spdlite/formatter.h:163-186 | a rebuilt header with its offsets |
| HeaderCache.PutStamp | include/spdlite/formatter.h:188-211 | patching the date and time digits in place writes the stamp and keeps the punctuation |
| HeaderCache.Formatter.RebuildTimestamp | include/spdlite/formatter.h:188-211 | the stamp of a second replaces the one before |
| HeaderCache.Formatter.FormatHeader | include/spdlite/formatter.h:105-137 | appends the header of one call; the level offset addresses its tag |
| HeaderCache.TagSlot | include/spdlite/formatter.h:140-140 | the level offset addresses the tag in every layout |
| HeaderCache.ShownIsRendered | include/spdlite/formatter.h:105-137 | a cached header equals the rendered one exactly when its stamp does |
| HeaderCache.CachedHeaderExact | include/spdlite/formatter.h:105-137 | after any renamings and calls, the appended header equals one rendered from scratch if and only if some call since the last renaming fell outside the first second of the epoch, or zeros are right |
| HeaderCache.EpochSecondExample | include/spdlite/formatter.h:163-186 | a first call in that second shows a date of zeros |
| DispatchSafety.StepSafe | include/spdlite/logger.h:108-199 | every step of every thread keeps the invariant |
| DispatchSafety.NewLineWhole | include/spdlite/logger.h:136-150 | the completed line is the header of the configuration in force, the payload and a newline |
| DispatchSafety.MayEnterFree | include/spdlite/sinks/shared_sink.h:23-30 | a shared sink has one writer by its lock, a private one by the logger lock alone |
| DispatchRuns.RunSafe | include/spdlite/logger.h:108-199 | every interleaving keeps the invariant |
| DispatchRuns.LinesWhole | include/spdlite/logger.h:135-153 | bytes at a sink are whole lines, and for each write that threw or stopped midway a part of one line from its front; each line is one header, payload and newline from one call under one name and options in force together |
| DispatchRuns.HeaderWritten | include/spdlite/logger.h:139-141 | the header step of a call writes what the logger's cache shows for that call |
| DispatchRuns.WholeIsRendered | include/spdlite/logger.h:139-150 | a whole line whose header came from the cache carries the one rendered from scratch |
| DispatchRuns.LinesRendered | include/spdlite/logger.h:135-153 | after every interleaving, each write of a call after the first second of the epoch left at the sink the header rendered from scratch under one name and options of its logger, the payload and a newline, or a part of that from the front when it did not end well |
| DispatchRuns.LaterTakesLess | include/spdlite/logger.h:151-157 | what a later sink took is a subsequence of what each earlier one took, whatever throws |
| DispatchRuns.AllTakeAll | include/spdlite/logger.h:151-151 | while no sink throws, all sinks of a logger take all its lines in order |
| DispatchRuns.SharedKeepsOrder | include/spdlite/sinks/shared_sink.h:23-26 | a shared sink keeps the order in which each logger held its lock; a logger with several copies of the sink writes each line once per copy, in order |
| DispatchRuns.NoDeadlock | include/spdlite/sinks/shared_sink.h:23-30 | as long as some operation is under way, some thread can step |

## Left out

- The floating-point estimate of the decimal exponent in `format_float`; what it has to be is a precondition of both
  modes of the formatter.
- Dragonbox (`to_decimal`, the shorter interval case, the caches of powers of ten): its result rests on large tables.
  The first segment and its tail flag are inputs of the fast path.
- `adjust_precision` and the trimming of trailing zeros after digit generation, single loops around the modelled parts.
- int overflow of binary and decimal exponents and of sizes of 2^31 and more; file sizes, message sizes and element
  counts are taken below 2^64, archive indices below the largest size.
- The 128-bit built-in multiplication of compilers that have it; the portable form is the one proved.
- The table of two-digit texts in `write2digits`; the digits are taken as quotient and remainder by ten.
- The values that parsed specifiers hold and what they do to the output; which texts they are and which arguments they
  take is modelled. The parser of a type with its own formatter is a parameter that may take any references.
- Whether an argument of some number or name exists, and that a width or precision taken from one is an integer.
- Format strings over wide characters; a character is a byte.
- Padding, alignment and fill around a number; the unpadded text and its size are modelled.
- Directories, symbolic links and archive names with leading zeros in the log directory; `HistoryOnDisk` starts from
  canonically named regular files.
- Buffering inside `FILE*`: written bytes are in the file at once. Which operations fail is an input of each step.
- Another program changing the log directory while a sink runs, and a directory listing that breaks off.
- Times before the epoch and years above 9999; the calendar is a function from seconds to a broken-down time.
- Carriage returns on Windows, the message on standard error after an exception, and the level gates of the macros.
- Names of arguments that are only known at run time, whose specifiers the compile-time check skips.
- Moving a logger while it is in use, reading its name without the lock, and destroying one.
- A sink that throws in a call of `flush` itself: the function is `noexcept`, the program ends, and no step follows.
- Flushing inside a sink: the dispatch model counts flushes and orders them by the locks only.
- SizeBound: holds for completed writes; a write that the file system cuts short is not counted by the sink, and the
  file may then outgrow the limit.
- DivmodAssign: asks for a dividend with at most one word more than the divisor, which every caller keeps.
- RemoveTrailingZeros64: asks that the low 32 bits of the quotient by 10^8 not be zero, since the loop would not end.
