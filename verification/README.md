# tle-reader in Dafny

A model of the codec at the heart of `tle-reader`: the functions that read and
write NORAD two-line element sets (TLEs). A TLE is two 69-column text lines.
Each field of the orbital record sits in fixed columns. Each field has its own
notation:

- Alpha-5 catalog numbers (`A0000` is 100000);
- epochs written as `YYDDD.dddddddd`;
- drag terms with an implied decimal point and a one-digit exponent (` 16538-3` is 0.16538e-3);
- an eccentricity with an implied leading point (`0007976` is 0.0007976).

Each line ends in a modulo-10 checksum digit.

Everything the codec does is pure, so the model is pure too: datatypes, functions and lemmas.

- `Alpha5` covers `alpha5_to_number` and `number_to_alpha5`.
- `Epoch` covers `epoch_to_datetime` and `datetime_to_epoch`. It builds on `Calendar`, a model of the proleptic Gregorian arithmetic of Python's `datetime` in whole microseconds.
- `ImpliedDecimal` covers `scinot_to_float`, `float_to_scinot`, `e_to_float` and `float_to_e`.
- `Checksum` covers the line checksum.
- `Tle` covers `parse_tle`, `TLE.from_lines`, `TLE.to_lines` and `TLE.alpha5`.
- `TleFacts` proves what the reader and the writer promise each other.
- `PyText` and `PyTextFacts` model the parts of Python the codec leans on: slicing, `str.strip`, `str.isnumeric`, `int()` and `float()` of a string, and the `d`, `s`, `f` and `e` format specifications. Text is ASCII: the model's `int()` and `float()` take ASCII digits without underscores (see Left out).

Python floats are exact reals here. Formatting rounds half to even, as Python does for the exact value. Every Python exception becomes an error value:

- `KeyError`, `IndexError` and `ValueError` from the Alpha-5 maps become `Alpha5Error`;
- `int()` and `float()` failures and a `datetime` overflow become `EpochError`;
- a field that cannot be read, or two catalog numbers that differ, become `TleError`.

Some of what the code does is easy to misread, and the model follows the code:

- The Alpha-5 writer pads numbers below 10000 with spaces. The reader refuses such a field (`ALPHA5_MAP[' ']` raises), so the round trip holds only for 10000..339999. Numbers of 340000 and up have no letter (`KeyError`). The model does not claim the range 0..349999.
- The writer gives line 2's mean motion six decimals (`{M:11f}`), not eight.
- `parse_tle` never compares a checksum digit. It reads `line1[68]` as an integer and discards it, and its `checksum2` re-reads line 1.
- The minus sign counts +1 in the checksum. This is the standard TLE rule, and only with it does the test line 1 get its checksum 3; with -1 it would get 9.

`compute_checksum`, `implied_decimal_to_float` and `float_to_implied_decimal` are imported by `main.py` but defined in neither core file. The checksum follows the standard rule and the two test lines. The eccentricity field is read with `e_to_float` and written with `float_to_e`, the only eccentricity codec `utils.py` has.

## Model

| member | source | states |
|---|---|---|
| Alpha5.Alpha5ToNumber | src/tle_reader/utils.py:8-12 | a field of digits reads as its decimal value; an empty field is an IndexError |
| Alpha5.Alpha5ToNumberSymbol | src/tle_reader/utils.py:10-12 | a non-digit alphabet symbol followed by four digits reads as the symbol's index times 10000 plus the digits |
| Alpha5.Alpha5ToNumberLetter | src/tle_reader/utils.py:4-12 | each letter of the alphabet, followed by four digits, reads as its position times 10000 plus the digits |
| Alpha5.Alpha5ToNumberDigits | src/tle_reader/utils.py:10-11 | a digit q followed by four digits reads as q times 10000 plus the digits |
| Alpha5.Alpha5ToNumberUnknown | src/tle_reader/utils.py:12 | a field that is not numeric and starts with a character outside the alphabet raises KeyError for that character |
| Alpha5.NumberToAlpha5 | src/tle_reader/utils.py:15-21 | succeeds exactly for numbers below 340000; otherwise KeyError for the quotient n / 10000 |
| Alpha5.Alpha5RoundTrip | src/tle_reader/utils.py:8-21 | for 10000 <= n < 340000 the field has five characters and alpha5_to_number reads n back |
| Alpha5.SymbolRoundTrip | src/tle_reader/utils.py:19-21 | the field is the quotient's letter and the remainder in four zero-padded digits, and it reads back as n |
| Alpha5.SmallNumberNotReadable | src/tle_reader/utils.py:17-18 | below 10000 the field is space-padded to five characters, and alpha5_to_number refuses it with KeyError on ' ' |
| Alpha5.Alpha5Example | src/tle_reader/utils.py:15-21 | a field that is the letter of n / 10000 and the digits of n % 10000 is what n is written as, and it reads back as n |
| Alpha5.Alpha5ExampleA | tests/test_utils.py:21 | 100000 is written "A0000" and read back |
| Alpha5.Alpha5ExampleE | tests/test_utils.py:22 | 148493 is written "E8493" and read back |
| Alpha5.Alpha5ExampleJ | tests/test_utils.py:23 | 182931 is written "J2931" and read back |
| Alpha5.Alpha5ExampleP | tests/test_utils.py:24 | 234018 is written "P4018" and read back |
| Alpha5.Alpha5ExampleW | tests/test_utils.py:25 | 301928 is written "W1928" and read back |
| Alpha5.Alpha5ExampleZ | tests/test_utils.py:26 | 339999 is written "Z9999" and read back |
| Checksum.ComputeChecksum | src/tle_reader/main.py:130 | the checksum to_lines appends is a single value 0..9; its weights are pinned down by ChecksumAppend, the change-detection lemmas and the test lines |
| Checksum.ChecksumChar | src/tle_reader/main.py:130 | str(compute_checksum(line)) is a single digit whose value is the checksum |
| Checksum.ChecksumAppend | src/tle_reader/main.py:130 | the checksum of a concatenation is the sum of the parts' checksums modulo 10 |
| Checksum.ChecksumDetectsDigitChange | tests/test_utils.py:91-100 | changing one digit of a line always changes its checksum |
| Checksum.ChecksumDetectsSignChange | tests/test_utils.py:91-100 | turning a '-' into a '+' or a space always changes the checksum |
| Checksum.ChecksumMissesSwap | tests/test_utils.py:91-100 | swapping two adjacent characters never changes the checksum |
| Checksum.TestLine1Checksum | tests/test_utils.py:94 | the first 68 columns of the test line 1 have checksum 3 |
| Checksum.TestLine2Checksum | tests/test_utils.py:95 | the first 68 columns of the test line 2 have checksum 6 |
| Epoch.CenturyWindow | src/tle_reader/utils.py:44-46 | a two-digit year maps into 1957..2056 with the same last two digits, into the 2000s exactly for 00..56 |
| Epoch.CenturyOfYear | src/tle_reader/utils.py:44-46 | every year in 1957..2056 is recovered from its last two digits |
| Epoch.DecodeMoment | src/tle_reader/utils.py:43-48 | epoch_to_datetime of "YYDDD.dddddddd" is January 1 of the windowed year plus (DDD - 1) days and 864 microseconds per unit of the eighth decimal, or Overflow when that leaves years 1..9999 |
| Epoch.DecodeFields | src/tle_reader/utils.py:43-48 | the parsing half of epoch_to_datetime reads "YYDDD.dddddddd" as the windowed year and an offset of (DDD - 1) days plus 864 microseconds per unit of the eighth decimal |
| Epoch.EncodeDigits | src/tle_reader/utils.py:51-56 | datetime_to_epoch writes the thirteen digits of YYDDD followed by the rounded time of day in 1e-8 days, with the point after the fifth |
| Epoch.EncodeShape | src/tle_reader/utils.py:51-56 | the epoch text has 14 characters with the point in column 5 |
| Epoch.EpochUnitsValue | src/tle_reader/utils.py:51-56 | the thirteen digits written are YYDDD followed by the time of day in 1e-8 days, rounded, and stay below 10^13 |
| Epoch.EpochRoundTrip | src/tle_reader/utils.py:43-56 | for valid moments in 1957..2056 the written epoch decodes to a valid moment within 432 microseconds (half of the last decimal) of the original |
| Epoch.EncodeExample | tests/test_utils.py:44 | 2020-09-30T10:07:00 is written "20274.42152778" |
| Epoch.DecodeExampleClose | tests/test_utils.py:44 | "20274.42152778" decodes to 2020-09-30T10:07:00 within 432 microseconds |
| Epoch.EncodeWindowStart | tests/test_utils.py:40 | 1957-01-01 is written "57001.00000000" |
| Epoch.DecodeWindowStart | tests/test_utils.py:40 | "57001.00000000" decodes to 1957-01-01 |
| Epoch.EncodeCenturyStart | tests/test_utils.py:41 | 2001-01-01 is written "01001.00000000" |
| Epoch.DecodeCenturyStart | tests/test_utils.py:41 | "01001.00000000" decodes to 2001-01-01 |
| Epoch.EncodeWindowEnd | tests/test_utils.py:42 | 2056-12-31 is written "56366.00000000" |
| Epoch.EncodeNoon | tests/test_utils.py:43 | 2020-01-01T12:00 is written "20001.50000000" |
| Epoch.DecodeExample | tests/test_utils.py:42 | "56366.00000000" decodes to 2056-12-31T00:00 (leap year) |
| Epoch.DecodeExampleNoon | tests/test_utils.py:43 | "20001.50000000" decodes to 2020-01-01T12:00 |
| Epoch.DecodeBadYear | src/tle_reader/utils.py:44 | a year that int() cannot read is an error |
| Calendar.InstantRoundTrip | src/tle_reader/utils.py:48 | every valid moment is recovered from its count of microseconds since 0001-01-01 |
| Calendar.FromInstantValid | src/tle_reader/utils.py:48 | whenever adding a timedelta does not overflow, the result is a valid moment at exactly the requested instant |
| Calendar.OrdinalRoundTrip | src/tle_reader/utils.py:48 | fromordinal(toordinal(d)) == d |
| ImpliedDecimal.ScinotFieldRead | src/tle_reader/utils.py:59-61 | scinot_to_float of any field "SMMMMMXE" with a sign column of ' ', '+' or '-' and an exponent sign of '+' or '-' is the sign times 0.MMMMM times 10 to the signed exponent digit |
| ImpliedDecimal.ScinotFieldValue | src/tle_reader/utils.py:59-61 | the fields float_to_scinot writes (sign column ' ' or '-', a zero exponent as "-0") read as the sign times 0.MMMMM times 10 to the signed exponent digit |
| ImpliedDecimal.ScinotFieldParts | src/tle_reader/utils.py:61 | scinot_to_float cuts the field into sign, five mantissa digits and two exponent columns |
| ImpliedDecimal.FloatToScinotNonZero | src/tle_reader/utils.py:64-68 | float_to_scinot: a non-zero value is written as its sign, the five digits of the "e" format of 10*v, and its one-digit exponent ("-0" for zero) |
| ImpliedDecimal.ZeroScinotField | src/tle_reader/utils.py:64-68 | zero is written " 00000-0" |
| ImpliedDecimal.ScinotExact | src/tle_reader/utils.py:64-68 | a value with exactly five significant digits is written as exactly those digits and its exponent |
| ImpliedDecimal.ScinotRoundTrip | src/tle_reader/utils.py:59-68 | what float_to_scinot writes reads back with the sign kept and a relative error of at most 5e-5 |
| ImpliedDecimal.ShiftedScinotUnreadable | src/tle_reader/utils.py:59-68 | a written field cut one column early (a space and its first seven characters) is refused by scinot_to_float |
| ImpliedDecimal.ScinotEncodeTenth | tests/test_utils.py:63 | 0.1 is written " 10000-0" |
| ImpliedDecimal.ScinotDecodeTenth | tests/test_utils.py:63 | " 10000-0" reads as 0.1 |
| ImpliedDecimal.ScinotEncodeZero | tests/test_utils.py:64 | 0.0 is written " 00000-0" |
| ImpliedDecimal.ScinotDecodeZero | tests/test_utils.py:64 | " 00000-0" reads as 0.0 |
| ImpliedDecimal.ScinotEncodeSmall | tests/test_utils.py:65 | 0.16538e-3 is written " 16538-3" |
| ImpliedDecimal.ScinotDecodeSmall | tests/test_utils.py:65 | " 16538-3" reads as 0.16538e-3 |
| ImpliedDecimal.ScinotDecodePlusSign | src/tle_reader/utils.py:59-61 | "+12345-1" reads as 0.012345: a '+' sign column reads like a space |
| ImpliedDecimal.ScinotDecodePlusZero | src/tle_reader/utils.py:59-61 | " 00000+0" reads as 0.0 |
| ImpliedDecimal.ScinotDecodePositiveExponent | src/tle_reader/utils.py:59-61 | "-31416+1" reads as -3.1416 |
| ImpliedDecimal.EFieldValue | src/tle_reader/utils.py:71-72 | e_to_float of any non-empty run of digits is those digits read after an implied leading point |
| ImpliedDecimal.EFieldRoundTrip | src/tle_reader/utils.py:71-76 | every seven-digit field reads as 0.ddddddd, and float_to_e writes that value as the same field |
| ImpliedDecimal.ERoundTrip | src/tle_reader/utils.py:71-76 | float_to_e and e_to_float: for 0 <= v < 0.99999995 the field has seven characters and reads back as v rounded to seven decimals, within 5e-8 of v |
| ImpliedDecimal.ECarry | src/tle_reader/utils.py:75-76 | values that round up to 1.0000000 lose their integer digit: written "0000000", read back as 0 |
| ImpliedDecimal.ESignDropped | src/tle_reader/utils.py:75-76 | the last seven characters never hold the sign: v and -v are written alike |
| ImpliedDecimal.EExample | tests/test_utils.py:80-88 | "1234567" reads as 0.1234567 and 0.1234567 is written "1234567" |
| PyText.RoundHalfEven | src/tle_reader/utils.py:56 | the nearest integer, a tie going to the even neighbour |
| PyTextFacts.FormatFixedRoundTrip | src/tle_reader/main.py:133 | float() of any f"{v:w.pf}" or f"{v: .pf}" text is v rounded to p decimals |
| PyTextFacts.FixedValueClose | src/tle_reader/main.py:133 | the value f"{v:.pf}" prints differs from v by at most half a unit of the last decimal |
| PyTextFacts.ParseFormatInt | src/tle_reader/main.py:129 | int() of f"{n:w}" is n |
| Tle.At | src/tle_reader/main.py:21 | indexing a line succeeds exactly inside it and gives that character |
| Tle.ReadCatalog | src/tle_reader/main.py:20 | the catalog field is read exactly when alpha5_to_number reads it, to the same number |
| Tle.ReadEpoch | src/tle_reader/main.py:23 | the epoch field is read exactly when epoch_to_datetime reads it, to the same moment |
| Tle.ParseLine1 | src/tle_reader/main.py:20-29 | the line-1 half of parse_tle succeeds exactly when every field converts and column 68 holds a digit, whose value is not used; a field's error comes before the checksum column's; each value is its conversion of its own columns (catalog 2-6, classification 7, designator 9-16, epoch 18-31, Md 33-42, Mdd 44-51, B* 53-60, type 62, number 64-67) |
| Tle.ParseLine2 | src/tle_reader/main.py:31-39 | the line-2 half of parse_tle succeeds exactly when each of its eight fields converts, every value is its conversion of its own columns (catalog 2-6, i 8-15, r 17-24, e 26-32, p 34-41, mu 43-50, M 52-62, rev 63-67), and it never reports a catalog mismatch |
| Tle.ParseTle | src/tle_reader/main.py:19-64 | succeeds exactly when both lines read and their catalog numbers agree; line 1's error comes first, then line 2's, then the mismatch with both numbers |
| Tle.WithChecksum | src/tle_reader/main.py:130 | the line is the body followed by its checksum digit |
| Tle.Alpha5Of | src/tle_reader/main.py:102-105 | TLE.alpha5 succeeds exactly for catalog numbers below 340000, KeyError for the quotient otherwise, and from 10000 up gives five characters that alpha5_to_number reads back as the catalog number |
| Tle.RenderLines | src/tle_reader/main.py:119-136 | succeeds exactly for catalog numbers below 340000 (KeyError otherwise), and both lines end in the checksum digit of what precedes it |
| TleFacts.WithChecksumHolds | src/tle_reader/main.py:130 | appending the checksum keeps the body and makes the line's last digit its checksum |
| TleFacts.ParseLine1IgnoresChecksum | src/tle_reader/main.py:29 | any two digits in column 68 of line 1 give the same parse |
| TleFacts.ParseLine2IgnoresChecksum | src/tle_reader/main.py:31-39 | nothing after column 67 of line 2 affects its parse |
| TleFacts.Alpha5Width | src/tle_reader/main.py:120 | every catalog number below 340000 has a five-character field |
| TleFacts.FixedWidth | src/tle_reader/main.py:133 | a value that fits its field fills exactly the field's width |
| TleFacts.ScinotWidth | src/tle_reader/main.py:126-127 | float_to_scinot writes eight characters |
| TleFacts.MeanMotionDotRoundTrip | src/tle_reader/main.py:122-124 | the Md text to_lines builds (MeanMotionDotText): below one in magnitude Md's text is ten characters, sign column then '.', and float() reads it as Md rounded to eight decimals |
| TleFacts.Line1Layout | src/tle_reader/main.py:20-29 | with every field at its width, line 1 has 69 characters and each field lies in the columns parse_tle cuts it from |
| TleFacts.Line2Layout | src/tle_reader/main.py:31-38 | with every field at its width, line 2 has 69 characters and each field lies in the columns parse_tle cuts it from |
| TleFacts.WideLine1Layout | src/tle_reader/main.py:129 | with a 15-column epoch, line 1 has 70 characters and the Mdd field is cut as a space and its first seven characters |
| TleFacts.Line1ReadBack | src/tle_reader/main.py:19-29 | line 1 as written reads back with its text fields unchanged and Md rounded to eight decimals |
| TleFacts.Line2ReadBack | src/tle_reader/main.py:31-38 | line 2 as written reads back with each number rounded to its field's decimals |
| TleFacts.WrittenReadsBack | src/tle_reader/main.py:119-136 | parse_tle of the written lines succeeds and reads back as the record (ReadsBackAs) |
| TleFacts.ToLinesReadBack | src/tle_reader/main.py:115-136 | ToLines, to_lines with the 14-column epoch: from_lines(to_lines(t)) succeeds for each record whose values fit their columns; it gives back the catalog number, text and integers unchanged, the epoch within 432 microseconds, Mdd and B* to five significant digits, and the other numbers rounded to their field's decimals |
| TleFacts.AsWrittenUnreadable | src/tle_reader/main.py:129 | ToLinesAsWritten, to_lines as written: with the epoch padded to 15 columns, line 1 has 70 characters and parse_tle refuses it, for every record whose values fit their columns |
| TleFacts.Line1Refused | src/tle_reader/main.py:25 | a line 1 whose Mdd field scinot_to_float refuses makes parse_tle fail whatever line 2 holds |

## Left out

- Binary floating point. Floats are exact reals, so no contract speaks of double rounding. `float()` accepts ASCII decimal literals only: no underscores, `inf`, `nan` or non-ASCII digits and spaces.
- Alpha5.Alpha5ToNumber and PyText.ParseInt: ASCII digits only, and no underscores. Python's `int()` accepts `"1_00"` as 100, so `alpha5_to_number("A1_00")` is 100100 in Python but `BadDigits` here. `str.isnumeric` and `int()` also accept other Unicode decimal digits, so `"٣٣٣٣٣"` is 33333 in Python but `UnknownSymbol` here. TLE columns are ASCII, and the model does not follow Python's Unicode tables.
- `datetime` is a proleptic Gregorian date plus microseconds of the day. It has no time zone and no `fold`.
- The two `print` calls in `to_lines` (`main.py:123`, `main.py:125`) are output only.
- The `line1` and `line2` properties (`main.py:107-113`) have no body and return `None`. They are not modelled.
- `TLE.from_lines` is `ParseTle`: the record built from the dictionary is the `Tle` value.
- `compute_checksum`, `implied_decimal_to_float` and `float_to_implied_decimal` are not part of this model, because neither core file defines them. The model stands in `Checksum.ComputeChecksum`, `e_to_float` and `float_to_e`.
- ImpliedDecimal.ScinotRoundTrip: stated only for zero and for values whose rounded exponent has one digit. For other values `float_to_scinot` drops the exponent's tens digit (`tmp[10:11]`), and the model states nothing about what is read back.
- ImpliedDecimal.ERoundTrip: stated for 0 <= e < 0.99999995, the eccentricities the field can hold. `ECarry` and `ESignDropped` state what happens above that range and for negative values.
- TleFacts.ToLinesReadBack: requires catalog numbers of at least 10000, because smaller ones are written space-padded and not read back (`SmallNumberNotReadable`). It also requires epoch years in 1957..2056, the two-digit window, and values that fit their columns, because a wider value pushes later fields out of their columns.
- TleFacts.AsWrittenUnreadable: shows only that parse_tle fails. It does not say which field fails first.
- Epoch.EpochRoundTrip: a bound of 432 microseconds rather than the test's `EPOCH_TIME_RESOLUTION` of 864 microseconds. The proved bound is the tighter one.

## Findings

| source | as written | input that shows it | evidently intended | confidence | as-written member | corrected member |
|---|---|---|---|---|---|---|
| src/tle_reader/main.py:129 | `{epoch:15}` pads the 14-character epoch to 15 columns | any record whose values fit their columns, e.g. catalog 25544 with the test line's values: line 1 becomes 70 characters, Mdd is cut from the wrong columns, and `scinot_to_float` raises | `{epoch:14}`, which puts every field in the columns `parse_tle` reads | high (proved for every such record; not executed) | TleFacts.AsWrittenUnreadable | TleFacts.ToLinesReadBack |
