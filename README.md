# utilities: a verified model of the conversion, comparison and text helpers

This project models the core of the Go package `utilities`:

- the engine that converts and compares values stored in Go's `any` (the `Any2*` family, `GTAny`, `LTAny`, `Comparer`, `String2Kind`, `Any2Kind`, `Any2String`, `ToClickHouse`, `PrettyString`);
- the string, sequence and date helpers of `utilities.go`;
- the `Table` type of `table.go`, with its clean-up and its padded, optionally Markdown, rendering;
- the small pure pieces of `plotly.go`: the image-type names, `Fig2File`'s checks on its arguments, `toSlice`, and the title composition in `Plotter`.

## How the model is organised

| module (file) | what it holds |
|---|---|
| `Results` (results.dfy) | `Result<T>`: `Ok`, `Err(Error)`, or `FloatPath` for an outcome decided by floating-point code. Also `Option<T>`, and one `Error` constructor per kind of error message the package produces. Messages that differ only in the value or the function named share a constructor: `OutOfRange` stands for every "… out of range: Any2…", `CannotConvert` for every "cannot convert %v to int64/int32/int/float32/float64", and `CannotConvertDate` for both `GTAny`'s "cannot convert to date" and `Any2Date`'s "cannot convert %v to date". |
| `Text` (text.dfy) | The parts of Go's `strings` and `sort` packages the code uses: `Index`, `Contains`, `Split`, `Join`, `ReplaceAll`, `Trim`, `ToLower`, `Repeat` (as `Spaces`), byte-wise string order and `sort.Strings`. |
| `Numbers` (numbers.dfy) | The `int32` and `int64` ranges, the wrap-around of `int32(x)`, decimal text (`%d`/`%v`), `strconv.ParseInt` with a bit size, zero-padded digits, and `humanize.Comma`. |
| `Calendar` (calendar.dfy) | The Gregorian calendar, UTC times ordered chronologically, `ToLastDay`, and the layouts `1/2/2006`, `20060102` and `2006-01-02`. `20060102` is the ISO 8601 basic calendar-date form (section 4.1.2.2 of ISO 8601:2004); `2006-01-02` is its extended form. |
| `TimeParse` (timeparse.dfy) | A grammar for exactly the seven layouts that `Any2Date` tries, with the digit, literal and month-name steps of `time.Parse`. |
| `Dynamic` (dynamic.dfy) | The `Dyn` datatype, one tag per dynamic type. It also holds every conversion, `Any2Date` (a method looping over the layouts) and `Kind`. |
| `Compare` (compare.dfy) | `GTAny`, `LTAny` and `Comparer`. |
| `Search` (search.dfy) | `Position`, `Has`, `DeDupeSlice`, `Matched`, `YesNo`, `MaxInt` and `MinInt`. |
| `Helpers` (helpers.dfy) | `BuildQuery`, `ReplaceSmart`, `Slash`, `TableOrQuery` and `Aligner`. |
| `Tables` (table.dfy) | The class `Table`, with `CleanUp`, `String` and `Write`, plus `Pad` over an array of rows. |
| `Plotly` (plotly.dfy) | `PlotlyImage` and its names, `Fig2File`'s checks, `ToSlice`, and the class `PlotDef` with `Plotter`. |

### Modelling choices

- **Dynamic values.** Go's `any` is the closed datatype `Dynamic.Dyn`. Its tags are:
  - `Int`: Go's `int`, 64 bits wide, and also untyped integer constants;
  - `I32` and `I64`;
  - `F32` and `F64`: opaque floats;
  - `Str`;
  - `Date`: a `time.Time` in UTC;
  - `Nil`;
  - `Other`: any other type, carrying its `%v` text.
- **Floats.** A float carries the texts `fmt` would print for it. Any conversion or comparison whose outcome depends on float arithmetic answers `FloatPath`. So the model says which inputs reach float code, but not what that code returns.
- **Imperative code stays imperative.** Code that loops in the source is a `method` proved against a specification function:
  - `Position`, `DeDupeSlice`, `Matched`, `MaxInt`/`MinInt`, `BuildQuery`, `ReplaceSmart` and `Aligner`;
  - the layout loop in `Any2Date`;
  - `CleanUp`, `Pad` and `String`;
  - `toSlice` and `Plotter`.
- **Classes.** `Table` and `PlotDef`, whose fields the source updates in place, are classes. `Pad` rewrites the cells of its argument in place; here that argument is an `array` of rows.
- **Replacer order.** `BuildQuery`'s `keyval.KeyVal` is a Go map, whose range order is unspecified. The model therefore takes the replacers as a sequence of pairs, in the order the map yields them.

### Where the documentation and the code disagree

The model follows the code.

- **Comparing two `int` values.** One could expect `Comparer(5, 3, ">")` to be true. But `GTAny` has no case for Go's `int`, and untyped constants arrive as `int`. So the comparison fails with "unsupported comparison": see `Compare.FiveAndThree` and `Compare.ComparerUntypedInts`.
- **Comparing a date string with a date.** A date written as `2021-01-01` matches none of the seven layouts (`TimeParse.DashedDateRejected`), so `Comparer` keeps it as a string. Dates written as `1/2/2006` or `20060102` are converted, and then compare equal to the date: see `Compare.ComparerPrintedDates`.
- **Narrowing conversions.** The documentation says a narrowing conversion fails rather than truncates. `Any2Int32` does fail on an `int64` outside the `int32` range, but it truncates a Go `int` to 32 bits with no check (utilities.go:792-793). The model truncates too: see `Dynamic.Any2Int32` and `Numbers.Wrap32`.

## Model

| member | source | states |
|---|---|---|
| Numbers.Wrap32 | utilities.go:792-793 | `int32(x)` of a 64-bit int is congruent to x modulo 2^32, and is x itself when x is in the `int32` range. |
| Numbers.InBits32 | utilities.go:797 | A value fits 32 signed bits exactly when it lies in [math.MinInt32, math.MaxInt32]. |
| Numbers.InBits64 | utilities.go:837 | A value fits 64 signed bits exactly when it lies in [math.MinInt64, math.MaxInt64]. |
| Numbers.ParseInt | utilities.go:775 | `strconv.ParseInt(s, 10, bits)` succeeds only with a value that fits the bit size. |
| Numbers.DecimalRoundTrip | utilities.go:775-780 | Parsing the decimal text of any integer that fits the bit size gives the integer back. |
| Numbers.ParseIntDecimal | utilities.go:815-820 | A parsed value printed in decimal and parsed again is the same value. |
| Numbers.ParseIntWidths | utilities.go:855 | Parsing with a narrower bit size either gives the wider parse's value or fails, and fails exactly when that value does not fit. |
| Numbers.DigitsValue | utilities.go:876 | The digits printed for a natural number read back as that number. |
| Numbers.CanonicalDigits | utilities.go:876 | A digit string without a leading zero is the printing of its own value. |
| Numbers.PadDigits | utilities.go:1003 | Zero-padded digits read back as the number and are exactly as wide as asked, or as wide as the number needs. |
| Numbers.GroupedDigits | utilities.go:966-971 | Removing the commas from `humanize.Comma` of a natural number leaves its plain digits. |
| Numbers.GroupedCommas | utilities.go:966-971 | In `humanize.Comma`'s grouped digits a character is a comma exactly when its distance from the end is a multiple of four: three digits follow every comma, and one to three digits precede the first. |
| Numbers.CommaDecimal | utilities.go:966-971 | For every integer, `humanize.Comma` without its commas is the `%d` text. |
| Calendar.DaysIn | utilities.go:483-484 | Every month has 28 to 31 days, and 29 exactly for February of a leap year. |
| Calendar.BeforeOrder | utilities.go:610 | `x.Sub(t) > 0` is a strict total order on dates: irreflexive, asymmetric, total and transitive. |
| Calendar.DayBefore | utilities.go:484 | Subtracting 24 hours from a date gives an earlier date. |
| Calendar.ToLastDay | utilities.go:475-487 | The result keeps the year and month of `dt`, is at midnight UTC, and falls on the month's last day. December goes through January 1 of the next year. |
| Calendar.ToLastDayIsLast | utilities.go:475-487 | No midnight of `dt`'s month is after `ToLastDay(dt)`, and `ToLastDay` is idempotent. |
| Calendar.FormatShapes | utilities.go:989 | The `20060102` text is eight digits, and the `2006-01-02` text is that text with dashes after the year and after the month. |
| TimeParse.Parse | utilities.go:681 | A successful parse under a layout is a date at midnight UTC. What each layout accepts is stated by the lemmas below. |
| TimeParse.ParseFirstFound | utilities.go:680-684 | A successful search returns the parse of the first layout, in the fixed order, that accepts the text. |
| TimeParse.ParseFirstMissing | utilities.go:680-685 | A failed search means that no layout accepts the text. |
| TimeParse.SlashTextParses | utilities.go:679-681 | A text `m/d/yyyy` parses exactly when it names a real calendar day, and then to that day at midnight. |
| TimeParse.SlashFormatParses | utilities.go:679-681 | The `1/2/2006` printing of a midnight date with a four-digit year parses back to it. |
| TimeParse.LeapDays | utilities.go:679-681 | `2/29/yyyy` parses exactly in leap years, and `2/30/yyyy` never parses. |
| TimeParse.BasicTextParses | utilities.go:679-681 | An eight-digit `yyyymmdd` text parses exactly when it names a real day. |
| TimeParse.BasicFormatParses | utilities.go:679-681 | The `20060102` printing of a midnight date with a four-digit year parses back to it. |
| TimeParse.IntegerTexts | utilities.go:688-689 | The decimal text of an integer parses as a date exactly when the integer has eight digits that name a real day. |
| TimeParse.DigitTextsNeedEight | utilities.go:679-681 | An all-digit text that is not eight digits long parses under no layout. |
| TimeParse.SignedTexts | utilities.go:679-681 | A text starting with "-" parses under no layout. |
| TimeParse.NumericNone | utilities.go:679-681 | A text that does not start with a digit skips the three numeric layouts. |
| TimeParse.NamedNone | utilities.go:679-681 | A text that does not start with a letter parses under none of the month-name layouts. |
| TimeParse.NamedParse | utilities.go:679-681 | Each of "Jan 2, 2006", "January 2, 2006", "Jan 2 2006" and "January 2 2006", applied to a month name (any case), a day and a four-digit year, gives that day when the name's form and the separator are its own and the day exists in the month, and nothing otherwise. May's two names coincide, so both name layouts read it. |
| TimeParse.NamedTextParses | utilities.go:679-685 | The search over the seven layouts reads such a text as its own day exactly when the day exists in the month, and rejects it otherwise. |
| TimeParse.ZeroSlashTextParses | utilities.go:679-681 | A text `mm/dd/yyyy`, with month and day padded to two digits, parses exactly when it names a real calendar day, and then to that day at midnight. The `1/2/2006` layout, tried before `01/02/2006`, already reads the padded digits. |
| TimeParse.EveryLayoutSameDate | utilities.go:679-685 | A midnight date with a four-digit year, written in the `20060102`, `1/2/2006` or `01/02/2006` form or any of the four month-name forms, reads back as that same date. |
| TimeParse.OctoberThird | utilities.go:679-681 | "October 3, 2001" is October 3, 2001. |
| TimeParse.FebruaryThirtieth | utilities.go:679-685 | "feb 30, 2000" parses under no layout. |
| TimeParse.MonthZeroRejected | utilities.go:679-681 | "20010001", a month 00, parses under no layout. |
| TimeParse.NewYear2021 | utilities.go:679-681 | "20210101" is January 1, 2021. |
| TimeParse.MarchFourth | utilities.go:679-681 | "03/04/2001" is March 4, 2001. |
| TimeParse.DashedDateRejected | utilities.go:679-685 | "2021-01-01" parses under no layout. |
| Dynamic.ParseOrFail | utilities.go:775-778 | A string converts exactly when `ParseInt` accepts it, and otherwise fails with "cannot convert"; overflow is reported the same way. |
| Dynamic.Any2Int64 | utilities.go:752-786 | Every integer tag converts to its value. A string converts exactly when it parses in 64 bits. Floats reach float code. Anything else fails with "cannot convert". |
| Dynamic.Any2Int32 | utilities.go:789-826 | An `int` is truncated to 32 bits with no range check. An `int32` converts unchanged. An `int64` fails with "out of range" exactly when it is outside the `int32` range, and otherwise converts unchanged. "Out of range" arises only from an `int64`. A string parses in 32 bits, and its overflow is "cannot convert". |
| Dynamic.Any2Int | utilities.go:829-865 | Every integer tag converts to its value. Strings are parsed with bit size 32, so a string result always fits 32 bits. Failure is "cannot convert", for non-integers only. |
| Dynamic.Int32TextRoundTrip | utilities.go:796-820 | Every integer in the `int32` range converts to itself, directly and through its `Any2String` text. |
| Dynamic.Int64TextRoundTrip | utilities.go:775-780 | For every integer value, converting its `Any2String` text with `Any2Int64` gives the same result as converting the value. |
| Dynamic.IntTextNarrow | utilities.go:855 | `Any2Int` of an `int` is the value, but of the value's text only when the value fits 32 bits; otherwise it fails. |
| Dynamic.Any2Float | utilities.go:696-750 | Integers, floats and strings reach float code. Every other input fails with "cannot convert". |
| Dynamic.Any2String | utilities.go:867-878 | A string is returned as it is, and an integer as its decimal text. |
| Dynamic.ToClickHouse | utilities.go:996-1007 | Integers print bare, as `Any2String` prints them. Strings are single-quoted. Dates are single-quoted `20060102` texts. Nil and other types give "". |
| Dynamic.PrettyString | utilities.go:953-993 | Integers of every width print as `humanize.Comma` of their value (`Numbers.GroupedCommas` places the commas), nil and other types give "", strings are returned as they are, and dates print as `2006-01-02`. |
| Dynamic.PrettyStringIntegers | utilities.go:966-971 | Removing the commas from `PrettyString` of an integer gives its `Any2String` and its `ToClickHouse` text. |
| Dynamic.AsDate | utilities.go:676-693 | A date passes through. An integer behaves exactly like its decimal text. Any success other than a date input is at midnight UTC. Any other tag fails with "cannot convert to date". |
| Dynamic.Any2Date | utilities.go:676-693 | The loop over the seven layouts computes `AsDate`: quotes are stripped, layouts are tried in order, and the first success wins. |
| Dynamic.QuotedIntegerDates | utilities.go:681-689 | Single quotes around an integer's text do not change the date it gives. |
| Dynamic.IntegerDates | utilities.go:688-689 | An integer is a date exactly when it is eight digits naming a real day, such as the int64 20210101. |
| Dynamic.SlashTextDates | utilities.go:679-685 | An `m/d/yyyy` string is a date exactly when the day exists, including Feb 29 only in leap years. |
| Dynamic.NamedTextDates | utilities.go:677-685 | A month-name text such as "January 2, 2006" or "jan 2 2006" converts to its day exactly when the day exists in the month, and otherwise fails with "cannot convert to date". |
| Dynamic.SlashRoundTrip | utilities.go:679-681 | `Any2Date(Any2String(d)) == d` for every midnight-UTC date with a four-digit year. |
| Dynamic.ClickHouseRoundTrip | utilities.go:679-681 | `Any2Date(ToClickHouse(d)) == d` for every midnight-UTC date with a four-digit year: `Any2Date` strips the quotes that `ToClickHouse` adds. |
| Dynamic.String2Kind | utilities.go:931-950 | Exactly the seven names "float64", "float32", "string", "int", "int32", "int64" and "time.Time" map to a kind other than Interface, and only "time.Time" maps to Struct. |
| Dynamic.String2KindInjective | utilities.go:932-946 | Two names that map to the same non-Interface kind are the same name. |
| Dynamic.Any2Kind | utilities.go:893-928 | A success has the requested kind. Nil fails with "input is nil". The Interface kind always fails. The String kind of non-nil input always succeeds, with `Any2String`. Any other failure is the generic "unsupported type or conversion error". |
| Dynamic.Any2KindOwnKind | utilities.go:893-928 | A non-float value converted to its own kind is returned unchanged. |
| Dynamic.UnknownNameFails | utilities.go:925-948 | `Any2Kind` with the kind of any unknown name fails. |
| Compare.GTAny | utilities.go:557-614 | A nil operand gives true. Strings compare after their single quotes are removed; a string left operand against a non-string fails with "cannot convert to string". Dates compare chronologically; a date left operand against a non-date fails with "cannot convert to date". An integer left operand converts the right one as `Any2Int32`/`Any2Int64` do: an `int64` left operand compares with any integer; an `int32` one compares with an `int32`, with an `int64` inside the `int32` range ("out of range" outside it), and with a Go `int` truncated to 32 bits; a string right operand is parsed as a 32- or 64-bit integer, and one that does not parse fails with "cannot convert"; a date or any other right operand fails with "cannot convert". A float left operand reaches float code against a number or a string, and fails with "cannot convert" against a date or any other right operand, as `Any2Float32`/`Any2Float64` do. A Go `int` or any other left operand is "unsupported comparison". |
| Compare.GTAnyAsymmetric | utilities.go:566-611 | If `GTAny` is true in both directions, one operand is nil. |
| Compare.LTAny | utilities.go:617-634 | For same-typed operands, the result is `<` on integers, chronological order on dates, and byte order on strings with quotes kept. Floats reach float code. Any other left operand fails with "cannot compare: LTAny". |
| Compare.LTAnyMirrorsGTAny | utilities.go:617-634 | On two `int32`, two `int64`, two dates, or two quote-free strings, `LTAny(x, y)` equals `GTAny(y, x)`. |
| Compare.LTAnyKeepsQuotes | utilities.go:627-628 | `LTAny` compares quotes while `GTAny` strips them: "'b" < "a" for one, and not "a" > "'b" for the other. |
| Compare.AsOperand | utilities.go:639-645 | An operand that converts to a date is replaced by that date; any other operand is kept. |
| Compare.Comparer | utilities.go:637-673 | Both operands are first replaced by their dates where `Any2Date` succeeds. The result is a success exactly when `GTAny` succeeds both ways and the operator is one of `==`, `!=`, `<`, `<=`, `>`, `>=`; when both calls succeed and the operator is another, it fails with "unsupported comparison: op". What each operator answers is stated by `ComparerOrder`, `ComparerNegation`, `ComparerConverse`, `ComparerOperators` and `ComparerTrichotomy` below. |
| Compare.ComparerOrder | utilities.go:647-670 | When the two `GTAny` calls give above, below or neither, every operator answers as that order means. |
| Compare.ComparerIntegers | utilities.go:576-589 | Two non-date integers of the same width (both `int32` or both `int64`) compare by their integer order. |
| Compare.ComparerStrings | utilities.go:567-575 | Two non-date strings compare by the byte order of their quote-free texts. |
| Compare.ComparerDates | utilities.go:604-610 | Two dates compare chronologically. |
| Compare.ComparerNegation | utilities.go:657-670 | When `==` succeeds, `!=` is its negation, `>=` is the negation of `<`, and `<=` is the negation of `>`. |
| Compare.ComparerConverse | utilities.go:647-670 | Swapping the operands turns `<` into `>` and keeps `==`. |
| Compare.ComparerOperators | utilities.go:657-672 | An operator outside the six fails with "unsupported comparison". An error from either `GTAny` call fails every operator alike. |
| Compare.ComparerTrichotomy | utilities.go:647-670 | For non-nil operands that compare, exactly one of `<`, `==` and `>` holds: at least one holds, `<` and `>` never hold together, and `==` excludes both. |
| Compare.ComparerNil | utilities.go:558-560 | A nil left operand makes `<`, `>` and `!=` true and `==`, `<=` and `>=` false. |
| Compare.ComparerHalfDate | utilities.go:604-608 | A date-like left operand against a non-nil operand that is no date fails with "cannot convert to date". |
| Compare.ComparerUntypedInts | utilities.go:566-613 | Two Go `int` values that are not dates never compare: "unsupported comparison". |
| Compare.FiveAndThree | utilities.go:566-613 | `Comparer(5, 3, ">")` fails. |
| Compare.ComparerPrintedDates | utilities.go:639-645 | A date's `Any2String` text and its `ToClickHouse` text both compare `==` to the date. |
| Search.Find | utilities.go:41-47 | The result is the first index whose element equals the needle, or -1 exactly when the needle is absent. |
| Search.Position | utilities.go:33-48 | The loop returns `Find` over the haystack, after a lone element holding the delimiter has been split. |
| Search.Has | utilities.go:51-53 | True exactly when the needle is among the searched elements. |
| Search.PositionReadings | utilities.go:34-39 | A lone element with the delimiter is searched as its split parts. A lone element without it is compared whole. Any other haystack is searched as it is. |
| Search.DeDupeSlice | utilities.go:56-68 | The kept elements, each appended unless `Has` finds it among those kept, sorted when asked. |
| Search.KeptCommaFree | utilities.go:56-68 | For comma-free strings, the kept elements have no duplicates and are exactly the input's elements. |
| Search.KeptFromInput | utilities.go:56-68 | Kept elements come from the input, and there are never more of them. |
| Search.KeptCommaQuirk | utilities.go:58 | Two copies of a string with a comma are both kept. |
| Search.Matched | utilities.go:71-94 | Returns the text strictly between the first start character and the end character that brings the nesting depth back to zero. With no such end: "" when there is no start character, and otherwise "unmatched startChar". |
| Search.YesNo | utilities.go:97-107 | "yes" gives true, "no" and "" give false, and anything else fails. |
| Search.MaxInt | utilities.go:112-122 | The result is an element of the non-empty argument and no element exceeds it. |
| Search.MinInt | utilities.go:124-133 | The result is an element of the non-empty argument and no element is below it. |
| Helpers.BuildQuery | utilities.go:352-359 | The loop replaces every `?key` by its value, one replacer after the other. |
| Helpers.NoPlaceholders | utilities.go:352-359 | A query without "?" is unchanged by any replacers. |
| Helpers.OneReplacer | utilities.go:355 | One replacer splits the query at `?key` and joins the parts with the value. |
| Helpers.SubstitutedTwo | utilities.go:354-356 | Two replacers apply in sequence. |
| Helpers.OverlappingKeys | utilities.go:354-356 | With the keys `k` and `k+tail` the query `?k` + tail becomes x + tail in one order and y in the other, so the map's unspecified order shows in the result. |
| Helpers.ReplaceSmart | utilities.go:452-472 | Each character equal to oldChar outside a delimiter pair becomes newChar. Delimiters and characters inside pairs are kept. Arguments longer than one character are excluded, because Go panics on them. |
| Helpers.SmartInPlace | utilities.go:458-469 | With a one-character newChar, the output is as long as the input and differs only where oldChar stands outside delimiter pairs. |
| Helpers.Slash | utilities.go:523-529 | For non-empty input, the result ends in "/" and is the input, or the input plus "/", exactly as the input already ends in "/" or not. |
| Helpers.SlashIdempotent | utilities.go:523-529 | Applying `Slash` twice is the same as once. |
| Helpers.TableOrQuery | utilities.go:299-311 | The result starts with "(". A text containing "select" in any case is not empty; it is returned as it is when it starts with "(", and wrapped in parentheses otherwise. Any other text becomes `(SELECT * FROM table)`. |
| Helpers.TableOrQueryIdempotent | utilities.go:299-311 | The result always contains "select", and `TableOrQuery` is idempotent. |
| Helpers.Longest | utilities.go:537-543 | The first loop finds the length of the longest left string. |
| Helpers.AlignLines | utilities.go:545-549 | Every line is the left string, padded to the common width, followed by the right string. |
| Helpers.Aligner | utilities.go:532-552 | Lists of different lengths give no lines. Otherwise there is one line per pair. Its first `maxLen + pad` characters are the left string padded with spaces, and the rest is the right string. A negative pad is excluded, since `strings.Repeat` panics on it. |
| Text.Index | utilities.go:301 | The result is the first occurrence of the substring, or -1 when there is none. |
| Text.SplitParts | utilities.go:355 | Joining the split parts with the separator gives the text back, and no part contains the separator. |
| Text.ReplaceAllIsSplitJoin | plotly.go:87-90 | `strings.ReplaceAll` is splitting at the pattern and joining with the replacement. |
| Text.ReplaceAllIdentity | utilities.go:355 | Replacing a pattern by itself changes nothing. Neither does any replacement of a pattern that does not occur. |
| Text.ReplaceAllRemoves | plotly.go:87-90 | After every occurrence of a character has been replaced by a text without it, the character no longer occurs. |
| Text.StripQuotes | utilities.go:568 | The result has no single quote, is no longer than the input, and keeps every other character. |
| Text.StripQuotesAppend | utilities.go:681 | Stripping quotes distributes over concatenation. |
| Text.TrimShape | table.go:88 | `strings.Trim(s, " ")` is a slice of s that neither starts nor ends with a space, with only spaces cut on either side. |
| Text.TrimIdempotent | table.go:88 | Trimming twice is trimming once. |
| Text.LessTransitive | utilities.go:575 | Byte-wise string order is transitive. It is also irreflexive, asymmetric and total (`LessIrreflexive`, `LessAsymmetric`, `LessTotal`). |
| Text.SortStrings | utilities.go:63-65 | `sort.Strings` returns a sorted permutation of its input. |
| Tables.KeptRows | table.go:52-67 | The kept row indices are exactly the rows with a number, a date or a non-empty string in some column, in increasing order. |
| Tables.Project | table.go:69-75 | Picking entries at the kept indices keeps their order and their alignment. |
| Tables.RowFilled | table.go:53-67 | The column scan reports exactly whether the row holds a value. |
| Tables.CleanRows | table.go:44-76 | The nested loops collect the kept rows' names and, in every column, the kept rows' cells. |
| Tables.Table.CleanUp | table.go:43-80 | The new row names and every new column are the old ones restricted to the kept rows, in order. The number of columns, the column names and the Markdown flag are unchanged. At least one column is required, since Go reads `Data[0]`. |
| Tables.TrimTable | table.go:86-88 | Every cell within row 0's width is space-trimmed, and the rest are kept. |
| Tables.Widths | table.go:84-93 | Column c's width is the length of its longest trimmed cell, and every cell fits its column. |
| Tables.TrimLine | table.go:87-91 | One row of the first pass: the cells are trimmed, and each column's maximum grows to the trimmed length. |
| Tables.TrimAndMeasure | table.go:84-93 | The first pass trims the array in place and returns the column widths of the trimmed table. |
| Tables.PadLine | table.go:97-100 | One line: each cell padded with spaces to its column's width plus `pad`. |
| Tables.PadLines | table.go:95-102 | The second pass renders one padded line per row, each ending in "\n". |
| Tables.Pad | table.go:83-105 | Trims the cells of the table in place and returns the rendering of the trimmed table at the measured widths. |
| Tables.PadLength | table.go:95-102 | The output is exactly one line per row, all of one width plus "\n". |
| Tables.PadRow | table.go:96-101 | Row r's line starts at offset r times the line length, is the row's padded cells, and ends in "\n". |
| Tables.PadWidths | table.go:84-93 | Every trimmed cell fits its column's width, and some cell attains it. |
| Tables.PadTrimmed | table.go:88 | Every cell Pad emits is its input cell trimmed, with no space at either end. |
| Tables.CellsLayout | table.go:97-99 | A line of padded cells is exactly the sum of the widths plus pads long, and each prefix of cells is a prefix of the line. |
| Tables.Grid | table.go:114-135 | One header row of column names followed by one row per data row. |
| Tables.HeaderCells | table.go:122-126 | Each column name is followed by the separator. |
| Tables.BodyRow | table.go:129-133 | The row name, then the `PrettyString` of each column's cell, each followed by the separator. |
| Tables.BodyRows | table.go:128-135 | One body row per data row, in order. |
| Tables.GridWide | table.go:122-135 | The grid has one more row than the data, and no data row is narrower than the header. |
| Tables.TableLayout | table.go:122-126 | `String` renders exactly as many columns as there are column names, because `Pad` takes its width from the header row. |
| Tables.MarkdownCells | table.go:118-120 | In Markdown mode every trimmed cell still ends in the pipe character. |
| Tables.Table.String | table.go:107-138 | "" when there is no column. Otherwise the grid padded by four spaces, with a pipe character after every cell in Markdown mode. |
| Tables.HeaderOnly | table.go:128-137 | A table whose columns hold no rows is printable with any number of column names, and renders its header row alone. |
| Tables.Table.Write | table.go:18-39 | The table needs a printable shape only when the file was created, since only then is it rendered. Renders with the requested flag. The result is a success exactly when the file was created and written. The flag is reset only after success, and the data is unchanged. |
| Tables.WriteThenString | table.go:25-36 | After a failed `Write` in Markdown mode, `String` renders a Markdown table. |
| Plotly.ImageName | plotly.go:39-60 | Exactly the values 0..7 have a non-empty name, and no name contains "." or "/". |
| Plotly.ImageNameRoundTrip | plotly.go:28-58 | Every image type 0..7 is recovered from its name. |
| Plotly.ImageOfNameRoundTrip | plotly.go:41-56 | Every recognised name is the name of the type it denotes. |
| Plotly.ImageNamesDistinct | plotly.go:41-56 | The eight names are pairwise distinct. |
| Plotly.Fig2File | plotly.go:185-198 | An outFile containing "." fails first. Otherwise a plot type outside 0..7 fails. HTML goes to `Slash(outDir) + outFile + ".html"`. Every other type goes to orca as `outFile.<name>` in outDir. |
| Plotly.Fig2FileExtension | plotly.go:220 | An orca output name is the given file name, one ".", and a name that denotes the plot type. |
| Plotly.ToSlice | plotly.go:527-534 | One element per row, in row order: element i is `x[i][col]`. |
| Plotly.Breaks | plotly.go:87-90 | After every "\n" is replaced by "<br>", no newline remains. |
| Plotly.BreaksIdempotent | plotly.go:87-90 | A title without newlines is unchanged, and replacing twice is replacing once. |
| Plotly.XAxisTitle | plotly.go:109-113 | No x-axis title without XTitle. Otherwise XTitle, followed by "<br>" and STitle only when STitle is non-empty. |
| Plotly.Laid | plotly.go:92-124 | Each non-empty title sets its part of the layout, and empty ones keep the given layout. A y title also turns the y axis line on. Legend false hides the legend. |
| Plotly.SubTitleAlone | plotly.go:109-120 | A subtitle without an x title sets no x-axis title. |
| Plotly.LaidWithoutNewlines | plotly.go:87-120 | No title placed in the layout contains a newline. |
| Plotly.PlotDef.Plotter | plotly.go:85-124 | Every title field is rewritten with "<br>" for "\n", the legend flag is kept, and the layout is `Laid` from the rewritten titles. |

## Left out

- Randomness: `RandUnifInt`, `RandUnifFlt`, `RandNorm`, `RandomLetters`, `TempFile` and `TempTable` draw from `crypto/rand`.
- File-system I/O: `ToFile`, `FileExists`, `CopyFile`, `CopyFiles`, `HTML2File`, `Fig2File` after its checks, and `Table.Write`'s file handling. `Write` takes the outcome of `os.Create` and of `WriteString` as parameters.
- ClickHouse access: `DBExists`, `TableExists`, `DropTable`, `MakeConnection`, `QueryToCSV`, `NewHistData`, `NewQuantileData`, `NewXYData` and `means` are database clients.
- The terminal and the clock: `GetTTYecho` and `GetTTYnoecho` read the terminal, and `PrettyDur` reads the wall clock.
- Floating point:
  - `Any2Float32`, `Any2Float64` and `AnySlice2Float64`;
  - the float branches of `Any2Int*`, `GTAny` and `LTAny`;
  - `PrettyString`'s choice of decimals;
  - `whisker`.
- Dynamic.Any2Float: says only which inputs reach float code (`FloatPath`). What that code returns is not modelled, since that is floating-point arithmetic.
- Dynamic.PrettyString: for floats it returns the text carried by the opaque value, and does not model the choice between four, three, two and one decimals.
- Foreign libraries:
  - go-plotly's figure and layout objects are reduced to `Plotly.Layout`, with the title, axis titles, y axis line and legend;
  - Plotly.PlotDef.Plotter: Go updates the caller's `*grob.Layout` in place and stores it in `fig.Layout`. The model returns a new `Layout` value, so the sharing of that layout between caller and figure is not modelled. `Width` and `Height`, copied when positive, are not modelled, being floats;
  - `offline.ToHtml`, `json.Marshal` and the execution of orca and of the browser are left out;
  - `Fig2File` returns as `Plotly.Target` where the output would go.
- TimeParse.Parse: covers only the seven layouts `Any2Date` uses, not `time.Parse` in general. Month names match ASCII case-insensitively, as `time.Parse` does.
- Calendar: years are unbounded integers. Times other than midnight UTC enter only as given `Date` values; time zones are not modelled.
- Strings are sequences of characters, one byte each. Unicode, UTF-8 and the byte length of non-ASCII text are not modelled.
- Search.Position: Go's variadic `haystack ...string` is a sequence.
- Tables.Pad: is a top-level method over an `array` of rows, each row a sequence. Aliasing between rows of the Go slice of slices is not modelled. `pad` is a `nat`, since a negative pad makes `strings.Repeat` panic.
- Helpers.Aligner: its arguments are the texts `fmt.Sprintf("%v", …)` gives for the left and right values. The printing of arbitrary values is not modelled. A nil Go slice and an empty one are the same.
- Compare.LTAny: Go panics when the operands' types differ. The model makes same-typed operands a precondition.
- Go's `panic` (an index out of range, a negative repeat count) is a precondition in these places; what happens after the panic is not modelled:
  - Search.MaxInt, Search.MinInt: an empty argument;
  - Helpers.Slash: an empty argument;
  - Helpers.ReplaceSmart: arguments longer than one character;
  - Plotly.Fig2File: an empty `outDir` for an HTML file, which reaches `Slash("")`;
  - Tables.Table.CleanUp: at least one column, every column as long as the first (`Rectangular`), and a row name for every kept row (`NamesCover`), since table.go:43-80 reads `Data[0]`, `Data[col][row]` and `RowNames[row]`;
  - Tables.Pad: at least one row, and every row at least as wide as the first (`WideRows`), since table.go:84-88 reads `inTable[0]` and `inTable[row][col]` for the first row's columns;
  - Tables.Table.String, Tables.WriteThenString, and Tables.Table.Write once the file is created: a printable table (`Printable`: columns as long as the first, a name for every row, and, when there is a data row, a header no wider than it), since table.go:107-138 reads `RowNames[row]` and `Data[col][row]` and hands the grid to `Pad`;
  - Plotly.ToSlice: `col` inside every row, since plotly.go:530 reads `x[i][col]`;
  - Helpers.Aligner: `pad >= 0` when there are lines to write, since `strings.Repeat` panics on a negative count;
  - Compare.LTAny: operands of the same type, as stated above.
