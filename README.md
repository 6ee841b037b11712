# WMS expiry analyzer — a Dafny model

The analyzer reads a warehouse-management export: one row per storage position, holding a
product code, a quantity and an expiry date, plus optional descriptive columns. It groups
the rows by product code. Each product gets its line items, its quantities per month of
expiry, a total and the fewest days left until expiry.

It then finishes each product:
- the tier is `vencido`, `alta`, `média` or `baixa` by that fewest-days count;
- products are ordered by tier and days left;
- the summary counters are computed, along with the option lists of the filters and a
  handful of advisory messages.

The Excel exporter turns that analysis into a workbook with three sheets:
- a summary sheet;
- a sheet with one row per product and month of expiry;
- a sheet with one row per line item of the expired and high-tier products.

This project models the processor (`wms-analyzer/data_processor.py`) and the exporter
(`wms-analyzer/excel_exporter.py`) and proves their contracts.

Module by module:
- `Common`, `Text`, `Numbers`: `Option`/`Result`, Python's string operations and `float()`.
  NaN is a value in its own right.
- `Calendar`, `DateParser`, `DateFormats`:
  - the proleptic Gregorian calendar as `datetime` has it;
  - `parse_date` with its four formats and Excel serial numbers;
  - the `strftime` renderings;
  - round-trip lemmas between the two.
- `Columns`:
  - `detect_delimiter` and `_find_column`;
  - the synonym table that maps twenty logical fields to headers;
  - the check for the two mandatory columns.
- `Records`: items, month buckets, products while rows are read and once finished,
  statistics and the summary.
- `Aggregation`, `AggregationFacts`:
  - the row loop, as a fold (`Run`) and as the in-place loop (`AggregateRows`) proved equal
    to it;
  - the invariant every step keeps: codes listed once, every record agreeing with its items;
  - the accounting of rows.
- `Sorting`, `Totals`:
  - the two library sorts, stable `list.sort(key=…)` and `sorted()` of strings;
  - sums and counts.
- `Classification`: finishing the products, the tiers, the summary counters and the final
  order (`Finalize`).
- `Filters`: `_extrair_filtros`.
- `Recommendations`: `_gerar_recomendacoes`.
- `Processor`: `process_data` as a whole (`Analyze`, `ProcessData`).
- `Exporter`: `export_to_excel` and its three sheets.

Some inputs are parameters rather than reads of the clock:
- the reference date `hoje`;
- the exporter's creation date, used in the default file name;
- the analysis timestamp written on the summary sheet.

A table is a sequence of header names and a sequence of rows, each a map from header to
cell. A missing value (pandas' NaN) is `None`.

## Model

| member | source | states |
|---|---|---|
| Columns.DetectDelimiter | wms-analyzer/data_processor.py:68-75 | the delimiter is `|` when the line holds one, otherwise `;` when it holds one, otherwise `,` |
| Columns.DelimiterOccurs | wms-analyzer/data_processor.py:68-75 | the chosen delimiter occurs in the line, unless it is the fallback `,` of a line with neither `|` nor `;` |
| Columns.Synonyms | wms-analyzer/data_processor.py:108-129 | the candidate header names of each of the twenty fields, in the order they are tried; `Columns.MapColumns` and `Columns.FindColumn` state what is done with them |
| Columns.FirstExact | wms-analyzer/data_processor.py:296-298 | the index found is the first header that equals a synonym; no earlier header does |
| Columns.FirstContaining | wms-analyzer/data_processor.py:300-303 | the index found is the first header containing a synonym as a substring; no earlier header does |
| Columns.FindColumn | wms-analyzer/data_processor.py:294-305 | a column found is one of the headers |
| Columns.FindColumnExact | wms-analyzer/data_processor.py:296-298 | the first header equal to a synonym wins over any substring match |
| Columns.FindColumnContaining | wms-analyzer/data_processor.py:300-305 | with no exact match, the first header containing a synonym is chosen |
| Columns.FindColumnNone | wms-analyzer/data_processor.py:294-305 | no column is found exactly when no header equals or contains a synonym |
| Columns.MapColumns | wms-analyzer/data_processor.py:108-129 | every field is mapped to one of the headers or to nothing |
| Columns.CheckMandatory | wms-analyzer/data_processor.py:134-137 | the table is accepted exactly when both the expiry and the product-code columns are found; a missing expiry column is reported first |
| Columns.MandatoryColumns | wms-analyzer/data_processor.py:108-137 | the table is accepted exactly when some header equals or contains an expiry synonym and some header equals or contains a product-code synonym |
| Text.Split | wms-analyzer/data_processor.py:27 | `str.split(sep)` gives at least one part; no part holds the separator; joining the parts gives back the text |
| Text.SplitJoin | wms-analyzer/data_processor.py:27 | splitting parts that were joined by a separator gives back those parts |
| Text.Strip | wms-analyzer/data_processor.py:21 | the stripped text neither starts nor ends with white space |
| Text.StripSlice | wms-analyzer/data_processor.py:21 | the stripped text is a slice of the original with only white space cut off either side |
| Text.ReplaceChar | wms-analyzer/data_processor.py:161 | the decimal comma is replaced at every position and nothing else changes; afterwards no comma is left, and a text without one is unchanged |
| Text.ReplaceSplitJoin | wms-analyzer/data_processor.py:161 | replacing a character is splitting at it and joining with its replacement |
| Text.NatToString | wms-analyzer/data_processor.py:341-350 | the decimal text of a count is made of digits, reads back as the count, and has no leading zero |
| Text.StrLessTotal | wms-analyzer/data_processor.py:325-328 | code-point order decides between any two different texts |
| Text.StrLessTransitive | wms-analyzer/data_processor.py:325-328 | code-point order is transitive |
| Numbers.Abs | wms-analyzer/data_processor.py:271 | `abs()` of a quantity is non-negative, and NaN stays NaN |
| Numbers.ParseFloatDigits | wms-analyzer/data_processor.py:161 | `float()` of a text of digits is its decimal value |
| Numbers.ParseFloatNegativeDigits | wms-analyzer/data_processor.py:57-58 | a minus sign followed by digits reads as the negated value |
| Numbers.ParseBareFloatRejectsSeparated | wms-analyzer/data_processor.py:56-63 | digits followed by `/` or `-` are not a float literal |
| Numbers.UnsignedDecimal | wms-analyzer/data_processor.py:161 | the number written as digits, a decimal point and digits is the whole part plus the fraction |
| Numbers.FloatOfUnsigned | wms-analyzer/data_processor.py:161 | `float()` of a text that starts and ends with a digit is that number, with no sign, no whitespace to strip, and no infinity or NaN |
| Numbers.ParseIntDigits | wms-analyzer/data_processor.py:47 | `int()` of a text of digits is its decimal value when it has at most 4300 digits, and raises ValueError otherwise |
| Numbers.FractionOfDigits | wms-analyzer/data_processor.py:161 | the digits after a decimal point are worth their decimal value divided by ten to the number of digits |
| Calendar.AddDays | wms-analyzer/data_processor.py:59 | adding days to a date gives a calendar date whose day number is larger by exactly that many |
| Calendar.DayNumberOrder | wms-analyzer/data_processor.py:173 | the day number orders dates chronologically |
| Calendar.DayNumberInjective | wms-analyzer/data_processor.py:173 | different dates have different day numbers |
| Calendar.MonthYear | wms-analyzer/data_processor.py:213 | the `MM/YYYY` key is seven characters, and its month and year read back |
| Calendar.MonthYearSameMonth | wms-analyzer/data_processor.py:213-214 | two dates share a bucket key exactly when they share month and year |
| Calendar.FormatDayMonthYear | wms-analyzer/excel_exporter.py:100 | `strftime('%d/%m/%Y')` of a date; `DateFormats.DayMonthYearRoundTrip` states that it parses back |
| Calendar.FormatIso | wms-analyzer/excel_exporter.py:9 | `strftime('%Y-%m-%d')` of a date; `DateFormats.IsoRoundTrip` states that it parses back |
| DateParser.EpochDayNumber | wms-analyzer/data_processor.py:59 | the serial epoch 1899-12-30 is a calendar date with day number 693594 |
| DateParser.MakeDate | wms-analyzer/data_processor.py:28 | `datetime(year, month, day)` gives a date exactly when every conversion succeeded and the three numbers form a calendar date; a number outside the C `int` range, which raises instead, is `DateParser.Overflows` |
| DateParser.SerialDay | wms-analyzer/data_processor.py:59 | serial `n` is the calendar date `n` days after the epoch |
| DateParser.SerialFromFloat | wms-analyzer/data_processor.py:56-61 | a serial number gives a date exactly when it is strictly between 0 and 50000, and the date is a calendar date |
| DateParser.RoundHalfEven | wms-analyzer/data_processor.py:59 | `timedelta` rounds a fractional microsecond count to the nearest whole one, within half a microsecond, and a tie to the even one |
| DateParser.SerialOffset | wms-analyzer/data_processor.py:59 | the whole days of `timedelta(days=x)` for a serial are at most 50000 |
| DateParser.SerialDate | wms-analyzer/data_processor.py:55-63 | the serial attempt gives only calendar dates; `DateFormats.ParseSerialDigits` states which whole numbers it accepts |
| DateParser.ParseDate | wms-analyzer/data_processor.py:16-66 | a parsed date is always a calendar date; `DateFormats.ParseDateTrimmed` and `DateFormats.ParseDateRaisesNone` state which one, and where `parse_date` raises |
| DateParser.DayMonthYearDate | wms-analyzer/data_processor.py:25-42 | the day-first branch; `DateFormats.ParseDayMonthYear` states the date it gives |
| DateParser.IsoDate | wms-analyzer/data_processor.py:44-53 | the ISO branch; `DateFormats.ParseIsoDate` states the date it gives |
| DateParser.FormattedDate | wms-analyzer/data_processor.py:21-53 | the `if`/`elif` chain of the written formats; `DateFormats.FormattedDayMonthYear` and `DateFormats.FormattedIso` state which branch a text takes |
| DateFormats.ParseDateSentinel | wms-analyzer/data_processor.py:18-19 | the empty text, `NULL`, `null`, `NaN` and `Invalid Date` give no date |
| DateFormats.ParseDateTrimmed | wms-analyzer/data_processor.py:21-63 | a trimmed text that is not a sentinel gives its formatted date when one of the three formats matches, and its serial date otherwise |
| DateFormats.ParseDateRaisesNone | wms-analyzer/data_processor.py:44-53 | where `parse_date` raises OverflowError it would have returned no date: only the ISO branch can raise, and its text is no float literal |
| DateFormats.ParseDateNotRaised | wms-analyzer/data_processor.py:16-66 | a cell that reads as a date never raises |
| DateFormats.DayMonthYearFits | wms-analyzer/data_processor.py:25-42 | the day-first branches never raise: their numbers have at most four digits |
| DateFormats.ParseDayMonthYear | wms-analyzer/data_processor.py:25-42 | `D/M/YYYY` and `D-M-YYYY` give the date with those numbers when it exists, and nothing otherwise |
| DateFormats.ParseIsoDate | wms-analyzer/data_processor.py:44-53 | `YYYY-M-D`, optionally followed by a space and more, gives that date when it exists and the day has at most 4300 digits, and nothing otherwise; `parse_date` raises on it exactly when `int()` reads the day and the day exceeds the C `int` range |
| DateFormats.IsoDayOverflow | wms-analyzer/data_processor.py:44-53 | `parse_date` raises on `2024-01-10000000000` |
| DateFormats.IsoDayTooLong | wms-analyzer/data_processor.py:44-53 | a day of more than 4300 digits, even `0`×4300 followed by `5`, makes `int()` raise ValueError: `parse_date` gives no date and does not raise |
| DateFormats.ParseSerialDigits | wms-analyzer/data_processor.py:55-63 | a whole number is a serial date exactly when it is strictly between 0 and 50000 |
| DateFormats.SerialOne | wms-analyzer/data_processor.py:59 | the text `1` is 1899-12-31 |
| DateFormats.SerialOffsetNearFloor | wms-analyzer/data_processor.py:59 | a fractional serial is the day of its whole part, or the next day when it lies within half a microsecond below midnight |
| DateFormats.SerialRoundsUp | wms-analyzer/data_processor.py:59 | the serial `1.999999999999999` is 1900-01-01, one day after its whole part |
| DateFormats.ParseSerialNegative | wms-analyzer/data_processor.py:58 | a negative whole number gives no date |
| DateFormats.FormattedDayMonthYear | wms-analyzer/data_processor.py:25-42 | a `D/M/YYYY` or `D-M-YYYY` text reads as the date with those numbers when it exists, and as no date otherwise |
| DateFormats.FormattedIso | wms-analyzer/data_processor.py:44-53 | an ISO text passes over the two day-first branches and selects the ISO branch |
| DateFormats.SerialRejectsIso | wms-analyzer/data_processor.py:56-63 | a text starting with four digits and a hyphen is not a serial number |
| DateFormats.DayMonthYearRoundTrip | wms-analyzer/excel_exporter.py:100 | a date written `DD/MM/YYYY` parses back as the same date |
| DateFormats.IsoRoundTrip | wms-analyzer/excel_exporter.py:9 | a date written `YYYY-MM-DD` parses back as the same date |
| Aggregation.Lookup | wms-analyzer/data_processor.py:150-152 | a cell lookup succeeds exactly when the row has that header |
| Aggregation.DaysBetween | wms-analyzer/data_processor.py:173 | `(dt_val - hoje).days` with `hoje` at midnight; `Calendar.DayNumberOrder` states that an earlier date has a smaller day number |
| Aggregation.BlankCode | wms-analyzer/data_processor.py:155 | a missing code or one that is empty once stripped; `AggregationFacts.StepSkipsRow` states what the loop does with it |
| Aggregation.Skip | wms-analyzer/data_processor.py:155-157 | counts one more ignored row; `AggregationFacts.StepSkipsRow` states that nothing else changes |
| Aggregation.NewProduct | wms-analyzer/data_processor.py:176-188 | a new record has its code, no items or buckets, total 0, an unbounded minimum and the row's quantity as original quantity; the defaults are `Produto <code>` and `Sem fornecedor` |
| Aggregation.LookupAllCells | wms-analyzer/data_processor.py:192-207 | an item's cells are those of its fields in order, each `''` when its column is unmapped, and building it fails exactly when one lookup fails |
| Aggregation.LookupAll | wms-analyzer/data_processor.py:192-207 | one cell per field; `Aggregation.LookupAllCells` states which |
| Aggregation.NewItem | wms-analyzer/data_processor.py:191-208 | an item carries the row's quantity, expiry date and days left |
| Aggregation.Lower | wms-analyzer/data_processor.py:224-225 | the new minimum is finite, at most the new days and the old minimum, and equal to one of them |
| Aggregation.AddItem | wms-analyzer/data_processor.py:210-225 | adding an item appends it to the items and leaves the product's descriptive fields alone |
| Aggregation.Step | wms-analyzer/data_processor.py:148-231 | each row is counted once, processed or ignored; only a row counted as ignored can count an invalid date |
| Aggregation.Dated | wms-analyzer/data_processor.py:165-170 | after the date is parsed, the row is counted exactly once, processed or ignored, and invalid dates grow by no more than the ignored rows |
| Aggregation.Record | wms-analyzer/data_processor.py:172-231 | the row is counted exactly once, processed or ignored, and no other counter moves |
| Aggregation.Append | wms-analyzer/data_processor.py:210-231 | appending the item counts the row once, processed or ignored |
| Aggregation.AggregateRows | wms-analyzer/data_processor.py:140-231 | the in-place loop over the rows ends in the state of the fold `Run` |
| Aggregation.Run | wms-analyzer/data_processor.py:140-231 | the loop as a fold over the rows; `AggregationFacts.RunConsistent` and `AggregationFacts.RunStats` state what it keeps |
| Aggregation.ProcessRow | wms-analyzer/data_processor.py:149-170 | one pass of the loop body is one `Step` |
| Aggregation.DatedRow | wms-analyzer/data_processor.py:166-173 | the body after parsing is `Dated` |
| Aggregation.RecordRow | wms-analyzer/data_processor.py:176-189 | creating the record when needed, then adding the item, is `Record` |
| Aggregation.AppendRow | wms-analyzer/data_processor.py:190-227 | adding the item in place is `Append` |
| AggregationFacts.MinDays | wms-analyzer/data_processor.py:224-225 | the minimum of an item list is unbounded exactly when the list is empty; otherwise it is some item's days left and no item has fewer |
| AggregationFacts.QuantityCommaTwin | wms-analyzer/data_processor.py:160-163 | a quantity written with a decimal comma reads as the one written with a point |
| AggregationFacts.QuantityOfDecimal | wms-analyzer/data_processor.py:160-163 | a quantity of digits, a decimal point and digits reads as its decimal value |
| AggregationFacts.QuantityOfPlain | wms-analyzer/data_processor.py:160-163 | a non-empty quantity without a comma is what `float()` reads |
| AggregationFacts.AddToBucketsSpec | wms-analyzer/data_processor.py:213-221 | with no bucket of the item's month, one bucket of that month, holding the item's quantity and days left, is appended; otherwise the first bucket of that month alone gains the quantity and keeps its days left |
| AggregationFacts.BucketsOf | wms-analyzer/data_processor.py:212-221 | the buckets a product's items build; `AggregationFacts.BucketsOfMonths` states what they hold |
| AggregationFacts.BucketsOfMonths | wms-analyzer/data_processor.py:212-221 | a product's buckets have distinct months, one for every month of an item; each holds the sum of its month's quantities and the days left of that month's first item |
| AggregationFacts.AddToBucketsTotal | wms-analyzer/data_processor.py:221-222 | adding a quantity to the buckets adds it to their sum |
| AggregationFacts.BucketsOfTotal | wms-analyzer/data_processor.py:212-222 | the month buckets of a product together hold the sum of its items' quantities |
| AggregationFacts.AddItemOK | wms-analyzer/data_processor.py:210-225 | after an item is added, the record still agrees with its items: buckets, total, minimum and days left |
| AggregationFacts.AppendConsistent | wms-analyzer/data_processor.py:210-227 | adding a row's item keeps the whole state consistent |
| AggregationFacts.CreateConsistent | wms-analyzer/data_processor.py:176-188 | creating a record for a new code keeps the codes distinct and in step with the records |
| AggregationFacts.RecordConsistent | wms-analyzer/data_processor.py:172-227 | a dated row keeps the state consistent |
| AggregationFacts.StepConsistent | wms-analyzer/data_processor.py:148-231 | every pass of the loop keeps the state consistent |
| AggregationFacts.RunConsistent | wms-analyzer/data_processor.py:140-231 | after the loop, each code is listed once and has a record, and every record agrees with its items |
| AggregationFacts.RunStats | wms-analyzer/data_processor.py:141-231 | after the loop, processed plus ignored is the number of rows, and invalid dates never exceed ignored rows |
| AggregationFacts.StepSkipsRow | wms-analyzer/data_processor.py:154-170 | a row with a blank code or an invalid date changes no product and is counted as ignored |
| AggregationFacts.StepOverflow | wms-analyzer/data_processor.py:229-231 | a complete row whose date parsing raises changes no product and is counted as ignored, but not as an invalid date |
| AggregationFacts.StepInvalidDate | wms-analyzer/data_processor.py:166-170 | a complete row with a code whose date reads as no date is counted as ignored and as an invalid date, and changes no product |
| AggregationFacts.StepKeepsRow | wms-analyzer/data_processor.py:172-227 | a complete row with a code and a valid date is processed: only its product changes, gaining one item with the row's quantity, date and days left |
| AggregationFacts.StepIsRecord | wms-analyzer/data_processor.py:150-173 | for a complete row with a code and a valid date, the loop body reduces to recording the row |
| AggregationFacts.RecordKeepsRow | wms-analyzer/data_processor.py:176-227 | recording a row whose item can be built adds exactly that item to its product |
| AggregationFacts.NewItemComplete | wms-analyzer/data_processor.py:191-208 | a row holding every mapped column always yields its item |
| AggregationFacts.RunCompleteItems | wms-analyzer/data_processor.py:176-210 | when every row holds every mapped column, every product ends the loop with at least one item |
| Sorting.SortBy | wms-analyzer/data_processor.py:245-249 | `list.sort(key=…)` gives a permutation in ascending key order |
| Sorting.SortByStable | wms-analyzer/data_processor.py:245-249 | the sort is stable: the elements with any given key keep their relative order |
| Sorting.SortByPair | wms-analyzer/data_processor.py:276-281 | `list.sort` with a pair key keeps the length; `Sorting.SortByPairMonotone` states the order |
| Sorting.SortByPairMonotone | wms-analyzer/data_processor.py:276-281 | sorting by a (rank, days) pair whose rank never decreases with the days is sorting by the days |
| Sorting.SortedSet | wms-analyzer/data_processor.py:325-328 | `sorted()` of a set of texts holds exactly its members, in strictly ascending order |
| Sorting.SortedSetDistinct | wms-analyzer/data_processor.py:325-328 | the sorted list has no repeats |
| Totals.SumOfSortBy | wms-analyzer/data_processor.py:245-249 | sorting keeps the sum of quantities |
| Totals.CountOfSortBy | wms-analyzer/data_processor.py:275-281 | sorting keeps every count |
| Classification.TierBounds | wms-analyzer/data_processor.py:252-262 | the tier is `vencido` below 0 days, `alta` for 0 to 30, `média` for 31 to 60, and `baixa` from 61 |
| Classification.TierOf | wms-analyzer/data_processor.py:252-262 | the tier of a count of days; `Classification.TierBounds` states its thresholds |
| Classification.FinalTier | wms-analyzer/data_processor.py:252-268 | the tier is the tier of the minimum as finally reported; a product without items is `baixa` and reports 999 days; `baixa` means no items or at least 61 days, `vencido` a negative minimum |
| Classification.RankOrder | wms-analyzer/data_processor.py:276-281 | the sort rank is the tier's position, and it never decreases as days left grow |
| Classification.Finish | wms-analyzer/data_processor.py:243-268 | a finished product has the tier of its minimum, and its items and buckets are permutations sorted by days left |
| Classification.FinishTotals | wms-analyzer/data_processor.py:222 | a finished product keeps its code, and its total is both the sum of its items' and of its buckets' quantities |
| Classification.FinishMinimum | wms-analyzer/data_processor.py:224-268 | the minimum of a finished product is its first item's days left, or 999 without items; no item has fewer days left |
| Classification.FinishAll | wms-analyzer/data_processor.py:243-270 | the records finished in first-seen order; `Classification.Finalize` states the list |
| Classification.SortedMinimum | wms-analyzer/data_processor.py:245 | the first item after sorting has the fewest days left |
| Classification.SummaryPartition | wms-analyzer/data_processor.py:235-273 | expired, high, medium and low products add up to the number of products |
| Classification.Summarize | wms-analyzer/data_processor.py:235-273 | the counters of a listing; `Classification.SummaryPartition` and `Classification.SummarizeSorted` state them |
| Classification.SortProductsByDays | wms-analyzer/data_processor.py:276-281 | the products' sort by (tier rank, days left) is the stable sort by days left |
| Classification.SummarizeSorted | wms-analyzer/data_processor.py:273-281 | the summary of the sorted list equals the summary of the unsorted one |
| Classification.SortedProducts | wms-analyzer/data_processor.py:276-281 | the final list is a permutation in non-decreasing tier rank and days left, keeping the first-seen order among equal days |
| Classification.Finalize | wms-analyzer/data_processor.py:234-281 | the loop over the records gives the sorted list of finished products and the summary counting that list |
| Classification.Tally | wms-analyzer/data_processor.py:252-271 | one product adds its absolute total to the items, and one to the counter of its tier when that tier is counted |
| Classification.SummarizeAppend | wms-analyzer/data_processor.py:252-273 | the summary of one more product is the old summary tallied with that product |
| Classification.FinishRecord | wms-analyzer/data_processor.py:243-268 | finishing a record in place gives `Finish` of it |
| Filters.TextOf | wms-analyzer/data_processor.py:318-322 | `str()` of a truthy cell is never empty |
| Filters.CellSet | wms-analyzer/data_processor.py:314-316 | the set of truthy suppliers; `Filters.CellSetMembers` states its members |
| Filters.TextSet | wms-analyzer/data_processor.py:317-322 | a set of `str()` of truthy values; `Filters.TextSetMembers` states its members |
| Filters.CellSetMembers | wms-analyzer/data_processor.py:314-316 | the supplier set holds exactly the products' truthy suppliers |
| Filters.TextSetMembers | wms-analyzer/data_processor.py:317-322 | a code set holds exactly `str()` of the products' truthy values |
| Filters.SortSuppliers | wms-analyzer/data_processor.py:325 | the sorted suppliers hold exactly the set's members |
| Filters.ExtractFilters | wms-analyzer/data_processor.py:307-329 | the loop over the products gives the four option lists, or the error `sorted()` raises |
| Filters.FiltersOf | wms-analyzer/data_processor.py:307-329 | the four option lists; `Filters.FiltersFail`, `Filters.CodeListFacts` and `Filters.SupplierListFacts` state them |
| Filters.FiltersFail | wms-analyzer/data_processor.py:315-325 | the lists fail exactly when one product's supplier is missing and another's is a non-empty name |
| Filters.CodeListFacts | wms-analyzer/data_processor.py:317-328 | each code list is strictly ascending, never offers the empty text, and offers exactly the products' truthy values |
| Filters.SupplierListFacts | wms-analyzer/data_processor.py:315-325 | the supplier list offers exactly the truthy suppliers, names in strictly ascending order |
| Recommendations.Positive | wms-analyzer/data_processor.py:340-351 | only kinds with a positive count are kept, in their fixed order |
| Recommendations.Recommend | wms-analyzer/data_processor.py:331-355 | one message per piece of advice, in order; `Recommendations.RecommendMessages` and `Recommendations.RecommendAllClear` state which messages appear, that none repeats, and when the all-clear stands alone |
| Recommendations.RecommendMessages | wms-analyzer/data_processor.py:331-355 | a message is present exactly when its advice is, and no message repeats |
| Recommendations.RecommendAllClear | wms-analyzer/data_processor.py:340-353 | one to four messages; the all-clear message is the only one exactly when no count is positive |
| Recommendations.AdviseDistinct | wms-analyzer/data_processor.py:335-353 | no advice repeats |
| Recommendations.Advise | wms-analyzer/data_processor.py:335-353 | the four counts turned into advice; `Recommendations.AdviseOrder` states it |
| Recommendations.Assemble | wms-analyzer/data_processor.py:340-353 | the advice for four counts; `Recommendations.AssembleMembers` and `Recommendations.AssembleOrder` state it |
| Recommendations.Message | wms-analyzer/data_processor.py:341-353 | the text of an advice; `Recommendations.MessageInjective` states that different advice reads differently |
| Recommendations.AdviseOrder | wms-analyzer/data_processor.py:335-353 | each kind appears exactly when its count is positive, carries its count, keeps the fixed order, and the all-clear appears alone exactly when every count is zero |
| Recommendations.AssembleMembers | wms-analyzer/data_processor.py:340-353 | one to four messages; a kind is present exactly when its count is positive |
| Recommendations.AssembleOrder | wms-analyzer/data_processor.py:340-353 | the messages carry their counts and come in the fixed order |
| Recommendations.AdviseEmpty | wms-analyzer/data_processor.py:352-353 | without products the only message is the all-clear |
| Recommendations.MessageInjective | wms-analyzer/data_processor.py:341-353 | two messages read the same only for the same kind and count |
| Recommendations.PastDueIsExpired | wms-analyzer/data_processor.py:252-254 | on finished products, the past-due count of the messages equals the summary's expired count |
| Processor.Echo | wms-analyzer/data_processor.py:291 | the returned mapping has a key for every field, holding its column |
| Processor.ProcessData | wms-analyzer/data_processor.py:103-292 | `process_data` returns the analysis `Analyze` gives, or its error |
| Processor.Analyze | wms-analyzer/data_processor.py:103-292 | what `process_data` returns; `Processor.AnalyzeMissing`, `Processor.AnalyzeStats` and `Processor.AnalyzeSummary` state it |
| Processor.Listing | wms-analyzer/data_processor.py:233-281 | the finished, sorted products; `Classification.Finalize` and `Exporter.ListingDated` state it |
| Processor.AnalyzeMissing | wms-analyzer/data_processor.py:133-137 | a missing expiry column, or else a missing product-code column, gives the error naming it, and only these give a missing-column error |
| Processor.AnalyzeStats | wms-analyzer/data_processor.py:141-231 | of an analysis, total rows is the row count, processed plus ignored is that count, and invalid dates are at most the ignored rows |
| Processor.AnalyzeSummary | wms-analyzer/data_processor.py:233-273 | the summary counts the returned products: their number, their absolute totals and one counter per tier, with the low ones making up the rest |
| Exporter.FileName | wms-analyzer/excel_exporter.py:14-15 | the file name written is never empty: a given non-empty name is kept as it is, and otherwise the default name is used |
| Exporter.FileNameChoice | wms-analyzer/excel_exporter.py:14-15 | the default name is used exactly when no name or the empty name is given, or the given one equals it |
| Exporter.DefaultName | wms-analyzer/excel_exporter.py:9-15 | the default name; `Exporter.DefaultNameRoundTrip` states its parts |
| Exporter.DefaultNameRoundTrip | wms-analyzer/excel_exporter.py:9-15 | the default name is `Relatorio_Vencimentos_`, ten characters that parse back as the export date, and `.xlsx` |
| Exporter.SummaryRoundTrip | wms-analyzer/excel_exporter.py:36-52 | every summary counter and processing statistic reads back from its labelled row |
| Exporter.SummaryRows | wms-analyzer/excel_exporter.py:36-52 | the rows of the summary sheet; `Exporter.SummaryRoundTrip` states what reads back from them |
| Exporter.StampRoundTrip | wms-analyzer/excel_exporter.py:51 | the analysis moment is 19 characters, and its first ten parse back as its date |
| Exporter.FlattenLength | wms-analyzer/excel_exporter.py:61-74 | the nested loops give as many rows as the products contribute together |
| Exporter.FlattenAt | wms-analyzer/excel_exporter.py:84-106 | row `j` of product `i` sits right after the rows of the products before it |
| Exporter.FlattenMembers | wms-analyzer/excel_exporter.py:84-106 | every row is a row of some product |
| Exporter.FlattenEmpty | wms-analyzer/excel_exporter.py:76-78 | there are no rows exactly when no product contributes any |
| Exporter.AllProductsRows | wms-analyzer/excel_exporter.py:57-78 | the nested loops give, for each product in order, one row per bucket in order |
| Exporter.AllProductsLayout | wms-analyzer/excel_exporter.py:61-74 | one row per bucket of each product; bucket `j` of product `i` follows the buckets of the products before it |
| Exporter.BucketRows | wms-analyzer/excel_exporter.py:62-74 | one row per bucket; `Exporter.AllProductsLayout` states their places |
| Exporter.BucketLabelRoundTrip | wms-analyzer/excel_exporter.py:69 | a bucket's `MM/YYYY` label is seven characters, and its month and year read back |
| Exporter.TierLabelRoundTrip | wms-analyzer/excel_exporter.py:72 | the upper-cased tier names are `VENCIDO`, `ALTA`, `MÉDIA` and `BAIXA`, and each tells its tier |
| Exporter.TierLabel | wms-analyzer/excel_exporter.py:72 | upper-cases the tier names; `Exporter.TierLabelRoundTrip` states that the label tells the tier |
| Exporter.CriticalTiers | wms-analyzer/excel_exporter.py:85 | a product is critical exactly when its tier is `vencido` or `alta` |
| Exporter.ItemRows | wms-analyzer/excel_exporter.py:85-106 | a critical product contributes one row per item, and any other product none |
| Exporter.CriticalRows | wms-analyzer/excel_exporter.py:80-110 | the nested loops give, for each critical product in order, one row per item in order |
| Exporter.CriticalRowsFrom | wms-analyzer/excel_exporter.py:84-106 | every critical row is an item of an expired or high-tier product |
| Exporter.CriticalRowAt | wms-analyzer/excel_exporter.py:84-106 | every item of an expired or high-tier product has its row, right after the rows of the products before it |
| Exporter.CriticalRowFacts | wms-analyzer/excel_exporter.py:99-105 | a critical row copies its item's quantity and days left, writes a date that parses back as the item's, and names the tier `VENCIDO` or `ALTA` |
| Exporter.ItemRow | wms-analyzer/excel_exporter.py:87-105 | the row of one item; `Exporter.CriticalRowFacts` states what it copies |
| Exporter.Sheet | wms-analyzer/excel_exporter.py:76-78 | a sheet is written exactly when it has rows |
| Exporter.ExportToExcel | wms-analyzer/excel_exporter.py:11-32 | the export writes under the chosen name the summary sheet and the two product sheets, each only when it has rows |
| Exporter.Book | wms-analyzer/excel_exporter.py:17-25 | the workbook's sheets; `Exporter.AllProductsSheetWritten` and `Exporter.CriticalSheetWritten` state when each is written |
| Exporter.AllProductsSheetWritten | wms-analyzer/excel_exporter.py:76-78 | the all-products sheet is written exactly when some product has a bucket |
| Exporter.CriticalSheetWritten | wms-analyzer/excel_exporter.py:108-110 | the critical sheet is written exactly when some expired or high-tier product has an item |
| Exporter.AnalysisExportable | wms-analyzer/excel_exporter.py:100 | every analysis `process_data` returns can be exported: all its items carry calendar dates |
| Exporter.ListingDated | wms-analyzer/data_processor.py:200 | every item of the finished, sorted listing carries a calendar date |

## Left out

- Reading files is left out: `load_data`, reading Excel and CSV, upper-casing and stripping headers. The table arrives as headers and rows of optional cells.
- Writing the workbook is left out: `pd.ExcelWriter`, openpyxl, sheet names, column order, the `try/except` that logs and re-raises. The model produces the rows each sheet receives.
- Logging is left out.
- `datetime.now()` is not read: `hoje`, the export date and the summary timestamp are parameters.
- `wms-analyzer/app.py`, the web front end, is not part of this model.
- Parsing, sorting and looking up:
  - `str.split`, `str.strip`, `float()`, `list.sort` and `sorted()` are library functions. They are modelled by what they return, not by CPython's algorithms. Sorting in place is a pure function.
  - `float()` is modelled on ASCII digits with exact real arithmetic. Non-ASCII digits, overflow to infinity and binary rounding are left out, so totals are exact sums.
  - A row is a map from header to cell, which is more general than pandas' rectangular table: a row from `iterrows` holds every column, so `row[col]` never raises `KeyError` there. A row of the model that lacks a mapped header is counted as ignored, as the loop's `except` would count a `KeyError`. `AggregationFacts.NewItemComplete` and `AggregationFacts.RunCompleteItems` cover the source's own case, where every row holds every column. Duplicate header names are left out.
- DateParser.ParseDate: `\d` and `int()` are modelled on the ASCII digits only. Python accepts every Unicode decimal digit, so a date written in, say, Arabic-Indic digits parses in the source and is an invalid date in the model.
- Numbers.ParseInt: `int()` refuses a decimal text of more than 4300 digits, the default limit from Python 3.11 on. An interpreter without that limit (before 3.11 and the 3.7.14, 3.8.14, 3.9.14 and 3.10.7 releases, or run with `PYTHONINTMAXSTRDIGITS=0`) reads such an ISO day, so the date of or the raise on such a text differs there. Other limits set through `sys.set_int_max_str_digits` are left out.
- DateParser.SerialFromFloat: the serial is rounded to the microsecond on its exact decimal value. CPython computes `timedelta(days=x)` on the binary double nearest to the text, so a serial within a rounding error of a half microsecond can land on a different day.
- Text.Upper: `str.upper()` is modelled on ASCII and the Latin-1 lower-case letters from U+00E0 to U+00FE, character by character. Python also maps `ß` to `SS` and `ÿ` to U+0178, among others. The model applies it to the four tier names only, which it upper-cases as Python does.
- Record shapes:
  - `Records.Bucket`: a month bucket holds the (month, year) pair, which the source keys by the `MM/YYYY` text. `Calendar.MonthYearSameMonth` shows the two keys group alike, and the exporter renders the text from the pair.
  - `%Y` is always written with four digits. CPython on glibc does not pad years below 1000; such dates are out of scope.
  - A pandas cell that is NaN is one value `None`. Python compares NaN objects by identity in a set; the model assumes a single NaN object.
- Filters.SortSuppliers: `sorted()` over a set holding NaN and names raises, and that error ends `process_data` (`ProcessError.UnorderableSuppliers`). A set holding only NaN sorts to that lone value.
- Exporter.SummaryRows: pandas pads the short rows of the summary sheet with empty cells. The model keeps the rows ragged.

## Design notes

- `process_data` catches nothing outside the row loop. Its errors are a missing mandatory column and the TypeError of `sorted()` on mixed suppliers (`ProcessError`).
- The final product order uses the tuple key `(rank, menor_dias_restantes)`. `Sorting.SortByPair` models that key. `Classification.SortProductsByDays` proves it sorts exactly as the second component does, since the rank never decreases with the days.
- In the model a product can be listed with no items: its first row creates the record, and a lookup for the item then fails because the row lacks a mapped header. Such a product's minimum stays infinite, its tier is `baixa`, and it reports 999 days (`Classification.FinalTier`). A pandas table is rectangular, so in the source every row holds every column and this cannot happen: `AggregationFacts.NewItemComplete` and `AggregationFacts.RunCompleteItems` show that every product then ends the loop with at least one item.
