# Portfolio performance, modelled in Dafny

This project models `portfolio_performance.py`. That module loads an
asset-to-currency table and three date-indexed tables: exchange rates,
prices and portfolio weights. From them it computes three performance
series over a date window:

- **asset performance P[t]**: the compounded weighted returns of the prices;
- **currency performance CP[t]**: the same for the currency conversion rates;
- **total performance TP[t]**: the same for prices converted by those rates.

Every part is modelled in its own module:

- `Calendar` (`src/calendar.dfy`): Gregorian dates, the pandas Timestamp
  range (1677-09-22 to 2262-04-11) and day numbers.
- `DateNormalizer` (`src/date_normalizer.dfy`): `try_convert_date_time`
  and the `date_checker` pre-check on the two date bounds.
- `Frames` (`src/frames.dfy`): labelled tables whose cells are
  `Option<real>`, with None for NaN. It also models `.mul`, which aligns
  two tables on the union of their labels.
- `Alignment` (`src/alignment.dfy`): `_get_full_range_for_dates`,
  reindexing, and `_normalize_a_frame` (forward fill).
- `CurrencyResolver` (`src/currency_resolver.dfy`): `__get_currency_raw`.
- `ReturnEngine` (`src/return_engine.dfy`): `__get_an_attitude`.
- `Aggregator` (`src/aggregator.dfy`): `__get_a_portfolio`, a weighted
  sum with `skipna=False`.
- `Accumulator` (`src/accumulator.dfy`): `__portfolio_performance`,
  that is `add(1).cumprod()` followed by a date-window slice.
- `PortfolioPerformance` (`src/portfolio.dfy`): one class joins
  `FormalData`, `PortfolioData` and `PortfolioPerformanceData`.
  - Its fields are the loaded tables and the memoised intermediate tables.
  - The constructor covers the alignment part of `__init__`.
  - The methods are the cache fillers, the three portfolio accessors and
    the three public calculations.
  - The `df_checker` decorator becomes the None case of each pipeline
    function.
  - The `date_checker` decorator becomes an explicit check. It answers
    `TypeError` before any cache is touched.

What the code loops over stays a loop:

- the symbol-removal loop of `try_convert_date_time`;
- the bound loop of `date_checker`;
- the table loop of `_get_full_range_for_dates`;
- the reindexing loop of `__init__`;
- the row-by-row forward fill.

Each loop is proved against a function that specifies it. The
single-expression pandas computations are functions.

Days are day numbers, counted from 0001-01-01. A table's row labels are
day numbers too, so the date window is compared on day numbers.
`DayNumberOrder` shows that day numbers order days as the calendar does.
`NextDayNumber` and `DayAfterNumber` show that consecutive days get consecutive
day numbers, so the daily range `pd.date_range` builds is a run of consecutive labels.

## Model

| member | source | states |
|---|---|---|
| DateNormalizer.TryConvertDateTime | portfolio_performance.py:34-43 | a Timestamp comes back unchanged; any other argument is stringified, every distinct non-digit symbol is removed in turn, and the result is the YYYYMMDD parse of the remaining digits (None for `False`) |
| DateNormalizer.DateChecker | portfolio_performance.py:57-68 | the bounds pass exactly when every one of them converts; then there is one converted day per bound, in order, each the conversion of its bound |
| DateNormalizer.CheckBounds | portfolio_performance.py:57-68 | the check around a query with two bounds: it passes exactly when both bounds convert, and then gives the two converted days in order |
| DateNormalizer.ConvertDate | portfolio_performance.py:34-43 | a Timestamp passes through unchanged; a string or an integer is only ever accepted when its stripped text has exactly eight digits |
| DateNormalizer.Str | portfolio_performance.py:37 | `str` of a string is the string; `str` of an integer starts with '-' exactly when it is negative, followed by the decimal form of its magnitude |
| DateNormalizer.DecimalValue | portfolio_performance.py:37 | the decimal form of a number reads back as that number and has no leading zero unless the number is 0 |
| DateNormalizer.Digits | portfolio_performance.py:38-39 | what is left after stripping consists of digits only and is no longer than the input |
| DateNormalizer.DigitsAre | portfolio_performance.py:38-39 | a character is left after stripping exactly when it is a digit of the input |
| DateNormalizer.RemoveAll | portfolio_performance.py:39 | `arg.replace(symbol, '')`: the symbol no longer occurs, and every other character of the text still does |
| DateNormalizer.ParseYmd | portfolio_performance.py:41 | only a string of exactly eight digits parses |
| DateNormalizer.ParseYmdIsFormat | portfolio_performance.py:41 | a string parses to day d exactly when it is the YYYYMMDD form of d |
| DateNormalizer.TextIsYmd | portfolio_performance.py:37-41 | a string is accepted as day d exactly when its digits, read in order, are d's YYYYMMDD form, wherever other characters stand |
| DateNormalizer.ConvertRoundTrip | portfolio_performance.py:34-41 | normalising a Timestamp, or the canonical text of a day, gives the same day back |
| DateNormalizer.SeparatedTextAccepted | portfolio_performance.py:38-41 | YYYY, MM and DD separated by any non-digit character (such as '/', '-', '~', '\') are accepted as that day |
| DateNormalizer.IntegerAccepted | portfolio_performance.py:37-41 | the eight-digit integer YYYYMMDD of a day is accepted as that day |
| DateNormalizer.IntegerNeedsEightDigits | portfolio_performance.py:29-30 | an accepted integer has exactly eight digits, so 201901200 and 2013020 are rejected |
| DateNormalizer.WrongDigitCountRejected | portfolio_performance.py:62-65 | a string whose digits are not exactly eight is rejected |
| DateNormalizer.DigitlessBoundPassesAsWritten | portfolio_performance.py:40-43 | as written, a bound without any digit converts to NaT and passes the `if not date` test, while the corrected conversion rejects it |
| DateNormalizer.ConvertDateAsWritten | portfolio_performance.py:34-43 | `try_convert_date_time` as written: NaT exactly for a string or an integer whose text has no digit; a day only where the corrected conversion gives the same day; `False` only where the corrected conversion fails |
| DateNormalizer.PassesCheckAsWritten | portfolio_performance.py:61 | the `if not date` test as written lets a bound through exactly when it converts to a day or its text has no digit at all |
| DateNormalizer.AsWrittenAgreesElsewhere | portfolio_performance.py:40-43 | except for digit-free text, the conversion as written and the corrected one accept the same arguments and give the same day |
| Calendar.DayNumberOrder | portfolio_performance.py:427 | an earlier day has a smaller day number, so comparing labels compares days |
| Calendar.NextDay | portfolio_performance.py:248 | the day after a calendar day is a calendar day, later, with no calendar day strictly between the two |
| Calendar.NextDayNumber | portfolio_performance.py:248 | the day after d has day number DayNumber(d) + 1 |
| Calendar.DayAfterNumber | portfolio_performance.py:248 | the k-th day of a daily range from d has day number DayNumber(d) + k, so a daily date range is a run of consecutive labels |
| Frames.Mul | portfolio_performance.py:212 | the product table's row and column labels are the union of both tables' labels, and it is well formed when both factors are |
| Frames.MulByLabel | portfolio_performance.py:212 | under every pair of labels the product holds the product of both tables' cells; a label that either side lacks gives NaN |
| Frames.MulAligned | portfolio_performance.py:319 | two tables with the same labels multiply cell by cell and keep their labels |
| Frames.Lookup | portfolio_performance.py:212 | a defined cell lies under a row label and a column label of the table |
| Frames.LookupAt | portfolio_performance.py:212 | in a well-formed table, the cell under the labels of row t and column j is the cell at t and j |
| Frames.Times | portfolio_performance.py:212 | a product of two cells is defined exactly when both are, and is then the product of their values |
| Alignment.GetFullRangeForDates | portfolio_performance.py:231-250 | the keys of loaded tables whose index does not parse, in order, and the full range of the parsing tables (None when none parses) |
| Alignment.FullRange | portfolio_performance.py:242-248 | None exactly when no table parses; otherwise a nonempty contiguous daily range that contains every row label of every parsing table and starts and ends on such labels |
| Alignment.BadKeysAre | portfolio_performance.py:232-240 | a key is recorded as bad exactly when its table was loaded and its index does not parse |
| Alignment.BadKeys | portfolio_performance.py:231-241 | at most one bad key per table; which keys are bad is stated by BadKeysAre |
| Alignment.ParsedFrames | portfolio_performance.py:231-241 | at most one collected frame per table; which frames are collected is stated by ParsedFramesAre |
| Alignment.ParsedFramesAre | portfolio_performance.py:232-238 | a frame is collected exactly when some date table was loaded, parses, and holds that frame |
| Alignment.AllDates | portfolio_performance.py:245-246 | the concatenated indices hold every day of every collected frame, and only such days |
| Alignment.SeqMin | portfolio_performance.py:247 | `min()` of the concatenated index is one of its days and no later than any of them |
| Alignment.SeqMax | portfolio_performance.py:247 | `max()` of the concatenated index is one of its days and no earlier than any of them |
| Alignment.DateRange | portfolio_performance.py:248 | `date_range(start, end)` is a nonempty run of consecutive days from start to end, both included |
| Alignment.ParsedFramesEmpty | portfolio_performance.py:242-243 | no table parses exactly when no date table is usable, which is when there is no range |
| Alignment.Reindex | portfolio_performance.py:403-404 | the reindexed table has the new index and the old columns, and it is well formed when the table is and the index has no repeats |
| Alignment.ReindexByLabel | portfolio_performance.py:403-404 | after reindexing, a day of the new index holds what the table had under that day (NaN if it had none) and any other day holds nothing |
| Alignment.ReindexKeepsObservations | portfolio_performance.py:403-404 | reindexing onto a range that holds all of a table's days loses no cell |
| Alignment.ForwardFilled | portfolio_performance.py:265 | the forward-filled table keeps the labels and every defined cell |
| Alignment.LastValid | portfolio_performance.py:265 | the last valid observation of column j at or above row t: when defined it is the cell of some row u at or above t with every row between u and t undefined; it is undefined exactly when the column has no defined cell at or above t |
| Alignment.NormalizeAFrame | portfolio_performance.py:252-265 | the row-by-row fill, where each undefined cell takes the filled cell above it, yields the forward-filled table |
| Alignment.FillTakesNearestAbove | portfolio_performance.py:265 | a filled cell holds v exactly when v is the nearest defined value at or above it in its column |
| Alignment.LeadingGapsStay | portfolio_performance.py:257-258 | a filled cell is undefined exactly when its column has no defined value at or above it |
| Alignment.ForwardFillIdempotent | portfolio_performance.py:265 | forward-filling twice gives the same table as filling once |
| Alignment.AlignedTable | portfolio_performance.py:396-405 | a date table is left in place exactly when it is loaded and parses and a range exists; then it is well formed, has the range as its index and keeps its columns |
| CurrencyResolver.CurrencyRaw | portfolio_performance.py:176-192 | None exactly when the currencies or the exchanges are missing; otherwise the table has the exchange dates as rows and the asset ids as columns, the columns left wholly undefined by the join hold 1, and every other cell is the joined rate |
| CurrencyResolver.ResolvedColumn | portfolio_performance.py:182-191 | an asset whose currency is an exchange column with some defined rate gets exactly that column, NaN included; any other asset gets the constant 1 |
| CurrencyResolver.CurrencyRawWellFormed | portfolio_performance.py:182-185 | a well-formed exchange table and distinct asset ids give a well-formed rate table |
| ReturnEngine.Pct | portfolio_performance.py:160 | a return is undefined exactly when either value is undefined or the previous value is 0; a defined return compounds the previous value into the current one |
| ReturnEngine.PctChanges | portfolio_performance.py:160 | the first return is undefined and every later one is the relative change from the row before |
| ReturnEngine.Attitude | portfolio_performance.py:148-161 | a missing table gives None, otherwise a return table with the same labels that is well formed when the input is |
| ReturnEngine.AttitudeByColumn | portfolio_performance.py:160 | every column of the return table is the returns of the same input column: `Y[0]` undefined, `Y[t] = (X[t]-X[t-1])/X[t-1]` after it |
| Aggregator.StrictSum | portfolio_performance.py:319 | a row sum is defined exactly when every cell of the row is (`skipna=False`) |
| Aggregator.RowSums | portfolio_performance.py:319 | `sum(axis=1)` gives one point per row of the table, dated by that row's label |
| Aggregator.Portfolio | portfolio_performance.py:304-319 | None exactly when the returns or the weights are missing, otherwise one point per row label of the product table |
| Aggregator.StrictSumIsDot | portfolio_performance.py:319 | a fully defined row of products sums to the dot product of returns and weights |
| Aggregator.PortfolioAt | portfolio_performance.py:319 | for returns and weights with the same labels, row t's value is dated by t's label; it is defined exactly when every return and weight on that date is, and it is then the sum over assets of return times weight |
| Aggregator.PortfolioByLabel | portfolio_performance.py:319 | whatever the labels of the returns and the weights, point t is dated by the t-th day of the aligned product; it is defined exactly when every column label of either table has both a defined return and a defined weight on that day, and it is then the sum over those labels of return times weight |
| Aggregator.MulRowByLabel | portfolio_performance.py:319 | row t of the aligned product holds, under each column label, the product of the two tables' cells under that day and that label |
| Aggregator.SumByLabel | portfolio_performance.py:319 | the strict sum of the products of two label rows is defined exactly when every label has both cells defined, and is then their dot product |
| Accumulator.CumProdIsRunningProduct | portfolio_performance.py:416-418 | point t of the cumulative product is undefined exactly where the input is; otherwise it is the product of the defined values up to and including t |
| Accumulator.CumProdStep | portfolio_performance.py:416 | `Y[t] = Y[t-1](1+X[t])`: a defined point is the running product before it times its own value, and an undefined point does not reset the product |
| Accumulator.CompoundedReturns | portfolio_performance.py:416-418 | compounding the returns of a fully defined price column without zeros gives `X[t]/X[0]` for t of at least 1, and leaves point 0 undefined |
| Accumulator.AddOne | portfolio_performance.py:427 | `add(1)` keeps the name and every date, adds 1 to every defined value and leaves NaN as NaN |
| Accumulator.CumProd | portfolio_performance.py:427 | `cumprod()` keeps the name, the number of points and every date |
| Accumulator.Rename | portfolio_performance.py:427 | `rename(name)` sets the name and keeps every point |
| Accumulator.Within | portfolio_performance.py:427 | the points kept are exactly those dated in the window, and there are no more of them than before |
| Accumulator.WithinKeepsOrder | portfolio_performance.py:427 | cutting a series with increasing dates to a window keeps the dates increasing |
| Accumulator.Slice | portfolio_performance.py:421-422 | the documented window: exactly the points dated from the start, included, to the end, excluded, in their original order when the dates increase |
| Accumulator.SliceAsWritten | portfolio_performance.py:427 | the pandas label slice as written: exactly the points dated from start to end, both included, in their original order when the dates increase |
| Accumulator.SliceAsWrittenKeepsEnd | portfolio_performance.py:421-427 | a point dated exactly at the end is kept by the slice as written and dropped by the documented window |
| Accumulator.EmptyWindow | portfolio_performance.py:427 | a window whose start is not before its end holds no point |
| Accumulator.Performance | portfolio_performance.py:407-427 | None exactly for a missing series; otherwise it is named by the given name and holds exactly the points of the compounded `1 + r` series dated in `[start, end)`, with increasing dates when the input's dates increase |
| Accumulator.PerformanceAsWritten | portfolio_performance.py:427 | the same computation with the end date kept: exactly the compounded points dated from start to end, both included, with increasing dates when the input's dates increase |
| Accumulator.ReversedWindowIsEmpty | Tests/test_portfolio_performance.py:53-57 | a start after the end gives an empty series with the given name, not None |
| PortfolioPerformance.TotalRaw | portfolio_performance.py:206-212 | the total table is present exactly when prices, currencies and exchanges are all present |
| PortfolioPerformance.TotalRawByLabel | portfolio_performance.py:212 | each labelled cell of the total table is the price times the resolved rate under the same labels, NaN where either lacks the label |
| PortfolioPerformance.AssetPortfolioOf | portfolio_performance.py:329-330 | R[t] exists exactly when prices and weights exist |
| PortfolioPerformance.CurrencyPortfolioOf | portfolio_performance.py:340-341 | CR[t] exists exactly when currencies, exchanges and weights exist |
| PortfolioPerformance.TotalPortfolioOf | portfolio_performance.py:351-352 | TR[t] exists exactly when prices, currencies, exchanges and weights exist |
| PortfolioPerformance.PortfolioIncreasing | portfolio_performance.py:319 | a portfolio over a contiguous daily index, with weights on no other day, has increasing dates |
| PortfolioPerformance.AssetPortfolioIncreasing | portfolio_performance.py:329-330 | on prices and weights sharing one contiguous daily index, R[t] exists and its dates increase |
| PortfolioPerformance.CurrencyPortfolioIncreasing | portfolio_performance.py:340-341 | on exchanges and weights sharing one contiguous daily index, CR[t] exists and its dates increase |
| PortfolioPerformance.TotalPortfolioIncreasing | portfolio_performance.py:351-352 | on prices, exchanges and weights sharing one contiguous daily index, TR[t] exists and its dates increase |
| PortfolioPerformance.DateSources | portfolio_performance.py:375-377 | the three date tables in the loader's order, each under its own key |
| PortfolioPerformance.LoadedKeys | portfolio_performance.py:383-388 | `keys_for_reindex` holds exactly the loaded date keys, each once |
| PortfolioPerformance.CommonRange | portfolio_performance.py:394 | the common range exists exactly when some date table is usable; it is then a nonempty contiguous run of days without repeats that holds every day of every usable table and starts and ends on days of usable tables |
| PortfolioPerformance.CommonRangeSpans | portfolio_performance.py:231-250 | the full range of the parsing frames exists exactly when some date table is usable, covers every day of every usable table, and starts and ends on such days |
| PortfolioPerformance.UsableIsParsed | portfolio_performance.py:232-238 | the frame of every usable date table is among the collected frames |
| PortfolioPerformance.ParsedDayIsUsable | portfolio_performance.py:245-247 | every day of the concatenated indices is a day of some usable date table |
| PortfolioPerformance.Aligned | portfolio_performance.py:396-405 | a table left after construction is well formed and has the common range as its index |
| PortfolioPerformance.AlignedPresence | portfolio_performance.py:396-405 | a date table is present after construction exactly when its file was loaded and its index parses |
| PortfolioPerformance.AlignedTablesAgree | portfolio_performance.py:394-405 | all tables left after construction are well formed and share one contiguous daily index |
| PortfolioPerformance.ReindexStep | portfolio_performance.py:396-405 | a loaded table is a bad key exactly when its index does not parse, and then nothing is left under its key; otherwise a range exists and the table left is the loaded one reindexed onto it and forward-filled |
| PortfolioPerformance.ResultsByAvailability | portfolio_performance.py:85-92 | missing or corrupt prices void the asset and total results but not the currency one; missing currencies or missing or corrupt exchanges void the currency and total results but not the asset one; missing or corrupt weights void all three |
| PortfolioPerformance.AlignTables | portfolio_performance.py:393-405 | the reindexing loop: the bad keys are those of `_get_full_range_for_dates`, and every key ends up with its aligned table |
| PortfolioPerformance.PortfolioPerformanceData.constructor | portfolio_performance.py:372-405 | the caches start empty; the tables are the aligned ones, agree on one daily index, and the bad keys are recorded |
| PortfolioPerformance.PortfolioPerformanceData.GenerateAsset | portfolio_performance.py:274-275 | R[i,t] is filled from the prices only while it is empty; once filled it does not change; nothing else changes |
| PortfolioPerformance.PortfolioPerformanceData.GenerateCurrency | portfolio_performance.py:283-286 | the resolved rates and then CR[i,t] are each filled only while empty and never change once filled |
| PortfolioPerformance.PortfolioPerformanceData.GetTotalRaw | portfolio_performance.py:206-212 | None without prices, before anything is touched; otherwise it fills the shared rate cache while empty and returns prices times rates |
| PortfolioPerformance.PortfolioPerformanceData.GenerateTotal | portfolio_performance.py:295-296 | TR[i,t] is filled only while empty; the rate cache is filled with the resolved rates exactly when TR[i,t] was empty and prices are present, and is otherwise left as it was, so a filled cache is never replaced |
| PortfolioPerformance.PortfolioPerformanceData.GetAssetPortfolio | portfolio_performance.py:329-330 | returns R[t] of the current tables; R[i,t] is then cached, a cache already filled is kept as it was, and nothing else changes |
| PortfolioPerformance.PortfolioPerformanceData.GetCurrencyPortfolio | portfolio_performance.py:340-341 | returns CR[t] of the current tables; the rate cache and CR[i,t] are then filled, caches already filled are kept as they were, and nothing else changes |
| PortfolioPerformance.PortfolioPerformanceData.GetTotalPortfolio | portfolio_performance.py:351-352 | returns TR[t] of the current tables; TR[i,t] is then cached; the rate cache is filled with the resolved rates exactly when TR[i,t] was empty and prices are present, and is otherwise left as it was; caches already filled are kept as they were, and nothing else changes |
| PortfolioPerformance.PortfolioPerformanceData.PerformancesInOrder | portfolio_performance.py:427-475 | on the aligned tables, each of the three performance series the public calculations return, when present, has increasing dates |
| PortfolioPerformance.PortfolioPerformanceData.CalculateAssetPerformance | portfolio_performance.py:429-443 | `TypeError` exactly when a bound fails to convert, with the object unchanged; otherwise the performance of R[t] named "Pt" over the converted window, with R[i,t] cached afterwards (kept if it was already filled); the tables and the other caches never change; the date order of that result is proved separately by PerformancesInOrder |
| PortfolioPerformance.PortfolioPerformanceData.CalculateCurrencyPerformance | portfolio_performance.py:445-459 | the same for CR[t], named "CPt": after a run the rate cache and CR[i,t] hold their computations (kept if already filled); R[i,t], TR[i,t] and the tables never change; the date order of that result is proved separately by PerformancesInOrder |
| PortfolioPerformance.PortfolioPerformanceData.CalculateTotalPerformance | portfolio_performance.py:461-475 | the same for TR[t], named "TPt": after a run TR[i,t] holds its computation (kept if already filled), and the rate cache is filled with the resolved rates exactly when TR[i,t] was empty and prices are present, and is otherwise left as it was; R[i,t], CR[i,t] and the tables never change; the date order of that result is proved separately by PerformancesInOrder |

## Left out

- Loading (`os.path.exists`, `pd.read_csv`, `pd.to_numeric(errors='coerce')`, portfolio_performance.py:372-392) is file I/O and library coercion. The constructor is given the four tables as they stand after loading. A missing file is `Absent` or None.
- Parsing an index with `pd.to_datetime` becomes one flag per table, saying whether the whole index parses. A table that parses carries its labels as day numbers.
- The "index is corrupted" message and the `silent` flag (portfolio_performance.py:398-400) are output only. The bad keys are kept in the `badKeys` field instead.
- The import guard and `sys.exit` (portfolio_performance.py:7-17) are not part of this model.
- The decorator mechanics of `df_checker` and `date_checker` (getting the positional arguments, catching `KeyError`) are left out. What they produce is modelled: None for a missing table, and `TypeError` for a bad bound.
- Floating point is modelled by exact reals. Division by a previous value of 0, which gives an infinity or NaN in pandas, is modelled as undefined.
- Frames.Mul: when the labels differ, pandas sorts the union of the labels. The model keeps the first table's labels followed by the new ones. Both contain the same labels and the same cells.
- The `strptime` leniency of `pd.to_datetime(format='%Y%m%d')`, which accepts some fields with fewer digits, is not modelled. The model uses the documented rule of exactly eight digits.
- PortfolioPerformance.PortfolioPerformanceData.constructor requires `Loadable`, which covers two cases in which pandas raises inside `__init__`:
  - usable tables that are all empty, where `date_range` gets NaT bounds;
  - a usable table with repeated labels, which `reindex` refuses.
- CurrencyResolver.CurrencyRaw: for an asset whose currency is not a column of the exchange table, the model gives NaN (and then 1). This follows the right join. Pandas' treatment of duplicate asset ids is not modelled.
- The object is only ever used single-threaded. Concurrency is not modelled.
- DateNormalizer.TryConvertDateTime: a digit is one of the ASCII digits '0' to '9'. Python's `str.isdigit` is also true for other Unicode characters, and the source keeps them when stripping. For a digit-like character that is not a decimal digit, such as '²', `pd.to_datetime` then fails, so "2013²0201" raises `TypeError` in the source but is read here as 2013-02-01. For a decimal digit of another script, such as the Arabic-Indic '٢', pandas most likely reads it as its value, so "٢٠١٣٠٢٠١" would be 2013-02-01 in the source; here those characters are stripped, no digit is left, and the bound is rejected with `TypeError`.
- DateNormalizer.TryConvertDateTime: a Timestamp argument is a whole day. A Timestamp with a time of day, such as a start at 12:00, would make the label slice begin on the next day. That is not modelled.
- DateNormalizer.TextIsYmd: states the acceptance rule for ASCII digits only. Texts holding other Unicode digits are accepted here where the source rejects them (such as '²') or rejected here where the source accepts them (such as '٢'), as described for TryConvertDateTime.
- Aggregator.PortfolioAt: the special case of returns and weights with the same labels. Aggregator.PortfolioByLabel states the general case with no such requirement.

## Findings

| source | as written | input that shows it | evidently intended | confidence | as-written member | corrected member |
|---|---|---|---|---|---|---|
| portfolio_performance.py:40-43, 61 | a bound whose text has no digit strips to "", `pd.to_datetime("")` gives NaT instead of raising, NaT is truthy, so `date_checker` lets it through | `calculate_asset_performance("end", 20190120)` | every bound that names no day raises `TypeError` | low, not executed; depends on the pandas version: it holds where `pd.to_datetime("", format='%Y%m%d')` returns NaT, while pandas 1.x may raise ValueError instead, and the source then rejects the bound | DateNormalizer.DigitlessBoundPassesAsWritten | DateNormalizer.DateChecker |
| portfolio_performance.py:421-422, 427 | the label slice `[start_date:end_date]` on a date index includes `end_date`, while the docstring calls the end excluded | a series with a point dated exactly `end_date` | the window `[start_date, end_date)` | high, not executed | Accumulator.SliceAsWrittenKeepsEnd | Accumulator.Performance |

The model uses the corrected member of each row. The performance
calculations use the documented window.
