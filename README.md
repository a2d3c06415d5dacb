# ebayData analytics core, modelled in Dafny

The model covers the part of the ebayData application that does the arithmetic. The rest of the application is plumbing: HTTP, templates and the DOM.

- **Dataset service** (`src/app/dataset_service.py`):
  - the two-field dataset state, with its default and upload modes;
  - the missing-value and number parser;
  - the quantile and statistics helpers;
  - five capped scans over the opened CSV file: the preview page, the dataset summary, the raw column values, the top values and the column statistics.
- **Item analytics** (`src/app/analytics.py`):
  - the equal-width histogram;
  - `compute_analytics` over normalised search results: price, shipping, total and seller statistics, per-field missing counters, currency and group counters, and top-7 lists.
- **Normalisers** (`src/app/transform.py`): the JSON path lookup `_get`, and the three normalisers of eBay Browse API payloads.
- **Browser code**:
  - the HTML escaper, item-id, money and number helpers of `static/js/app.js` (the escaper `esc` at the top of `static/js/dataset.js` is the same code, and one model covers both);
  - the client-side number parser, histogram, row filters and page arithmetic of `static/js/dataset.js`.

The modules follow the program's structure:

| module (file) | models |
|---|---|
| `Wrappers` (wrappers.dfy) | `Option` and `Result`, plus the Python exceptions the code can raise |
| `Text` (text.dfy) | strip/trim, lower-casing, character deletion and substring search |
| `Numerals` (numerals.dfy) | decimal literals and Python's `float()` on text |
| `ValueParser` (value_parser.dfy) | `NA_TOKENS`, `_is_missing` and `_try_float`, and the three-way classification of a cell |
| `Counters` (counter.dfy) | `collections.Counter`: a sequence of (key, count) entries in first-insertion order; `most_common` is a stable sort by descending count, then a prefix |
| `Stats` (stats.dfy) | `_quantile` and `_stats`; `analytics.py` carries a verbatim copy of both, which this one model covers |
| `Histogram` (histogram.dfy) | `analytics._histogram`, whose counts are built in an array |
| `State` (dataset_state.dfy) | `DatasetState` as a class with `mode` and `path`, its readers and its two mutators |
| `Records` (records.dfy) | the opened file as a header plus raw lines, the records `csv.DictReader` makes of them, `csv.DictReader`'s `r.get(name)`, the row caps, and per-column cell counts |
| `DatasetService` (dataset_service.dfy) | `read_preview`, `get_column_values`, `get_top_values` and `get_column_stats`, each a loop proved against a function of the window it scans |
| `DatasetSummary` (summary.dfy) | `compute_summary`: the row loop, the per-column counters, and the numeric/categorical split |
| `Json` (json.dfy), `Transform` (transform.dfy) | JSON values, `_get` and the normalisers |
| `Analytics` (analytics.dfy) | `_to_float` and `compute_analytics` |
| `JsValues` (js_values.dfy) | JavaScript values, `??`, truthiness, `String(v)` and `Number(v)` |
| `AppJs` (app_js.dfy) | `esc` (of `static/js/app.js`, and its verbatim copy in `static/js/dataset.js`), `shortItemId`, `money` and `toNumber` |
| `DatasetPage` (dataset_js.dfy) | `isMissingToken`, `tryParseNumber`, `buildHistogramBins`, the filters, and the page state as a class |

Numbers are Dafny `real`s. `None` stands for `NaN`, the infinities and every failed conversion.

The opened file is a `FileSystem`: a map from path to `Table`. A path that is absent gives `Failure(FileNotFound(path))`.

A CSV line is a sequence of raw fields. `csv.DictReader` skips blank lines (`row == []`): they are no records, so they count towards neither a row cap, the preview offset nor `row_count` (`Records.NonBlank`). `Records.Cell` gives what `csv.DictReader` puts under a column name:
- a duplicated name reads the field at its last position; the preview row of `read_preview` still has one entry per header position (`DatasetService.ProjectRow`), where Python's dict comprehension keeps the name once, with the same value;
- a record too short to reach that position reads `None`;
- a name that is not in the header reads `""`, the default passed to `r.get`.

The model follows the code where the code is surprising:
- the upload-mode text says the file is not trimmed, yet the summary scan stops at 2000 rows and the column statistics at `max_rows`;
- `get_column_stats` on an unknown column counts every scanned row as missing;
- `get_column_values` tests its limit only after appending, so a limit of 0 or less stops after the first record, returning that record's value when it is present and nothing otherwise;
- `_get` does not guard negative list indices.

## Model

| member | source | states |
|---|---|---|
| State.Mode.Name | src/app/dataset_service.py:24 | the mode's name is "default" exactly for the default mode |
| State.DatasetState.constructor | src/app/dataset_service.py:22-25 | a fresh state is in default mode on the bundled file, and is valid |
| State.DatasetState.CurrentPath | src/app/dataset_service.py:35-36 | upload mode reads the stored path, default mode the bundled file; in a valid state both are the stored path |
| State.DatasetState.ModeText | src/app/dataset_service.py:39-42 | each mode has its fixed description; the upload text claims no trimming |
| State.DatasetState.HardCap | src/app/dataset_service.py:141 | the 2000-row cap exists exactly in default mode |
| State.DatasetState.SetUploadedPath | src/app/dataset_service.py:45-47 | switches to upload mode on the given path; afterwards the current path is that path and there is no cap |
| State.DatasetState.SetDefault | src/app/dataset_service.py:50-52 | switches back to the bundled file with its text and its 2000-row cap |
| Text.Strip | src/app/dataset_service.py:62 | the stripped text is no longer than the input |
| Text.StripFacts | src/app/dataset_service.py:62 | a stripped string has whitespace at neither end |
| Text.StripIdempotent | src/app/dataset_service.py:62 | stripping twice is stripping once |
| Text.Lower | src/app/dataset_service.py:62 | lower-casing maps each character in place and keeps the length |
| Text.KeepNumChars | src/app/dataset_service.py:82 | only digits, `.` and `-` survive |
| Numerals.DecimalLiteral | src/app/dataset_service.py:84-90 | a value exists exactly for an optional `-` followed by digits with at most one `.` and at least one digit |
| Numerals.PyFloatOnNumChars | src/app/dataset_service.py:87-90 | on text over `[0-9.-]`, `float()` accepts exactly the decimal literals and gives their value |
| ValueParser.CleanNumber | src/app/dataset_service.py:80-82 | the cleaned text holds only digits, `.` and `-` |
| ValueParser.IsMissing | src/app/dataset_service.py:59-63 | `None` is missing; a text is missing exactly when, stripped and lower-cased, it is one of the tokens, so blank text is missing; a missing text is, once stripped, no longer than the longest token, "not available" |
| Numerals.PyFloat | src/app/dataset_service.py:88 | `float()` of blank text raises, which the model writes `None` |
| ValueParser.CleanNumberIsKept | src/app/dataset_service.py:80-82 | deleting commas and whitespace, then everything outside `[0-9.-]`, keeps exactly the `[0-9.-]` characters of the cell in order |
| ValueParser.TryFloat | src/app/dataset_service.py:66-90 | a missing cell gives `None`; any other cell gives the decimal literal spelled by its kept characters, so "", "-", "." and "-." give `None` |
| ValueParser.Classify | src/app/dataset_service.py:59-90 | every cell is exactly one of missing, a number (the parser's value) or unparsable |
| ValueParser.PercentExample | src/app/dataset_service.py:73-75 | "12.5%" parses to 12.5 |
| ValueParser.PaddedExample | src/app/dataset_service.py:73-75 | " 99 " parses to 99 |
| ValueParser.PriceExample | src/app/dataset_service.py:73-75 | "$1,234.50" parses to 1234.5 |
| ValueParser.WordTokensClean | src/app/dataset_service.py:15 | the two word tokens contain no digit, dot or minus |
| Counters.Inc | src/app/dataset_service.py:275 | `cnt[s] += 1` keeps the key order, and appends a new key with count 1 |
| Counters.GetInc | src/app/dataset_service.py:275 | an increment raises exactly that key's count by one |
| Counters.TallySnoc | src/app/dataset_service.py:270-275 | counting one more label is one increment |
| Counters.TallyGet | src/app/dataset_service.py:270-275 | each counted label's count is its number of occurrences |
| Counters.TallyKeys | src/app/dataset_service.py:270-275 | the counter's keys are exactly the labels seen |
| Counters.TallyDistinct | src/app/dataset_service.py:262-275 | a counter holds each key once |
| Counters.TallyTotal | src/app/dataset_service.py:270-275 | the counts are positive and sum to the number of labels |
| Counters.TallyFirstSeen | src/app/dataset_service.py:270-275 | keys are kept in order of first occurrence |
| Counters.KeysIffPositive | src/app/dataset_service.py:262-275 | in a counter of positive entries, a key is present exactly when its count is positive |
| Counters.SortByCount | src/app/dataset_service.py:277 | the entries are permuted into non-increasing count order |
| Counters.SortByCountStable | src/app/dataset_service.py:277 | entries of equal count keep their relative order |
| Counters.MostCommon | src/app/dataset_service.py:277 | `most_common(n)` takes min(n, size) entries in non-increasing order, drawn from the counter; entries of equal count keep insertion order; every left-out entry counts no more than any kept one |
| Counters.MostCommonCounts | src/app/dataset_service.py:277-279 | labels and counts have equal length of at most `limit`; each label occurs in the input and its count is its positive number of occurrences |
| Counters.MostCommonOrder | src/app/dataset_service.py:277-279 | the labels are distinct and their counts non-increasing |
| Counters.MostCommonFirstSeen | src/app/dataset_service.py:277 | `most_common(1)` breaks ties towards the first-inserted entry: every entry before the one it picks counts strictly less |
| Counters.MostCommonMaximal | src/app/dataset_service.py:277-279 | a label that is left out occurs no more often than any label returned |
| Stats.Sort | src/app/dataset_service.py:121 | `sorted` returns an ascending permutation of its input |
| Stats.InsertAscendingSorted | src/app/dataset_service.py:121 | inserting into a sorted list keeps it sorted |
| Stats.PopVariance | src/app/dataset_service.py:131 | the population variance is non-negative |
| Stats.Quantile | src/app/dataset_service.py:93-105 | `None` exactly for an empty list; q ≤ 0 gives the first element and q ≥ 1 the last; on a sorted list the result lies between the first and the last element |
| Stats.QuantileInside | src/app/dataset_service.py:100-105 | for 0 < q < 1 the position (n-1)q is within the list, and the result is the interpolation there; on sorted input it lies between `sorted_vals[lo]` and `sorted_vals[hi]` |
| Stats.InterpolateBounds | src/app/dataset_service.py:100-105 | on sorted input, the interpolation at any position in the list lies between `sorted_vals[lo]` and `sorted_vals[hi]`, hence between the first and last values |
| Stats.QuantileMonotone | src/app/dataset_service.py:93-105 | on a sorted list a larger q never gives a smaller quantile |
| Stats.MedianIsHalfQuantile | src/app/dataset_service.py:130 | `statistics.median` equals the 0.5 quantile, for odd and even lengths |
| Stats.MeanBounds | src/app/dataset_service.py:129 | the mean lies between any lower and upper bound of the values |
| Stats.Stats | src/app/dataset_service.py:108-135 | empty input gives count 0 and every other field `None`; otherwise count = length, min and max are values bounding every value, min ≤ q1 ≤ median ≤ q3 ≤ max, min ≤ avg ≤ max, iqr = q3 − q1 ≥ 0, and the variance is non-negative and 0 for one value |
| Stats.QuartilesOrdered | src/app/dataset_service.py:122-130 | on a sorted list, first ≤ q1 ≤ median ≤ q3 ≤ last |
| Stats.StatsFacts | src/app/dataset_service.py:121-131 | the sorted list's ends are the minimum and maximum of the input and bound the quartiles, the median and the mean |
| Histogram.Min | src/app/analytics.py:76 | the minimum is an element no greater than any element |
| Histogram.Max | src/app/analytics.py:77 | the maximum is an element no smaller than any element |
| Histogram.QuantileEnds | src/app/analytics.py:20-25 | on a sorted list the quantile at 0 is `min` and the one at 1 is `max` |
| Histogram.Trunc | src/app/analytics.py:91 | `int()` truncates toward zero: the floor for non-negative numbers, minus the floor of the negation otherwise |
| Histogram.Width | src/app/analytics.py:83 | for distinct min and max the step is positive |
| Histogram.Clamp | src/app/analytics.py:92-95 | the clamped index is within [0, bins) and equals the raw index when that is in range |
| Histogram.BinCounts | src/app/analytics.py:87-96 | there are `bins` counts, each the number of values whose clamped index is that bin |
| Histogram.BinCountsTotal | src/app/analytics.py:87-96 | the counts sum to the number of values |
| Histogram.LastEdge | src/app/analytics.py:83-101 | the last bin ends exactly at the maximum |
| Histogram.MaxInLastBin | src/app/analytics.py:91-93 | the maximum lands in the last bin |
| Histogram.ValueInItsBin | src/app/analytics.py:91-96 | a value between min and max lands in the bin whose edges enclose it |
| Histogram.HistogramOf | src/app/analytics.py:70-104 | raises exactly when the values differ and bins ≤ 0; no bins exactly for no values |
| Histogram.HistogramOfTotal | src/app/analytics.py:70-104 | the bin counts sum to the number of values |
| Histogram.PyHistogram | src/app/analytics.py:70-104 | empty gives no bins; equal values give one bin [v, v] holding all of them; bins = 0 raises `ZeroDivisionError` and bins < 0 `IndexError`; otherwise exactly `bins` contiguous bins from min to max whose counts are the clamped counts and sum to the number of values |
| Histogram.CountBins | src/app/analytics.py:87-96 | the in-place counting loop computes the clamped counts, and fails with `IndexError` for bins ≤ 0 |
| Histogram.Bins | src/app/analytics.py:98-102 | bin i spans the edges mn + i·step and mn + (i+1)·step and carries the i-th count |
| Records.LastIndex | src/app/dataset_service.py:187 | the last position of a name in the header, or −1 exactly when the name is absent |
| Records.Cell | src/app/dataset_service.py:187 | an unknown column reads `""`; `None` exactly when the record is too short for the column |
| Records.CellOfDistinctHeader | src/app/dataset_service.py:187 | with distinct header names, column k reads field k, or `None` past the end of the record |
| Records.NonBlank | src/app/dataset_service.py:151 | the records are no more than the lines, and none of them is blank |
| Records.NonBlankMembers | src/app/dataset_service.py:151 | a record is exactly a line that is not blank |
| Records.NonBlankConcat | src/app/dataset_service.py:151 | the records of a file are those of its parts in order, and a blank line anywhere changes nothing |
| Records.Scanned | src/app/dataset_service.py:152-153 | the scanned window is a prefix of the file: the whole file without a cap, otherwise min(cap, rows) rows |
| Records.MissingCount | src/app/dataset_service.py:308-310 | at most one missing cell per scanned row |
| Records.UnparsableCount | src/app/dataset_service.py:312-315 | at most one unparsable cell per scanned row |
| Records.ParsedValues | src/app/dataset_service.py:312-316 | at most one parsed value per scanned row |
| Records.PresentValues | src/app/dataset_service.py:248-251 | at most one raw value per scanned row |
| Records.Labels | src/app/dataset_service.py:270-275 | at most one label per scanned row |
| Records.ScanPartition | src/app/dataset_service.py:307-316 | missing, unparsable and parsed cells of a column add up to the rows scanned |
| Records.PresentValuesNotMissing | src/app/dataset_service.py:248-251 | no collected raw value is missing |
| Records.PresentCount | src/app/dataset_service.py:188-192 | present and missing cells add up to the rows scanned |
| Records.UnknownColumnAllMissing | src/app/dataset_service.py:307-310 | a column absent from the header is missing in every row and yields no values |
| Records.EmptyIsMissing | src/app/dataset_service.py:14 | the empty cell is missing |
| Records.PresentValuesPrefix | src/app/dataset_service.py:244-253 | the values of a prefix of the rows are a prefix of the values of all rows |
| Records.HitCounts | src/app/dataset_service.py:186-196 | the per-kind counts are the missing count, the present count and the parsed count |
| Records.NumericValuesLength | src/app/dataset_service.py:186-196 | a column name that occurs m times in the header collects m copies of each parsed value |
| Records.SingleColumnValues | src/app/dataset_service.py:186-196 | a column named once collects exactly its parsed values |
| DatasetService.ProjectRow | src/app/dataset_service.py:156 | a preview row has one entry per header column: the cell, with `None` turned into `""` |
| DatasetService.ProjectRows | src/app/dataset_service.py:156 | the rows are projected one for one |
| DatasetService.Page | src/app/dataset_service.py:150-158 | the page is the block of at most `limit` rows from position max(offset, 0), and is full whenever rows remain after it |
| DatasetService.PageStep | src/app/dataset_service.py:155-156 | one more row is appended exactly when it is past the offset and the page is not yet full |
| DatasetService.ReadPreview | src/app/dataset_service.py:138-160 | returns the header and the projected rows of the page of the capped window, never more than `limit`; a missing file fails |
| DatasetService.GetColumnValues | src/app/dataset_service.py:235-254 | returns a prefix of the column's non-missing raw values in the capped window, at most `limit` of them (one when limit ≤ 0), all of them when fewer than `limit`, and none for an unknown column |
| DatasetService.ScanColumn | src/app/dataset_service.py:243-253 | the loop with its two breaks computes that prefix |
| DatasetService.ColumnValuesFacts | src/app/dataset_service.py:244-253 | the output is a prefix of the present values, bounded by the limit, and complete when short of it |
| DatasetService.ColumnValuesExhausted | src/app/dataset_service.py:244-253 | when the limit is never reached, all present values come back |
| DatasetService.ColumnValuesFull | src/app/dataset_service.py:252-253 | the loop stops at the first row where the output reaches the limit |
| DatasetService.FirstRecordOnly | src/app/dataset_service.py:250-253 | with limit ≤ 0 the loop stops after the first row, returning at most one value |
| DatasetService.LimitReached | src/app/dataset_service.py:252-253 | with limit ≥ 1 the output then has exactly `limit` values |
| DatasetService.ColumnValuesUnknown | src/app/dataset_service.py:248 | an unknown column yields no values |
| DatasetService.BlankIsMissing | src/app/dataset_service.py:271-274 | a blank cell is already missing |
| DatasetService.LabelsNonBlank | src/app/dataset_service.py:270-275 | every counted label is non-empty and already stripped |
| DatasetService.GetTopValues | src/app/dataset_service.py:257-280 | returns the keys and counts of `most_common(limit)` over the stripped non-missing labels of the capped window; every label occurs there and is non-blank and stripped |
| DatasetService.CountLabels | src/app/dataset_service.py:262-275 | the counting loop builds the counter of those labels |
| DatasetService.StatsCap | src/app/dataset_service.py:301-304 | the cap is 2000 in default mode and `max_rows` (0 when negative) in upload mode |
| DatasetService.ParseRatio | src/app/dataset_service.py:319-320 | the ratio is 0 when nothing is non-missing, otherwise parsed / non-missing |
| DatasetService.ParseRatioBounds | src/app/dataset_service.py:319-320 | the ratio lies in [0, 1] |
| DatasetService.ColumnStatsFacts | src/app/dataset_service.py:318-331 | missing + unparsable + parsed = rows scanned, the ratio is in [0, 1], and the statistics count the parsed values |
| DatasetService.GetColumnStats | src/app/dataset_service.py:283-331 | the result is the statistics of the window capped at 2000 rows (default) or `max_rows` (upload); a missing file fails |
| DatasetService.ScanStats | src/app/dataset_service.py:298-316 | the loop counts the rows scanned, the missing and unparsable cells, and collects the parsed values in order |
| DatasetService.CountCell | src/app/dataset_service.py:307-316 | one cell bumps exactly one of the missing count, the unparsable count and the value list |
| DatasetSummary.Basename | src/app/dataset_service.py:220 | the name is the suffix after the last `/` |
| DatasetSummary.InitialValues | src/app/dataset_service.py:177 | the value lists start with one entry per header column |
| DatasetSummary.ValuesRows | src/app/dataset_service.py:177-196 | the value map keeps exactly the header columns as keys |
| DatasetSummary.ComputeSummary | src/app/dataset_service.py:163-232 | the summary of the window capped at 2000 rows: at most 2000 rows, the mode's text, and the 2000 cap exactly in default mode; a missing file fails |
| DatasetSummary.ScanSummary | src/app/dataset_service.py:179-196 | the row loop computes the row count, the three counters and the value lists over the capped window |
| DatasetSummary.ScanSummaryRow | src/app/dataset_service.py:186-196 | the column loop applies each column's update in header order |
| DatasetSummary.ScanSummaryCell | src/app/dataset_service.py:187-196 | a cell bumps `missing`, or `non_missing_cnt` plus, when it parses, `numeric_ok_cnt` and the column's values |
| DatasetSummary.ClassifyColumns | src/app/dataset_service.py:198-217 | the classification loop yields the numeric columns, the categorical columns and the numeric statistics |
| DatasetSummary.ClassifyColumn | src/app/dataset_service.py:202-217 | a column goes to exactly one list; a numeric column with values gets its statistics and ratio |
| DatasetSummary.GetCountRows | src/app/dataset_service.py:186-196 | a counter entry is the column's header multiplicity times its per-row hits |
| DatasetSummary.CountRowsWellFormed | src/app/dataset_service.py:173-196 | the counters hold each key once with a positive count |
| DatasetSummary.ValuesRowsAt | src/app/dataset_service.py:196 | a column's value list is its parsed values, repeated per header occurrence |
| DatasetSummary.NumericIff | src/app/dataset_service.py:205-210 | numeric exactly when non-missing > 0, ok/non-missing ≥ 0.70 and ok ≥ 5 |
| DatasetSummary.ColumnsPartition | src/app/dataset_service.py:198-217 | the numeric and categorical lists together are a rearrangement of the header |
| DatasetSummary.NumericColumnsConcat | src/app/dataset_service.py:198-217 | `numeric_cols` is built in header order: the list of a split header is the lists of its parts, concatenated |
| DatasetSummary.CategoricalColumnsConcat | src/app/dataset_service.py:198-217 | likewise for `categorical_cols` |
| DatasetSummary.ColumnsMembership | src/app/dataset_service.py:198-217 | a column is numeric exactly when it passes the test, and categorical exactly when it fails it |
| DatasetSummary.NumericStatsKeys | src/app/dataset_service.py:210-215 | the statistics cover exactly the numeric columns that have values |
| DatasetSummary.NumericStatsValues | src/app/dataset_service.py:212-215 | a column's entry is `_stats` of its values together with ok / non-missing |
| DatasetSummary.MissingCounts | src/app/dataset_service.py:186-192 | `missing[c]` counts the missing cells; missing + non-missing = multiplicity × rows; a key is present exactly when some cell of the column is missing |
| DatasetSummary.ColumnCounts | src/app/dataset_service.py:192-195 | `non_missing_cnt` and `numeric_ok_cnt` count the present and parsed cells |
| DatasetSummary.NumericStatsOfColumn | src/app/dataset_service.py:198-217 | a column has statistics exactly when it is numeric, and then they are those of its parsed values with the parsed/present ratio |
| Transform.Get | src/app/transform.py:6-16 | the loop over the path computes the path walk |
| Transform.WalkPath | src/app/transform.py:6-16 | the empty path ends at the start value; the only error a walk raises is `IndexError` |
| Transform.GetPath | src/app/transform.py:6-16 | the empty path returns the value itself; the only failure is `IndexError` |
| Transform.WalkConcat | src/app/transform.py:7-16 | walking p + q is walking p, then q from where p ended |
| Transform.StepAfterPath | src/app/transform.py:8-15 | one step returns the element or field when present, and the default for a non-list, a non-dict, an index past the end or an absent key; an index below −length raises |
| Transform.NonNegativePathSafe | src/app/transform.py:8-11 | a path without negative indices never raises |
| Transform.NormalizeItemSummary | src/app/transform.py:19-42 | `category_id` is the first category's id when truthy, else the first leaf category id |
| Transform.ShippingFromFirstOption | src/app/transform.py:23-24 | shipping value and currency come from the first shipping option's cost |
| Transform.Dicts | src/app/transform.py:47 | keeps at most the given entries |
| Transform.DictsConcat | src/app/transform.py:47 | picking the dicts distributes over concatenation, so order is kept |
| Transform.DictsMembers | src/app/transform.py:47 | exactly the dict entries are kept |
| Transform.NormalizeAll | src/app/transform.py:47 | one summary per dict, in order |
| Transform.NormalizeSearchResponse | src/app/transform.py:45-55 | fails exactly when `itemSummaries` is a truthy number or boolean; otherwise the items are the normalised dict entries in order, total and offset default to 0, and limit defaults to the item count |
| Transform.AspectsConcat | src/app/transform.py:71-77 | the aspect strings distribute over concatenation, one per dict aspect whose name and value are truthy |
| Transform.Description | src/app/transform.py:65-66 | a dict description becomes its `text`, else its `content`, else its rendering; any other value is kept |
| Transform.NormalizeItemDetails | src/app/transform.py:58-84 | id and short description are copied; the description is resolved as above; the aspects are the in-order "name: value" strings, and none when `localizedAspects` is not a list |
| Analytics.Label | src/app/analytics.py:132-168 | `(v or default).strip()` fails exactly on a truthy non-string, and otherwise strips the chosen string |
| Analytics.ToFloat | src/app/analytics.py:8-15 | `None`, lists and dicts give `None`; integers and floats give their value; blank text gives `None` |
| Analytics.ToFloatOfNumChars | src/app/analytics.py:8-15 | on text over `[0-9.-]`, `_to_float` is the value of the decimal literal |
| Analytics.Values | src/app/analytics.py:137-158 | each collected list has at most one value per item |
| Analytics.Totals | src/app/analytics.py:149-152 | at most one total per item |
| Analytics.CurrencyLabels | src/app/analytics.py:132-134 | every counted currency is non-empty |
| Analytics.ComputeAnalytics | src/app/analytics.py:107-200 | succeeds exactly when every item gets through the loop, and then returns the analytics of all items; otherwise `AttributeError` |
| Analytics.ScanItems | src/app/analytics.py:125-168 | the loop computes the lists and counters of all items, or fails on the first bad item |
| Analytics.AddItem | src/app/analytics.py:126-168 | one pass of the loop body extends the accumulators by one item |
| Analytics.ValuesStep | src/app/analytics.py:137-158 | an item adds its value to a list exactly when the value converts |
| Analytics.TotalsStep | src/app/analytics.py:149-152 | an item adds price + shipping, a missing part counted as 0, unless both are missing |
| Analytics.GetMissingUpdate | src/app/analytics.py:137-158 | one item adds one to each missing field, to `total` only when price and shipping are both missing, and nothing to other keys |
| Analytics.MissingCounts | src/app/analytics.py:125-158 | for price, shipping, seller and total, missing + collected = items; total is missing no more often than price or shipping |
| Analytics.MissingKeysCounted | src/app/analytics.py:118-158 | `missing` holds each key once, and a key exactly when its count is positive |
| Analytics.MissingPositive | src/app/analytics.py:118-158 | every entry of `missing` is positive |
| Analytics.GroupTotals | src/app/analytics.py:161-168 | each grouping counts every item once: its counts sum to the item count |
| Analytics.CommonOf | src/app/analytics.py:174 | the common label is empty exactly when there are no labels, and otherwise a label no other label outnumbers |
| Analytics.CommonCurrency | src/app/analytics.py:174 | "" for an empty counter; otherwise the key of the first entry of the counter that no other entry outnumbers (every earlier entry counts strictly less) |
| Analytics.CommonCurrencyFacts | src/app/analytics.py:132-174 | `currency_most_common` is "" exactly when no item has a currency, and otherwise a most frequent one |
| Analytics.AnalyticsFacts | src/app/analytics.py:183-200 | `count_items` is the item count; each statistic's count plus its missing count is the item count; each histogram holds every value of its statistic |
| AppJs.Esc | static/js/app.js:3-10 | `null` and `undefined` escape to "" |
| AppJs.EscapeTextIsCharwise | static/js/app.js:4-9 | the five `replaceAll` passes, `&` first, escape each character independently |
| AppJs.EscapeRoundTrip | static/js/app.js:4-9 | decoding the five entities recovers the original text |
| AppJs.EscapeSafe | static/js/app.js:4-9 | the output has no `<`, `>`, `"` or `'`, and every `&` starts one of the five entities |
| AppJs.EscapePlain | static/js/app.js:4-9 | text without special characters is returned unchanged |
| AppJs.Split | static/js/app.js:17 | `split` gives at least one part, and at least two when the separator occurs |
| AppJs.SplitJoin | static/js/app.js:17 | joining the parts gives back the text, and no part contains the separator |
| AppJs.ShortItemId | static/js/app.js:12-21 | a falsy id gives ""; an id without a vertical bar is returned as text; otherwise the text between the first and the second bar |
| AppJs.ShortItemIdOfEbayId | static/js/app.js:12-21 | an eBay id of the form v1, legacy id, variation, joined by vertical bars, gives the legacy id |
| AppJs.Money | static/js/app.js:23-28 | never empty; anything but "—" is already trimmed |
| AppJs.MoneyOfStrings | static/js/app.js:23-28 | for two strings, the price is `"<value> <currency>"` trimmed, or "—" when that is blank |
| AppJs.MoneyOfTrimmed | static/js/app.js:23-28 | a trimmed non-empty value and currency come back as `value + " " + currency` |
| AppJs.MoneyWithoutCurrency | static/js/app.js:23-28 | with a nullish currency the price is the trimmed value, or "—" when that is blank |
| AppJs.MoneyOfNothing | static/js/app.js:23-28 | two nullish parts give "—" |
| AppJs.ToNumber | static/js/app.js:30-33 | a non-finite `Number(x)` becomes 0, and a finite one is returned |
| AppJs.ToNumberOfDecimal | static/js/app.js:30-33 | on a decimal literal, `toNumber` is its value |
| JsValues.StringToNumber | static/js/app.js:31 | `Number()` of blank text is 0, and of text over `[0-9.-]` the decimal literal's value |
| JsValues.FiniteNumber | static/js/app.js:31-32 | `undefined`, `NaN`, the infinities and plain objects are not finite; `null` is 0; a finite number is itself; blank text is 0 and text over `[0-9.-]` its decimal literal |
| DatasetPage.IsMissingToken | static/js/dataset.js:163-166 | `null` and `undefined` are missing tokens, and a cell missing for the browser is missing for the server too |
| DatasetPage.TokensOfServer | static/js/dataset.js:163-166 | the browser's tokens are a strict subset of the server's, lacking exactly "not available" and "n\a", so a browser-missing cell is server-missing |
| DatasetPage.CleanText | static/js/dataset.js:172-176 | the cleaned text holds only digits, `.` and `-` |
| DatasetPage.CleanTextIsKept | static/js/dataset.js:172-176 | the cleaning keeps exactly the `[0-9.-]` characters in order |
| DatasetPage.TryParseNumber | static/js/dataset.js:168-181 | `null` for an absent value or a missing token; otherwise the decimal literal spelled by the kept characters |
| DatasetPage.NotNumerals | static/js/dataset.js:177 | "", "-", "." and "-." are not numbers |
| DatasetPage.ExtraTokensClean | src/app/dataset_service.py:15 | the two server-only tokens clean to "" |
| DatasetPage.TryParseNumberIsTryFloat | static/js/dataset.js:168-181 | the browser parser agrees with the server's `_try_float` on every cell |
| DatasetPage.Finite | static/js/dataset.js:108 | the finite numbers are kept in order, no more than the inputs |
| DatasetPage.HistogramBins | static/js/dataset.js:107-132 | labels and counts have equal length, and are empty exactly when no value is finite; distinct values give `bins` counts; the counts add up to the number of finite values |
| DatasetPage.BuildHistogramBins | static/js/dataset.js:107-132 | the histogram of the finite values |
| DatasetPage.CountFloored | static/js/dataset.js:116-123 | the counting loop over the array computes the clamped bin counts |
| DatasetPage.HistogramBinsAgree | static/js/dataset.js:107-132 | the counts sum to the number of finite values and equal the server histogram's counts, with the same bin edges |
| DatasetPage.Filter | static/js/dataset.js:244-270 | keeps no more rows than it is given |
| DatasetPage.FilterIsSubsequence | static/js/dataset.js:244-270 | the shown rows are an order-preserving subsequence of the raw rows |
| DatasetPage.FilterMembers | static/js/dataset.js:244-270 | a row is shown exactly when it is a raw row that passes the test |
| DatasetPage.FilterIdempotent | static/js/dataset.js:244-270 | filtering again changes nothing |
| DatasetPage.Keeps | static/js/dataset.js:244-270 | the range test passes only a row whose column holds a value that is no missing token; the text test over no columns passes nothing, and an empty needle passes every row when there are columns |
| DatasetPage.Shown | static/js/dataset.js:225-271 | the shown rows are an order-preserving subsequence of the raw rows, holding exactly the raw rows the chosen filter passes, and all of them when the inputs choose no filter |
| DatasetPage.NumberOr | static/js/dataset.js:284-285 | an empty box gives the default, a box of spaces gives 0, and a decimal text its value |
| DatasetPage.ClampSize | static/js/dataset.js:284 | `NaN` stays `NaN`; any other size lands in [10, 500], unchanged when already inside |
| DatasetPage.ClampPage | static/js/dataset.js:285 | `NaN` stays `NaN`; any other page is at least 1, unchanged when already so |
| DatasetPage.Offset | static/js/dataset.js:286 | `NaN` exactly when the page or the size is; non-negative for a page of at least 1 and a non-negative size |
| DatasetPage.DatasetPage.constructor | static/js/dataset.js:184-194 | empty columns and rows, page size 50, page 1, offset 0 |
| DatasetPage.DatasetPage.SetNumericColumns | static/js/dataset.js:334 | the numeric set is the summary's numeric columns; nothing else changes |
| DatasetPage.DatasetPage.ApplyFilter | static/js/dataset.js:225-271 | the shown rows become `Shown` of the raw rows and the filter inputs: all raw rows when both bounds are unparsable or the text is empty, otherwise those whose value parses and lies within the bounds, or which contain the lower-cased text in a checked column (the chosen one, or all); nothing else changes |
| DatasetPage.DatasetPage.LoadPreviewPage | static/js/dataset.js:273-310 | page size, page and offset follow the inputs; a failed fetch leaves columns and rows as they were; a successful one replaces the columns and raw rows and shows `Shown` of the new rows for the filter inputs |
| DatasetPage.PagingBounds | static/js/dataset.js:284-286 | the page size lies in [10, 500] and equals a request in range; the page is at least 1; the offset is non-negative and is k·size on page k+1; empty inputs give 50 and 1 |

## Left out

- Floating point: numbers are exact reals, so IEEE rounding, overflow to infinity, `inf`/`nan` spellings and underscores in `float()` are not modelled. A non-decimal `Number()` input (hexadecimal, binary, octal, "Infinity") is treated as `NaN`.
- DatasetPage.NumberOr: because of that, the paging inputs differ from JavaScript for such text. JavaScript clamps a page size of "Infinity" to 500, and reads "0x20" as 32. The model gives `NaN` (`None`) for both, so `LoadPreviewPage` then has no page size and no offset.
- Stats.Stats: `std` is `pstdev`, a square root; the model keeps the population variance instead, and states the variance's sign and its zero value for a single value.
- Text.Strip, Text.Lower: whitespace is space, tab, line feed, carriage return, vertical tab and form feed, and letters are the ASCII ones. Python's `strip()` and `\s` also treat the ASCII separators `\x1c`-`\x1f` as whitespace, and JavaScript's `trim` does not; both handle Unicode whitespace and letters too.
- File I/O: `open`, UTF-8 decoding with `errors="ignore"`, and the CSV dialect and quoting. A file is its parsed header and lines, and a missing file is an explicit failure instead of an exception.
- JsValues.FiniteNumber: arrays and dates are not modelled. JavaScript's `Number([])` is 0, `Number([7])` is 7 and `Number(new Date())` is finite, where the model's `Object` is always `NaN`. The fields `toNumber` reads are strings, numbers or `null`.
- `str()` of numbers and dicts, `String(number)`, and the `${}` rendering of objects are not modelled; they come in as a `render` parameter.
- DatasetPage.HistogramBins: labels are the pairs of bin edges rather than their `toFixed(0)` text.
- DatasetPage.BuildHistogramBins: requires bins ≥ 1, since the only call passes 12. In JavaScript, bins = 0 with two distinct values gives `step = Infinity` and adds 1 to `counts[0]` of an empty array, so the counts are `[NaN]`; bins < 0 throws `RangeError` from `Array(bins)`.
- DatasetPage.DatasetPage.ApplyFilter: `row?.[c]` on a null row is not modelled, since preview rows are always objects.
- DatasetPage.DatasetPage.LoadPreviewPage: the preview request is the `fetched` parameter, and the filter inputs are those read after the column select is refilled. Filling the column select, rendering the table, and the page-info and error text are not modelled.
- The DOM, `fetch`, Chart.js, `fmtNum`, `renderTable`, `renderCharts` and the event wiring in both JavaScript files are not modelled.
- Analytics.ComputeAnalytics: `items or []` for a `None` argument is not modelled; the items are always a list.
- Python's `int()` conversion of counts is the identity here; integers are unbounded.
- `src/app/ebay_client.py` (HTTP and OAuth), `src/app/api.py`, `src/app/web.py` and `main.py` (routing and templates) are not part of this model. Neither are `src/app/config.py` (environment variables), `src/app/excel_export.py` and `src/app/dataset_excel.py` (workbook layout).
- Concurrent access to the module-global state is not modelled; the code has no synchronisation.
