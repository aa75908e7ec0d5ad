# GMB converter — a Dafny model of its data core

GMB-CONVERTER_V2 is a browser tool that turns a courier's relay-point
spreadsheet (Mondial Relay "TouchPoint" export) into the French Google My
Business bulk-import sheet. It also re-names the listings from a template
(SEO tab) and keeps only listings whose store code is new (update tab). This
project models the data logic between spreadsheet I/O and the React UI, and
proves properties of it:

- `js_values.dfy` (`JsValues`): the JavaScript semantics the code relies on.
  This covers cells (`Str | Num | Undef`), truthiness, `x || ''`, `x ?? ''`,
  `String(x)`, the `\s` `\w` `\d` classes, `trim`, `toLowerCase`, and `join`.
- `gmb_converter.dfy` (`GmbConverter`): `formatTime`, `isValidTime`,
  `convertDayOpeningHours` and `convertToGMBFormat` of
  `src/utils/gmbConverter.ts`.
- `seo_optimizer.dfy` (`SeoOptimizer`): `replaceToken` (split/join),
  `removeSpecialChars`, `capitalizeWords` and `optimizeSeo` of
  `src/utils/seoOptimizer.ts`.
- `update_tab.dfy` (`UpdateTab`): `canonical` and the comparison body of
  `handleCompare` in `src/components/UpdateTab.tsx`. The comparison is a loop
  that builds the code set, then a loop that filters and counts duplicates.
- `sheet_rows.dfy` (`SheetRows`): the `headers.forEach` that turns a sheet row
  into a record. Both readers use it, one with `??` and one with `||`.
- `excel_processor.dfy` (`ExcelProcessor`): the row processing of
  `processExcelFile`. This is header validation, skipping blank rows,
  building records, the TouchPoint filter, and its three errors.
- `gmb_excel_reader.dfy` (`GmbExcelReader`): the row processing of
  `readGMBExcel`.
- `excel_exporter.dfy` (`ExcelExporter`): the 41-column order, the
  header-plus-data sheet, the column widths, and the file name of
  `exportToGMBExcel`.
- `pipeline.dfy` (`Pipeline`): how the pieces fit together.
  - The converter's keys are the exporter's columns.
  - Exporting listings and reading the file back gives the listings that have
    a store code, with falsy values blanked.
  - The TouchPoint/"Numéro Relais" mismatch leaves listings without a store
    code.
  - A zero coordinate is exported as an empty cell.
- `subsequences.dfy` (`Subsequences`): order-preserving subsequences, used to
  state that filters keep order.

A parsed sheet is a `seq<seq<Cell>>`, as `sheet_to_json(..., {header: 1})`
returns it. A record is a `map<string, Cell>`. A thrown exception becomes
`Failure(message)`.

Where a source loop mutates locals, the model has a method with the same
loop. Each such method is proved equal to a recursive specification
function, and the properties are proved about that function:
`UpdateTab.Compare`, `ExcelProcessor.ProcessRows`, `GmbExcelReader.ReadRows`,
`SheetRows.BuildRowData` and `ExcelExporter.ExportToGmbExcel`. The pure
TypeScript functions are Dafny functions.

Facts about the code that the model keeps as written:

- `formatTime` has no branch for numeric (fraction-of-day) cells. A truthy
  number in a time cell makes `time.trim()` throw, and the whole conversion
  fails.
- `'9:5'` (one-digit minute) gives `''`.
- Address lines 2 to 5 are always `''`: there is no address compaction.
- No weekday falls back to another day's hours.
- The `'00:00'` sentinel test runs before trimming. So the full-day token is
  reached only from `'0:00'` or a padded `' 00:00'`, never from `'00:00'`
  itself.
- The ingester requires `'Numéro TouchPoint'`, but the converter reads the
  store code from `'Numéro Relais'`.
- `\s` is the ECMAScript whitespace set, since JavaScript's `\s` is not
  ASCII-only even without the `u` flag. It includes U+00A0 and U+FEFF, and
  `trim` removes the same set. `\w` and `\d` are ASCII.

## Model

| member | source | states |
|---|---|---|
| JsValues.OrBlank | src/utils/gmbConverter.ts:129 | `x \|\| ''` is `''` or a truthy value |
| JsValues.NullishOrBlank | src/utils/excelProcessor.ts:59 | `x ?? ''` is never `undefined` |
| JsValues.Trim | src/utils/gmbConverter.ts:7 | `trim` never lengthens and leaves no whitespace at either end |
| JsValues.TrimSlice | src/utils/seoOptimizer.ts:55 | `trim` returns a contiguous piece of its input, and everything it drops at either end is whitespace |
| JsValues.TrimUntouched | src/utils/gmbConverter.ts:7 | a string with no whitespace at either end is left unchanged by `trim` |
| GmbConverter.FormatTime | src/utils/gmbConverter.ts:3-25 | the result is `''` or `DD:DD` (digits, no range check); the sentinels `''`, `'00:00:00'` and `'00:00'` give `''` |
| GmbConverter.FormatTimeDefinedIff | src/utils/gmbConverter.ts:4-24 | a time comes out iff the raw value is not a sentinel and its trimmed form is `DD:DD`, `DD:DD:DD`, `D:DD` or `D:DD:DD` |
| GmbConverter.FormatTimeCopiesDigits | src/utils/gmbConverter.ts:10-22 | the output's digits are the trimmed input's hour and minute digits; a one-digit hour gets a leading `0`; seconds are dropped |
| GmbConverter.FormatTimeIdempotent | src/utils/gmbConverter.ts:3-25 | normalising twice equals normalising once, except that `'00:00'` then becomes `''` |
| GmbConverter.FormatTimePadsZeroHour | src/utils/gmbConverter.ts:4-22 | `'00:00'` gives `''` but `'0:00'` gives `'00:00'` |
| GmbConverter.FormatTimeTrimsAfterSentinel | src/utils/gmbConverter.ts:4-11 | `' 00:00'` passes the sentinel test and gives `'00:00'` |
| GmbConverter.FormatTimeKeepsHHMM | src/utils/gmbConverter.ts:10-12 | a `DD:DD` other than `'00:00'` is returned unchanged |
| GmbConverter.FormatTimeDropsSeconds | src/utils/gmbConverter.ts:20-22 | `'9:05:30'` gives `'09:05'` |
| GmbConverter.FormatTimeRejectsShortMinute | src/utils/gmbConverter.ts:20-24 | any `D:D` (a one-digit minute) gives `''` |
| GmbConverter.FormatTimeNoRangeCheck | src/utils/gmbConverter.ts:10-12 | `'99:99'` is accepted unchanged |
| GmbConverter.IsValidTime | src/utils/gmbConverter.ts:27-30 | a valid time is not a sentinel and normalises to `DD:DD`; `IsValidTimeMeaning` gives both directions |
| GmbConverter.IsValidTimeMeaning | src/utils/gmbConverter.ts:27-30 | a time is valid iff it normalises to a `DD:DD` other than `'00:00'` |
| GmbConverter.PeriodTextShape | src/utils/gmbConverter.ts:60 | two valid times give a period `DD:DD-DD:DD` |
| GmbConverter.TwoPeriodsShape | src/utils/gmbConverter.ts:55 | two periods joined by `,` form a schedule token |
| GmbConverter.ConvertDayOpeningHours | src/utils/gmbConverter.ts:32-70 | the result is always one of four shapes: `00:00-24:00`, two periods, one period, or `''` |
| GmbConverter.ConvertDayListsValidPeriods | src/utils/gmbConverter.ts:47-69 | the full-day test wins whatever the other values are; otherwise the result is the valid periods, in order, joined by `,` |
| GmbConverter.ConvertDayClosedIff | src/utils/gmbConverter.ts:43-69 | the day is closed (`''`) iff it is not full-day and neither period is valid |
| GmbConverter.FullDayMissedFromSentinel | src/utils/gmbConverter.ts:4-51 | `('00:00', '24:00', '', '')` gives `''`, not the full-day token |
| GmbConverter.FullDayReachedFromPadding | src/utils/gmbConverter.ts:20-51 | `'0:00'` and `' 00:00'` starts with `'24:00'` give `00:00-24:00` |
| GmbConverter.FullDayDiscardsSecondPeriod | src/utils/gmbConverter.ts:47-51 | a full day drops a valid second period |
| GmbConverter.TimeText | src/utils/gmbConverter.ts:79 | `location[key] \|\| ''` fails to be a string (so `trim` throws) iff the cell is a non-zero number |
| GmbConverter.DayHours | src/utils/gmbConverter.ts:78-125 | a day's token exists iff none of its four time cells is a non-zero number |
| GmbConverter.WeekHours | src/utils/gmbConverter.ts:78-125 | the seven tokens, day by day, exist iff no day has a numeric time cell |
| GmbConverter.ParseOrZero | src/utils/gmbConverter.ts:141-142 | `parseFloat(x) \|\| 0`: a value that is not a number becomes `0`, a parsed number is kept |
| GmbConverter.ConvertLocation | src/utils/gmbConverter.ts:76-170 | the per-row callback: a listing exists iff every day's token does, and then it has exactly the 41 keys, none `undefined`; `ConvertLocationThrowsIff` and `ConvertLocationHours` give its content |
| GmbConverter.ListingRow | src/utils/gmbConverter.ts:128-170 | the object literal: no value is `undefined`; `ListingRowKeys`, `ListingRowCopied`, `ListingRowCoordinates`, `ListingRowDerived`, `ListingRowHours` and `ListingRowBlanks` give every column |
| GmbConverter.ListingField | src/utils/gmbConverter.ts:129-169 | the value of one column of the object literal is never `undefined` |
| GmbConverter.ConvertToGmbFormat | src/utils/gmbConverter.ts:72-76 | success iff every row converts; then there is one listing per row, in order; otherwise it is the `trim` TypeError |
| GmbConverter.ConvertLocationThrowsIff | src/utils/gmbConverter.ts:78-125 | a row fails to convert iff some day has a non-zero numeric time cell |
| GmbConverter.ListingRowKeys | src/utils/gmbConverter.ts:128-170 | every listing has exactly the 41 keys of the object literal |
| GmbConverter.ListingRowBlanks | src/utils/gmbConverter.ts:132-169 | every key that is not sourced and not a weekday is `''` (address lines 2 to 5 included) |
| GmbConverter.ListingRowHours | src/utils/gmbConverter.ts:148-154 | each weekday column holds that day's token, Sunday in `'Horaires le dimanche'` and so on |
| GmbConverter.ListingRowCopied | src/utils/gmbConverter.ts:129-140 | the store code comes from `'Numéro Relais'`; name, address, town and postcode are copied with `\|\| ''` |
| GmbConverter.ListingRowDerived | src/utils/gmbConverter.ts:139-156 | the country is `'France'`, and category and description are the global inputs |
| GmbConverter.ListingRowCoordinates | src/utils/gmbConverter.ts:141-142 | latitude and longitude are `parseFloat(x) \|\| 0` of the row's cells |
| GmbConverter.ConvertLocationHours | src/utils/gmbConverter.ts:78-154 | for a converted row, each weekday column is `convertDayOpeningHours` of that day's four cells read with `\|\| ''` |
| SeoOptimizer.Split | src/utils/seoOptimizer.ts:20 | `split` gives at least one piece, and the first piece is a prefix of the input; `SplitFirstCut` fixes every piece |
| SeoOptimizer.SplitFirstCut | src/utils/seoOptimizer.ts:20 | `split` cuts at the leftmost occurrence: none starts inside the first piece, one starts right after it, and the rest is the split of what follows; with no cut the piece is the whole string |
| SeoOptimizer.SplitJoinRoundTrip | src/utils/seoOptimizer.ts:20-24 | `s.split(t).join(t) == s` |
| SeoOptimizer.SplitPiecesTokenFree | src/utils/seoOptimizer.ts:20-24 | no piece of `s.split(t)` contains `t` |
| SeoOptimizer.SplitCutsIffContains | src/utils/seoOptimizer.ts:19-20 | `split` cuts the string iff the token occurs in it |
| SeoOptimizer.ReplaceToken | src/utils/seoOptimizer.ts:12-25 | when the token is cut out, the result is the input less one token per cut plus one value per cut (none when disabled); `ReplaceTokenMeaning` states the three branches |
| SeoOptimizer.ReplacedLength | src/utils/seoOptimizer.ts:20-24 | joining the pieces with another separator changes the length by the difference once per cut |
| SeoOptimizer.ReplaceTokenMeaning | src/utils/seoOptimizer.ts:12-25 | if present and enabled, every occurrence becomes the value; if disabled, every occurrence is deleted; if absent and enabled, the result is `(base + ' ' + value).trim()` |
| SeoOptimizer.DeletionCanLeaveToken | src/utils/seoOptimizer.ts:24 | deleting `{CP}` from `{C{CP}P}` leaves `{CP}` |
| SeoOptimizer.RemoveSpecialChars | src/utils/seoOptimizer.ts:27-28 | the result is no longer than the input and has only kept characters (`\w`, `\s`, U+00C0 to U+00FF, `-`); `RemoveSpecialCharsOne` and `RemoveSpecialCharsConcat` fix it on every string |
| SeoOptimizer.RemoveSpecialCharsOne | src/utils/seoOptimizer.ts:28 | a kept character stays and any other character is deleted |
| SeoOptimizer.RemoveSpecialCharsConcat | src/utils/seoOptimizer.ts:27-28 | filtering works character by character, in order |
| SeoOptimizer.RemoveSpecialCharsFixedIff | src/utils/seoOptimizer.ts:27-28 | a string is unchanged iff all its characters are kept characters |
| SeoOptimizer.RemoveSpecialCharsIdempotent | src/utils/seoOptimizer.ts:27-28 | filtering twice equals filtering once |
| SeoOptimizer.CapitalizeWords | src/utils/seoOptimizer.ts:30-33 | capitalising keeps the length; `CapitalizeWordsAt` gives every character |
| SeoOptimizer.CapitalizeFrom | src/utils/seoOptimizer.ts:33 | the capitalising pass keeps the length |
| SeoOptimizer.CapitalizeWordsAt | src/utils/seoOptimizer.ts:30-33 | each character is lower-cased, then upper-cased exactly when it is a `\w` at the start of a word |
| SeoOptimizer.CapitalizeWordsIdempotent | src/utils/seoOptimizer.ts:30-33 | capitalising twice equals capitalising once |
| SeoOptimizer.CapitalizeWordsSplitsAtAccents | src/utils/seoOptimizer.ts:33 | `\b\w` is ASCII, so `évry` becomes `éVry` |
| SeoOptimizer.CapitalizeWordsExample | src/utils/seoOptimizer.ts:30-33 | `le MANS` becomes `Le Mans` |
| SeoOptimizer.CollapseSpaces | src/utils/seoOptimizer.ts:55 | collapsing is empty iff the input is; a leading whitespace run becomes one space; `CollapseSpacesOfRun`, `CollapseSpacesOfChar` and `CollapseSpacesConcat` fix it on every string |
| SeoOptimizer.CollapseSpacesOfRun | src/utils/seoOptimizer.ts:55 | a whitespace run of any length becomes exactly one plain space |
| SeoOptimizer.CollapseSpacesOfChar | src/utils/seoOptimizer.ts:55 | a non-whitespace character is kept |
| SeoOptimizer.CollapseSpacesConcat | src/utils/seoOptimizer.ts:55 | a string cut anywhere but inside a whitespace run collapses as its two halves do, so each maximal run is replaced on its own |
| SeoOptimizer.CollapseSpacesExample | src/utils/seoOptimizer.ts:55 | `'a b'` is unchanged: a single interior space stays |
| SeoOptimizer.CollapseSpacesTidy | src/utils/seoOptimizer.ts:55 | after `replace(/\s+/g, ' ')`, whitespace is only single plain spaces |
| SeoOptimizer.CollapseSpacesKeepsText | src/utils/seoOptimizer.ts:55 | the non-whitespace characters are kept, in order |
| SeoOptimizer.Tidy | src/utils/seoOptimizer.ts:55 | the tidied name has no whitespace at either end; `TidyMeaning` adds that no two spaces are adjacent |
| SeoOptimizer.TidyMeaning | src/utils/seoOptimizer.ts:55 | the substituted name has no whitespace at either end and no whitespace run |
| SeoOptimizer.OptimizeSeo | src/utils/seoOptimizer.ts:35-39 | one item out per item in, in order, each the per-item callback |
| SeoOptimizer.OptimizeItem | src/utils/seoOptimizer.ts:39-64 | the callback copies every field but the name; with a blank template it returns the item, otherwise the name is the optimised name |
| SeoOptimizer.BlankTemplateChangesNothing | src/utils/seoOptimizer.ts:40-42 | a template that trims to `''` leaves every item unchanged |
| SeoOptimizer.OptimizeSeoOnlyRenames | src/utils/seoOptimizer.ts:44-64 | only `"Nom de l'entreprise"` is written, to the optimised name; every other field is copied |
| SeoOptimizer.OptimizeItemIdempotent | src/utils/seoOptimizer.ts:39-64 | optimising an item twice equals once, because the name is never a substitution source |
| SeoOptimizer.OptimizeSeoIdempotent | src/utils/seoOptimizer.ts:35-66 | running `optimizeSeo` twice with the same options equals running it once |
| UpdateTab.Canonical | src/components/UpdateTab.tsx:6 | the canonical code is never longer than the input |
| UpdateTab.CanonicalIsLowerThenDrop | src/components/UpdateTab.tsx:6 | the canonical code is lower-casing, then whitespace deletion (the two steps commute) |
| UpdateTab.CanonicalMeaning | src/components/UpdateTab.tsx:6 | the canonical code has no whitespace and is lower-case |
| UpdateTab.CanonicalIdempotent | src/components/UpdateTab.tsx:6 | `canonical(canonical(x)) == canonical(x)` |
| UpdateTab.CanonicalExample | src/components/UpdateTab.tsx:6 | `'A B'` becomes `'ab'` |
| UpdateTab.CodeOf | src/components/UpdateTab.tsx:37 | the canonical code of a listing's store code has no whitespace; `CanonicalMeaning` adds that it is lower-case |
| UpdateTab.ExistingCodes | src/components/UpdateTab.tsx:37 | every existing code is free of whitespace; `ExistingCodesContain` and `ExistingCodesOnly` give its members |
| UpdateTab.ExistingCodesContain | src/components/UpdateTab.tsx:37 | the code of every current listing is in the set |
| UpdateTab.ExistingCodesOnly | src/components/UpdateTab.tsx:37 | every code in the set is some current listing's code |
| UpdateTab.NewRows | src/components/UpdateTab.tsx:39-46 | the filter never keeps more rows than it is given |
| UpdateTab.DuplicateCount | src/components/UpdateTab.tsx:38-46 | the duplicate count is at most the number of generated rows; `NewRowsPlusDuplicates` makes it exact |
| UpdateTab.NewRowsMembership | src/components/UpdateTab.tsx:39-46 | a row is kept iff it is generated and its canonical code is not an existing code |
| UpdateTab.NewRowsSubsequence | src/components/UpdateTab.tsx:39-46 | the kept rows are an order-preserving subsequence of the generated rows |
| UpdateTab.NewRowsPlusDuplicates | src/components/UpdateTab.tsx:38-46 | kept rows plus duplicates equals generated rows |
| UpdateTab.RepeatedNewCodesAllKept | src/components/UpdateTab.tsx:39-46 | two generated rows sharing a new code are both kept |
| UpdateTab.SpacingAndCaseMatch | src/components/UpdateTab.tsx:37-44 | a code differing only in case and spacing is a duplicate |
| UpdateTab.CollectCodes | src/components/UpdateTab.tsx:37 | the loop builds exactly the set of canonical current codes |
| UpdateTab.FilterNew | src/components/UpdateTab.tsx:38-46 | the loop returns the kept rows and the duplicate count |
| UpdateTab.Compare | src/components/UpdateTab.tsx:37-53 | kept rows and count as specified, summing to the input size; exports the rows if there are any, else reports "no new locations" |
| SheetRows.FillCell | src/utils/excelProcessor.ts:59 | `??` keeps every defined cell and fills `undefined`; `\|\|` keeps truthy cells and blanks the rest |
| SheetRows.LastHeader | src/utils/excelProcessor.ts:58-60 | finds the last column whose header names the key |
| SheetRows.RowRecord | src/utils/excelProcessor.ts:57-60 | a row gives at most one property per header cell; `RowRecordGet` gives each property |
| SheetRows.RowRecordGet | src/utils/excelProcessor.ts:57-60 | a key is set iff some header names it; its value is the filled cell under the last such header |
| SheetRows.RowRecordValues | src/utils/gmbExcelReader.ts:26-29 | under `??` no value is `undefined`; under `\|\|` every value is `''` or truthy |
| SheetRows.RowRecordAllFilled | src/utils/excelProcessor.ts:57-60 | the same, for every key of the record |
| SheetRows.BuildRowData | src/utils/excelProcessor.ts:57-60 | the `forEach` loop builds exactly that record |
| ExcelProcessor.MissingFrom | src/utils/excelProcessor.ts:43 | the missing list is no longer than the required list |
| ExcelProcessor.MissingFromMeaning | src/utils/excelProcessor.ts:31-47 | a column is reported iff it is required and absent, in required-list order |
| ExcelProcessor.MissingMessage | src/utils/excelProcessor.ts:46 | the message starts with `Missing required columns: ` |
| ExcelProcessor.IsBlankRow | src/utils/excelProcessor.ts:55 | an empty row is blank, and a blank row has a falsy first cell |
| ExcelProcessor.RowOutput | src/utils/excelProcessor.ts:55-65 | a row yields at most one record, and only when it is not blank and its TouchPoint is truthy; `OneRowMeaning` gives the converse |
| ExcelProcessor.ProcessedData | src/utils/excelProcessor.ts:53-66 | there are at most as many records as data rows |
| ExcelProcessor.ProcessedDataConcat | src/utils/excelProcessor.ts:53-66 | rows are processed independently, in order |
| ExcelProcessor.OneRowMeaning | src/utils/excelProcessor.ts:55-65 | a row yields its record iff it is not blank and its TouchPoint is truthy |
| ExcelProcessor.ProcessedDataKept | src/utils/excelProcessor.ts:57-65 | every kept record has a truthy TouchPoint and no `undefined` value |
| ExcelProcessor.AllRecords | src/utils/excelProcessor.ts:53-60 | one record per data row |
| ExcelProcessor.ProcessedDataInOrder | src/utils/excelProcessor.ts:53-66 | kept records are in sheet order |
| ExcelProcessor.BlankRowSkipIsRedundant | src/utils/excelProcessor.ts:55-65 | a blank row has a falsy TouchPoint anyway |
| ExcelProcessor.ZeroTouchPointDropped | src/utils/excelProcessor.ts:59-65 | `??` keeps a `0` TouchPoint, but the row is dropped |
| ExcelProcessor.ProcessSheet | src/utils/excelProcessor.ts:23-71 | on success there are between 1 and rows−1 records; `ProcessSheetOutcome` gives the three errors and the records returned |
| ExcelProcessor.ProcessSheetOutcome | src/utils/excelProcessor.ts:23-71 | fewer than 2 rows gives the empty-file error, missing headers the message naming them all, and no kept row the no-valid-rows error; a success returns exactly the kept records of the data rows under the first row's headers, 1 to rows−1 of them |
| ExcelProcessor.ProcessRow | src/utils/excelProcessor.ts:55-65 | one loop turn contributes the row's output |
| ExcelProcessor.CollectRecords | src/utils/excelProcessor.ts:53-66 | the `for` loop builds exactly the kept records |
| ExcelProcessor.ProcessRows | src/utils/excelProcessor.ts:23-74 | the row processing returns the specified outcome |
| GmbExcelReader.Processed | src/utils/gmbExcelReader.ts:22-33 | there are at most as many records as data rows; `ProcessedConcat` and `OneRowMeaning` fix it on every sheet |
| GmbExcelReader.ProcessedConcat | src/utils/gmbExcelReader.ts:22-33 | rows are read independently, in order: two runs of rows give the records of each run |
| GmbExcelReader.AllRecords | src/utils/gmbExcelReader.ts:22-29 | one record per data row |
| GmbExcelReader.RowOutput | src/utils/gmbExcelReader.ts:24-32 | a row yields at most one record, and only when it is non-empty and its store code is truthy |
| GmbExcelReader.ReadSheet | src/utils/gmbExcelReader.ts:14-35 | on success there are at most rows−1 records; `ReadSheetOutcome` gives the only error and the records returned |
| GmbExcelReader.ReadSheetOutcome | src/utils/gmbExcelReader.ts:15-35 | the only error is fewer than 2 rows; otherwise the result is exactly the kept records of the data rows under the first row's headers, possibly none, at most rows−1 |
| GmbExcelReader.ProcessedKept | src/utils/gmbExcelReader.ts:26-32 | every kept record has a truthy store code and only `''` or truthy values |
| GmbExcelReader.ProcessedInOrder | src/utils/gmbExcelReader.ts:22-33 | kept records are in sheet order |
| GmbExcelReader.OneRowMeaning | src/utils/gmbExcelReader.ts:24-32 | a row yields its record iff it is non-empty and its store code is truthy |
| GmbExcelReader.ZeroCellBecomesBlank | src/utils/gmbExcelReader.ts:28 | `\|\|` turns a `0` cell into `''` where `??` would keep it |
| GmbExcelReader.BlankCellsDropped | src/utils/gmbExcelReader.ts:24-32 | a non-empty row of blank cells passes the skip test but is dropped by the code filter |
| GmbExcelReader.ReadRows | src/utils/gmbExcelReader.ts:15-35 | the row processing returns the specified outcome |
| ExcelExporter.ExportRow | src/utils/excelExporter.ts:60 | a data row has one cell per column |
| ExcelExporter.HeaderRow | src/utils/excelExporter.ts:56 | the header row has one cell per column |
| ExcelExporter.DataRows | src/utils/excelExporter.ts:59-62 | one data row per record |
| ExcelExporter.DataRowsAt | src/utils/excelExporter.ts:59-62 | data row `i` is the export of record `i` |
| ExcelExporter.SheetData | src/utils/excelExporter.ts:56-62 | `wsData` has the header row first and one more row per listing; `SheetDataShape` gives every row |
| ExcelExporter.SheetDataShape | src/utils/excelExporter.ts:11-62 | `data.length + 1` rows: the 41 column names, then each record's row in order, all 41 wide |
| ExcelExporter.ExportRowCell | src/utils/excelExporter.ts:60 | cell `j` is the record's value for column `j` if truthy, else `''` |
| ExcelExporter.ZeroLatitudeWrittenBlank | src/utils/excelExporter.ts:60 | a `0` latitude is written as `''` |
| ExcelExporter.ReplaceColons | src/utils/excelExporter.ts:75 | replacing colons keeps the length |
| ExcelExporter.ReplaceColonsAt | src/utils/excelExporter.ts:75 | every `:` becomes `-`, other characters are kept, and no `:` remains |
| ExcelExporter.Filename | src/utils/excelExporter.ts:75-76 | the name is `Import_GMB_`, at most 19 timestamp characters, then `.xlsx`; `FilenameShape` gives each character |
| ExcelExporter.FilenameShape | src/utils/excelExporter.ts:75-76 | `Import_GMB_` + the first 19 timestamp characters with `:` → `-` + `.xlsx`, containing no `:` |
| ExcelExporter.ExportToGmbExcel | src/utils/excelExporter.ts:56-76 | the workbook has sheet `Import GMB`, the sheet rows, 41 widths of 20, and the file name |
| Pipeline.ListingKeysAreColumns | src/utils/excelExporter.ts:11-53 | the converter's 41 keys are exactly the exporter's columns |
| Pipeline.Reimported | src/utils/gmbExcelReader.ts:22-33 | a read-back keeps at most as many listings as were exported |
| Pipeline.ReadBackRow | src/utils/gmbExcelReader.ts:26-29 | reading an exported row under the exported header gives the listing projected on the columns, falsy values blanked |
| Pipeline.ReadBackRows | src/utils/gmbExcelReader.ts:22-33 | the reader keeps exactly the exported listings that have a truthy store code |
| Pipeline.ExportThenRead | src/utils/excelExporter.ts:56-62 | exporting then reading gives those listings; an export of no listings is rejected by the reader |
| Pipeline.BlankStoreCode | src/utils/gmbConverter.ts:129 | with no truthy `'Numéro Relais'` the listing's store code is `''`; it is lost on read-back and has the empty canonical code |
| Pipeline.NoRelayHeader | src/utils/excelProcessor.ts:57-60 | a sheet with no `'Numéro Relais'` header gives records where it is `undefined` |
| Pipeline.UnparsedLatitudeExportedBlank | src/utils/gmbConverter.ts:141 | an unparsable or zero latitude becomes `0`, and the exporter writes it as `''` |

## Left out

- Spreadsheet and file I/O are not modelled: `FileReader`, `XLSX.read`, `sheet_to_json`, `aoa_to_sheet`, `book_append_sheet` and `XLSX.writeFile`. The model starts from the parsed 2-D array and ends at the 2-D array with the sheet name, widths and file name. Pipeline.ExportThenRead therefore assumes that writing `wsData` with `aoa_to_sheet` and `writeFile` and reading it back with `XLSX.read` and `sheet_to_json` gives the same 2-D array. `Promise`, `async`, `alert` and `console` are left out too.
- React components and UI state are not modelled (App, DataPreview, FileUpload, GlobalInputs, ConversionStatus, ExportButton, SeoTab, and the render part of UpdateTab). `setStats` and `setIsProcessing` in `handleCompare` are left out.
- GmbConverter.ParseOrZero: `parseFloat(x) || 0` is a parameter `parse: Cell -> Option<int>`, with `None` standing for NaN, because floating-point parsing is runtime library behaviour.
- Numbers are integers (`Num(int)`): non-integer cells, `-0` and `NaN` are not represented. JsValues.IntToString writes every integer in plain decimal, so it does not model that JavaScript numbers are doubles: integers above 2^53 are rounded, and `String(n)` switches to exponent notation from 1e21. `ToStr` uses it for store codes and field text.
- JsValues.Lower: `toLowerCase` maps ASCII and Latin-1 capitals (U+00C0 to U+00DE except U+00D7) and leaves every other character unchanged. Full Unicode case mapping is runtime data. `toUpperCase` is only applied to `\w` characters, so it is exact.
- Strings are sequences of code points, not UTF-16 code units. Surrogate pairs are not modelled.
- `src/utils/diacritic.ts` is not part of this model: Unicode normalisation and `\p{Diacritic}` cannot be modelled faithfully.
- ExcelExporter.Filename: `new Date().toISOString()` is the parameter `isoTime`, because the clock is I/O.
- UpdateTab.Compare: the call `exportToGMBExcel(newRows, 'gmb_update_only')` is returned as the outcome `ExportRows(newRows)`. The second argument is ignored by the exporter, which takes only the data.
- ExcelProcessor.IsBlankRow: a missing row (`!row`) and holes inside a row are `[]` and `Undef` cells. A hole in the header row is an `Undef` header, which `forEach` skips.
- JavaScript object key order is not modelled (records are maps), nor are special keys such as `__proto__`.
- GmbConverter.ConvertToGmbFormat: the `trim` TypeError is modelled by its message only.
- ExcelExporter.FilenameShape: no concrete timestamp example is proved. The lemma states the shape pointwise for every timestamp instead.
