# Reports ingestion, bulk import and search: a Dafny model

This project models the deterministic data-shaping core of the weekly-report
and external-logistics databases, and proves properties of it:

- **Workbook cleaning** (`process_excel.dfy`, module `ProcessExcel`).
  - Non-ASCII characters are removed from text cells.
  - Column names become lower-case `[a-z0-9_]` names of at most 63 characters.
  - Sheet names are reduced to `\w` characters.
  - Every row gets an `ERRORS` entry listing its outlier values (beyond ±1e10).
    The values are those `iterrows` hands over, cast to the frame's common dtype.
    A frame of int64 columns only holds `numpy.int64` values, which are never reported.
    A frame of int64 and float64 columns holds floats, so its integers are reported as floats.
  - Every cell becomes text, and an `original_line` column is added.
  - The output CSV is named `{workbook}_{sheet}_cleaned.csv`.
- **Upload of cleaned CSV files** (`upload_reports.dfy`, module `UploadReports`).
  Three things are read off the file name:
  - the report name, the text before the first `_`;
  - the report date, from the leftmost `(\d{1,2})[-_](\d{1,2})[-_](\d{4})` match read as month-day-year;
  - the stored sheet name.

  A file whose name has no date is skipped.
- **Preprocessing of stored raw rows** (`preprocess.dfy`, module `Preprocess`).
  - `process_value` converts a cell by the data type of its mapping (`VARCHAR(n)`, `TEXT`, `INT`, `MONEY`, `DATE`, `BOOLEAN`).
  - `clean_and_process_row` sends each cell either to the processed row or to `additional_data`; a report-specific mapping wins over the default one.
  - `process_chunk` turns each row into a processed row or an error record.
  - The report is processed in chunks of 1000 rows.
  - The line a row carries is its position within its chunk plus one, so it restarts at 1 in every chunk (`AllOutputsLines`).
- **Bulk-import preparation** (`bulk_operations.dfy`, module `BulkOperations`).
  - `clean_data` replaces NaN and infinities by `None` at every depth.
  - `validate_and_truncate_data` cuts text fields to their maximum lengths, overwriting the records of the list in place.
  - Headers are normalised.
  - Date and numeric columns are converted.
  - The two `prepare_*_data` pipelines are built from these steps.
- **Search window** (`search.dfy`, module `Search`).
  - The filter texts are tokenised on the wildcards `*` and `%`.
  - Each non-empty token becomes an `ILIKE` condition with its own parameter `"%token%"`, under the key `{field}_{index}`.
  - `SearchWindow` is a class holding the inputs, the results and the offset.
  - Searches, "load more" and "clear" update that state and page through the view 100 rows at a time.
  - A failed load rolls the connection back.

Shared modules:

- `Text` covers Python's string operations on ASCII: character classes, `lower`, `strip`, `re.sub` of a class, collapsing runs, `split`, `join`, `replace` and slicing.
- `Numbers` covers `str(int)`, `int(str)` and float tags.
- `Calendar` covers the validity of dates.
- `Wrappers` covers `None`-or-value and returned-or-raised outcomes.

Python and pandas conversions the code cannot show (`float()` of text,
`pd.to_datetime`, `pd.to_numeric`) are parameters of the model (the
`Conversions` and `Converters` datatypes). `pd.to_datetime` and
`pd.to_numeric` convert a whole column at once, so each is given the column
and the index of the cell it converts. The database the search window
queries is a parameter too (`Search.Database`).

## Model

| member | source | states |
|---|---|---|
| `Text.Lower` | 00-ReportsDB/interface-rdb/01-uploader/process-excel.py:25 | `lower()` keeps the length and maps each character to its lower-case form, so no upper-case letter remains |
| `Text.StripBy` | 00-ReportsDB/interface-rdb/01-uploader/process-excel.py:55 | `strip(chars)` is a middle slice of the input that neither starts nor ends with a stripped character, and everything cut off on either side is a stripped character |
| `Text.StripByIdempotent` | 00-ReportsDB/interface-rdb/01-uploader/process-excel.py:25 | stripping a stripped string changes nothing |
| `Text.CollapseRuns` | 00-ReportsDB/interface-rdb/01-uploader/process-excel.py:27 | `re.sub('_+', '_')` leaves no doubled `_`, adds no new character, is never longer, and keeps the first and last characters |
| `Text.CollapseRunsKeeps` | 00-ReportsDB/interface-rdb/01-uploader/process-excel.py:27 | a string without doubled `_` is left as it is |
| `Text.CollapseRunsDropsRepeats` | 00-ReportsDB/interface-rdb/01-uploader/process-excel.py:27 | the collapse equals `DropRepeats`: every character is kept, in order, except one that follows a `_` and is itself `_` |
| `Text.CollapseRunsAppend` | 00-ReportsDB/interface-rdb/01-uploader/process-excel.py:27 | appending a character to the input appends it to the output unless it continues a run of `_` |
| `Text.SplitJoin` | 00-ReportsDB/interface-rdb/01-uploader/upload-reports.py:51 | joining the pieces of `split(sep)` with `sep` gives the input back |
| `Text.SplitFirst` | 00-ReportsDB/interface-rdb/01-uploader/upload-reports.py:51 | the first piece of a split is the prefix up to the first separator |
| `Text.Split` | 00-ReportsDB/interface-rdb/01-uploader/upload-reports.py:51 | `split(sep)` gives at least one piece and no piece holds the separator; `SplitJoin` and `SplitFirst` pin the pieces down |
| `Text.ReplaceAll` | 00-ReportsDB/interface-rdb/01-uploader/upload-reports.py:60 | `replace(pat, rep)` scanning from the left; `ReplaceAllAbsent`, `ReplaceAllWhole` and `ReplaceAllAppend` state what it does |
| `Text.ReplaceAllAbsent` | 00-ReportsDB/interface-rdb/01-uploader/upload-reports.py:60 | a text without the pattern is left as it is |
| `Text.ReplaceAllWhole` | 00-ReportsDB/interface-rdb/01-uploader/upload-reports.py:60 | the pattern itself becomes the replacement |
| `Text.ReplaceAllAppend` | 00-ReportsDB/interface-rdb/01-uploader/upload-reports.py:60 | the replacement of a concatenation is the concatenation of the replacements when no occurrence spans the junction |
| `Text.PyPrefix` | 00-ReportsDB/interface-rdb/01-uploader/process-excel.py:28 | the slice `[:n]` is a prefix whose length is `min(n, len)`, or `len + n` (floored at 0) for a negative `n` |
| `Numbers.NatStrInjective` | 00-ReportsDB/interface-rdb/03-preprocessing/preprocess_raw_reports.py:168 | different numbers print differently |
| `Numbers.PyIntOfIntStr` | 00-ReportsDB/interface-rdb/03-preprocessing/preprocess_raw_reports.py:215 | `int(str(i))` is `i` |
| `Numbers.PyInt` | 00-ReportsDB/interface-rdb/03-preprocessing/preprocess_raw_reports.py:215 | `int()` of a text: optional blanks and sign, digits with single `_` between them, `None` for anything else; `PyIntOfIntStr` is its round trip with `str()` |
| `ProcessExcel.AsciiOnly` | 00-ReportsDB/interface-rdb/01-uploader/process-excel.py:19 | every kept character is below 128, and each character below 128 is kept exactly as often as it occurs (multiset equality) |
| `ProcessExcel.CleanText` | 00-ReportsDB/interface-rdb/01-uploader/process-excel.py:17-20 | a text cell keeps only ASCII characters and is never longer; a cell that is not text is returned unchanged |
| `ProcessExcel.AsciiOnlyConcat` | 00-ReportsDB/interface-rdb/01-uploader/process-excel.py:19 | filtering a concatenation is concatenating the filtered parts |
| `ProcessExcel.AsciiOnlyKeeps` | 00-ReportsDB/interface-rdb/01-uploader/process-excel.py:19 | an ASCII text is left as it is |
| `ProcessExcel.CleanTextIdempotent` | 00-ReportsDB/interface-rdb/01-uploader/process-excel.py:17-20 | cleaning a cell twice is cleaning it once |
| `ProcessExcel.ColumnNameChars` | 00-ReportsDB/interface-rdb/01-uploader/process-excel.py:25-27 | strip, lower, substitution and collapse give a name over `[a-z0-9_]` with no doubled `_` |
| `ProcessExcel.CleanColumnName` | 00-ReportsDB/interface-rdb/01-uploader/process-excel.py:23-28 | `clean_column_name` gives at most 63 characters, all of `[a-z0-9_]`, with no doubled `_` |
| `ProcessExcel.ColumnNameCharsKeeps` | 00-ReportsDB/interface-rdb/01-uploader/process-excel.py:25-27 | a name already over `[a-z0-9_]` without doubled `_` is a fixed point of the chain |
| `ProcessExcel.CleanColumnNameIdempotent` | 00-ReportsDB/interface-rdb/01-uploader/process-excel.py:23-28 | cleaning a cleaned column name changes nothing |
| `ProcessExcel.CleanColumnNameIgnoresPadding` | 00-ReportsDB/interface-rdb/01-uploader/process-excel.py:25 | a name and its stripped form clean to the same name |
| `ProcessExcel.CleanSheetName` | 00-ReportsDB/interface-rdb/01-uploader/process-excel.py:54-56 | `clean_sheet_name` gives `\w` characters only, no doubled `_`, and no `_` at either end |
| `ProcessExcel.CleanSheetNameIdempotent` | 00-ReportsDB/interface-rdb/01-uploader/process-excel.py:54-56 | cleaning a cleaned sheet name changes nothing |
| `ProcessExcel.Occurrences` | 00-ReportsDB/interface-rdb/01-uploader/process-excel.py:36-37 | the count of a label is at most the number of columns and is zero exactly when the label is absent; `row[col]` is a single cell only for a label counted once |
| `ProcessExcel.IsOutlier` | 00-ReportsDB/interface-rdb/01-uploader/process-excel.py:39 | a number beyond ±1e10, NaN excluded and infinities included; booleans never qualify |
| `ProcessExcel.RowDtypeOf` | 00-ReportsDB/interface-rdb/01-uploader/process-excel.py:34 | the dtype `iterrows` casts rows to: int64 when every column is int64, float64 when every column is int64 or float64, otherwise the Python values |
| `ProcessExcel.RowValue` | 00-ReportsDB/interface-rdb/01-uploader/process-excel.py:37 | the value `row[col]` holds: an integer cell of a float64 row is cast to a float |
| `ProcessExcel.IsNumberOutlier` | 00-ReportsDB/interface-rdb/01-uploader/process-excel.py:39 | the `isinstance(value, (int, float))` test fails for `numpy.int64` rows, holds for `numpy.float64` and Python numbers, and the value must be beyond ±1e10 |
| `ProcessExcel.ErrorItems` | 00-ReportsDB/interface-rdb/01-uploader/process-excel.py:35-40 | the error log after the first `n` columns: the items of the flagged cells in column order |
| `ProcessExcel.RowErrors` | 00-ReportsDB/interface-rdb/01-uploader/process-excel.py:43-46 | `None` for an empty log, otherwise the items joined by `; ` |
| `ProcessExcel.ErrorItemsEmptyIff` | 00-ReportsDB/interface-rdb/01-uploader/process-excel.py:34-46 | a row's error log is empty exactly when none of its cells is an outlier under a unique label |
| `ProcessExcel.ErrorItemsComplete` | 00-ReportsDB/interface-rdb/01-uploader/process-excel.py:36-40 | every flagged cell contributes its `"{col}: {value}"` item |
| `ProcessExcel.ErrorItemsSound` | 00-ReportsDB/interface-rdb/01-uploader/process-excel.py:36-40 | every item of the log is the item of some flagged cell |
| `ProcessExcel.RowErrorsNoneIff` | 00-ReportsDB/interface-rdb/01-uploader/process-excel.py:43-46 | a row's `ERRORS` entry is `None` exactly when no cell is flagged |
| `ProcessExcel.Int64FrameUnflagged` | 00-ReportsDB/interface-rdb/01-uploader/process-excel.py:34-40 | a frame whose columns are all int64 gets `None` in every `ERRORS` entry, whatever its values |
| `ProcessExcel.Float64RowInteger` | 00-ReportsDB/interface-rdb/01-uploader/process-excel.py:34-40 | in a frame of int64 and float64 columns an integer cell is flagged exactly when it is beyond ±1e10, and its item prints it with `.0` |
| `ProcessExcel.CleanCellsKeepsDtype` | 00-ReportsDB/interface-rdb/01-uploader/process-excel.py:75-81 | cleaning names and text cells does not change the row dtype |
| `ProcessExcel.SetColumn` | 00-ReportsDB/interface-rdb/01-uploader/process-excel.py:49 | `df[name] = values` overwrites an existing column or appends a new one; that column holds `values` and every other cell is unchanged |
| `ProcessExcel.DetectErrorsAndLog` | 00-ReportsDB/interface-rdb/01-uploader/process-excel.py:31-51 | the nested loops give the frame whose `ERRORS` column holds, for each row, the `; `-joined items of its flagged values (as the row's dtype holds them) or `None` |
| `ProcessExcel.ErrorsColumn` | 00-ReportsDB/interface-rdb/01-uploader/process-excel.py:32-46 | one `ERRORS` entry per row |
| `ProcessExcel.AsText` | 00-ReportsDB/interface-rdb/01-uploader/process-excel.py:84 | `astype(str)` makes every cell the text `str()` gives of it, with the shape kept |
| `ProcessExcel.OriginalLines` | 00-ReportsDB/interface-rdb/01-uploader/process-excel.py:87 | row `k` is spreadsheet line `k + 2` |
| `ProcessExcel.CleanCells` | 00-ReportsDB/interface-rdb/01-uploader/process-excel.py:75-78 | every column name is cleaned and `clean_text` is applied to every cell |
| `ProcessExcel.CleanSheet` | 00-ReportsDB/interface-rdb/01-uploader/process-excel.py:75-87 | the per-sheet pipeline keeps one row per input row |
| `ProcessExcel.CleanSheetShape` | 00-ReportsDB/interface-rdb/01-uploader/process-excel.py:81-87 | the written sheet has `ERRORS` and `original_line` columns; `original_line` holds `k + 2` and every other cell is text |
| `ProcessExcel.SetColumnKeepsText` | 00-ReportsDB/interface-rdb/01-uploader/process-excel.py:84-87 | adding `original_line` after `astype(str)` leaves every other cell text |
| `ProcessExcel.BaseName` | 00-ReportsDB/interface-rdb/01-uploader/process-excel.py:93 | a base name contains no `/` |
| `ProcessExcel.BaseNameOfPlainPath` | 00-ReportsDB/interface-rdb/01-uploader/process-excel.py:93 | a path without `/` is its own base name |
| `ProcessExcel.Stem` | 00-ReportsDB/interface-rdb/01-uploader/process-excel.py:93 | `splitext(name)[0]` is a prefix of the name; when shorter, it stops at the last `.` |
| `ProcessExcel.CsvFileName` | 00-ReportsDB/interface-rdb/01-uploader/process-excel.py:93-94 | `{stem}_{cleaned sheet}_cleaned.csv`; `CsvFileNameOfWorkbook` gives it for the script's workbooks |
| `ProcessExcel.StemOfXlsx` | 00-ReportsDB/interface-rdb/01-uploader/process-excel.py:93 | `splitext` takes `.xlsx` off `name.xlsx` when `name` does not start with a dot, whatever dots `name` holds |
| `ProcessExcel.CsvFileNameOfWorkbook` | 00-ReportsDB/interface-rdb/01-uploader/process-excel.py:92-94 | workbook `name.xlsx` in the working directory gives `{name}_{cleaned sheet}_cleaned.csv` |
| `UploadReports.Groups` | 00-ReportsDB/interface-rdb/01-uploader/upload-reports.py:27 | the three groups of a match are digits, of the matched widths and 4 |
| `UploadReports.MatchAt` | 00-ReportsDB/interface-rdb/01-uploader/upload-reports.py:25 | a match at a position yields digit groups |
| `UploadReports.MatchWidthsUnique` | 00-ReportsDB/interface-rdb/01-uploader/upload-reports.py:25 | at most one choice of group widths matches at a position, so the backtracking order does not matter |
| `UploadReports.Search` | 00-ReportsDB/interface-rdb/01-uploader/upload-reports.py:25 | `re.search` yields digit groups |
| `UploadReports.SearchLeftmost` | 00-ReportsDB/interface-rdb/01-uploader/upload-reports.py:25 | the search returns the leftmost match, and returns none only when no position matches |
| `UploadReports.LeftmostUnique` | 00-ReportsDB/interface-rdb/01-uploader/upload-reports.py:25 | there is at most one leftmost match position |
| `UploadReports.ExtractReportDate` | 00-ReportsDB/interface-rdb/01-uploader/upload-reports.py:23-32 | a returned date is a valid calendar date |
| `UploadReports.ExtractReportDateLeftmost` | 00-ReportsDB/interface-rdb/01-uploader/upload-reports.py:25-31 | a date `d` is returned exactly when the leftmost match spells `d` as month-day-year and `d` is valid; later matches are never tried |
| `UploadReports.ExtractReportDateNoMatch` | 00-ReportsDB/interface-rdb/01-uploader/upload-reports.py:26-32 | without a match there is no date |
| `UploadReports.DateOf` | 00-ReportsDB/interface-rdb/01-uploader/upload-reports.py:27-29 | the matched groups read as month, day and year |
| `Calendar.IsValid` | 00-ReportsDB/interface-rdb/01-uploader/upload-reports.py:29 | the dates `strptime` accepts: year 1 to 9999, month 1 to 12, and a day within the month, February 29 only in leap years |
| `UploadReports.ReportName` | 00-ReportsDB/interface-rdb/01-uploader/upload-reports.py:51 | the report name has no `_` and is the prefix of the base name up to its first `_` |
| `UploadReports.StoredSheetName` | 00-ReportsDB/interface-rdb/01-uploader/upload-reports.py:59-61 | the stored sheet name has `\w` characters only, no doubled `_` and no `_` at either end |
| `UploadReports.StoredSheetNameOfCleanedCsv` | 00-ReportsDB/interface-rdb/01-uploader/upload-reports.py:59-61 | the CSV written from sheet `s` of workbook `name.xlsx` is stored under the sheet name `clean_sheet_name(name + '_' + clean_sheet_name(s) + '_')`, when neither name holds `.csv` or `cleaned` |
| `UploadReports.DropCsvExtension` | 00-ReportsDB/interface-rdb/01-uploader/upload-reports.py:60 | removing `.csv` from `{name}_{sheet}_cleaned.csv` removes only the extension |
| `UploadReports.DropCleanedMarker` | 00-ReportsDB/interface-rdb/01-uploader/upload-reports.py:60 | removing `cleaned` then leaves `{name}_{sheet}_` |
| `UploadReports.PlanUpload` | 00-ReportsDB/interface-rdb/01-uploader/upload-reports.py:50-61 | a file is skipped exactly when its name has no date; otherwise its row has a valid date, a report name without `_` and a clean sheet name |
| `UploadReports.ReportNameOfPlainName` | 00-ReportsDB/interface-rdb/01-uploader/upload-reports.py:51 | `name_rest` has report name `name` when `name` has no `_` |
| `UploadReports.ReportNameOfCsvName` | 00-ReportsDB/interface-rdb/01-uploader/upload-reports.py:51 | `{name}_{sheet}_cleaned.csv` has report name `name` when `name` has no `_` and the sheet part is made of word characters |
| `UploadReports.ReportNameOfCleanedCsv` | 00-ReportsDB/interface-rdb/01-uploader/upload-reports.py:51 | the CSV written for workbook `name.xlsx` gives back `name` as its report name when `name` has no `_` |
| `Preprocess.RemoveNatNan` | 00-ReportsDB/interface-rdb/03-preprocessing/preprocess_raw_reports.py:17-24 | `None` exactly for None, NaN and the texts "nat"/"nan" in any case; otherwise the value itself |
| `Preprocess.RemoveNatNanExamples` | 00-ReportsDB/interface-rdb/03-preprocessing/preprocess_raw_reports.py:20 | "NaT" and "NAN" are missing; " nan" and infinity are not |
| `Preprocess.SafeString` | 00-ReportsDB/interface-rdb/03-preprocessing/preprocess_raw_reports.py:26-32 | `None` exactly for None; otherwise a prefix of `str(value)`, the whole of it for a length of `None` or 0, and of length `min(n, len)` for a positive `n` |
| `Preprocess.VarcharLengthOfDeclared` | 00-ReportsDB/interface-rdb/03-preprocessing/preprocess_raw_reports.py:215 | `VARCHAR(n)` is read back as `n`, and `VARCHAR` without parenthesis has no length |
| `Preprocess.VarcharLength` | 00-ReportsDB/interface-rdb/03-preprocessing/preprocess_raw_reports.py:215-217 | the text after the first `(` with trailing `)` removed, read by `int()`; `None` where `IndexError` or `ValueError` is raised |
| `Preprocess.PyFloat` | 00-ReportsDB/interface-rdb/03-preprocessing/preprocess_raw_reports.py:36-42 | `float()` raises exactly for integers beyond the double range, and fails in the caught way exactly for None and unparsable text |
| `Preprocess.SafeInt` | 00-ReportsDB/interface-rdb/03-preprocessing/preprocess_raw_reports.py:34-38 | raises exactly when `float()` raises or gives an infinity; otherwise `None` or the truncation of that float |
| `Preprocess.SafeFloat` | 00-ReportsDB/interface-rdb/03-preprocessing/preprocess_raw_reports.py:40-44 | raises exactly for integers beyond the double range; otherwise `None` exactly when `float()` fails, else that float |
| `Preprocess.FlexibleDate` | 00-ReportsDB/interface-rdb/03-preprocessing/preprocess_raw_reports.py:46-53 | `None` exactly when the date conversion fails; otherwise that date |
| `Preprocess.Truthy` | 00-ReportsDB/interface-rdb/03-preprocessing/preprocess_raw_reports.py:228 | `bool(value)`: false for None, False, 0, 0.0 and the empty text |
| `Preprocess.ProcessValue` | 00-ReportsDB/interface-rdb/03-preprocessing/preprocess_raw_reports.py:207-230 | a missing value gives `None` whatever the type, and only types `INT` and `MONEY` can raise |
| `Preprocess.ProcessValueVarchar` | 00-ReportsDB/interface-rdb/03-preprocessing/preprocess_raw_reports.py:213-216 | `VARCHAR(n)` with `n > 0` keeps the first `min(n, len)` characters, never more than `n` |
| `Preprocess.ProcessValueVarcharUnparsed` | 00-ReportsDB/interface-rdb/03-preprocessing/preprocess_raw_reports.py:217-218 | a `VARCHAR` whose length does not parse falls back to the whole text |
| `Preprocess.ProcessValueUntyped` | 00-ReportsDB/interface-rdb/03-preprocessing/preprocess_raw_reports.py:212-230 | an absent, empty or unknown type gives `str(value)` |
| `Preprocess.ProcessValueTyped` | 00-ReportsDB/interface-rdb/03-preprocessing/preprocess_raw_reports.py:219-228 | TEXT, INT, MONEY, DATE and BOOLEAN go to `safe_string`, `safe_int`, `safe_float`, `flexible_date_parse` and truthiness |
| `Preprocess.ProcessValueNumericOverflow` | 00-ReportsDB/interface-rdb/03-preprocessing/preprocess_raw_reports.py:34-44 | an integer beyond the double range makes both `INT` and `MONEY` raise `OverflowError` |
| `Preprocess.MappingFor` | 00-ReportsDB/interface-rdb/03-preprocessing/preprocess_raw_reports.py:189 | the report-specific mapping when there is one, else the default, else none |
| `Preprocess.ProcessRow` | 00-ReportsDB/interface-rdb/03-preprocessing/preprocess_raw_reports.py:182-205 | `clean_and_process_row` as a value; `EntriesOkIff`, `EntriesKeys` and `EntriesLastWins` characterise it |
| `Preprocess.EntriesRaisedStays` | 00-ReportsDB/interface-rdb/03-preprocessing/preprocess_raw_reports.py:188-198 | once a conversion raises, the rest of the row is not visited |
| `Preprocess.CleanAndProcessRow` | 00-ReportsDB/interface-rdb/03-preprocessing/preprocess_raw_reports.py:182-205 | the loop computes the row function `ProcessRow`; a processed row always has `additional_data`, and a row that is not an object raises `'<type>' object has no attribute 'items'` |
| `Preprocess.EntriesOkIff` | 00-ReportsDB/interface-rdb/03-preprocessing/preprocess_raw_reports.py:196-198 | a row fails exactly when the conversion of one of its row-routed cells raises |
| `Preprocess.EntriesKeys` | 00-ReportsDB/interface-rdb/03-preprocessing/preprocess_raw_reports.py:188-200 | the processed row's keys are the targets of the row-routed cells, and `additional_data`'s keys those of the additional cells |
| `Preprocess.EntriesLastWins` | 00-ReportsDB/interface-rdb/03-preprocessing/preprocess_raw_reports.py:196-198 | a target holds the conversion of the last cell routed to it |
| `Preprocess.EntriesAdditionalLastWins` | 00-ReportsDB/interface-rdb/03-preprocessing/preprocess_raw_reports.py:199-200 | an `additional_data` key holds `safe_string` of the last cell routed to it |
| `Preprocess.EntriesSameRouting` | 00-ReportsDB/interface-rdb/03-preprocessing/preprocess_raw_reports.py:189 | only the mapping each column resolves to matters |
| `Preprocess.ProcessRowSpecificWins` | 00-ReportsDB/interface-rdb/03-preprocessing/preprocess_raw_reports.py:189 | default mappings of columns with a report-specific mapping never matter |
| `Preprocess.MappingsInUseSameRows` | 00-ReportsDB/interface-rdb/03-preprocessing/preprocess_raw_reports.py:288-290 | putting the default mapping in place of an empty report-specific one changes no row |
| `Preprocess.MappingsInUse` | 00-ReportsDB/interface-rdb/03-preprocessing/preprocess_raw_reports.py:246-250 | raises exactly when there are no report-specific mappings and the defaults are declined, with the `ValueError` text naming the `raw_data_id`; otherwise the defaults when there are no report-specific mappings, else the report-specific ones |
| `Preprocess.WithProvenance` | 00-ReportsDB/interface-rdb/03-preprocessing/preprocess_raw_reports.py:159-165 | the five provenance keys are set, with `original_line = index + 1`, and every other key is kept |
| `Preprocess.OutputOf` | 00-ReportsDB/interface-rdb/03-preprocessing/preprocess_raw_reports.py:157-178 | a row's output: its processed row with provenance, or an error record with the row's line and message |
| `Preprocess.Outputs` | 00-ReportsDB/interface-rdb/03-preprocessing/preprocess_raw_reports.py:156 | one output per row of the chunk |
| `Preprocess.OutputsCount` | 00-ReportsDB/interface-rdb/03-preprocessing/preprocess_raw_reports.py:156-178 | processed rows plus error records are as many as the outputs |
| `Preprocess.ProcessedRowsAppend` | 00-ReportsDB/interface-rdb/03-preprocessing/preprocess_raw_reports.py:298-307 | filtering outputs distributes over concatenation |
| `Preprocess.OutputsKeepOrder` | 00-ReportsDB/interface-rdb/03-preprocessing/preprocess_raw_reports.py:156-178 | processed rows and error records each keep the chunk order: their lines increase within `1..n` |
| `Preprocess.OutputsNumbered` | 00-ReportsDB/interface-rdb/03-preprocessing/preprocess_raw_reports.py:164-176 | output `i` of a chunk carries line `i + 1` |
| `Preprocess.ProcessChunk` | 00-ReportsDB/interface-rdb/03-preprocessing/preprocess_raw_reports.py:150-180 | the loop returns the processed rows and the error records of the chunk's outputs, in order, as many in all as rows |
| `Preprocess.AllOutputs` | 00-ReportsDB/interface-rdb/03-preprocessing/preprocess_raw_reports.py:295-299 | one output per row of the report |
| `Preprocess.AllOutputsLines` | 00-ReportsDB/interface-rdb/03-preprocessing/preprocess_raw_reports.py:295-298 | row `k` carries line `k % 1000 + 1`, so rows 0 and 1000 both carry line 1 |
| `Preprocess.ChunkOutputs` | 00-ReportsDB/interface-rdb/03-preprocessing/preprocess_raw_reports.py:295-298 | the chunk at a multiple of 1000 has the outputs of its rows in the whole report |
| `Preprocess.ChunkAppend` | 00-ReportsDB/interface-rdb/03-preprocessing/preprocess_raw_reports.py:295-307 | processing up to a chunk's end is processing up to its start, then the chunk |
| `Preprocess.PreprocessRows` | 00-ReportsDB/interface-rdb/03-preprocessing/preprocess_raw_reports.py:292-307 | the chunk loop inserts every processed row of the report and accumulates every error record, in order; `total_processed` counts the inserted rows, and rows plus errors are as many as the input rows |
| `BulkOperations.CleanDataScrubbed` | 01-ExtLogDB/interface/main-interface/bulk_operations.py:10-24 | after `clean_data` no NaN or infinity remains at any depth |
| `BulkOperations.CleanDataShape` | 01-ExtLogDB/interface/main-interface/bulk_operations.py:19-22 | dictionary keys and list lengths are kept at every depth |
| `BulkOperations.CleanDataKeeps` | 01-ExtLogDB/interface/main-interface/bulk_operations.py:14-24 | a value without NaN or infinity is left as it is |
| `BulkOperations.CleanDataIdempotent` | 01-ExtLogDB/interface/main-interface/bulk_operations.py:10-24 | cleaning twice is cleaning once |
| `BulkOperations.CleanData` | 01-ExtLogDB/interface/main-interface/bulk_operations.py:10-24 | `clean_data` as a recursive function; the four lemmas above characterise it |
| `BulkOperations.TruncateRecord` | 01-ExtLogDB/interface/main-interface/bulk_operations.py:32-42 | truncation keeps the record's keys |
| `BulkOperations.TruncateValue` | 01-ExtLogDB/interface/main-interface/bulk_operations.py:33-42 | a value without a limit or not text is unchanged; a text stays a prefix of itself |
| `BulkOperations.TruncateInPlace` | 01-ExtLogDB/interface/main-interface/bulk_operations.py:32-42 | the field loop leaves the record truncated against every limit of the table |
| `BulkOperations.ValidateAndTruncate` | 01-ExtLogDB/interface/main-interface/bulk_operations.py:26-43 | every record of the list is overwritten in place by its truncation, and the same list is returned |
| `BulkOperations.TruncateRecordWithin` | 01-ExtLogDB/interface/main-interface/bulk_operations.py:36-42 | with a non-negative limit, a text field ends within its limit |
| `BulkOperations.TruncateRecordPrefix` | 01-ExtLogDB/interface/main-interface/bulk_operations.py:37 | a text that is too long keeps exactly its first `max_length` characters |
| `BulkOperations.TruncateRecordUntouched` | 01-ExtLogDB/interface/main-interface/bulk_operations.py:33-36 | fields without a limit or with a `None` limit, non-text values and texts within their limit are unchanged |
| `BulkOperations.TruncateRecordIdempotent` | 01-ExtLogDB/interface/main-interface/bulk_operations.py:31-42 | with non-negative limits, truncating twice is truncating once |
| `BulkOperations.FieldMaxLengthsIdempotent` | interface/python/config.py:8-24 | the shipped limits make truncation idempotent |
| `BulkOperations.NegativeLimitNotIdempotent` | 01-ExtLogDB/interface/main-interface/bulk_operations.py:36-37 | a negative limit cuts from the end on every pass |
| `BulkOperations.CleanThenTruncateCommute` | 01-ExtLogDB/interface/main-interface/bulk_operations.py:83-87 | `clean_data` and truncation commute on a record |
| `BulkOperations.CleanRecord` | 01-ExtLogDB/interface/main-interface/bulk_operations.py:20 | cleaning keeps the record's keys |
| `BulkOperations.NormaliseHeader` | 01-ExtLogDB/interface/main-interface/bulk_operations.py:47-54 | a normalised header is over `[a-z0-9_]` without doubled `_`; it is empty only for a blank header, and it starts (ends) with `_` exactly when the stripped header starts (ends) with a character outside `[a-zA-Z0-9]` |
| `BulkOperations.NormaliseHeaderIsColumnName` | 01-ExtLogDB/interface/main-interface/bulk_operations.py:47-54 | the bulk-import header is the workbook cleaner's column name before its 63-character cut |
| `BulkOperations.NormaliseHeaderKeeps` | 01-ExtLogDB/interface/main-interface/bulk_operations.py:47-54 | a header already normalised is kept |
| `BulkOperations.NormaliseHeaderBracketed` | 01-ExtLogDB/interface/main-interface/bulk_operations.py:47-54 | `(rdd)` becomes `_rdd_` |
| `BulkOperations.ConvertColumns` | 01-ExtLogDB/interface/main-interface/bulk_operations.py:57-72 | converting the listed columns keeps the labels and the number of rows |
| `BulkOperations.ConvertColumnsColumn` | 01-ExtLogDB/interface/main-interface/bulk_operations.py:57-72 | a listed column becomes its whole-column conversion; every other column keeps its cells |
| `BulkOperations.RowRecord` | 01-ExtLogDB/interface/main-interface/bulk_operations.py:79 | a record's keys are the row's labels |
| `BulkOperations.RowRecordLast` | 01-ExtLogDB/interface/main-interface/bulk_operations.py:79 | a label with no later equal label maps to its own cell, so a repeated label keeps the value of its last column |
| `BulkOperations.ScrubCell` | 01-ExtLogDB/interface/main-interface/bulk_operations.py:75 | no NaN or infinity is left, and only such a value is changed, to `None` |
| `BulkOperations.ConvertedTable` | 01-ExtLogDB/interface/main-interface/bulk_operations.py:45-72 | the converted table's labels are the normalised headers, and its rows are as many as the input's |
| `BulkOperations.ConvertedTableColumn` | 01-ExtLogDB/interface/main-interface/bulk_operations.py:45-72 | column `j` of the converted table is the input's column `j` put through the date conversion, then the numeric one, each when its list names the normalised label |
| `BulkOperations.CleanedRecords` | 01-ExtLogDB/interface/main-interface/bulk_operations.py:74-84 | one record per row |
| `BulkOperations.CleanedRecordValue` | 01-ExtLogDB/interface/main-interface/bulk_operations.py:45-84 | under a normalised label, record `k` holds the `clean_data` of the scrubbed cell `k` of the label's last column after that column's conversions |
| `BulkOperations.PrepareData` | 01-ExtLogDB/interface/main-interface/bulk_operations.py:45-90 | the pipeline returns a fresh list whose record `k` is the truncation of the cleaned record of row `k` |
| `BulkOperations.CleanedRecordKeys` | 01-ExtLogDB/interface/main-interface/bulk_operations.py:79 | a cleaned record's keys are the normalised headers |
| `BulkOperations.PreparedRecord` | 01-ExtLogDB/interface/main-interface/bulk_operations.py:45-90 | a prepared record has the normalised headers as keys, no NaN or infinity, and every limited text within its limit |
| `BulkOperations.CleanedRecordScrubbed` | 01-ExtLogDB/interface/main-interface/bulk_operations.py:74-84 | no NaN or infinity remains in a cleaned record |
| `BulkOperations.TruncateRecordKeepsScrubbed` | 01-ExtLogDB/interface/main-interface/bulk_operations.py:86-87 | truncation keeps a record free of NaN and infinity |
| `Search.FieldsDistinct` | interface/python/search_window.py:111-119 | the seven filter fields are distinct |
| `Search.FiltersOf` | interface/python/search_window.py:111-119 | the filters pair each field with its input's text, one field each |
| `Search.Tokens` | interface/python/search_window.py:136 | at least one token, none containing a wildcard |
| `Search.TokensJoin` | interface/python/search_window.py:136 | the tokens joined by `%` give the value with `*` read as `%` |
| `Search.ParamKeyInjective` | interface/python/search_window.py:140 | two keys are equal exactly when they name the same field and the same token index |
| `Search.QueryText` | interface/python/search_window.py:154-158 | the query starts with `... WHERE 1=1`, always ends with `ORDER BY jcn LIMIT {limit} OFFSET {offset}`, and is exactly those two without conditions |
| `Search.Conditions` | interface/python/search_window.py:133-152 | the conditions of the first `n` filters: the `AND`-joined token conditions of each field that has any |
| `Search.Params` | interface/python/search_window.py:133-147 | the parameters of the first `n` filters; `ParamsAt` and `ParamsKeys` characterise them |
| `Search.Query` | interface/python/search_window.py:154-158 | the query text built from the conditions, the limit and the offset |
| `Search.AddTokenConditions` | interface/python/search_window.py:138-152 | the token loop adds exactly the conditions and parameters of the field's non-empty tokens, keeping the parameters already there |
| `Search.BuildConditions` | interface/python/search_window.py:133-152 | the nested loops compute the conditions and parameters that `Conditions` and `Params` specify |
| `Search.TokenParamsAt` | interface/python/search_window.py:138-147 | every non-empty token has its parameter `"%token%"` under the key of its position in the split, empty tokens included in the count |
| `Search.TokenParamsKeys` | interface/python/search_window.py:138-147 | every parameter of a field belongs to a non-empty token |
| `Search.TokenConditionsExact` | interface/python/search_window.py:138-147 | a field has one condition per non-empty token, naming that token's key |
| `Search.ParamsAt` | interface/python/search_window.py:133-147 | across the query, every non-empty token of every field has its parameter |
| `Search.ParamsKeys` | interface/python/search_window.py:133-147 | every parameter of the query belongs to a non-empty token of some field |
| `Search.EmptyTokensAddNothing` | interface/python/search_window.py:139 | empty tokens add neither conditions nor parameters |
| `Search.WildcardsAddNothing` | interface/python/search_window.py:136-151 | a value made only of wildcards adds nothing |
| `Search.WildcardFiltersQuery` | interface/python/search_window.py:151-157 | with only empty or wildcard filters, the query has no conditions and no parameters |
| `Search.TokenConditionsShape` | interface/python/search_window.py:138-146 | a field's conditions depend only on which tokens are empty |
| `Search.QueryIgnoresTokenText` | interface/python/search_window.py:133-158 | the conditions depend only on the fields and the positions of non-empty tokens, never on the typed text, which reaches the database only as parameters |
| `Search.ClearedQuery` | interface/python/search_window.py:155-158 | after clearing, a search asks for the first page of the whole view with no parameters |
| `Search.SearchWindow.constructor` | interface/python/search_window.py:49-51 | no results, limit 100, offset 0 |
| `Search.SearchWindow.SetInput` | interface/python/search_window.py:111-119 | typing into one input changes only that input |
| `Search.SearchWindow.LoadData` | interface/python/search_window.py:103-183 | sends the query and parameters for the current offset; on success it appends the rows, updates the count label and advances the offset by the limit; on an error it rolls back and keeps the results, label and offset |
| `Search.SearchWindow.ApplyFilter` | interface/python/search_window.py:86-93 | empties the results, then loads, so the results are exactly the fetched page (empty after an error) |
| `Search.SearchWindow.PerformSearch` | interface/python/search_window.py:82-84 | asks for offset 0; the results become the first page and the offset becomes the limit (0 after an error) |
| `Search.SearchWindow.LoadMore` | interface/python/search_window.py:185-186 | loads the page at the current offset: on success the rows are appended, the count label updated and the offset advanced; on an error it rolls back and keeps the results, label and offset |
| `Search.SearchWindow.ClearFilters` | interface/python/search_window.py:188-200 | empty inputs, no results, label "Showing 0 records", offset 0 |

## Left out

- Character classes, `lower()` and `strip()` are modelled for ASCII only; Unicode letters, digits and spaces are not.
- pandas and numpy conversions are parameters of the model. These are `float()` of a text, `int` to `float` within the double range, `pd.to_datetime`, `pd.to_numeric` and the dtype inference of `read_excel`. `pd.to_datetime` and `pd.to_numeric` are given a whole column and the index of a cell, so a converted value may depend on the rest of its column. numpy's `.item()` in `remove_nat_nan` is the identity on the model's values.
- The text `str()` gives of a finite float is carried with the float, not computed from it.
- `ProcessExcel.DetectErrorsAndLog` prints an integer of a float64 row exactly, as its digits and `.0`. numpy rounds integers beyond 2**53, and Python prints 1e16 and above in exponent form; neither is modelled.
- `ProcessExcel.RowDtypeOf` reads a column as int64 when all its cells are 64-bit integers and as float64 when all are floats. A column mixing the two counts as object here, since pandas would already have stored it as floats. Frames of only booleans or only dates count as object; no value in them is ever reported, so the result is the same.
- `ProcessExcel.CleanCells` takes header labels as text. `read_excel` gives numbers or dates for numeric or date header cells. `clean_column_name` then raises `AttributeError` outside any `try`, which stops the script; this is not modelled.
- `BulkOperations.ConvertColumns` converts every column that carries a listed label. When a listed label occurs twice after normalisation, `data_frame[col]` is a DataFrame: `pd.to_datetime` then raises `ValueError` and `pd.to_numeric` raises `TypeError`. This error path is not modelled.
- `Preprocess.OutputOf`: the traceback appended to the error message is not modelled; the message is `Error processing row {index}: {e}` without it.
- `Preprocess.ProcessChunk`: the same traceback, through `Preprocess.OutputOf`, is not modelled.
- `Preprocess.WithProvenance` assumes `flexible_date_parse` gives a report date that is already a date back unchanged.
- Raw rows hold scalars only; JSON lists and dictionaries inside a raw row are not modelled.
- `additional_data` is kept as a dictionary, not as its `json.dumps` text.
- `Preprocess.MappingsInUse` does not model the `NameError` raised when `check_field_mappings` finds mappings but `get_field_mappings` returns none.
- A mapping whose type is `None` is treated like one with an unknown type.
- Every database access is left out: reads, inserts, the "already preprocessed" check, commits, and the interactive default-mapping prompt (its answer is a parameter). The script loops over files and sheets and all logging are left out too.
- `BulkOperations.ValidateAndTruncate` overwrites whole records, so aliasing between records of the list is not modelled.
- The limits table used by the bulk import comes from a `config` module next to `bulk_operations.py`. That module is not part of this model. `FieldMaxLengths` takes its values from `interface/python/config.py`.
- All Qt widgets are left out: the loading indicator, message boxes, table refreshes and the MRL detail window.
- `Search.SearchWindow` keeps the count label as text. Its initial text comes from the UI file and is modelled as `None`.
- Errors other than the database's inside `load_data` are not modelled.
- The view's column names are not modelled.
- The matching, scoring and bulk-accept logic of the logistics interface is not part of this model.
