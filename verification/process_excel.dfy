/** The workbook-to-CSV cleaning step: every sheet of an `EG*.xlsx` workbook
    gets PostgreSQL-friendly column names, ASCII-only text, an `ERRORS`
    column flagging numeric outliers and an `original_line` column, and is
    written to `{workbook}_{sheet}_cleaned.csv`. */
module ProcessExcel {
  import opened Wrappers
  import opened Text
  import opened Numbers

  /** A DataFrame cell as pandas reads it from a workbook. */
  datatype Cell =
    | Null                  // Python None
    | Str(s: string)
    | Int(i: int)
    | Bool(b: bool)
    | Num(f: Float)         // an empty cell is Num(NaN)
    | Other(text: string)   // dates and the rest, with their str() text

  /** A DataFrame: column labels and one list of cells per row. */
  datatype Frame = Frame(columns: seq<string>, rows: seq<seq<Cell>>)

  predicate WellFormed(f: Frame) {
    forall k :: 0 <= k < |f.rows| ==> |f.rows[k]| == |f.columns|
  }

  /** `str(value)`. */
  function CellStr(c: Cell): string {
    match c
    case Null => "None"
    case Str(s) => s
    case Int(i) => IntStr(i)
    case Bool(b) => if b then "True" else "False"
    case Num(f) => FloatStr(f)
    case Other(text) => text
  }

  // ---------------------------------------------------------------- clean_text

  /** The characters of `s` whose code is below 128, in their order. */
  function AsciiOnly(s: string): (r: string)
    ensures |r| <= |s|
    ensures forall i :: 0 <= i < |r| ==> r[i] as int < 128
    ensures forall x :: multiset(r)[x] == if x as int < 128 then multiset(s)[x] else 0
    decreases |s|
  {
    if s == [] then []
    else
      assert s == [s[0]] + s[1..];
      (if s[0] as int < 128 then [s[0]] else []) + AsciiOnly(s[1..])
  }

  /** `clean_text`: non-ASCII characters removed from strings; every other
      cell returned as it is. */
  function CleanText(c: Cell): (r: Cell)
    ensures !c.Str? ==> r == c
    ensures c.Str? ==> r.Str? && |r.s| <= |c.s| && forall i :: 0 <= i < |r.s| ==> r.s[i] as int < 128
  {
    if c.Str? then Str(AsciiOnly(c.s)) else c
  }

  /** Filtering distributes over concatenation, so it keeps the order of the
      characters it keeps. */
  lemma {:induction false} AsciiOnlyConcat(a: string, b: string)
    ensures AsciiOnly(a + b) == AsciiOnly(a) + AsciiOnly(b)
    decreases |a|
  {
    if a == [] {
      assert a + b == b;
    } else {
      assert (a + b)[0] == a[0];
      assert (a + b)[1..] == a[1..] + b;
      AsciiOnlyConcat(a[1..], b);
    }
  }

  /** ASCII text is left unchanged, hence `clean_text` is idempotent. */
  lemma {:induction false} AsciiOnlyKeeps(s: string)
    requires forall i :: 0 <= i < |s| ==> s[i] as int < 128
    ensures AsciiOnly(s) == s
    decreases |s|
  {
    if s != [] {
      AsciiOnlyKeeps(s[1..]);
    }
  }

  lemma CleanTextIdempotent(c: Cell)
    ensures CleanText(CleanText(c)) == CleanText(c)
  {
    if c.Str? {
      AsciiOnlyKeeps(AsciiOnly(c.s));
    }
  }

  // --------------------------------------------------------- clean_column_name

  /** The column-name chain before the length cut: stripped, lower-cased,
      every character outside `[a-zA-Z0-9]` made `_`, runs of `_` collapsed. */
  function ColumnNameChars(name: string): (r: string)
    ensures AllChars(r, IsLowerWordChar)
    ensures NoDoubled(r, '_')
  {
    var lowered := Lower(Strip(name));
    var replaced := SubstituteOutside(lowered, IsAsciiAlnum, '_');
    assert AllChars(replaced, IsLowerWordChar) by {
      forall i | 0 <= i < |replaced| ensures IsLowerWordChar(replaced[i]) {
        assert !IsAsciiUpper(lowered[i]);
      }
    }
    CollapseRunsAllChars(replaced, '_', IsLowerWordChar);
    CollapseRuns(replaced, '_')
  }

  /** `clean_column_name`: the chain above, cut to 63 characters. */
  function CleanColumnName(name: string): (r: string)
    ensures |r| <= 63
    ensures AllChars(r, IsLowerWordChar)
    ensures NoDoubled(r, '_')
  {
    PyPrefix(ColumnNameChars(name), 63)
  }

  /** Text made of `[a-z0-9_]` without doubled `_` goes through the chain
      unchanged. */
  lemma ColumnNameCharsKeeps(r: string)
    requires AllChars(r, IsLowerWordChar) && NoDoubled(r, '_')
    ensures ColumnNameChars(r) == r
  {
    StripByKeeps(r, IsSpace);
    assert Strip(r) == r;
    LowerKeeps(r);
    SubstituteOutsideKeeps(r, IsAsciiAlnum, '_');
    CollapseRunsKeeps(r, '_');
  }

  /** A cleaned name is a fixed point, so cleaning twice is cleaning once. */
  lemma CleanColumnNameIdempotent(name: string)
    ensures CleanColumnName(CleanColumnName(name)) == CleanColumnName(name)
  {
    ColumnNameCharsKeeps(CleanColumnName(name));
  }

  /** Whitespace around a name is removed before any character is replaced,
      so it never turns into `_`: the name and its stripped form clean alike. */
  lemma CleanColumnNameIgnoresPadding(name: string)
    ensures CleanColumnName(Strip(name)) == CleanColumnName(name)
  {
    StripByIdempotent(name, IsSpace);
  }

  // ---------------------------------------------------------- clean_sheet_name

  /** `clean_sheet_name` (the same in both uploader scripts): every non-word
      character made `_`, leading and trailing `_` stripped, then runs of `_`
      collapsed. */
  function CleanSheetName(name: string): (r: string)
    ensures AllChars(r, IsWordChar)
    ensures NoDoubled(r, '_')
    ensures |r| > 0 ==> r[0] != '_' && r[|r| - 1] != '_'
  {
    var replaced := SubstituteOutside(name, IsWordChar, '_');
    var stripped := StripBy(replaced, IsUnderscore);
    assert AllChars(stripped, IsWordChar) by {
      assert AllChars(replaced, IsWordChar);
      StripByAllChars(replaced, IsUnderscore, IsWordChar);
    }
    assert |stripped| > 0 ==> stripped[0] != '_' && stripped[|stripped| - 1] != '_';
    CollapseRunsAllChars(stripped, '_', IsWordChar);
    CollapseRuns(stripped, '_')
  }

  /** A cleaned sheet name is a fixed point of the cleaning. */
  lemma CleanSheetNameIdempotent(name: string)
    ensures CleanSheetName(CleanSheetName(name)) == CleanSheetName(name)
  {
    var r := CleanSheetName(name);
    assert SubstituteOutside(r, IsWordChar, '_') == r;
    StripByKeeps(r, IsUnderscore);
    CollapseRunsKeeps(r, '_');
  }

  // ----------------------------------------------------- detect_errors_and_log

  /** How many columns carry the label `c`. */
  function Occurrences(columns: seq<string>, c: string): (n: nat)
    ensures n <= |columns|
    ensures n == 0 <==> c !in columns
    decreases |columns|
  {
    if columns == [] then 0
    else Occurrences(columns[..|columns| - 1], c) + (if columns[|columns| - 1] == c then 1 else 0)
  }

  /** `value > 1e10 or value < -1e10` of a number; booleans are ints no
      larger than 1. */
  predicate IsOutlier(c: Cell) {
    match c
    case Int(i) => i > 10_000_000_000 || i < -10_000_000_000
    case Num(f) =>
      (match f
       case Finite(r, _) => r > 10_000_000_000.0 || r < -10_000_000_000.0
       case NaN => false
       case Inf(_) => true)
    case _ => false
  }

  /** The dtype `iterrows` gives every row: the common dtype of the
      columns. Rows of an all-int64 frame hold `numpy.int64` scalars, rows
      of a frame of int64 and float64 columns hold `numpy.float64` scalars,
      and rows of any other frame hold the Python values themselves. */
  datatype RowDtype = ObjectRows | Int64Rows | Float64Rows

  predicate IsInt64(i: int) {
    -0x8000_0000_0000_0000 <= i < 0x8000_0000_0000_0000
  }

  /** Column `j` has dtype int64: every cell an integer that fits 64 bits. */
  predicate Int64Column(f: Frame, j: int)
    requires WellFormed(f) && 0 <= j < |f.columns|
  {
    forall k :: 0 <= k < |f.rows| ==> f.rows[k][j].Int? && IsInt64(f.rows[k][j].i)
  }

  /** Column `j` has dtype float64: every cell a float. pandas stores a
      column mixing integers and floats as floats, so such a column holds
      only `Num` cells here. */
  predicate Float64Column(f: Frame, j: int)
    requires WellFormed(f) && 0 <= j < |f.columns|
  {
    forall k :: 0 <= k < |f.rows| ==> f.rows[k][j].Num?
  }

  /** The common dtype of the columns of `f`. */
  function RowDtypeOf(f: Frame): RowDtype
    requires WellFormed(f)
  {
    if forall j :: 0 <= j < |f.columns| ==> Int64Column(f, j) then Int64Rows
    else if forall j :: 0 <= j < |f.columns| ==> Int64Column(f, j) || Float64Column(f, j) then Float64Rows
    else ObjectRows
  }

  /** The value `row[col]` has for a cell when the row has dtype `dtype`:
      a float64 row holds every integer cast to a float. */
  function RowValue(dtype: RowDtype, c: Cell): Cell {
    if dtype == Float64Rows && c.Int? then Num(IntToFloat64(c.i)) else c
  }

  /** `isinstance(value, (int, float)) and (value > 1e10 or value < -1e10)`
      of the value a row holds: `numpy.int64` is not an instance of `int`,
      `numpy.float64` is an instance of `float`. */
  predicate IsNumberOutlier(dtype: RowDtype, c: Cell) {
    dtype != Int64Rows && IsOutlier(RowValue(dtype, c))
  }

  /** The cell of column `j` is reported: `row[col]` is the cell itself only
      when the label is unique (pandas gives a Series for a repeated label),
      and the value the row holds is a numeric outlier. */
  predicate Flagged(dtype: RowDtype, columns: seq<string>, row: seq<Cell>, j: int)
    requires |row| == |columns|
  {
    0 <= j < |columns| && Occurrences(columns, columns[j]) == 1 && IsNumberOutlier(dtype, row[j])
  }

  /** The text `f"{col}: {value}"` of one reported value. */
  function ErrorItem(column: string, c: Cell): string {
    column + ": " + CellStr(c)
  }

  /** The `error_log` of a row after its first `n` columns are examined. */
  function ErrorItems(dtype: RowDtype, columns: seq<string>, row: seq<Cell>, n: nat): seq<string>
    requires |row| == |columns| && n <= |columns|
  {
    if n == 0 then []
    else ErrorItems(dtype, columns, row, n - 1)
         + (if Flagged(dtype, columns, row, n - 1)
            then [ErrorItem(columns[n - 1], RowValue(dtype, row[n - 1]))] else [])
  }

  /** The `ERRORS` entry of a row: `None` without reports, otherwise the
      reports joined by "; ". */
  function RowErrors(dtype: RowDtype, columns: seq<string>, row: seq<Cell>): Option<string>
    requires |row| == |columns|
  {
    var items := ErrorItems(dtype, columns, row, |columns|);
    if items == [] then None else Some(Join(items, "; "))
  }

  function ErrorsCell(e: Option<string>): Cell {
    match e
    case None => Null
    case Some(s) => Str(s)
  }

  /** The `error_log` is empty exactly when no examined cell is reported. */
  lemma {:induction false} ErrorItemsEmptyIff(dtype: RowDtype, columns: seq<string>, row: seq<Cell>, n: nat)
    requires |row| == |columns| && n <= |columns|
    ensures (ErrorItems(dtype, columns, row, n) == []) <==> (forall j :: 0 <= j < n ==> !Flagged(dtype, columns, row, j))
  {
    if n > 0 {
      ErrorItemsEmptyIff(dtype, columns, row, n - 1);
    }
  }

  /** Every reported cell has its item in the `error_log`. */
  lemma {:induction false} ErrorItemsComplete(dtype: RowDtype, columns: seq<string>, row: seq<Cell>, n: nat, j: nat)
    requires |row| == |columns| && j < n <= |columns| && Flagged(dtype, columns, row, j)
    ensures ErrorItem(columns[j], RowValue(dtype, row[j])) in ErrorItems(dtype, columns, row, n)
  {
    if j < n - 1 {
      ErrorItemsComplete(dtype, columns, row, n - 1, j);
    }
  }

  /** Every item of the `error_log` is the item of a reported cell. */
  lemma {:induction false} ErrorItemsSound(dtype: RowDtype, columns: seq<string>, row: seq<Cell>, n: nat,
                                           item: string)
    requires |row| == |columns| && n <= |columns|
    requires item in ErrorItems(dtype, columns, row, n)
    ensures exists j :: && 0 <= j < n && Flagged(dtype, columns, row, j)
                        && item == ErrorItem(columns[j], RowValue(dtype, row[j]))
  {
    var prev := ErrorItems(dtype, columns, row, n - 1);
    if item in prev {
      ErrorItemsSound(dtype, columns, row, n - 1, item);
    } else {
      assert Flagged(dtype, columns, row, n - 1);
    }
  }

  /** The `ERRORS` entry is `None` exactly when no cell of the row is
      reported. */
  lemma RowErrorsNoneIff(dtype: RowDtype, columns: seq<string>, row: seq<Cell>)
    requires |row| == |columns|
    ensures RowErrors(dtype, columns, row).None? <==> forall j :: 0 <= j < |columns| ==> !Flagged(dtype, columns, row, j)
  {
    ErrorItemsEmptyIff(dtype, columns, row, |columns|);
  }

  /** A frame whose columns are all int64 gets no report at all: its rows
      hold `numpy.int64` scalars, which are not Python ints. */
  lemma Int64FrameUnflagged(f: Frame)
    requires WellFormed(f) && RowDtypeOf(f) == Int64Rows
    ensures forall k :: 0 <= k < |f.rows| ==> ErrorsColumn(f)[k] == Null
  {
    forall k | 0 <= k < |f.rows| ensures ErrorsColumn(f)[k] == Null {
      RowErrorsNoneIff(Int64Rows, f.columns, f.rows[k]);
    }
  }

  /** In a frame of int64 and float64 columns an integer cell is tested and
      printed as a float: it is reported exactly when the integer is beyond
      ±1e10, and its item ends in `.0`. */
  lemma Float64RowInteger(columns: seq<string>, row: seq<Cell>, j: nat)
    requires |row| == |columns| && j < |columns| && row[j].Int? && Occurrences(columns, columns[j]) == 1
    ensures Flagged(Float64Rows, columns, row, j) <==> IsOutlier(row[j])
    ensures ErrorItem(columns[j], RowValue(Float64Rows, row[j])) == columns[j] + ": " + IntStr(row[j].i) + ".0"
  {
  }

  /** Column names and `clean_text` change no int or float cell, so the
      cleaned frame's rows have the dtype of the frame as read. */
  lemma CleanCellsKeepsDtype(f: Frame)
    requires WellFormed(f)
    ensures RowDtypeOf(CleanCells(f)) == RowDtypeOf(f)
  {
    var g := CleanCells(f);
    forall j | 0 <= j < |f.columns|
      ensures Int64Column(g, j) == Int64Column(f, j)
      ensures Float64Column(g, j) == Float64Column(f, j)
    {
      assert forall k :: 0 <= k < |f.rows| ==> g.rows[k][j] == CleanText(f.rows[k][j]);
    }
  }

  /** `df[name] = values`: the column of that label overwritten, or a new
      column appended when the label is absent. */
  function SetColumn(f: Frame, name: string, values: seq<Cell>): (r: Frame)
    requires WellFormed(f) && |values| == |f.rows|
    ensures WellFormed(r)
    ensures |r.rows| == |f.rows|
    ensures name in f.columns ==> r.columns == f.columns
    ensures name !in f.columns ==> r.columns == f.columns + [name]
    ensures forall k, j :: 0 <= k < |r.rows| && 0 <= j < |r.columns| && r.columns[j] == name ==>
              r.rows[k][j] == values[k]
    ensures forall k, j :: 0 <= k < |r.rows| && 0 <= j < |f.columns| && f.columns[j] != name ==>
              r.rows[k][j] == f.rows[k][j]
  {
    if name in f.columns then
      Frame(f.columns,
            seq(|f.rows|, k requires 0 <= k < |f.rows| =>
              seq(|f.columns|, j requires 0 <= j < |f.columns| =>
                if f.columns[j] == name then values[k] else f.rows[k][j])))
    else
      Frame(f.columns + [name],
            seq(|f.rows|, k requires 0 <= k < |f.rows| => f.rows[k] + [values[k]]))
  }

  /** `detect_errors_and_log`: one `ERRORS` entry per row, computed by the
      source's nested loops over rows and columns. */
  method DetectErrorsAndLog(f: Frame) returns (r: Frame)
    requires WellFormed(f)
    ensures r == SetColumn(f, "ERRORS", ErrorsColumn(f))
  {
    var dtype := RowDtypeOf(f);
    var errorColumnData: seq<Cell> := [];
    for k := 0 to |f.rows|
      invariant |errorColumnData| == k
      invariant forall i :: 0 <= i < k ==> errorColumnData[i] == ErrorsCell(RowErrors(dtype, f.columns, f.rows[i]))
    {
      var row := f.rows[k];
      var errorLog: seq<string> := [];
      for j := 0 to |f.columns|
        invariant errorLog == ErrorItems(dtype, f.columns, row, j)
      {
        var value := RowValue(dtype, row[j]);
        if Occurrences(f.columns, f.columns[j]) == 1 && dtype != Int64Rows && IsOutlier(value) {
          errorLog := errorLog + [ErrorItem(f.columns[j], value)];
        }
      }
      if errorLog != [] {
        errorColumnData := errorColumnData + [Str(Join(errorLog, "; "))];
      } else {
        errorColumnData := errorColumnData + [Null];
      }
    }
    assert errorColumnData == ErrorsColumn(f);
    r := SetColumn(f, "ERRORS", errorColumnData);
  }

  /** The `ERRORS` column: the entry of each row, in row order. */
  function ErrorsColumn(f: Frame): (errors: seq<Cell>)
    requires WellFormed(f)
    ensures |errors| == |f.rows|
  {
    var dtype := RowDtypeOf(f);
    seq(|f.rows|, k requires 0 <= k < |f.rows| => ErrorsCell(RowErrors(dtype, f.columns, f.rows[k])))
  }

  // ------------------------------------------------------ per-sheet pipeline

  /** `df.astype(str)`. */
  function AsText(f: Frame): (r: Frame)
    requires WellFormed(f)
    ensures WellFormed(r) && r.columns == f.columns && |r.rows| == |f.rows|
    ensures forall k, j :: 0 <= k < |r.rows| && 0 <= j < |r.columns| ==> r.rows[k][j] == Str(CellStr(f.rows[k][j]))
  {
    Frame(f.columns,
          seq(|f.rows|, k requires 0 <= k < |f.rows| =>
            seq(|f.columns|, j requires 0 <= j < |f.columns| => Str(CellStr(f.rows[k][j])))))
  }

  /** `df.index + 2`: the spreadsheet line of each row, the header being
      line 1. */
  function OriginalLines(n: nat): (lines: seq<Cell>)
    ensures |lines| == n
    ensures forall k :: 0 <= k < n ==> lines[k] == Int(k + 2)
  {
    seq(n, k requires 0 <= k < n => Int(k + 2))
  }

  /** The cleaning of one sheet: column names, text cells, the `ERRORS`
      column, the conversion of every cell to text and the `original_line`
      column, in the script's order. */
  function CleanSheet(f: Frame): (r: Frame)
    requires WellFormed(f)
    ensures WellFormed(r) && |r.rows| == |f.rows|
  {
    var cleaned := CleanCells(f);
    var texts := AsText(SetColumn(cleaned, "ERRORS", ErrorsColumn(cleaned)));
    SetColumn(texts, "original_line", OriginalLines(|f.rows|))
  }

  /** The written sheet has both added columns; `original_line` holds the
      spreadsheet line of each row and every other cell is text. */
  lemma CleanSheetShape(f: Frame)
    requires WellFormed(f)
    ensures var r := CleanSheet(f);
      && "original_line" in r.columns && "ERRORS" in r.columns
      && (forall k, j :: 0 <= k < |r.rows| && 0 <= j < |r.columns| && r.columns[j] == "original_line" ==>
            r.rows[k][j] == Int(k + 2))
      && (forall k, j :: 0 <= k < |r.rows| && 0 <= j < |r.columns| && r.columns[j] != "original_line" ==>
            r.rows[k][j].Str?)
  {
    var cleaned := CleanCells(f);
    var withErrors := SetColumn(cleaned, "ERRORS", ErrorsColumn(cleaned));
    var texts := AsText(withErrors);
    assert "ERRORS" in texts.columns;
    SetColumnKeepsText(texts, "original_line", OriginalLines(|f.rows|));
  }

  /** Setting a column of a frame of text cells leaves the other cells text. */
  lemma SetColumnKeepsText(f: Frame, name: string, values: seq<Cell>)
    requires WellFormed(f) && |values| == |f.rows|
    requires forall k, j :: 0 <= k < |f.rows| && 0 <= j < |f.columns| ==> f.rows[k][j].Str?
    ensures var r := SetColumn(f, name, values);
      forall k, j :: 0 <= k < |r.rows| && 0 <= j < |r.columns| && r.columns[j] != name ==> r.rows[k][j].Str?
  {
    var r := SetColumn(f, name, values);
    forall k, j | 0 <= k < |r.rows| && 0 <= j < |r.columns| && r.columns[j] != name
      ensures r.rows[k][j].Str?
    {
      assert j < |f.columns|;
      assert r.rows[k][j] == f.rows[k][j];
    }
  }

  /** Column names cleaned and `clean_text` applied to every cell. */
  function CleanCells(f: Frame): (r: Frame)
    requires WellFormed(f)
    ensures WellFormed(r) && |r.rows| == |f.rows| && |r.columns| == |f.columns|
    ensures forall j :: 0 <= j < |f.columns| ==> r.columns[j] == CleanColumnName(f.columns[j])
    ensures forall k, j :: 0 <= k < |f.rows| && 0 <= j < |f.columns| ==> r.rows[k][j] == CleanText(f.rows[k][j])
  {
    Frame(seq(|f.columns|, j requires 0 <= j < |f.columns| => CleanColumnName(f.columns[j])),
          seq(|f.rows|, k requires 0 <= k < |f.rows| =>
            seq(|f.columns|, j requires 0 <= j < |f.columns| => CleanText(f.rows[k][j]))))
  }

  // ----------------------------------------------------------- output naming

  /** `os.path.basename`: the text after the last `/`. */
  function BaseName(path: string): (r: string)
    ensures '/' !in r
  {
    path[LastIndexOf(path, '/') + 1..]
  }

  /** `os.path.splitext(name)[0]` of a base name: the name without its last
      extension, a leading run of dots not counting as one. */
  function Stem(name: string): (r: string)
    ensures |r| <= |name| && r == name[..|r|]
    ensures |r| < |name| ==> name[|r|] == '.' && '.' !in name[|r| + 1..]
  {
    var dot := LastIndexOf(name, '.');
    if 0 < dot && exists k :: 0 <= k < dot && name[k] != '.' then name[..dot] else name
  }

  /** `f"{base_filename}_{cleaned_sheet_name}_cleaned.csv"`. */
  function CsvFileName(excelPath: string, sheetName: string): string {
    Stem(BaseName(excelPath)) + "_" + CleanSheetName(sheetName) + "_cleaned.csv"
  }

  /** A path without `/` is its own base name. */
  lemma BaseNameOfPlainPath(path: string)
    requires '/' !in path
    ensures BaseName(path) == path
  {
    assert LastIndexOf(path, '/') == -1;
  }

  /** Adding the `.xlsx` extension adds no `/`. */
  lemma XlsxPathPlain(name: string)
    requires '/' !in name
    ensures '/' !in name + ".xlsx"
  {
    var path := name + ".xlsx";
    forall k | 0 <= k < |path| ensures path[k] != '/' {
      if k < |name| { assert path[k] == name[k]; }
    }
  }

  /** The stem of `name.xlsx` is `name` when `name` does not start with a
      dot. */
  lemma StemOfXlsx(name: string)
    requires |name| > 0 && name[0] != '.'
    ensures Stem(name + ".xlsx") == name
  {
    var path := name + ".xlsx";
    assert path[|name|] == '.';
    assert forall k :: |name| < k < |path| ==> path[k] != '.';
    assert LastIndexOf(path, '.') == |name|;
    assert path[0] != '.';
    assert path[..|name|] == name;
  }

  /** The workbook `name.xlsx` in the working directory yields the CSV name
      `{name}_{cleaned sheet}_cleaned.csv`. */
  lemma CsvFileNameOfWorkbook(name: string, sheetName: string)
    requires '/' !in name && |name| > 0 && name[0] != '.'
    ensures CsvFileName(name + ".xlsx", sheetName) == name + "_" + CleanSheetName(sheetName) + "_cleaned.csv"
  {
    XlsxPathPlain(name);
    BaseNameOfPlainPath(name + ".xlsx");
    StemOfXlsx(name);
  }
}
