/** The upload of cleaned CSV files into `raw_egypt_weekly_reports`: the
    report name, report date and sheet name of each file are read off its
    file name, and a file without a date is skipped. */
module UploadReports {
  import opened Wrappers
  import opened Text
  import opened Numbers
  import opened Calendar
  import ProcessExcel

  // ------------------------------------------------------- extract_report_date

  predicate IsDateSeparator(c: char) { c == '-' || c == '_' }

  /** `n` digits start at position `i`. */
  predicate DigitsAt(s: string, i: int, n: nat) {
    0 <= i && i + n <= |s| && forall k :: i <= k < i + n ==> IsAsciiDigit(s[k])
  }

  /** The pattern `(\d{1,2})[-_](\d{1,2})[-_](\d{4})` matches at `i` with a
      first group of `a` digits and a second group of `b` digits. */
  predicate MatchesWith(s: string, i: int, a: nat, b: nat) {
    && DigitsAt(s, i, a)
    && i + a < |s| && IsDateSeparator(s[i + a])
    && DigitsAt(s, i + a + 1, b)
    && i + a + 1 + b < |s| && IsDateSeparator(s[i + a + 1 + b])
    && DigitsAt(s, i + a + b + 2, 4)
  }

  /** The three groups of a match: month, day and year digits. */
  datatype DateMatch = DateMatch(month: string, day: string, year: string)

  /** Groups made of digits only. */
  predicate IsDigitMatch(m: DateMatch) {
    AllChars(m.month, IsAsciiDigit) && AllChars(m.day, IsAsciiDigit) && AllChars(m.year, IsAsciiDigit)
  }

  function Groups(s: string, i: nat, a: nat, b: nat): (m: DateMatch)
    requires MatchesWith(s, i, a, b)
    ensures IsDigitMatch(m) && |m.month| == a && |m.day| == b && |m.year| == 4
  {
    DateMatch(s[i..i + a], s[i + a + 1..i + a + 1 + b], s[i + a + b + 2..i + a + b + 6])
  }

  /** The match at position `i`, the greedy groups tried in the order the
      regular expression engine backtracks through them. */
  function MatchAt(s: string, i: nat): (r: Option<DateMatch>)
    ensures r.Some? ==> IsDigitMatch(r.value)
  {
    if MatchesWith(s, i, 2, 2) then Some(Groups(s, i, 2, 2))
    else if MatchesWith(s, i, 2, 1) then Some(Groups(s, i, 2, 1))
    else if MatchesWith(s, i, 1, 2) then Some(Groups(s, i, 1, 2))
    else if MatchesWith(s, i, 1, 1) then Some(Groups(s, i, 1, 1))
    else None
  }

  /** At a given position at most one choice of group widths matches, so
      the backtracking order decides nothing. */
  lemma MatchWidthsUnique(s: string, i: nat, a: nat, b: nat, a': nat, b': nat)
    requires 1 <= a <= 2 && 1 <= b <= 2 && 1 <= a' <= 2 && 1 <= b' <= 2
    requires MatchesWith(s, i, a, b) && MatchesWith(s, i, a', b')
    ensures a == a' && b == b'
  {
  }

  /** No position in `[from, to)` matches. */
  ghost predicate NoMatchBetween(s: string, from: nat, to: nat) {
    forall j :: from <= j < to ==> MatchAt(s, j).None?
  }

  /** No position at or after `from` matches. */
  ghost predicate NoMatchFrom(s: string, from: nat) {
    forall j :: from <= j ==> MatchAt(s, j).None?
  }

  /** Nothing matches at or past the end of the text. */
  lemma NoMatchPastEnd(s: string, from: nat)
    requires from >= |s|
    ensures NoMatchFrom(s, from)
  {
    forall j | from <= j ensures MatchAt(s, j).None? {
      assert !DigitsAt(s, j + 3, 4);
    }
  }

  /** `re.search`: the leftmost match at or after `from`. */
  function Search(s: string, from: nat): (r: Option<(nat, DateMatch)>)
    ensures r.Some? ==> IsDigitMatch(r.value.1)
    decreases |s| - from
  {
    if from >= |s| then None
    else match MatchAt(s, from)
      case Some(m) => Some((from, m))
      case None => Search(s, from + 1)
  }

  /** The search finds the leftmost match, and finds one whenever there is
      one. */
  lemma {:induction false} SearchLeftmost(s: string, from: nat)
    ensures Search(s, from).Some? ==>
              var (p, m) := Search(s, from).value;
              from <= p && MatchAt(s, p) == Some(m) && NoMatchBetween(s, from, p)
    ensures Search(s, from).None? ==> NoMatchFrom(s, from)
    decreases |s| - from
  {
    if from >= |s| {
      NoMatchPastEnd(s, from);
    } else if MatchAt(s, from).None? {
      SearchLeftmost(s, from + 1);
      assert Search(s, from) == Search(s, from + 1);
    }
  }

  /** Position `p` holds the leftmost match of the whole text. */
  ghost predicate LeftmostAt(s: string, p: nat) {
    MatchAt(s, p).Some? && NoMatchBetween(s, 0, p)
  }

  /** There is one leftmost match at most. */
  lemma LeftmostUnique(s: string, p: nat, q: nat)
    requires LeftmostAt(s, p) && LeftmostAt(s, q)
    ensures p == q
  {
    assert p < q ==> MatchAt(s, p).None?;
    assert q < p ==> MatchAt(s, q).None?;
  }

  /** The date the groups spell, read as month, day and year. */
  function DateOf(m: DateMatch): Date
    requires IsDigitMatch(m)
  {
    Date(DigitsValue(m.year), DigitsValue(m.month), DigitsValue(m.day))
  }

  /** `extract_report_date`: the date of the leftmost match when
      `strptime` accepts it; `None` when there is no match or the leftmost
      one is not a calendar date, later matches being never tried. */
  function ExtractReportDate(fileName: string): (r: Option<Date>)
    ensures r.Some? ==> IsValid(r.value)
  {
    match Search(fileName, 0)
    case None => None
    case Some((_, m)) => if IsValid(DateOf(m)) then Some(DateOf(m)) else None
  }

  /** The extracted date, stated against the match positions: a date is
      found exactly when the leftmost match spells a valid date. */
  lemma ExtractReportDateLeftmost(fileName: string, d: Date)
    ensures ExtractReportDate(fileName) == Some(d) <==>
              exists p: nat :: LeftmostAt(fileName, p) && DateOf(MatchAt(fileName, p).value) == d && IsValid(d)
  {
    SearchLeftmost(fileName, 0);
    match Search(fileName, 0)
    case None =>
      forall p: nat ensures !LeftmostAt(fileName, p) {
        assert MatchAt(fileName, p).None?;
      }
    case Some((p, m)) =>
      assert LeftmostAt(fileName, p);
      forall q: nat | LeftmostAt(fileName, q) ensures q == p {
        LeftmostUnique(fileName, p, q);
      }
  }

  /** No date is found when the file name has no match at all. */
  lemma ExtractReportDateNoMatch(fileName: string)
    requires forall j: nat :: MatchAt(fileName, j).None?
    ensures ExtractReportDate(fileName).None?
  {
    SearchLeftmost(fileName, 0);
  }

  // ------------------------------------------------------- names of a report

  /** `report_name`: the base file name up to its first `_`, the whole name
      when there is none. */
  function ReportName(filePath: string): (r: string)
    ensures '_' !in r
    ensures var name := ProcessExcel.BaseName(filePath);
      |r| <= |name| && r == name[..|r|] && (|r| < |name| ==> name[|r|] == '_')
  {
    var name := ProcessExcel.BaseName(filePath);
    SplitFirst(name, '_');
    Split(name, '_')[0]
  }

  /** The stored sheet name: `clean_sheet_name` (the same chain as the
      workbook cleaner's) of the base file name after every ".csv" and then
      every "cleaned" is removed. */
  function StoredSheetName(filePath: string): (r: string)
    ensures AllChars(r, IsWordChar)
    ensures NoDoubled(r, '_')
    ensures |r| > 0 ==> r[0] != '_' && r[|r| - 1] != '_'
  {
    var name := ProcessExcel.BaseName(filePath);
    ProcessExcel.CleanSheetName(ReplaceAll(ReplaceAll(name, ".csv", ""), "cleaned", ""))
  }

  /** The row one file contributes to `raw_egypt_weekly_reports`, apart
      from its column names and data. */
  datatype ReportRow = ReportRow(reportName: string, reportDate: Date, sheetName: string)

  /** The per-file step of the upload loop: the report row of a file, or
      `None` when its name has no date and the file is skipped. */
  function PlanUpload(filePath: string): (r: Option<ReportRow>)
    ensures r.None? <==> ExtractReportDate(ProcessExcel.BaseName(filePath)).None?
    ensures r.Some? ==>
              && IsValid(r.value.reportDate)
              && '_' !in r.value.reportName
              && AllChars(r.value.sheetName, IsWordChar)
              && NoDoubled(r.value.sheetName, '_')
  {
    match ExtractReportDate(ProcessExcel.BaseName(filePath))
    case None => None
    case Some(d) => Some(ReportRow(ReportName(filePath), d, StoredSheetName(filePath)))
  }

  /** A cleaned sheet name is made of word characters, so the rest of a
      cleaned CSV name after the workbook name has no `/`. */
  lemma CleanedSuffixHasNoSlash(sheet: string)
    requires AllChars(sheet, IsWordChar)
    ensures '/' !in sheet + "_cleaned.csv"
  {
    var rest := sheet + "_cleaned.csv";
    forall k | 0 <= k < |rest| ensures rest[k] != '/' {
      if k < |sheet| {
        assert rest[k] == sheet[k];
      }
    }
  }

  /** Joining two texts without `/` by `_` gives a text without `/`. */
  lemma JoinedHasNoSlash(a: string, b: string)
    requires '/' !in a && '/' !in b
    ensures '/' !in a + "_" + b
  {
    var j := a + "_" + b;
    forall k | 0 <= k < |j| ensures j[k] != '/' {
      if k < |a| {
        assert j[k] == a[k];
      } else if k > |a| {
        assert j[k] == b[k - |a| - 1];
      }
    }
  }

  /** The report name of a plain file name is the text before its first
      `_`. */
  lemma ReportNameOfPlainName(name: string, rest: string)
    requires '_' !in name && '/' !in name + "_" + rest
    ensures ReportName(name + "_" + rest) == name
  {
    ProcessExcel.BaseNameOfPlainPath(name + "_" + rest);
    assert name + "_" + rest == name + ['_'] + rest;
    SplitAtFirst(name, rest, '_');
  }

  /** A name `{name}_{sheet}_cleaned.csv` gives back `name` as its report
      name when `name` has no `_`. */
  lemma ReportNameOfCsvName(name: string, sheet: string)
    requires '/' !in name && '_' !in name && AllChars(sheet, IsWordChar)
    ensures ReportName(name + "_" + sheet + "_cleaned.csv") == name
  {
    var rest := sheet + "_cleaned.csv";
    assert name + "_" + sheet + "_cleaned.csv" == name + "_" + rest;
    CleanedSuffixHasNoSlash(sheet);
    JoinedHasNoSlash(name, rest);
    ReportNameOfPlainName(name, rest);
  }

  /** The text of a CSV name between the workbook name and `.csv` holds no
      `.`: a cleaned sheet name is made of word characters. */
  lemma CleanedTailHasNoDot(sheet: string)
    requires AllChars(sheet, IsWordChar)
    ensures '.' !in sheet + "_cleaned"
  {
    var tail := sheet + "_cleaned";
    forall k | 0 <= k < |tail| ensures tail[k] != '.' {
      if k < |sheet| {
        assert tail[k] == sheet[k];
      }
    }
  }

  /** Removing ".csv" from `{name}_{sheet}_cleaned.csv` removes only the
      extension when `name` holds no ".csv". */
  lemma DropCsvExtension(name: string, sheet: string)
    requires AllChars(sheet, IsWordChar) && !Occurs(name, ".csv")
    ensures ReplaceAll(name + "_" + sheet + "_cleaned.csv", ".csv", "") == name + "_" + sheet + "_cleaned"
  {
    var head := name + "_" + sheet + "_cleaned";
    var s := head + ".csv";
    assert name + "_" + sheet + "_cleaned.csv" == s;
    CleanedTailHasNoDot(sheet);
    AbsentWithoutFirst(sheet + "_cleaned", ".csv");
    assert head == name + ['_'] + (sheet + "_cleaned");
    AbsentAround(name, '_', sheet + "_cleaned", ".csv");
    forall i | 0 <= i < |head| < i + 4 ensures !OccursAt(s, ".csv", i) {
      assert s[i] == "cleaned"[i - (|head| - 7)];
      NotOccursAcross(s, ".csv", i, i);
    }
    ReplaceAllAppend(head, ".csv", ".csv", "");
    ReplaceAllAbsent(head, ".csv", "");
    ReplaceAllWhole(".csv", "");
  }

  /** Removing "cleaned" from `{name}_{sheet}_cleaned` leaves
      `{name}_{sheet}_` when neither `name` nor `sheet` holds "cleaned". */
  lemma DropCleanedMarker(name: string, sheet: string)
    requires !Occurs(name, "cleaned") && !Occurs(sheet, "cleaned")
    ensures ReplaceAll(name + "_" + sheet + "_cleaned", "cleaned", "") == name + "_" + sheet + "_"
  {
    var head := name + "_" + sheet + "_";
    var s := head + "cleaned";
    assert name + "_" + sheet + "_cleaned" == s;
    assert !Occurs([], "cleaned");
    assert sheet + "_" == sheet + ['_'] + [];
    AbsentAround(sheet, '_', [], "cleaned");
    assert head == name + ['_'] + (sheet + "_");
    AbsentAround(name, '_', sheet + "_", "cleaned");
    forall i | 0 <= i < |head| < i + 7 ensures !OccursAt(s, "cleaned", i) {
      assert s[|head| - 1] == '_';
      NotOccursAcross(s, "cleaned", i, |head| - 1);
    }
    ReplaceAllAppend(head, "cleaned", "cleaned", "");
    ReplaceAllAbsent(head, "cleaned", "");
    ReplaceAllWhole("cleaned", "");
  }

  /** The sheet name stored for the CSV written from sheet `sheetName` of
      workbook `name.xlsx` is the cleaning of `{name}_{cleaned sheet}_`,
      when neither name holds ".csv" or "cleaned". */
  lemma StoredSheetNameOfCleanedCsv(name: string, sheetName: string)
    requires '/' !in name && |name| > 0 && name[0] != '.'
    requires !Occurs(name, ".csv") && !Occurs(name, "cleaned")
    requires !Occurs(ProcessExcel.CleanSheetName(sheetName), "cleaned")
    ensures StoredSheetName(ProcessExcel.CsvFileName(name + ".xlsx", sheetName)) ==
              ProcessExcel.CleanSheetName(name + "_" + ProcessExcel.CleanSheetName(sheetName) + "_")
  {
    var sheet := ProcessExcel.CleanSheetName(sheetName);
    ProcessExcel.CsvFileNameOfWorkbook(name, sheetName);
    var file := name + "_" + sheet + "_cleaned.csv";
    CsvNameIsBaseName(name, sheet);
    DropCsvExtension(name, sheet);
    DropCleanedMarker(name, sheet);
    assert ReplaceAll(ReplaceAll(file, ".csv", ""), "cleaned", "") == name + "_" + sheet + "_";
  }

  /** A CSV name `{name}_{sheet}_cleaned.csv` is its own base name. */
  lemma CsvNameIsBaseName(name: string, sheet: string)
    requires '/' !in name && AllChars(sheet, IsWordChar)
    ensures ProcessExcel.BaseName(name + "_" + sheet + "_cleaned.csv") == name + "_" + sheet + "_cleaned.csv"
  {
    var file := name + "_" + sheet + "_cleaned.csv";
    var rest := sheet + "_cleaned.csv";
    assert file == name + "_" + rest;
    CleanedSuffixHasNoSlash(sheet);
    JoinedHasNoSlash(name, rest);
    ProcessExcel.BaseNameOfPlainPath(file);
  }

  /** The CSV written for workbook `name.xlsx` gives back `name` as its
      report name when `name` has no `_`. */
  lemma ReportNameOfCleanedCsv(name: string, sheetName: string)
    requires '/' !in name && '_' !in name && |name| > 0 && name[0] != '.'
    ensures ReportName(ProcessExcel.CsvFileName(name + ".xlsx", sheetName)) == name
  {
    ProcessExcel.CsvFileNameOfWorkbook(name, sheetName);
    ReportNameOfCsvName(name, ProcessExcel.CleanSheetName(sheetName));
  }
}
