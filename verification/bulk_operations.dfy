/** The preparation of an imported spreadsheet for the bulk insert of MRL
    line items or fulfillment items: normalised column names, converted
    date and numeric columns, NaN and infinities replaced by `None` at every
    depth, and text fields cut to the maximum lengths of their database
    columns. */
module BulkOperations {
  import opened Wrappers
  import opened Text
  import opened Numbers
  import opened Calendar
  import ProcessExcel

  /** A Python value as the records hold it. */
  datatype Json =
    | JNone
    | JBool(b: bool)
    | JInt(i: int)
    | JFloat(f: Float)
    | JStr(s: string)
    | JDate(d: Date)
    | JList(items: seq<Json>)
    | JDict(fields: map<string, Json>)

  // ---------------------------------------------------------------- clean_data

  /** `clean_data`: NaN and infinite floats replaced by `None`, dictionaries
      and lists rebuilt around their cleaned members, every other value
      returned as it is. */
  function CleanData(obj: Json): Json {
    match obj
    case JFloat(f) => if IsNonFinite(f) then JNone else obj
    case JDict(fields) => JDict(map k | k in fields :: CleanData(fields[k]))
    case JList(items) => JList(seq(|items|, i requires 0 <= i < |items| => CleanData(items[i])))
    case _ => obj
  }

  /** No NaN or infinite float at any depth. */
  predicate Scrubbed(obj: Json) {
    match obj
    case JFloat(f) => !IsNonFinite(f)
    case JDict(fields) => forall k :: k in fields ==> Scrubbed(fields[k])
    case JList(items) => forall i :: 0 <= i < |items| ==> Scrubbed(items[i])
    case _ => true
  }

  /** `cleaned` has the shape of `obj`: the same dictionary keys and list
      lengths at every depth, finite floats and scalars kept, non-finite
      floats made `None`. */
  predicate ShapeOf(obj: Json, cleaned: Json) {
    match obj
    case JFloat(f) => cleaned == if IsNonFinite(f) then JNone else obj
    case JDict(fields) =>
      && cleaned.JDict?
      && cleaned.fields.Keys == fields.Keys
      && forall k :: k in fields ==> ShapeOf(fields[k], cleaned.fields[k])
    case JList(items) =>
      && cleaned.JList?
      && |cleaned.items| == |items|
      && forall i :: 0 <= i < |items| ==> ShapeOf(items[i], cleaned.items[i])
    case _ => cleaned == obj
  }

  /** After `clean_data` no NaN or infinity remains at any depth. */
  lemma {:induction false} CleanDataScrubbed(obj: Json)
    ensures Scrubbed(CleanData(obj))
  {
    match obj
    case JDict(fields) =>
      forall k | k in fields ensures Scrubbed(CleanData(obj).fields[k]) {
        CleanDataScrubbed(fields[k]);
      }
    case JList(items) =>
      forall i | 0 <= i < |items| ensures Scrubbed(CleanData(obj).items[i]) {
        CleanDataScrubbed(items[i]);
      }
    case _ =>
  }

  /** `clean_data` keeps the shape of its input. */
  lemma {:induction false} CleanDataShape(obj: Json)
    ensures ShapeOf(obj, CleanData(obj))
  {
    match obj
    case JDict(fields) =>
      forall k | k in fields ensures ShapeOf(fields[k], CleanData(obj).fields[k]) {
        CleanDataShape(fields[k]);
      }
    case JList(items) =>
      forall i | 0 <= i < |items| ensures ShapeOf(items[i], CleanData(obj).items[i]) {
        CleanDataShape(items[i]);
      }
    case _ =>
  }

  /** A value without NaN or infinity is left as it is. */
  lemma {:induction false} CleanDataKeeps(obj: Json)
    requires Scrubbed(obj)
    ensures CleanData(obj) == obj
  {
    match obj
    case JDict(fields) =>
      forall k | k in fields ensures CleanData(fields[k]) == fields[k] {
        CleanDataKeeps(fields[k]);
      }
      assert CleanData(obj).fields == fields;
    case JList(items) =>
      forall i | 0 <= i < |items| ensures CleanData(items[i]) == items[i] {
        CleanDataKeeps(items[i]);
      }
      assert CleanData(obj).items == items;
    case _ =>
  }

  /** Cleaning twice is cleaning once. */
  lemma CleanDataIdempotent(obj: Json)
    ensures CleanData(CleanData(obj)) == CleanData(obj)
  {
    CleanDataScrubbed(obj);
    CleanDataKeeps(CleanData(obj));
  }

  // ------------------------------------------------ validate_and_truncate_data

  /** A record of the list, keyed by column name. */
  type Record = map<string, Json>

  /** The treatment of one field under its limit: a text longer than a
      non-`None` limit is cut by the slice `[:max_length]`; everything else
      stays. */
  function TruncateValue(v: Json, maxLength: Option<int>): (r: Json)
    ensures !v.JStr? || maxLength.None? ==> r == v
    ensures v.JStr? ==> r.JStr? && |r.s| <= |v.s| && r.s == v.s[..|r.s|]
  {
    if maxLength.Some? && v.JStr? && |v.s| > maxLength.value then JStr(PyPrefix(v.s, maxLength.value))
    else v
  }

  /** A record after the fields of `done` have been checked against their
      limits. */
  function TruncateFields(rec: Record, limits: map<string, Option<int>>, done: set<string>): (r: Record)
    ensures r.Keys == rec.Keys
  {
    map k | k in rec :: if k in done && k in limits then TruncateValue(rec[k], limits[k]) else rec[k]
  }

  /** Checking one more field whose value its limit leaves alone changes
      nothing. */
  lemma TruncateStepKeeps(rec: Record, limits: map<string, Option<int>>, done: set<string>, field: string)
    requires field in limits && field !in done
    requires field in rec ==> TruncateValue(rec[field], limits[field]) == rec[field]
    ensures TruncateFields(rec, limits, done + {field}) == TruncateFields(rec, limits, done)
  {
  }

  /** Checking one more field whose text is too long cuts that field
      alone. */
  lemma TruncateStepCuts(rec: Record, limits: map<string, Option<int>>, done: set<string>, field: string)
    requires field in limits && field !in done && field in rec
    ensures TruncateFields(rec, limits, done + {field}) ==
              TruncateFields(rec, limits, done)[field := TruncateValue(rec[field], limits[field])]
  {
  }

  /** A record after every field of the limits table has been checked. */
  function TruncateRecord(rec: Record, limits: map<string, Option<int>>): (r: Record)
    ensures r.Keys == rec.Keys
  {
    TruncateFields(rec, limits, limits.Keys)
  }

  /** The inner loop of `validate_and_truncate_data`: the fields of the
      limits table checked one by one on the record dictionary, a text
      longer than its non-`None` limit replaced by its first `max_length`
      characters. */
  method TruncateInPlace(rec: Record, limits: map<string, Option<int>>) returns (record: Record)
    ensures record == TruncateRecord(rec, limits)
  {
    record := rec;
    var pending := limits.Keys;
    while pending != {}
      invariant pending <= limits.Keys
      invariant record == TruncateFields(rec, limits, limits.Keys - pending)
      decreases |pending|
    {
      var field :| field in pending;
      ghost var done := limits.Keys - pending;
      var maxLength := limits[field];
      if maxLength.Some? && field in record && record[field].JStr? && |record[field].s| > maxLength.value {
        var truncatedValue := PyPrefix(record[field].s, maxLength.value);
        TruncateStepCuts(rec, limits, done, field);
        record := record[field := JStr(truncatedValue)];
      } else {
        TruncateStepKeeps(rec, limits, done, field);
      }
      pending := pending - {field};
      assert limits.Keys - pending == done + {field};
    }
    assert limits.Keys - pending == limits.Keys;
  }

  /** `validate_and_truncate_data`: every record overwritten in place, field
      by field of the limits table; the same list is returned. */
  method ValidateAndTruncate(data: array<Record>, limits: map<string, Option<int>>)
    returns (r: array<Record>)
    modifies data
    ensures r == data
    ensures forall i :: 0 <= i < data.Length ==> data[i] == TruncateRecord(old(data[i]), limits)
  {
    for i := 0 to data.Length
      invariant forall k :: 0 <= k < i ==> data[k] == TruncateRecord(old(data[k]), limits)
      invariant forall k :: i <= k < data.Length ==> data[k] == old(data[k])
    {
      data[i] := TruncateInPlace(data[i], limits);
    }
    r := data;
  }

  /** Every limited text field of the result is within its limit, when the
      limits are not negative. */
  lemma TruncateRecordWithin(rec: Record, limits: map<string, Option<int>>, field: string)
    requires field in rec && field in limits && limits[field].Some? && limits[field].value >= 0
    requires TruncateRecord(rec, limits)[field].JStr?
    ensures |TruncateRecord(rec, limits)[field].s| <= limits[field].value
  {
  }

  /** A field that is cut keeps exactly its first `max_length` characters. */
  lemma TruncateRecordPrefix(rec: Record, limits: map<string, Option<int>>, field: string)
    requires field in rec && rec[field].JStr? && field in limits && limits[field].Some?
    requires 0 <= limits[field].value < |rec[field].s|
    ensures TruncateRecord(rec, limits)[field] == JStr(rec[field].s[..limits[field].value])
  {
  }

  /** Texts within their limit, values that are not text, fields whose limit
      is `None` and fields outside the limits table are left untouched. */
  lemma TruncateRecordUntouched(rec: Record, limits: map<string, Option<int>>, field: string)
    requires field in rec
    requires || field !in limits
             || limits[field].None?
             || !rec[field].JStr?
             || |rec[field].s| <= limits[field].value
    ensures TruncateRecord(rec, limits)[field] == rec[field]
  {
  }

  /** With limits that are not negative, truncating again changes nothing. */
  lemma TruncateRecordIdempotent(rec: Record, limits: map<string, Option<int>>)
    requires forall f :: f in limits && limits[f].Some? ==> limits[f].value >= 0
    ensures TruncateRecord(TruncateRecord(rec, limits), limits) == TruncateRecord(rec, limits)
  {
    var once := TruncateRecord(rec, limits);
    forall f | f in once ensures TruncateRecord(once, limits)[f] == once[f] {
      if f in limits && limits[f].Some? && once[f].JStr? {
        TruncateRecordWithin(rec, limits, f);
      }
      TruncateRecordUntouched(once, limits, f);
    }
  }

  /** The limits of the configuration shipped with the interface: a
      maximum length per field, `None` for the unbounded `comments`. */
  const FieldMaxLengths: map<string, Option<int>> := map[
    "shipdoc_tcn" := Some(30), "v2x_ship_no" := Some(20), "booking" := Some(20),
    "vessel" := Some(30), "container" := Some(25), "carrier" := Some(50),
    "lot_id" := Some(30), "triwall" := Some(30), "milstrip_req_no" := Some(25),
    "comments" := None, "jcn" := Some(50), "twcode" := Some(50)]

  /** The shipped limits are all non-negative, so truncating a second time
      changes nothing. */
  lemma FieldMaxLengthsIdempotent(rec: Record)
    ensures TruncateRecord(TruncateRecord(rec, FieldMaxLengths), FieldMaxLengths)
         == TruncateRecord(rec, FieldMaxLengths)
  {
    assert forall f :: f in FieldMaxLengths && FieldMaxLengths[f].Some? ==> FieldMaxLengths[f].value >= 0;
    TruncateRecordIdempotent(rec, FieldMaxLengths);
  }

  /** A negative limit counts from the end of the text, so every pass cuts
      again: a limit of -1 shortens "abc" to "ab", then to "a". */
  lemma NegativeLimitNotIdempotent()
    ensures var rec := map["f" := JStr("abc")];
      var limits := map["f" := Some(-1)];
      && TruncateRecord(rec, limits)["f"] == JStr("ab")
      && TruncateRecord(TruncateRecord(rec, limits), limits)["f"] == JStr("a")
  {
    var rec := map["f" := JStr("abc")];
    var limits := map["f" := Some(-1)];
    assert TruncateRecord(rec, limits)["f"] == TruncateValue(JStr("abc"), Some(-1));
    assert "abc"[..2] == "ab";
    var once := TruncateRecord(rec, limits);
    assert TruncateRecord(once, limits)["f"] == TruncateValue(JStr("ab"), Some(-1));
    assert "ab"[..1] == "a";
  }

  /** `clean_data` touches only floats and truncation only texts, so the two
      steps commute. */
  lemma CleanThenTruncateCommute(rec: Record, limits: map<string, Option<int>>)
    ensures TruncateRecord(CleanRecord(rec), limits) == CleanRecord(TruncateRecord(rec, limits))
  {
  }

  /** `clean_data` of one record, a dictionary. */
  function CleanRecord(rec: Record): (r: Record)
    ensures r.Keys == rec.Keys
  {
    map k | k in rec :: CleanData(rec[k])
  }

  // ---------------------------------------------------------- header cleaning

  /** The column-name chain of both prepare functions: stripped,
      lower-cased, every character outside `[0-9a-zA-Z_]` made `_`, runs of
      two or more `_` collapsed to one; leading and trailing `_` are kept. */
  function NormaliseHeader(name: string): (r: string)
    ensures AllChars(r, IsLowerWordChar)
    ensures NoDoubled(r, '_')
    ensures var t := Lower(Strip(name)); |r| > 0 <==> |t| > 0
    ensures var t := Lower(Strip(name));
      |t| > 0 ==> && (r[0] == '_' <==> !IsAsciiAlnum(t[0]))
                  && (r[|r| - 1] == '_' <==> !IsAsciiAlnum(t[|t| - 1]))
  {
    HeaderFacts(name);
    CollapseRuns(SubstituteOutside(Lower(Strip(name)), IsWordChar, '_'), '_')
  }

  /** The facts `NormaliseHeader` states, about its defining expression. */
  lemma HeaderFacts(name: string)
    ensures var r := CollapseRuns(SubstituteOutside(Lower(Strip(name)), IsWordChar, '_'), '_');
      var t := Lower(Strip(name));
      && AllChars(r, IsLowerWordChar)
      && NoDoubled(r, '_')
      && (|r| > 0 <==> |t| > 0)
      && (|t| > 0 ==> && (r[0] == '_' <==> !IsAsciiAlnum(t[0]))
                      && (r[|r| - 1] == '_' <==> !IsAsciiAlnum(t[|t| - 1])))
  {
    var lowered := Lower(Strip(name));
    var replaced := SubstituteOutside(lowered, IsWordChar, '_');
    assert AllChars(replaced, IsLowerWordChar) by {
      forall i | 0 <= i < |replaced| ensures IsLowerWordChar(replaced[i]) {
        assert !IsAsciiUpper(lowered[i]);
      }
    }
    CollapseRunsAllChars(replaced, '_', IsLowerWordChar);
    HeaderEnds(lowered);
  }

  /** The collapse keeps the first and last character, so a header starts
      (ends) with `_` exactly when its text starts (ends) with a character
      outside `[a-zA-Z0-9]`. */
  lemma HeaderEnds(t: string)
    ensures var r := CollapseRuns(SubstituteOutside(t, IsWordChar, '_'), '_');
      && (|r| > 0 <==> |t| > 0)
      && (|t| > 0 ==> && (r[0] == '_' <==> !IsAsciiAlnum(t[0]))
                      && (r[|r| - 1] == '_' <==> !IsAsciiAlnum(t[|t| - 1])))
  {
    var replaced := SubstituteOutside(t, IsWordChar, '_');
    if |t| > 0 {
      assert replaced[0] == '_' <==> !IsAsciiAlnum(t[0]);
      assert replaced[|t| - 1] == '_' <==> !IsAsciiAlnum(t[|t| - 1]);
    }
  }

  /** Keeping `_` or replacing it by `_` is the same, so the bulk-import
      header is the uploader's column name before its 63-character cut. */
  lemma NormaliseHeaderIsColumnName(name: string)
    ensures ProcessExcel.CleanColumnName(name) == PyPrefix(NormaliseHeader(name), 63)
  {
    var lowered := Lower(Strip(name));
    assert SubstituteOutside(lowered, IsWordChar, '_') == SubstituteOutside(lowered, IsAsciiAlnum, '_');
  }

  /** A bracketed header keeps an `_` at both ends. */
  lemma NormaliseHeaderBracketed()
    ensures NormaliseHeader("(rdd)") == "_rdd_"
  {
    var h := "(rdd)";
    StripByKeeps(h, IsSpace);
    LowerKeeps(h);
    var replaced := SubstituteOutside(h, IsWordChar, '_');
    assert replaced == "_rdd_" by {
      assert |replaced| == 5;
      assert replaced[0] == '_' && replaced[4] == '_';
      assert replaced[1] == 'r' && replaced[2] == 'd' && replaced[3] == 'd';
    }
    assert NoDoubled(replaced, '_') by {
      forall i | 0 <= i < 4 ensures !(replaced[i] == '_' && replaced[i + 1] == '_') {
        assert i == 0 || i == 1 || i == 2 || i == 3;
      }
    }
    CollapseRunsKeeps(replaced, '_');
  }

  /** A header already made of `[a-z0-9_]` without doubled `_` is kept as
      it is, leading and trailing `_` included (`_id_` stays `_id_`). */
  lemma NormaliseHeaderKeeps(name: string)
    requires AllChars(name, IsLowerWordChar) && NoDoubled(name, '_')
    ensures NormaliseHeader(name) == name
  {
    StripByKeeps(name, IsSpace);
    LowerKeeps(name);
    SubstituteOutsideKeeps(name, IsWordChar, '_');
    CollapseRunsKeeps(name, '_');
  }

  // ------------------------------------------------------- prepare functions

  /** A spreadsheet as read: column labels and one list of values per row. */
  datatype Table = Table(columns: seq<string>, rows: seq<seq<Json>>)

  predicate WellFormed(t: Table) {
    forall k :: 0 <= k < |t.rows| ==> |t.rows[k]| == |t.columns|
  }

  /** The values of column `j`, top to bottom. */
  function Column(t: Table, j: nat): (col: seq<Json>)
    requires WellFormed(t) && j < |t.columns|
    ensures |col| == |t.rows|
  {
    seq(|t.rows|, k requires 0 <= k < |t.rows| => t.rows[k][j])
  }

  /** A pandas conversion of a whole column, given by the value it gives
      the cell at each index. That value may depend on the whole column:
      the date format is inferred from it, and the column gets one dtype. */
  type ColumnConversion = (seq<Json>, nat) -> Json

  /** `pd.to_datetime(errors='coerce').dt.date` and
      `pd.to_numeric(errors='coerce')`, each applied to one column. */
  datatype Converters = Converters(toDate: ColumnConversion, toNumeric: ColumnConversion)

  /** A column put through a conversion, one value per cell. */
  function ConvertColumn(col: seq<Json>, convert: ColumnConversion): (r: seq<Json>)
    ensures |r| == |col|
  {
    seq(|col|, k requires 0 <= k < |col| => convert(col, k))
  }

  const MrlDateColumns: seq<string> := ["request_date", "rdd"]
  const MrlNumericColumns: seq<string> :=
    ["fsc", "niin", "qty", "market_research_up", "market_research_ep", "availability_identifier"]
  const FulfillmentDateColumns: seq<string> :=
    ["sail_date", "edd_to_ches", "edd_egypt", "rcd_v2x_date", "lsc_on_hand_date", "arr_lsc_egypt"]

  /** Every column whose label is in `names` replaced by its conversion;
      the other columns are kept. */
  function ConvertColumns(t: Table, names: seq<string>, convert: ColumnConversion): (r: Table)
    requires WellFormed(t)
    ensures WellFormed(r) && r.columns == t.columns && |r.rows| == |t.rows|
  {
    Table(t.columns,
          seq(|t.rows|, k requires 0 <= k < |t.rows| =>
            seq(|t.columns|, j requires 0 <= j < |t.columns| =>
              if t.columns[j] in names then convert(Column(t, j), k) else t.rows[k][j])))
  }

  /** `replace([np.inf, -np.inf, np.nan], None)` of one cell. */
  function ScrubCell(v: Json): (r: Json)
    ensures !(r.JFloat? && IsNonFinite(r.f))
    ensures r == v || (r == JNone && v.JFloat? && IsNonFinite(v.f))
  {
    if v.JFloat? && IsNonFinite(v.f) then JNone else v
  }

  /** `to_dict(orient='records')` of one row: label to value, a repeated
      label keeping its last value. */
  function RowRecord(columns: seq<string>, row: seq<Json>): (r: Record)
    requires |row| == |columns|
    ensures r.Keys == set j | 0 <= j < |columns| :: columns[j]
    decreases |columns|
  {
    if columns == [] then map[]
    else
      var n := |columns| - 1;
      RowRecord(columns[..n], row[..n])[columns[n] := row[n]]
  }

  /** No label after position `j` equals the one at `j`. */
  predicate LastLabel(columns: seq<string>, j: nat)
    requires j < |columns|
  {
    forall i :: j < i < |columns| ==> columns[i] != columns[j]
  }

  /** A label's value in the record is the cell of its last column, as
      `to_dict` keeps the last of repeated labels. */
  lemma {:induction false} RowRecordLast(columns: seq<string>, row: seq<Json>, j: nat)
    requires |row| == |columns| && j < |columns| && LastLabel(columns, j)
    ensures columns[j] in RowRecord(columns, row) && RowRecord(columns, row)[columns[j]] == row[j]
    decreases |columns|
  {
    var n := |columns| - 1;
    if j < n {
      assert LastLabel(columns[..n], j);
      RowRecordLast(columns[..n], row[..n], j);
    }
  }

  /** The table after its headers are normalised and its date and numeric
      columns converted. */
  function ConvertedTable(t: Table, dateColumns: seq<string>, numericColumns: seq<string>,
                          conv: Converters): (r: Table)
    requires WellFormed(t)
    ensures WellFormed(r) && |r.rows| == |t.rows|
    ensures r.columns == seq(|t.columns|, j requires 0 <= j < |t.columns| => NormaliseHeader(t.columns[j]))
  {
    var named := Table(seq(|t.columns|, j requires 0 <= j < |t.columns| => NormaliseHeader(t.columns[j])),
                       t.rows);
    var dated := ConvertColumns(named, dateColumns, conv.toDate);
    ConvertColumns(dated, numericColumns, conv.toNumeric)
  }

  /** The column labelled `name` after the date conversion, then the
      numeric one, each only when its list names it. */
  function ConvertedColumn(name: string, col: seq<Json>, dateColumns: seq<string>,
                           numericColumns: seq<string>, conv: Converters): (r: seq<Json>)
    ensures |r| == |col|
    ensures name !in dateColumns && name !in numericColumns ==> r == col
  {
    var dated := if name in dateColumns then ConvertColumn(col, conv.toDate) else col;
    if name in numericColumns then ConvertColumn(dated, conv.toNumeric) else dated
  }

  /** A listed column becomes its conversion; any other column is kept. */
  lemma ConvertColumnsColumn(t: Table, names: seq<string>, convert: ColumnConversion, j: nat)
    requires WellFormed(t) && j < |t.columns|
    ensures var r := ConvertColumns(t, names, convert);
      Column(r, j) == if t.columns[j] in names then ConvertColumn(Column(t, j), convert) else Column(t, j)
  {
  }

  /** Column `j` of the converted table is the input's column `j` put
      through the conversions its normalised label is listed for. */
  lemma ConvertedTableColumn(t: Table, dateColumns: seq<string>, numericColumns: seq<string>,
                             conv: Converters, j: nat)
    requires WellFormed(t) && j < |t.columns|
    ensures Column(ConvertedTable(t, dateColumns, numericColumns, conv), j) ==
              ConvertedColumn(NormaliseHeader(t.columns[j]), Column(t, j), dateColumns, numericColumns, conv)
  {
    var named := Table(seq(|t.columns|, i requires 0 <= i < |t.columns| => NormaliseHeader(t.columns[i])),
                       t.rows);
    var dated := ConvertColumns(named, dateColumns, conv.toDate);
    assert Column(named, j) == Column(t, j);
    ConvertColumnsColumn(named, dateColumns, conv.toDate, j);
    ConvertColumnsColumn(dated, numericColumns, conv.toNumeric, j);
  }

  /** Row `k` of a converted table, its non-finite cells made `None`, as a
      record. */
  function ScrubbedRecord(t: Table, k: nat): Record
    requires WellFormed(t) && k < |t.rows|
  {
    RowRecord(t.columns, seq(|t.columns|, j requires 0 <= j < |t.columns| => ScrubCell(t.rows[k][j])))
  }

  /** The records handed to the truncation step: headers normalised,
      columns converted, non-finite cells made `None`, rows made records,
      then `clean_data`. */
  function CleanedRecords(t: Table, dateColumns: seq<string>, numericColumns: seq<string>,
                          conv: Converters): (records: seq<Record>)
    requires WellFormed(t)
    ensures |records| == |t.rows|
  {
    var converted := ConvertedTable(t, dateColumns, numericColumns, conv);
    seq(|t.rows|, k requires 0 <= k < |t.rows| => CleanRecord(ScrubbedRecord(converted, k)))
  }

  /** `prepare_mrl_data` and `prepare_fulfillment_data`, which differ only in
      their date and numeric columns: the cleaned records, then
      `validate_and_truncate_data` on them. */
  method PrepareData(t: Table, dateColumns: seq<string>, numericColumns: seq<string>, conv: Converters,
                     limits: map<string, Option<int>>)
    returns (data: array<Record>)
    requires WellFormed(t)
    ensures fresh(data)
    ensures data.Length == |t.rows|
    ensures forall k :: 0 <= k < data.Length ==>
              data[k] == TruncateRecord(CleanedRecords(t, dateColumns, numericColumns, conv)[k], limits)
  {
    var records := CleanedRecords(t, dateColumns, numericColumns, conv);
    data := new Record[|records|](k requires 0 <= k < |records| => records[k]);
    data := ValidateAndTruncate(data, limits);
  }

  /** The labels of a table whose headers are normalised. */
  lemma NormalisedLabels(names: seq<string>, columns: seq<string>)
    requires |names| == |columns|
    requires forall j :: 0 <= j < |columns| ==> names[j] == NormaliseHeader(columns[j])
    ensures (set j | 0 <= j < |names| :: names[j]) == (set j | 0 <= j < |columns| :: NormaliseHeader(columns[j]))
  {
    var labels := set j | 0 <= j < |columns| :: NormaliseHeader(columns[j]);
    forall x | x in labels ensures x in set j | 0 <= j < |names| :: names[j] {
      var j :| 0 <= j < |columns| && x == NormaliseHeader(columns[j]);
      assert names[j] == x;
    }
  }

  /** The keys of a cleaned record are the normalised labels. */
  lemma CleanedRecordKeys(t: Table, dateColumns: seq<string>, numericColumns: seq<string>, conv: Converters,
                          k: nat)
    requires WellFormed(t) && k < |t.rows|
    ensures CleanedRecords(t, dateColumns, numericColumns, conv)[k].Keys ==
              set j | 0 <= j < |t.columns| :: NormaliseHeader(t.columns[j])
  {
    var converted := ConvertedTable(t, dateColumns, numericColumns, conv);
    var scrubbed := ScrubbedRecord(converted, k);
    assert CleanedRecords(t, dateColumns, numericColumns, conv)[k] == CleanRecord(scrubbed);
    assert scrubbed.Keys == set j | 0 <= j < |converted.columns| :: converted.columns[j];
    NormalisedLabels(converted.columns, t.columns);
  }

  /** Every prepared record has the normalised labels as its keys, no NaN or
      infinity at any depth, and its limited texts within their limits. */
  lemma PreparedRecord(t: Table, dateColumns: seq<string>, numericColumns: seq<string>, conv: Converters,
                       limits: map<string, Option<int>>, k: nat)
    requires WellFormed(t) && k < |t.rows|
    requires forall f :: f in limits && limits[f].Some? ==> limits[f].value >= 0
    ensures var rec := TruncateRecord(CleanedRecords(t, dateColumns, numericColumns, conv)[k], limits);
      && rec.Keys == (set j | 0 <= j < |t.columns| :: NormaliseHeader(t.columns[j]))
      && (forall f :: f in rec ==> Scrubbed(rec[f]))
      && (forall f :: f in rec && f in limits && limits[f].Some? && rec[f].JStr? ==>
            |rec[f].s| <= limits[f].value)
  {
    var cleaned := CleanedRecords(t, dateColumns, numericColumns, conv)[k];
    CleanedRecordKeys(t, dateColumns, numericColumns, conv, k);
    CleanedRecordScrubbed(t, dateColumns, numericColumns, conv, k);
    TruncateRecordKeepsScrubbed(cleaned, limits);
    var rec := TruncateRecord(cleaned, limits);
    forall f | f in rec && f in limits && limits[f].Some? && rec[f].JStr?
      ensures |rec[f].s| <= limits[f].value
    {
      TruncateRecordWithin(cleaned, limits, f);
    }
  }

  /** The value a cleaned record holds under a label is the cell of the
      label's last column, converted with its column, scrubbed and put
      through `clean_data`. */
  lemma CleanedRecordValue(t: Table, dateColumns: seq<string>, numericColumns: seq<string>,
                           conv: Converters, k: nat, j: nat)
    requires WellFormed(t) && k < |t.rows| && j < |t.columns|
    requires forall i :: j < i < |t.columns| ==> NormaliseHeader(t.columns[i]) != NormaliseHeader(t.columns[j])
    ensures var name := NormaliseHeader(t.columns[j]);
      var rec := CleanedRecords(t, dateColumns, numericColumns, conv)[k];
      && name in rec
      && rec[name] == CleanData(ScrubCell(ConvertedColumn(name, Column(t, j), dateColumns, numericColumns, conv)[k]))
  {
    var converted := ConvertedTable(t, dateColumns, numericColumns, conv);
    assert LastLabel(converted.columns, j);
    CleanRecordLast(converted, k, j);
    ConvertedTableColumn(t, dateColumns, numericColumns, conv, j);
  }

  /** The cleaned record of row `k` holds, under a label, the scrubbed and
      cleaned cell of the label's last column. */
  lemma CleanRecordLast(t: Table, k: nat, j: nat)
    requires WellFormed(t) && k < |t.rows| && j < |t.columns| && LastLabel(t.columns, j)
    ensures var rec := CleanRecord(ScrubbedRecord(t, k));
      t.columns[j] in rec && rec[t.columns[j]] == CleanData(ScrubCell(Column(t, j)[k]))
  {
    var row := seq(|t.columns|, i requires 0 <= i < |t.columns| => ScrubCell(t.rows[k][i]));
    RowRecordLast(t.columns, row, j);
  }

  /** The values of a cleaned record hold no NaN or infinity. */
  lemma CleanedRecordScrubbed(t: Table, dateColumns: seq<string>, numericColumns: seq<string>,
                              conv: Converters, k: nat)
    requires WellFormed(t) && k < |t.rows|
    ensures var rec := CleanedRecords(t, dateColumns, numericColumns, conv)[k];
      forall f :: f in rec ==> Scrubbed(rec[f])
  {
    var records := CleanedRecords(t, dateColumns, numericColumns, conv);
    var raw := ScrubbedRecord(ConvertedTable(t, dateColumns, numericColumns, conv), k);
    assert records[k] == CleanRecord(raw);
    forall f | f in records[k] ensures Scrubbed(records[k][f]) {
      CleanDataScrubbed(raw[f]);
    }
  }

  /** Truncation replaces texts by texts, so it keeps a record scrubbed. */
  lemma TruncateRecordKeepsScrubbed(rec: Record, limits: map<string, Option<int>>)
    requires forall f :: f in rec ==> Scrubbed(rec[f])
    ensures var r := TruncateRecord(rec, limits);
      forall f :: f in r ==> Scrubbed(r[f])
  {
  }
}
