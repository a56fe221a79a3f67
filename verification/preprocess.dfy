/** The preprocessing of stored raw weekly reports: every raw cell is
    converted through the field mapping of its column, the rows are processed
    in chunks of 1000, and every row yields either one processed row or one
    error record. */
module Preprocess {
  import opened Wrappers
  import opened Text
  import opened Numbers
  import opened Calendar

  /** A cell of a stored raw row, as `json.loads` gives it back. */
  datatype Raw = RNull | RBool(b: bool) | RInt(i: int) | RFloat(f: Float) | RStr(s: string)

  /** A value of a processed row. The `additional_data` value is the JSON
      text of a dictionary; it is kept here as that dictionary. */
  datatype Field =
    | FNone
    | FStr(s: string)
    | FInt(i: int)
    | FFloat(f: Float)
    | FDate(d: Date)
    | FBool(b: bool)
    | FJson(entries: map<string, Option<string>>)

  /** The conversions the script borrows from Python and pandas: `float()` of
      a text (`None` when it raises `ValueError`), `float()` of an integer
      within the double range (its rounding), and `pd.to_datetime(v).date()`
      (`None` when it raises). */
  datatype Conversions = Conversions(
    parseFloat: string -> Option<Float>,
    intToFloat: int -> Float,
    toDate: Raw -> Option<Date>)

  /** `str(value)`. */
  function RawStr(v: Raw): string {
    match v
    case RNull => "None"
    case RBool(b) => if b then "True" else "False"
    case RInt(i) => IntStr(i)
    case RFloat(f) => FloatStr(f)
    case RStr(s) => s
  }

  function Min(a: int, b: int): int { if a < b then a else b }

  // ------------------------------------------------------------ remove_nat_nan

  /** `remove_nat_nan`: `None` for a missing value (None, NaN, or the text
      "nat" or "nan" in any letter case), the value itself otherwise. */
  function RemoveNatNan(v: Raw): (r: Option<Raw>)
    ensures r.Some? ==> r.value == v
    ensures r.None? <==>
              || v.RNull?
              || v == RFloat(NaN)
              || (v.RStr? && (Lower(v.s) == "nat" || Lower(v.s) == "nan"))
  {
    if v.RNull? || v == RFloat(NaN) then None
    else if v.RStr? && Lower(v.s) in ["nat", "nan"] then None
    else Some(v)
  }

  /** The missing-value texts are recognised in any letter case, but not
      with surrounding blanks. */
  lemma RemoveNatNanExamples()
    ensures RemoveNatNan(RStr("NaT")) == None
    ensures RemoveNatNan(RStr("NAN")) == None
    ensures RemoveNatNan(RStr(" nan")) == Some(RStr(" nan"))
    ensures RemoveNatNan(RFloat(Inf(false))) == Some(RFloat(Inf(false)))
  {
    assert Lower("NaT") == "nat";
    assert Lower("NAN") == "nan";
    assert Lower(" nan")[0] == ' ';
  }

  // --------------------------------------------------------------- safe_string

  /** `safe_string`: `None` for None, otherwise `str(value)` cut by the slice
      `[:max_length]`; a length of `None` or 0 fails the truthiness test and
      cuts nothing. */
  function SafeString(v: Raw, maxLength: Option<int>): (r: Option<string>)
    ensures r.None? <==> v.RNull?
    ensures r.Some? ==> |r.value| <= |RawStr(v)| && r.value == RawStr(v)[..|r.value|]
    ensures r.Some? && (maxLength.None? || maxLength == Some(0)) ==> r.value == RawStr(v)
    ensures r.Some? && maxLength.Some? && maxLength.value > 0 ==>
              |r.value| == Min(maxLength.value, |RawStr(v)|)
  {
    if v.RNull? then None
    else
      var text := RawStr(v);
      if maxLength.Some? && maxLength.value != 0 then Some(PyPrefix(text, maxLength.value))
      else Some(text)
  }

  // ------------------------------------------------------------- process_value

  predicate IsCloseParen(c: char) { c == ')' }

  /** The length of a `VARCHAR(n)` type:
      `int(data_type.split('(')[1].rstrip(')'))`, or `None` when that raises
      `IndexError` (no parenthesis) or `ValueError` (not an integer). */
  function VarcharLength(dataType: string): Option<int> {
    var parts := Split(dataType, '(');
    if |parts| < 2 then None
    else PyInt(TrimEnd(parts[1], IsCloseParen))
  }

  /** `"VARCHAR(" + inner` splits at its only `(` when `inner` has none. */
  lemma VarcharSplit(inner: string)
    requires '(' !in inner
    ensures Split("VARCHAR(" + inner, '(') == ["VARCHAR", inner]
  {
    assert '(' !in "VARCHAR";
    assert "VARCHAR(" + inner == "VARCHAR" + ['('] + inner;
    SplitAtFirst("VARCHAR", inner, '(');
    SplitWithout(inner, '(');
  }

  /** The digits of `n` followed by `)`: no `(`, and trimming the `)`
      leaves the digits. */
  lemma DigitsThenParen(n: nat)
    ensures '(' !in NatStr(n) + ")"
    ensures TrimEnd(NatStr(n) + ")", IsCloseParen) == NatStr(n)
  {
    var digits := NatStr(n);
    var inner := digits + ")";
    forall k | 0 <= k < |inner| ensures inner[k] != '(' {
      if k < |digits| {
        assert inner[k] == digits[k];
      }
    }
    assert inner[..|digits|] == digits;
    assert IsAsciiDigit(digits[|digits| - 1]);
  }

  /** A declared `VARCHAR(n)` is read as `n`; a type without a parenthesis
      has no length. */
  lemma VarcharLengthOfDeclared(n: nat)
    ensures VarcharLength("VARCHAR(" + NatStr(n) + ")") == Some(n)
    ensures VarcharLength("VARCHAR") == None
  {
    assert VarcharLength("VARCHAR") == None by {
      SplitWithout("VARCHAR", '(');
    }
    var digits := NatStr(n);
    var inner := digits + ")";
    assert "VARCHAR(" + digits + ")" == "VARCHAR(" + inner;
    DigitsThenParen(n);
    VarcharSplit(inner);
    PyIntOfNatStr(n);
  }

  /** `float(value)`: `None` where it raises `TypeError` or `ValueError`,
      which both callers catch; an integer beyond the double range makes it
      raise `OverflowError`, which neither catches. */
  function PyFloat(v: Raw, conv: Conversions): (r: Outcome<Option<Float>>)
    ensures r.Raised? <==> v.RInt? && TooLargeForFloat(v.i)
    ensures r.Ok? && r.value.None? <==> v.RNull? || (v.RStr? && conv.parseFloat(v.s).None?)
  {
    match v
    case RNull => Ok(None)
    case RBool(b) => Ok(Some(if b then Finite(1.0, "1.0") else Finite(0.0, "0.0")))
    case RInt(i) =>
      if TooLargeForFloat(i) then Raised("int too large to convert to float")
      else Ok(Some(conv.intToFloat(i)))
    case RFloat(f) => Ok(Some(f))
    case RStr(s) => Ok(conv.parseFloat(s))
  }

  /** `safe_int`: `int(float(value))`, `None` where `float()` fails or the
      float is NaN; an infinite float raises `OverflowError`, as does
      `float()` of an integer beyond the double range, and the function
      catches neither. */
  function SafeInt(v: Raw, conv: Conversions): (r: Outcome<Field>)
    ensures var f := PyFloat(v, conv);
      r.Raised? <==> f.Raised? || (f.value.Some? && f.value.value.Inf?)
    ensures r.Ok? ==> r.value.FNone? || r.value.FInt?
    ensures r.Ok? && r.value.FInt? ==>
              exists x, text :: PyFloat(v, conv) == Ok(Some(Finite(x, text))) && r.value.i == TruncToInt(x)
  {
    match PyFloat(v, conv)
    case Raised(e) => Raised(e)
    case Ok(None) => Ok(FNone)
    case Ok(Some(NaN)) => Ok(FNone)
    case Ok(Some(Inf(_))) => Raised("cannot convert float infinity to integer")
    case Ok(Some(Finite(x, _))) => Ok(FInt(TruncToInt(x)))
  }

  /** `safe_float`: the float of the value, `None` where `float()` fails
      with an error the function catches; an integer beyond the double range
      raises. */
  function SafeFloat(v: Raw, conv: Conversions): (r: Outcome<Field>)
    ensures r.Raised? <==> v.RInt? && TooLargeForFloat(v.i)
    ensures r.Ok? ==> r.value.FNone? || r.value.FFloat?
    ensures r.Ok? && r.value.FNone? <==> PyFloat(v, conv) == Ok(None)
    ensures r.Ok? && r.value.FFloat? ==> PyFloat(v, conv) == Ok(Some(r.value.f))
  {
    match PyFloat(v, conv)
    case Raised(e) => Raised(e)
    case Ok(None) => Ok(FNone)
    case Ok(Some(f)) => Ok(FFloat(f))
  }

  /** `flexible_date_parse` of a value that is not missing. */
  function FlexibleDate(v: Raw, conv: Conversions): (r: Field)
    ensures r.FNone? <==> conv.toDate(v).None?
    ensures r.FDate? ==> conv.toDate(v) == Some(r.d)
    ensures r.FNone? || r.FDate?
  {
    match conv.toDate(v)
    case None => FNone
    case Some(d) => FDate(d)
  }

  /** `bool(value)`: Python truthiness. */
  predicate Truthy(v: Raw) {
    match v
    case RNull => false
    case RBool(b) => b
    case RInt(i) => i != 0
    case RFloat(f) => !(f.Finite? && f.value == 0.0)
    case RStr(s) => |s| > 0
  }

  function TextField(s: Option<string>): Field {
    match s
    case None => FNone
    case Some(t) => FStr(t)
  }

  /** `process_value`: a missing value is `None` whatever the type; otherwise
      the conversion the data type names, in the script's order of tests,
      and `safe_string` for an empty or unknown type. */
  function ProcessValue(v: Raw, dataType: Option<string>, conv: Conversions): (r: Outcome<Field>)
    ensures RemoveNatNan(v).None? ==> r == Ok(FNone)
    ensures r.Raised? ==> dataType == Some("INT") || dataType == Some("MONEY")
  {
    match RemoveNatNan(v)
    case None => Ok(FNone)
    case Some(u) =>
      if dataType.Some? && dataType.value != "" then
        var dt := dataType.value;
        if StartsWith(dt, "VARCHAR") then Ok(TextField(SafeString(u, VarcharLength(dt))))
        else if dt == "TEXT" then Ok(TextField(SafeString(u, None)))
        else if dt == "INT" then SafeInt(u, conv)
        else if dt == "MONEY" then SafeFloat(u, conv)
        else if dt == "DATE" then Ok(FlexibleDate(u, conv))
        else if dt == "BOOLEAN" then Ok(FBool(Truthy(u)))
        else Ok(TextField(SafeString(u, None)))
      else Ok(TextField(SafeString(u, None)))
  }

  predicate IsKnownType(dt: string) {
    StartsWith(dt, "VARCHAR") || dt in ["TEXT", "INT", "MONEY", "DATE", "BOOLEAN"]
  }

  /** `VARCHAR(n)` with a positive `n` keeps the first `n` characters of the
      text: never more than `n`. */
  lemma ProcessValueVarchar(v: Raw, dt: string, n: int, conv: Conversions)
    requires RemoveNatNan(v).Some?
    requires StartsWith(dt, "VARCHAR") && VarcharLength(dt) == Some(n) && n > 0
    ensures var text := RawStr(v);
      ProcessValue(v, Some(dt), conv) == Ok(FStr(text[..Min(n, |text|)]))
    ensures |ProcessValue(v, Some(dt), conv).value.s| <= n
  {
  }

  /** A `VARCHAR` type whose length does not parse falls back to the whole
      text instead of failing. */
  lemma ProcessValueVarcharUnparsed(v: Raw, dt: string, conv: Conversions)
    requires RemoveNatNan(v).Some?
    requires StartsWith(dt, "VARCHAR") && VarcharLength(dt).None?
    ensures ProcessValue(v, Some(dt), conv) == Ok(FStr(RawStr(v)))
  {
  }

  /** An absent, empty or unknown data type gives the value's text. */
  lemma ProcessValueUntyped(v: Raw, dataType: Option<string>, conv: Conversions)
    requires RemoveNatNan(v).Some?
    requires dataType.None? || dataType == Some("") || !IsKnownType(dataType.value)
    ensures ProcessValue(v, dataType, conv) == Ok(FStr(RawStr(v)))
  {
  }

  /** The typed conversions: TEXT, INT, MONEY, DATE and BOOLEAN. */
  lemma ProcessValueTyped(v: Raw, conv: Conversions)
    requires RemoveNatNan(v).Some?
    ensures ProcessValue(v, Some("TEXT"), conv) == Ok(FStr(RawStr(v)))
    ensures ProcessValue(v, Some("INT"), conv) == SafeInt(v, conv)
    ensures ProcessValue(v, Some("MONEY"), conv) == SafeFloat(v, conv)
    ensures ProcessValue(v, Some("DATE"), conv) == Ok(FlexibleDate(v, conv))
    ensures ProcessValue(v, Some("BOOLEAN"), conv) == Ok(FBool(Truthy(v)))
  {
    assert !StartsWith("TEXT", "VARCHAR");
    assert !StartsWith("INT", "VARCHAR");
    assert !StartsWith("MONEY", "VARCHAR");
    assert !StartsWith("DATE", "VARCHAR");
    assert !StartsWith("BOOLEAN", "VARCHAR") by {
      assert "BOOLEAN"[0] != "VARCHAR"[0];
    }
  }

  // ---------------------------------------------------- clean_and_process_row

  /** A row of `field_mappings` or `default_mappings`: the target field, the
      mapping type and the data type of one raw column. */
  datatype Mapping = Mapping(target: string, kind: string, dataType: Option<string>)

  /** `field_mappings.get(col) or default_mappings.get(col)`; a mapping is a
      non-empty dictionary, so the report-specific one wins whenever it
      exists. */
  function MappingFor(fm: map<string, Mapping>, dm: map<string, Mapping>, col: string): (r: Option<Mapping>)
    ensures r.None? <==> col !in fm && col !in dm
    ensures col in fm ==> r == Some(fm[col])
    ensures col !in fm && col in dm ==> r == Some(dm[col])
  {
    if col in fm then Some(fm[col]) else if col in dm then Some(dm[col]) else None
  }

  predicate IsRowKind(kind: string) {
    kind in ["identifier", "mrl", "fulfillment"]
  }

  /** A raw row: a JSON object (its entries in order) or any other JSON
      value, which has no `items()`; of that value only the name of its
      Python type (`list`, `str`, `int`, `float`, `bool`, `NoneType`) is
      kept. */
  datatype Row = Record(entries: seq<(string, Raw)>) | NotRecord(typeName: string)

  /** The text of the `AttributeError` that calling `items()` on a value of
      type `typeName` raises. */
  function NoItemsMessage(typeName: string): string {
    "'" + typeName + "' object has no attribute 'items'"
  }

  /** `processed_row` and `additional_data` while the entries are visited. */
  datatype Acc = Acc(row: map<string, Field>, additional: map<string, Option<string>>)

  /** One iteration of the loop over `row.items()`. */
  function Step(acc: Acc, col: string, value: Raw, fm: map<string, Mapping>, dm: map<string, Mapping>,
                conv: Conversions): Outcome<Acc>
  {
    match MappingFor(fm, dm, col)
    case None => Ok(acc)
    case Some(m) =>
      if IsRowKind(m.kind) then
        match ProcessValue(value, m.dataType, conv)
        case Raised(e) => Raised(e)
        case Ok(x) => Ok(acc.(row := acc.row[m.target := x]))
      else if m.kind == "additional" then
        Ok(acc.(additional := acc.additional[m.target := SafeString(value, None)]))
      else Ok(acc)
  }

  /** The state after the first `n` entries. */
  function Entries(es: seq<(string, Raw)>, n: nat, fm: map<string, Mapping>, dm: map<string, Mapping>,
                   conv: Conversions): Outcome<Acc>
    requires n <= |es|
  {
    if n == 0 then Ok(Acc(map[], map[]))
    else
      match Entries(es, n - 1, fm, dm, conv)
      case Raised(e) => Raised(e)
      case Ok(acc) => Step(acc, es[n - 1].0, es[n - 1].1, fm, dm, conv)
  }

  /** `clean_and_process_row` as a value. */
  function ProcessRow(row: Row, fm: map<string, Mapping>, dm: map<string, Mapping>, conv: Conversions)
    : Outcome<map<string, Field>>
  {
    match row
    case NotRecord(typeName) => Raised(NoItemsMessage(typeName))
    case Record(es) =>
      match Entries(es, |es|, fm, dm, conv)
      case Raised(e) => Raised(e)
      case Ok(acc) => Ok(acc.row["additional_data" := FJson(acc.additional)])
  }

  /** Once a conversion has raised, the rest of the row is not visited. */
  lemma {:induction false} EntriesRaisedStays(es: seq<(string, Raw)>, i: nat, n: nat,
                                              fm: map<string, Mapping>, dm: map<string, Mapping>,
                                              conv: Conversions)
    requires i <= n <= |es| && Entries(es, i, fm, dm, conv).Raised?
    ensures Entries(es, n, fm, dm, conv) == Entries(es, i, fm, dm, conv)
    decreases n
  {
    if n > i {
      EntriesRaisedStays(es, i, n - 1, fm, dm, conv);
    }
  }

  /** An integer beyond the double range makes both numeric conversions
      raise: `float()` overflows before `int()` or the return is reached. */
  lemma ProcessValueNumericOverflow(i: int, conv: Conversions)
    requires TooLargeForFloat(i)
    ensures ProcessValue(RInt(i), Some("MONEY"), conv) == Raised("int too large to convert to float")
    ensures ProcessValue(RInt(i), Some("INT"), conv) == Raised("int too large to convert to float")
  {
    ProcessValueTyped(RInt(i), conv);
  }

  /** `clean_and_process_row`: the loop over the row's entries, then
      `additional_data` set last. */
  method CleanAndProcessRow(row: Row, fm: map<string, Mapping>, dm: map<string, Mapping>, conv: Conversions)
    returns (r: Outcome<map<string, Field>>)
    ensures r == ProcessRow(row, fm, dm, conv)
    ensures r.Ok? ==> "additional_data" in r.value
    ensures row.NotRecord? ==> r == Raised("'" + row.typeName + "' object has no attribute 'items'")
  {
    if row.NotRecord? {
      return Raised(NoItemsMessage(row.typeName));
    }
    var es := row.entries;
    var processedRow: map<string, Field> := map[];
    var additionalData: map<string, Option<string>> := map[];
    for i := 0 to |es|
      invariant Entries(es, i, fm, dm, conv) == Ok(Acc(processedRow, additionalData))
    {
      var (col, value) := es[i];
      var mapping := MappingFor(fm, dm, col);
      if mapping.Some? {
        var m := mapping.value;
        if IsRowKind(m.kind) {
          var processedValue := ProcessValue(value, m.dataType, conv);
          if processedValue.Raised? {
            EntriesRaisedStays(es, i + 1, |es|, fm, dm, conv);
            return Raised(processedValue.message);
          }
          processedRow := processedRow[m.target := processedValue.value];
        } else if m.kind == "additional" {
          additionalData := additionalData[m.target := SafeString(value, None)];
        }
      }
    }
    r := Ok(processedRow["additional_data" := FJson(additionalData)]);
  }

  function MappingAt(es: seq<(string, Raw)>, i: nat, fm: map<string, Mapping>, dm: map<string, Mapping>)
    : Option<Mapping>
    requires i < |es|
  {
    MappingFor(fm, dm, es[i].0)
  }

  /** Entry `i` is routed to the processed row. */
  predicate IsRowEntry(es: seq<(string, Raw)>, i: nat, fm: map<string, Mapping>, dm: map<string, Mapping>) {
    i < |es| && MappingAt(es, i, fm, dm).Some? && IsRowKind(MappingAt(es, i, fm, dm).value.kind)
  }

  /** Entry `i` is routed to `additional_data`. */
  predicate IsAdditionalEntry(es: seq<(string, Raw)>, i: nat, fm: map<string, Mapping>, dm: map<string, Mapping>) {
    i < |es| && MappingAt(es, i, fm, dm).Some? && MappingAt(es, i, fm, dm).value.kind == "additional"
  }

  /** A row fails exactly when the conversion of one of its row-routed
      entries raises. */
  lemma {:induction false} EntriesOkIff(es: seq<(string, Raw)>, n: nat, fm: map<string, Mapping>,
                                        dm: map<string, Mapping>, conv: Conversions)
    requires n <= |es|
    ensures Entries(es, n, fm, dm, conv).Ok? <==>
              forall i :: 0 <= i < n && IsRowEntry(es, i, fm, dm) ==>
                ProcessValue(es[i].1, MappingAt(es, i, fm, dm).value.dataType, conv).Ok?
  {
    if n > 0 {
      EntriesOkIff(es, n - 1, fm, dm, conv);
    }
  }

  /** The targets of the row-routed entries among the first `n`. */
  function RowTargets(es: seq<(string, Raw)>, n: nat, fm: map<string, Mapping>, dm: map<string, Mapping>)
    : set<string>
    requires n <= |es|
  {
    set i | 0 <= i < n && IsRowEntry(es, i, fm, dm) :: MappingAt(es, i, fm, dm).value.target
  }

  /** The targets of the additional entries among the first `n`. */
  function AdditionalTargets(es: seq<(string, Raw)>, n: nat, fm: map<string, Mapping>, dm: map<string, Mapping>)
    : set<string>
    requires n <= |es|
  {
    set i | 0 <= i < n && IsAdditionalEntry(es, i, fm, dm) :: MappingAt(es, i, fm, dm).value.target
  }

  lemma RowTargetsNext(es: seq<(string, Raw)>, n: nat, fm: map<string, Mapping>, dm: map<string, Mapping>)
    requires 0 < n <= |es|
    ensures RowTargets(es, n, fm, dm) ==
              RowTargets(es, n - 1, fm, dm)
              + (if IsRowEntry(es, n - 1, fm, dm) then {MappingAt(es, n - 1, fm, dm).value.target} else {})
    ensures AdditionalTargets(es, n, fm, dm) ==
              AdditionalTargets(es, n - 1, fm, dm)
              + (if IsAdditionalEntry(es, n - 1, fm, dm) then {MappingAt(es, n - 1, fm, dm).value.target} else {})
  {
  }

  /** The keys of the processed row are the targets of the row-routed
      entries, those of `additional_data` the targets of the additional
      entries: unmapped columns and other mapping types leave no trace. */
  lemma {:induction false} EntriesKeys(es: seq<(string, Raw)>, n: nat, fm: map<string, Mapping>,
                                       dm: map<string, Mapping>, conv: Conversions)
    requires n <= |es| && Entries(es, n, fm, dm, conv).Ok?
    ensures Entries(es, n, fm, dm, conv).value.row.Keys == RowTargets(es, n, fm, dm)
    ensures Entries(es, n, fm, dm, conv).value.additional.Keys == AdditionalTargets(es, n, fm, dm)
  {
    if n > 0 {
      StepKeys(es, n, fm, dm, conv);
      EntriesKeys(es, n - 1, fm, dm, conv);
      RowTargetsNext(es, n, fm, dm);
    }
  }

  /** Entry `n - 1` adds its target to the keys of the part it is routed
      to, and nothing else. */
  lemma StepKeys(es: seq<(string, Raw)>, n: nat, fm: map<string, Mapping>,
                 dm: map<string, Mapping>, conv: Conversions)
    requires 0 < n <= |es| && Entries(es, n, fm, dm, conv).Ok?
    ensures Entries(es, n - 1, fm, dm, conv).Ok?
    ensures var before := Entries(es, n - 1, fm, dm, conv).value;
      var after := Entries(es, n, fm, dm, conv).value;
      var target := if MappingAt(es, n - 1, fm, dm).Some? then {MappingAt(es, n - 1, fm, dm).value.target} else {};
      && after.row.Keys == before.row.Keys + (if IsRowEntry(es, n - 1, fm, dm) then target else {})
      && after.additional.Keys == before.additional.Keys + (if IsAdditionalEntry(es, n - 1, fm, dm) then target else {})
  {
    var acc := Entries(es, n - 1, fm, dm, conv).value;
    assert Entries(es, n, fm, dm, conv) == Step(acc, es[n - 1].0, es[n - 1].1, fm, dm, conv);
  }

  /** The value of a target in the processed row is the conversion of the
      last entry routed to it. */
  lemma {:induction false} EntriesLastWins(es: seq<(string, Raw)>, n: nat, i: nat, fm: map<string, Mapping>,
                                           dm: map<string, Mapping>, conv: Conversions)
    requires i < n <= |es| && Entries(es, n, fm, dm, conv).Ok? && IsRowEntry(es, i, fm, dm)
    requires forall j :: i < j < n && IsRowEntry(es, j, fm, dm) ==>
               MappingAt(es, j, fm, dm).value.target != MappingAt(es, i, fm, dm).value.target
    ensures var m := MappingAt(es, i, fm, dm).value;
      && m.target in Entries(es, n, fm, dm, conv).value.row
      && ProcessValue(es[i].1, m.dataType, conv).Ok?
      && Entries(es, n, fm, dm, conv).value.row[m.target] == ProcessValue(es[i].1, m.dataType, conv).value
  {
    var acc := Entries(es, n - 1, fm, dm, conv).value;
    assert Entries(es, n, fm, dm, conv) == Step(acc, es[n - 1].0, es[n - 1].1, fm, dm, conv);
    if i < n - 1 {
      EntriesLastWins(es, n - 1, i, fm, dm, conv);
      if IsRowEntry(es, n - 1, fm, dm) {
        assert MappingAt(es, n - 1, fm, dm).value.target != MappingAt(es, i, fm, dm).value.target;
      }
    }
  }

  /** The value of a key of `additional_data` is `safe_string` of the last
      entry routed to it. */
  lemma {:induction false} EntriesAdditionalLastWins(es: seq<(string, Raw)>, n: nat, i: nat,
                                                     fm: map<string, Mapping>, dm: map<string, Mapping>,
                                                     conv: Conversions)
    requires i < n <= |es| && Entries(es, n, fm, dm, conv).Ok? && IsAdditionalEntry(es, i, fm, dm)
    requires forall j :: i < j < n && IsAdditionalEntry(es, j, fm, dm) ==>
               MappingAt(es, j, fm, dm).value.target != MappingAt(es, i, fm, dm).value.target
    ensures var m := MappingAt(es, i, fm, dm).value;
      && m.target in Entries(es, n, fm, dm, conv).value.additional
      && Entries(es, n, fm, dm, conv).value.additional[m.target] == SafeString(es[i].1, None)
  {
    var acc := Entries(es, n - 1, fm, dm, conv).value;
    assert Entries(es, n, fm, dm, conv) == Step(acc, es[n - 1].0, es[n - 1].1, fm, dm, conv);
    if i < n - 1 {
      EntriesAdditionalLastWins(es, n - 1, i, fm, dm, conv);
      if IsAdditionalEntry(es, n - 1, fm, dm) {
        assert MappingAt(es, n - 1, fm, dm).value.target != MappingAt(es, i, fm, dm).value.target;
      }
    }
  }

  /** Only the mapping each column is routed to matters. */
  lemma {:induction false} EntriesSameRouting(es: seq<(string, Raw)>, n: nat,
                                              fm: map<string, Mapping>, dm: map<string, Mapping>,
                                              fm': map<string, Mapping>, dm': map<string, Mapping>,
                                              conv: Conversions)
    requires n <= |es|
    requires forall i :: 0 <= i < n ==> MappingFor(fm, dm, es[i].0) == MappingFor(fm', dm', es[i].0)
    ensures Entries(es, n, fm, dm, conv) == Entries(es, n, fm', dm', conv)
  {
    if n > 0 {
      EntriesSameRouting(es, n - 1, fm, dm, fm', dm', conv);
    }
  }

  /** A report-specific mapping takes precedence: default mappings of the
      columns it covers have no effect on the row. */
  lemma ProcessRowSpecificWins(row: Row, fm: map<string, Mapping>, dm: map<string, Mapping>,
                               dm': map<string, Mapping>, conv: Conversions)
    requires forall c :: c !in fm ==> (c in dm <==> c in dm') && (c in dm ==> dm[c] == dm'[c])
    ensures ProcessRow(row, fm, dm, conv) == ProcessRow(row, fm, dm', conv)
  {
    if row.Record? {
      EntriesSameRouting(row.entries, |row.entries|, fm, dm, fm, dm', conv);
    }
  }

  /** The mappings the report is processed with: with no report-specific
      mappings the run stops unless the user accepts the default mapping,
      which then stands in for the report-specific one. */
  function MappingsInUse(fm: map<string, Mapping>, dm: map<string, Mapping>, useDefault: bool,
                         rawDataId: int): (r: Outcome<map<string, Mapping>>)
    ensures r.Raised? <==> |fm| == 0 && !useDefault
    ensures r.Raised? ==> r.message == NoMappingsMessage(rawDataId)
    ensures r.Ok? && |fm| == 0 ==> r.value == dm
    ensures r.Ok? && |fm| > 0 ==> r.value == fm
  {
    if |fm| == 0 && !useDefault then Raised(NoMappingsMessage(rawDataId))
    else if |fm| == 0 then Ok(dm)
    else Ok(fm)
  }

  /** The message of the `ValueError` raised when the user declines the
      default mapping. */
  function NoMappingsMessage(rawDataId: int): string {
    "No field mappings found for raw_data_id " + IntStr(rawDataId)
      + ". Please apply data mapping for this report/sheet before preprocessing."
  }

  /** Standing the default mapping in for the empty report-specific one
      changes no row: each column already falls back to it. */
  lemma MappingsInUseSameRows(fm: map<string, Mapping>, dm: map<string, Mapping>, useDefault: bool,
                              rawDataId: int, row: Row, conv: Conversions)
    requires MappingsInUse(fm, dm, useDefault, rawDataId).Ok?
    ensures ProcessRow(row, MappingsInUse(fm, dm, useDefault, rawDataId).value, dm, conv) ==
              ProcessRow(row, fm, dm, conv)
  {
    var used := MappingsInUse(fm, dm, useDefault, rawDataId).value;
    if row.Record? {
      assert fm.Keys == {} ==> fm == map[];
      EntriesSameRouting(row.entries, |row.entries|, used, dm, fm, dm, conv);
    }
  }

  // ------------------------------------------------------------- process_chunk

  /** The report a run processes. */
  datatype Provenance = Provenance(rawDataId: int, reportName: string, reportDate: Date, sheetName: string)

  /** A row of `preprocessing_errors`. */
  datatype ErrorRecord = ErrorRecord(
    rawDataId: int, reportName: string, reportDate: Date, sheetName: string,
    originalLine: int, message: string)

  /** What one row of a chunk becomes. */
  datatype RowOutput = Processed(row: map<string, Field>) | Failed(error: ErrorRecord)

  /** The provenance keys written over the processed row; the report date
      goes through `flexible_date_parse`, which gives a date back unchanged. */
  function WithProvenance(row: map<string, Field>, prov: Provenance, index: nat): (r: map<string, Field>)
    ensures r.Keys == row.Keys + {"raw_data_id", "report_name", "report_date", "sheet_name", "original_line"}
    ensures forall k :: k in row && k !in {"raw_data_id", "report_name", "report_date", "sheet_name", "original_line"} ==>
              r[k] == row[k]
    ensures r["raw_data_id"] == FInt(prov.rawDataId) && r["report_name"] == FStr(prov.reportName)
    ensures r["report_date"] == FDate(prov.reportDate) && r["sheet_name"] == FStr(prov.sheetName)
    ensures r["original_line"] == FInt(index + 1)
  {
    row["raw_data_id" := FInt(prov.rawDataId)]
       ["report_name" := FStr(prov.reportName)]
       ["report_date" := FDate(prov.reportDate)]
       ["sheet_name" := FStr(prov.sheetName)]
       ["original_line" := FInt(index + 1)]
  }

  /** One iteration of `process_chunk`'s loop; the traceback appended to the
      message is not modelled. */
  function OutputOf(row: Row, index: nat, fm: map<string, Mapping>, dm: map<string, Mapping>,
                    conv: Conversions, prov: Provenance): RowOutput
  {
    match ProcessRow(row, fm, dm, conv)
    case Ok(r) => Processed(WithProvenance(r, prov, index))
    case Raised(e) =>
      Failed(ErrorRecord(prov.rawDataId, prov.reportName, prov.reportDate, prov.sheetName, index + 1,
                         "Error processing row " + NatStr(index) + ": " + e))
  }

  /** The outputs of a chunk, row by row, each numbered by its index within
      the chunk. */
  function Outputs(chunk: seq<Row>, fm: map<string, Mapping>, dm: map<string, Mapping>,
                   conv: Conversions, prov: Provenance): (outs: seq<RowOutput>)
    ensures |outs| == |chunk|
  {
    seq(|chunk|, i requires 0 <= i < |chunk| => OutputOf(chunk[i], i, fm, dm, conv, prov))
  }

  /** The processed rows among some outputs, in order. */
  function ProcessedRows(outs: seq<RowOutput>): seq<map<string, Field>> {
    if outs == [] then []
    else
      var last := outs[|outs| - 1];
      ProcessedRows(outs[..|outs| - 1]) + (if last.Processed? then [last.row] else [])
  }

  /** The error records among some outputs, in order. */
  function ErrorRecords(outs: seq<RowOutput>): seq<ErrorRecord> {
    if outs == [] then []
    else
      var last := outs[|outs| - 1];
      ErrorRecords(outs[..|outs| - 1]) + (if last.Failed? then [last.error] else [])
  }

  /** One more output adds its row or its error record at the end. */
  lemma OutputsStep(outs: seq<RowOutput>, index: nat)
    requires index < |outs|
    ensures ProcessedRows(outs[..index + 1]) ==
              ProcessedRows(outs[..index]) + (if outs[index].Processed? then [outs[index].row] else [])
    ensures ErrorRecords(outs[..index + 1]) ==
              ErrorRecords(outs[..index]) + (if outs[index].Failed? then [outs[index].error] else [])
  {
    assert outs[..index + 1][..index] == outs[..index];
  }

  /** Every output is either a processed row or an error record. */
  lemma {:induction false} OutputsCount(outs: seq<RowOutput>)
    ensures |ProcessedRows(outs)| + |ErrorRecords(outs)| == |outs|
  {
    if outs != [] {
      OutputsCount(outs[..|outs| - 1]);
    }
  }

  lemma {:induction false} ProcessedRowsAppend(a: seq<RowOutput>, b: seq<RowOutput>)
    ensures ProcessedRows(a + b) == ProcessedRows(a) + ProcessedRows(b)
    ensures ErrorRecords(a + b) == ErrorRecords(a) + ErrorRecords(b)
    decreases |b|
  {
    if b == [] {
      assert a + b == a;
    } else {
      assert (a + b)[..|a + b| - 1] == a + b[..|b| - 1];
      ProcessedRowsAppend(a, b[..|b| - 1]);
    }
  }

  /** The line number a processed row carries. */
  function RowLine(row: map<string, Field>): int {
    if "original_line" in row && row["original_line"].FInt? then row["original_line"].i else 0
  }

  function OutputLine(o: RowOutput): int {
    match o
    case Processed(row) => RowLine(row)
    case Failed(e) => e.originalLine
  }

  /** Lines that are increasing and within `1..n`. */
  predicate IncreasingWithin(lines: seq<int>, n: int) {
    && (forall a :: 0 <= a < |lines| ==> 1 <= lines[a] <= n)
    && (forall a, b :: 0 <= a < b < |lines| ==> lines[a] < lines[b])
  }

  function RowLines(rows: seq<map<string, Field>>): (lines: seq<int>)
    ensures |lines| == |rows| && forall a :: 0 <= a < |rows| ==> lines[a] == RowLine(rows[a])
  {
    seq(|rows|, a requires 0 <= a < |rows| => RowLine(rows[a]))
  }

  function ErrorLines(errors: seq<ErrorRecord>): (lines: seq<int>)
    ensures |lines| == |errors| && forall a :: 0 <= a < |errors| ==> lines[a] == errors[a].originalLine
  {
    seq(|errors|, a requires 0 <= a < |errors| => errors[a].originalLine)
  }

  lemma IncreasingExtend(lines: seq<int>, n: int, extra: seq<int>)
    requires IncreasingWithin(lines, n - 1) && n >= 1
    requires extra == [] || extra == [n]
    ensures IncreasingWithin(lines + extra, n)
  {
    var all := lines + extra;
    if extra == [] {
      assert all == lines;
    } else {
      forall a, b | 0 <= a < b < |all| ensures all[a] < all[b] {
        assert all[a] == lines[a];
        if b < |lines| { assert all[b] == lines[b]; }
      }
      forall a | 0 <= a < |all| ensures 1 <= all[a] <= n {
        if a < |lines| { assert all[a] == lines[a]; }
      }
    }
  }

  /** When the outputs are numbered 1, 2, ... in order, the processed rows
      and the error records each keep that order. */
  lemma {:induction false} OutputsKeepOrder(outs: seq<RowOutput>)
    requires forall i :: 0 <= i < |outs| ==> OutputLine(outs[i]) == i + 1
    ensures IncreasingWithin(RowLines(ProcessedRows(outs)), |outs|)
    ensures IncreasingWithin(ErrorLines(ErrorRecords(outs)), |outs|)
  {
    if outs != [] {
      var prefix := outs[..|outs| - 1];
      OutputsKeepOrder(prefix);
      var last := outs[|outs| - 1];
      assert OutputLine(last) == |outs|;
      var p := ProcessedRows(prefix);
      var e := ErrorRecords(prefix);
      var newRow := if last.Processed? then [last.row] else [];
      var newError := if last.Failed? then [last.error] else [];
      assert RowLines(p + newRow) == RowLines(p) + RowLines(newRow);
      assert ErrorLines(e + newError) == ErrorLines(e) + ErrorLines(newError);
      IncreasingExtend(RowLines(p), |outs|, RowLines(newRow));
      IncreasingExtend(ErrorLines(e), |outs|, ErrorLines(newError));
    }
  }

  /** The lines of a chunk's outputs are 1, 2, ... */
  lemma OutputsNumbered(chunk: seq<Row>, fm: map<string, Mapping>, dm: map<string, Mapping>,
                        conv: Conversions, prov: Provenance)
    ensures var outs := Outputs(chunk, fm, dm, conv, prov);
      forall i :: 0 <= i < |outs| ==> OutputLine(outs[i]) == i + 1
  {
  }

  /** `process_chunk`: one output per row, appended in row order to the
      processed rows or the error records. */
  method ProcessChunk(chunk: seq<Row>, fm: map<string, Mapping>, dm: map<string, Mapping>,
                      conv: Conversions, prov: Provenance)
    returns (processedRows: seq<map<string, Field>>, errorRecords: seq<ErrorRecord>)
    ensures processedRows == ProcessedRows(Outputs(chunk, fm, dm, conv, prov))
    ensures errorRecords == ErrorRecords(Outputs(chunk, fm, dm, conv, prov))
    ensures |processedRows| + |errorRecords| == |chunk|
  {
    ghost var outs := Outputs(chunk, fm, dm, conv, prov);
    processedRows := [];
    errorRecords := [];
    for index := 0 to |chunk|
      invariant processedRows == ProcessedRows(outs[..index])
      invariant errorRecords == ErrorRecords(outs[..index])
    {
      var row := chunk[index];
      var processedRow := CleanAndProcessRow(row, fm, dm, conv);
      OutputsStep(outs, index);
      assert outs[index] == OutputOf(row, index, fm, dm, conv, prov);
      if processedRow.Ok? {
        processedRows := processedRows + [WithProvenance(processedRow.value, prov, index)];
      } else {
        errorRecords := errorRecords + [ErrorRecord(prov.rawDataId, prov.reportName, prov.reportDate,
                                                    prov.sheetName, index + 1,
                                                    "Error processing row " + NatStr(index) + ": "
                                                    + processedRow.message)];
      }
    }
    assert outs[..|chunk|] == outs;
    OutputsCount(outs);
  }

  // ------------------------------------------------------------ the chunk loop

  const ChunkSize: nat := 1000

  /** `f` applied to each slice of 1000 consecutive elements, the results
      concatenated: the shape of the chunk loop. No slice at all for no
      data. */
  function Chunked<T, U>(data: seq<T>, f: seq<T> -> seq<U>): seq<U>
    decreases |data|
  {
    if data == [] then []
    else if |data| <= ChunkSize then f(data)
    else f(data[..ChunkSize]) + Chunked(data[ChunkSize..], f)
  }

  /** A later chunk starts a whole chunk or more into the data. */
  lemma NotFirstChunk(i: nat)
    requires i % ChunkSize == 0 && i != 0
    ensures i >= ChunkSize && (i - ChunkSize) % ChunkSize == 0
  {
  }

  /** When `f` keeps lengths, so does the chunked application. */
  lemma {:induction false} ChunkedLength<T, U>(data: seq<T>, f: seq<T> -> seq<U>)
    requires forall c :: |f(c)| == |c|
    ensures |Chunked(data, f)| == |data|
    decreases |data|
  {
    if |data| > ChunkSize {
      ChunkedLength(data[ChunkSize..], f);
    }
  }

  /** A slice of `a + b` lying within `b`. */
  lemma SliceOfSecond<U>(a: seq<U>, b: seq<U>, i: nat, end: nat)
    requires |a| <= i <= end <= |a| + |b|
    ensures (a + b)[i..end] == b[i - |a|..end - |a|]
  {
  }

  /** When `f` keeps lengths, the slice of the result at a multiple of 1000
      is `f` of the same slice of the data. */
  lemma {:induction false} ChunkedSlice<T, U>(data: seq<T>, i: nat, f: seq<T> -> seq<U>)
    requires forall c :: |f(c)| == |c|
    requires i % ChunkSize == 0 && i < |data|
    ensures var end := Min(i + ChunkSize, |data|);
      |Chunked(data, f)| == |data| && Chunked(data, f)[i..end] == f(data[i..end])
    decreases |data|
  {
    ChunkedLength(data, f);
    var end := Min(i + ChunkSize, |data|);
    if |data| <= ChunkSize {
      assert i == 0 && end == |data|;
      assert data[i..end] == data;
    } else {
      var first := f(data[..ChunkSize]);
      var tail := data[ChunkSize..];
      ChunkedLength(tail, f);
      assert Chunked(data, f) == first + Chunked(tail, f);
      if i == 0 {
        assert data[i..end] == data[..ChunkSize];
        assert (first + Chunked(tail, f))[..ChunkSize] == first;
      } else {
        NotFirstChunk(i);
        ChunkedSlice(tail, i - ChunkSize, f);
        assert Min(i - ChunkSize + ChunkSize, |tail|) == end - ChunkSize;
        assert tail[i - ChunkSize..end - ChunkSize] == data[i..end] by {
          forall k | 0 <= k < end - i ensures tail[i - ChunkSize..end - ChunkSize][k] == data[i..end][k] {
            assert tail[i - ChunkSize + k] == data[i + k];
          }
        }
        SliceOfSecond(first, Chunked(tail, f), i, end);
      }
    }
  }

  /** Where an element falls: the chunk starting at `k - k % 1000`. */
  lemma ChunkStart(k: nat)
    ensures (k - k % ChunkSize) % ChunkSize == 0 && k - k % ChunkSize <= k < k - k % ChunkSize + ChunkSize
  {
  }

  /** Element `k` of the result is element `k % 1000` of `f` of its chunk. */
  lemma ChunkedAt<T, U>(data: seq<T>, k: nat, f: seq<T> -> seq<U>)
    requires forall c :: |f(c)| == |c|
    requires k < |data|
    ensures var i := k - k % ChunkSize;
      var end := Min(i + ChunkSize, |data|);
      && 0 <= i <= k < end && |Chunked(data, f)| == |data|
      && Chunked(data, f)[k] == f(data[i..end])[k % ChunkSize]
  {
    var i := k - k % ChunkSize;
    var end := Min(i + ChunkSize, |data|);
    ChunkStart(k);
    ChunkedSlice(data, i, f);
    assert Chunked(data, f)[i..end][k - i] == Chunked(data, f)[k];
  }

  /** `process_chunk` as a function of the chunk. */
  function ChunkProcessor(fm: map<string, Mapping>, dm: map<string, Mapping>,
                          conv: Conversions, prov: Provenance): (f: seq<Row> -> seq<RowOutput>)
    ensures forall c :: |f(c)| == |c|
  {
    c => Outputs(c, fm, dm, conv, prov)
  }

  /** The outputs of a whole report: the outputs of its chunks of 1000 rows,
      one after the other. */
  function AllOutputs(data: seq<Row>, fm: map<string, Mapping>, dm: map<string, Mapping>,
                      conv: Conversions, prov: Provenance): (outs: seq<RowOutput>)
    ensures |outs| == |data|
  {
    ChunkedLength(data, ChunkProcessor(fm, dm, conv, prov));
    Chunked(data, ChunkProcessor(fm, dm, conv, prov))
  }

  /** When `f` numbers the elements of every slice from 1, the chunked
      application numbers element `k` with `k % 1000 + 1`. */
  lemma ChunkedNumbered<T, U>(data: seq<T>, f: seq<T> -> seq<U>, line: U -> int)
    requires forall c :: |f(c)| == |c|
    requires forall c, j :: 0 <= j < |f(c)| ==> line(f(c)[j]) == j + 1
    ensures |Chunked(data, f)| == |data|
    ensures forall k :: 0 <= k < |data| ==> line(Chunked(data, f)[k]) == k % ChunkSize + 1
  {
    ChunkedLength(data, f);
    forall k | 0 <= k < |data| ensures line(Chunked(data, f)[k]) == k % ChunkSize + 1 {
      ChunkedAt(data, k, f);
    }
  }

  /** The line a row carries is its place within its chunk, not within the
      report: the first rows of two chunks carry the same line. */
  lemma AllOutputsLines(data: seq<Row>, fm: map<string, Mapping>, dm: map<string, Mapping>,
                        conv: Conversions, prov: Provenance)
    ensures var all := AllOutputs(data, fm, dm, conv, prov);
      forall k :: 0 <= k < |data| ==> OutputLine(all[k]) == k % ChunkSize + 1
    ensures var all := AllOutputs(data, fm, dm, conv, prov);
      |data| > ChunkSize ==> OutputLine(all[ChunkSize]) == OutputLine(all[0]) == 1
  {
    var f := ChunkProcessor(fm, dm, conv, prov);
    forall c: seq<Row>, j | 0 <= j < |f(c)| ensures OutputLine(f(c)[j]) == j + 1 {
      OutputsNumbered(c, fm, dm, conv, prov);
    }
    ChunkedNumbered(data, f, OutputLine);
  }

  /** The chunk starting at a multiple of 1000 has the outputs of its rows
      in the whole report. */
  lemma ChunkOutputs(data: seq<Row>, i: nat, fm: map<string, Mapping>, dm: map<string, Mapping>,
                     conv: Conversions, prov: Provenance)
    requires i % ChunkSize == 0 && i < |data|
    ensures var end := Min(i + ChunkSize, |data|);
      Outputs(data[i..end], fm, dm, conv, prov) == AllOutputs(data, fm, dm, conv, prov)[i..end]
  {
    ChunkedSlice(data, i, ChunkProcessor(fm, dm, conv, prov));
  }

  /** Processing the report up to the end of a chunk is processing it up
      to the chunk's start, then the chunk. */
  lemma ChunkAppend(data: seq<Row>, i: nat, fm: map<string, Mapping>, dm: map<string, Mapping>,
                    conv: Conversions, prov: Provenance)
    requires i % ChunkSize == 0 && i < |data|
    ensures var all := AllOutputs(data, fm, dm, conv, prov);
      var end := Min(i + ChunkSize, |data|);
      var chunkOuts := Outputs(data[i..end], fm, dm, conv, prov);
      && ProcessedRows(all[..end]) == ProcessedRows(all[..i]) + ProcessedRows(chunkOuts)
      && ErrorRecords(all[..end]) == ErrorRecords(all[..i]) + ErrorRecords(chunkOuts)
  {
    var all := AllOutputs(data, fm, dm, conv, prov);
    var end := Min(i + ChunkSize, |data|);
    ChunkOutputs(data, i, fm, dm, conv, prov);
    FiltersOfPrefix(all, i, end);
  }

  /** The outputs up to `end` filter into those up to `i`, then those
      between. */
  lemma FiltersOfPrefix(outs: seq<RowOutput>, i: nat, end: nat)
    requires i <= end <= |outs|
    ensures ProcessedRows(outs[..end]) == ProcessedRows(outs[..i]) + ProcessedRows(outs[i..end])
    ensures ErrorRecords(outs[..end]) == ErrorRecords(outs[..i]) + ErrorRecords(outs[i..end])
  {
    ProcessedRowsAppend(outs[..i], outs[i..end]);
    assert outs[..i] + outs[i..end] == outs[..end];
  }

  lemma NextChunkStart(i: int)
    requires i % ChunkSize == 0
    ensures (i + ChunkSize) % ChunkSize == 0
  {
  }

  /** The chunk loop of `preprocess_egypt_weekly_data`: consecutive slices
      of 1000 rows, each processed, its rows inserted and counted and its
      error records accumulated. */
  method PreprocessRows(data: seq<Row>, fm: map<string, Mapping>, dm: map<string, Mapping>,
                        conv: Conversions, prov: Provenance)
    returns (inserted: seq<map<string, Field>>, errorRecords: seq<ErrorRecord>, totalProcessed: nat)
    ensures inserted == ProcessedRows(AllOutputs(data, fm, dm, conv, prov))
    ensures errorRecords == ErrorRecords(AllOutputs(data, fm, dm, conv, prov))
    ensures totalProcessed == |inserted|
    ensures |inserted| + |errorRecords| == |data|
  {
    ghost var all := AllOutputs(data, fm, dm, conv, prov);
    inserted := [];
    errorRecords := [];
    totalProcessed := 0;
    var i := 0;
    while i < |data|
      invariant i % ChunkSize == 0
      invariant inserted == ProcessedRows(all[..Min(i, |data|)])
      invariant errorRecords == ErrorRecords(all[..Min(i, |data|)])
      invariant totalProcessed == |inserted|
    {
      var end := Min(i + ChunkSize, |data|);
      var chunk := data[i..end];
      var processedRows, chunkErrors := ProcessChunk(chunk, fm, dm, conv, prov);
      ChunkAppend(data, i, fm, dm, conv, prov);
      if processedRows != [] {
        inserted := inserted + processedRows;
        totalProcessed := totalProcessed + |processedRows|;
      }
      errorRecords := errorRecords + chunkErrors;
      NextChunkStart(i);
      i := i + ChunkSize;
      assert Min(i, |data|) == end;
    }
    assert all[..|data|] == all;
    OutputsCount(all);
  }
}
