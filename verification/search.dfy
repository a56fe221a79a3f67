/** The search window over `combined_line_items_fulfillments_search_view`:
    the filter texts become a parameterised query of `ILIKE` conditions, and
    the window pages through the answers a hundred rows at a time. */
module Search {
  import opened Wrappers
  import opened Text
  import opened Numbers

  // ------------------------------------------------------- the filter fields

  /** How a field is compared: text directly, an integer through a cast to
      text. */
  datatype FieldType = TextField | IntegerField

  /** The filter fields, in the order the window reads its inputs. */
  const Fields: seq<string> :=
    ["jcn", "niin", "part_no", "twcode", "swlin", "nomenclature", "availability_identifier"]

  /** The declared type of a field; an undeclared field counts as text. */
  function TypeOf(field: string): FieldType {
    if field == "availability_identifier" then IntegerField else TextField
  }

  /** No field name is repeated. */
  predicate DistinctFields(filters: seq<(string, string)>) {
    forall i, j :: 0 <= i < j < |filters| ==> filters[i].0 != filters[j].0
  }

  lemma FieldsDistinct()
    ensures forall i, j :: 0 <= i < j < |Fields| ==> Fields[i] != Fields[j]
  {
    forall i, j | 0 <= i < j < |Fields| ensures Fields[i] != Fields[j] {
      assert |Fields[i]| != |Fields[j]|;
    }
  }

  // ------------------------------------------------------- tokens and keys

  predicate IsNotStar(c: char) { c != '*' }

  /** `value.replace('*', '%').split('%')`: the pieces between wildcards,
      the empty ones included. */
  function Tokens(value: string): (tokens: seq<string>)
    ensures |tokens| >= 1
    ensures forall k :: 0 <= k < |tokens| ==> '%' !in tokens[k]
  {
    Split(SubstituteOutside(value, IsNotStar, '%'), '%')
  }

  /** Tokenising loses nothing but the distinction between the two
      wildcards. */
  lemma TokensJoin(value: string)
    ensures Join(Tokens(value), "%") == SubstituteOutside(value, IsNotStar, '%')
  {
    SplitJoin(SubstituteOutside(value, IsNotStar, '%'), '%');
  }

  /** The key `{field}_{idx}` of the parameter for token `idx`. */
  function ParamKey(field: string, idx: nat): string {
    field + "_" + NatStr(idx)
  }

  /** The last `_` of a key is the one after the field name, the index
      being digits only. */
  lemma KeyLastUnderscore(field: string, idx: nat)
    ensures LastIndexOf(ParamKey(field, idx), '_') == |field|
  {
    var digits, key := NatStr(idx), ParamKey(field, idx);
    assert key[|field|] == '_';
    assert forall j :: |field| < j < |key| ==> key[j] == digits[j - |field| - 1];
  }

  /** Two tokens share a key exactly when they are the same token of the
      same field: the digits after the last `_` give the index back, the
      text before it the field. */
  lemma ParamKeyInjective(f1: string, i1: nat, f2: string, i2: nat)
    ensures ParamKey(f1, i1) == ParamKey(f2, i2) <==> f1 == f2 && i1 == i2
  {
    var k1, k2 := ParamKey(f1, i1), ParamKey(f2, i2);
    if k1 == k2 {
      KeyLastUnderscore(f1, i1);
      KeyLastUnderscore(f2, i2);
      assert NatStr(i1) == k1[|f1| + 1..] && NatStr(i2) == k2[|f2| + 1..];
      assert f1 == k1[..|f1|] && f2 == k2[..|f2|];
      NatStrInjective(i1, i2);
    }
  }

  /** The SQL placeholder of a parameter. */
  function Placeholder(key: string): string { "%(" + key + ")s" }

  /** The condition a token adds, by the field's type. */
  function Condition(field: string, key: string): string {
    match TypeOf(field)
    case TextField => field + " ILIKE " + Placeholder(key)
    case IntegerField => "CAST(" + field + " AS TEXT) ILIKE " + Placeholder(key)
  }

  /** The parameter value of a token: it may occur anywhere. */
  function Pattern(token: string): string { "%" + token + "%" }

  // ------------------------------------------------------- the builder, specified

  /** The conditions the first `n` tokens of a field's value add. */
  function TokenConditions(field: string, tokens: seq<string>, n: nat): seq<string>
    requires n <= |tokens|
  {
    if n == 0 then []
    else if tokens[n - 1] == "" then TokenConditions(field, tokens, n - 1)
    else TokenConditions(field, tokens, n - 1) + [Condition(field, ParamKey(field, n - 1))]
  }

  /** The parameters the first `n` tokens of a field's value add. */
  function TokenParams(field: string, tokens: seq<string>, n: nat): map<string, string>
    requires n <= |tokens|
  {
    if n == 0 then map[]
    else if tokens[n - 1] == "" then TokenParams(field, tokens, n - 1)
    else TokenParams(field, tokens, n - 1)[ParamKey(field, n - 1) := Pattern(tokens[n - 1])]
  }

  /** The conditions of the first `n` filters: one per field with a
      condition, its tokens' conditions joined by AND. */
  function Conditions(filters: seq<(string, string)>, n: nat): seq<string>
    requires n <= |filters|
  {
    if n == 0 then []
    else
      var (field, value) := filters[n - 1];
      var tokens := Tokens(value);
      var tokenConditions := TokenConditions(field, tokens, |tokens|);
      if value == "" || tokenConditions == [] then Conditions(filters, n - 1)
      else Conditions(filters, n - 1) + [Join(tokenConditions, " AND ")]
  }

  /** The parameters of the first `n` filters. */
  function Params(filters: seq<(string, string)>, n: nat): map<string, string>
    requires n <= |filters|
  {
    if n == 0 then map[]
    else
      var (field, value) := filters[n - 1];
      var tokens := Tokens(value);
      if value == "" then Params(filters, n - 1)
      else Params(filters, n - 1) + TokenParams(field, tokens, |tokens|)
  }

  const BaseQuery := "SELECT * FROM combined_line_items_fulfillments_search_view WHERE 1=1"

  /** The text that closes every query. */
  function Paging(limit: int, offset: int): string {
    " ORDER BY jcn LIMIT " + IntStr(limit) + " OFFSET " + IntStr(offset)
  }

  /** The query for a list of conditions: the conditions ANDed onto `1=1`,
      then the ordering and the page. */
  function QueryText(conditions: seq<string>, limit: int, offset: int): (sql: string)
    ensures conditions == [] ==> sql == BaseQuery + Paging(limit, offset)
    ensures StartsWith(sql, BaseQuery)
    ensures |Paging(limit, offset)| <= |sql| && sql[|sql| - |Paging(limit, offset)|..] == Paging(limit, offset)
  {
    var where := if conditions == [] then "" else " AND " + Join(conditions, " AND ");
    ConcatEnds(BaseQuery, where, Paging(limit, offset));
    BaseQuery + where + Paging(limit, offset)
  }

  lemma ConcatEnds(a: string, b: string, c: string)
    ensures StartsWith(a + b + c, a)
    ensures |c| <= |a + b + c| && (a + b + c)[|a + b + c| - |c|..] == c
    ensures b == "" ==> a + b + c == a + c
  {
  }

  /** The query `load_data` sends for the given filters and page. */
  function Query(filters: seq<(string, string)>, limit: int, offset: int): string {
    QueryText(Conditions(filters, |filters|), limit, offset)
  }

  // ------------------------------------------------------- the builder

  /** One more token: a non-empty one adds its condition and its
      parameter, an empty one nothing. */
  lemma TokenStep(before: map<string, string>, field: string, tokens: seq<string>, idx: nat)
    requires idx < |tokens|
    ensures tokens[idx] == "" ==>
              && TokenConditions(field, tokens, idx + 1) == TokenConditions(field, tokens, idx)
              && before + TokenParams(field, tokens, idx + 1) == before + TokenParams(field, tokens, idx)
    ensures tokens[idx] != "" ==>
              && TokenConditions(field, tokens, idx + 1)
                   == TokenConditions(field, tokens, idx) + [Condition(field, ParamKey(field, idx))]
              && before + TokenParams(field, tokens, idx + 1)
                   == (before + TokenParams(field, tokens, idx))[ParamKey(field, idx) := Pattern(tokens[idx])]
  {
  }

  /** One more filter: an empty value adds nothing, any other its tokens'
      parameters and, when they give any, one joined condition. */
  lemma FilterStep(filters: seq<(string, string)>, i: nat, field: string, value: string, tokens: seq<string>,
                   tokenConditions: seq<string>)
    requires i < |filters| && filters[i] == (field, value) && tokens == Tokens(value)
    requires value != "" ==> tokenConditions == TokenConditions(field, tokens, |tokens|)
    ensures value == "" ==> Params(filters, i + 1) == Params(filters, i)
    ensures value == "" ==> Conditions(filters, i + 1) == Conditions(filters, i)
    ensures value != "" ==> Params(filters, i + 1) == Params(filters, i) + TokenParams(field, tokens, |tokens|)
    ensures value != "" && tokenConditions == [] ==> Conditions(filters, i + 1) == Conditions(filters, i)
    ensures value != "" && tokenConditions != [] ==>
              Conditions(filters, i + 1) == Conditions(filters, i) + [Join(tokenConditions, " AND ")]
  {
  }

  /** The inner loop of `load_data` over the tokens of one field's value:
      each non-empty token adds its condition and its parameter. */
  method AddTokenConditions(field: string, tokens: seq<string>, params: map<string, string>)
    returns (tokenConditions: seq<string>, newParams: map<string, string>)
    ensures tokenConditions == TokenConditions(field, tokens, |tokens|)
    ensures newParams == params + TokenParams(field, tokens, |tokens|)
  {
    tokenConditions, newParams := [], params;
    for idx := 0 to |tokens|
      invariant tokenConditions == TokenConditions(field, tokens, idx)
      invariant newParams == params + TokenParams(field, tokens, idx)
    {
      TokenStep(params, field, tokens, idx);
      if tokens[idx] != "" {
        var key := ParamKey(field, idx);
        tokenConditions := tokenConditions + [Condition(field, key)];
        newParams := newParams[key := Pattern(tokens[idx])];
      }
    }
  }

  /** The loops of `load_data` that build the conditions and the
      parameters, field by field and token by token. */
  method BuildConditions(filters: seq<(string, string)>)
    returns (conditions: seq<string>, params: map<string, string>)
    ensures conditions == Conditions(filters, |filters|)
    ensures params == Params(filters, |filters|)
  {
    conditions, params := [], map[];
    for i := 0 to |filters|
      invariant conditions == Conditions(filters, i)
      invariant params == Params(filters, i)
    {
      var (field, value) := filters[i];
      if value != "" {
        var tokens := Tokens(value);
        var tokenConditions;
        tokenConditions, params := AddTokenConditions(field, tokens, params);
        FilterStep(filters, i, field, value, tokens, tokenConditions);
        if tokenConditions != [] {
          conditions := conditions + [Join(tokenConditions, " AND ")];
        }
      } else {
        FilterStep(filters, i, field, value, Tokens(value), []);
      }
    }
  }

  // ------------------------------------------------------- what the builder promises

  /** Every non-empty token has its parameter, keyed by its position in the
      split and holding the token between wildcards. */
  lemma {:induction false} TokenParamsAt(field: string, tokens: seq<string>, n: nat, idx: nat)
    requires idx < n <= |tokens| && tokens[idx] != ""
    ensures ParamKey(field, idx) in TokenParams(field, tokens, n)
    ensures TokenParams(field, tokens, n)[ParamKey(field, idx)] == Pattern(tokens[idx])
  {
    var key := ParamKey(field, idx);
    if idx < n - 1 {
      TokenParamsAt(field, tokens, n - 1, idx);
      ParamKeyInjective(field, n - 1, field, idx);
      assert ParamKey(field, n - 1) != key;
    }
  }

  /** Every parameter of a field belongs to one of its non-empty tokens. */
  lemma {:induction false} TokenParamsKeys(field: string, tokens: seq<string>, n: nat)
    requires n <= |tokens|
    ensures forall key :: key in TokenParams(field, tokens, n) ==>
              exists idx :: 0 <= idx < n && tokens[idx] != "" && key == ParamKey(field, idx)
  {
    if n > 0 {
      TokenParamsKeys(field, tokens, n - 1);
    }
  }

  /** A field's conditions are exactly one per non-empty token, each
      naming that token's key; with `TokenParamsAt`, every placeholder of
      the query has its parameter. */
  lemma {:induction false} TokenConditionsExact(field: string, tokens: seq<string>, n: nat)
    requires n <= |tokens|
    ensures forall idx :: 0 <= idx < n && tokens[idx] != "" ==>
              Condition(field, ParamKey(field, idx)) in TokenConditions(field, tokens, n)
    ensures forall c :: c in TokenConditions(field, tokens, n) ==>
              exists idx :: 0 <= idx < n && tokens[idx] != "" && c == Condition(field, ParamKey(field, idx))
  {
    if n > 0 {
      TokenConditionsExact(field, tokens, n - 1);
    }
  }

  /** The empty value gives the single empty token. */
  lemma TokensOfEmpty()
    ensures Tokens("") == [""]
  {
    assert SubstituteOutside("", IsNotStar, '%') == "";
  }

  /** A field's tokens never use the key of another field's token. */
  lemma OtherFieldKeys(other: string, idx: nat, field: string, tokens: seq<string>)
    requires other != field
    ensures ParamKey(other, idx) !in TokenParams(field, tokens, |tokens|)
  {
    TokenParamsKeys(field, tokens, |tokens|);
    forall j: nat ensures ParamKey(other, idx) != ParamKey(field, j) {
      ParamKeyInjective(other, idx, field, j);
    }
  }

  /** Every non-empty token of every filter has its parameter in the
      query's parameters, when no field is repeated. */
  lemma {:induction false} ParamsAt(filters: seq<(string, string)>, n: nat, i: nat, idx: nat)
    requires DistinctFields(filters) && i < n <= |filters|
    requires idx < |Tokens(filters[i].1)| && Tokens(filters[i].1)[idx] != ""
    ensures ParamKey(filters[i].0, idx) in Params(filters, n)
    ensures Params(filters, n)[ParamKey(filters[i].0, idx)] == Pattern(Tokens(filters[i].1)[idx])
  {
    var key := ParamKey(filters[i].0, idx);
    if filters[i].1 == "" {
      TokensOfEmpty();
    }
    var (field, value) := filters[n - 1];
    var tokens := Tokens(value);
    if i == n - 1 {
      TokenParamsAt(field, tokens, |tokens|, idx);
    } else {
      ParamsAt(filters, n - 1, i, idx);
      OtherFieldKeys(filters[i].0, idx, field, tokens);
    }
  }

  /** Every parameter of the query belongs to a non-empty token of some
      filter. */
  lemma {:induction false} ParamsKeys(filters: seq<(string, string)>, n: nat)
    requires n <= |filters|
    ensures forall key :: key in Params(filters, n) ==>
              exists i, idx :: && 0 <= i < n && 0 <= idx < |Tokens(filters[i].1)|
                               && Tokens(filters[i].1)[idx] != ""
                               && key == ParamKey(filters[i].0, idx)
  {
    if n > 0 {
      ParamsKeys(filters, n - 1);
      var (field, value) := filters[n - 1];
      var tokens := Tokens(value);
      TokenParamsKeys(field, tokens, |tokens|);
    }
  }

  /** Tokens that are all empty add neither conditions nor parameters. */
  lemma {:induction false} EmptyTokensAddNothing(field: string, tokens: seq<string>, n: nat)
    requires n <= |tokens|
    requires forall k :: 0 <= k < |tokens| ==> tokens[k] == ""
    ensures TokenConditions(field, tokens, n) == [] && TokenParams(field, tokens, n) == map[]
  {
    if n > 0 {
      EmptyTokensAddNothing(field, tokens, n - 1);
    }
  }

  predicate IsWildcard(c: char) { c == '*' || c == '%' }

  /** A value made only of wildcards adds nothing. */
  lemma WildcardsAddNothing(field: string, value: string)
    requires AllChars(value, IsWildcard)
    ensures var tokens := Tokens(value);
      TokenConditions(field, tokens, |tokens|) == [] && TokenParams(field, tokens, |tokens|) == map[]
  {
    var v := SubstituteOutside(value, IsNotStar, '%');
    SplitOnlySeparators(v, '%');
    EmptyTokensAddNothing(field, Tokens(value), |Tokens(value)|);
  }

  /** When every filter is empty or only wildcards, the query is `1=1`
      with its paging and has no parameters. */
  lemma {:induction false} WildcardFiltersQuery(filters: seq<(string, string)>, n: nat)
    requires n <= |filters|
    requires forall i :: 0 <= i < |filters| ==> AllChars(filters[i].1, IsWildcard)
    ensures Conditions(filters, n) == [] && Params(filters, n) == map[]
  {
    if n > 0 {
      WildcardFiltersQuery(filters, n - 1);
      WildcardsAddNothing(filters[n - 1].0, filters[n - 1].1);
    }
  }

  /** Two values with the same pattern of empty and non-empty tokens. */
  predicate SameShape(v: string, w: string) {
    var tv, tw := Tokens(v), Tokens(w);
    && (v == "" <==> w == "")
    && |tv| == |tw|
    && forall k :: 0 <= k < |tv| ==> (tv[k] == "" <==> tw[k] == "")
  }

  lemma {:induction false} TokenConditionsShape(field: string, t1: seq<string>, t2: seq<string>, n: nat)
    requires n <= |t1| == |t2|
    requires forall k :: 0 <= k < |t1| ==> (t1[k] == "" <==> t2[k] == "")
    ensures TokenConditions(field, t1, n) == TokenConditions(field, t2, n)
  {
    if n > 0 {
      TokenConditionsShape(field, t1, t2, n - 1);
    }
  }

  /** The query text depends on the fields and on where the non-empty
      tokens sit, never on what the user typed: the typed text reaches the
      database only through the parameters. */
  lemma {:induction false} QueryIgnoresTokenText(f1: seq<(string, string)>, f2: seq<(string, string)>, n: nat)
    requires n <= |f1| == |f2|
    requires forall i :: 0 <= i < |f1| ==> f1[i].0 == f2[i].0 && SameShape(f1[i].1, f2[i].1)
    ensures Conditions(f1, n) == Conditions(f2, n)
  {
    if n > 0 {
      QueryIgnoresTokenText(f1, f2, n - 1);
      var t1, t2 := Tokens(f1[n - 1].1), Tokens(f2[n - 1].1);
      TokenConditionsShape(f1[n - 1].0, t1, t2, |t1|);
    }
  }

  // ------------------------------------------------------- the window

  /** The filters as `load_data` reads them: each field with the text of
      its input. */
  function FiltersOf(texts: seq<string>): (filters: seq<(string, string)>)
    requires |texts| == |Fields|
    ensures |filters| == |Fields| && DistinctFields(filters)
    ensures forall i :: 0 <= i < |Fields| ==> filters[i] == (Fields[i], texts[i])
  {
    FieldsDistinct();
    seq(|Fields|, i requires 0 <= i < |Fields| => (Fields[i], texts[i]))
  }

  /** One row of the view, its cells as text. */
  type ResultRow = seq<string>

  /** The database's answer to a query with its parameters: the rows, or
      the error the execution raised. */
  type Database = (string, map<string, string>) -> Outcome<seq<ResultRow>>

  /** What the window asked of the connection. */
  datatype DbEvent = Executed(sql: string, params: map<string, string>) | RolledBack

  /** The database connection the window shares. */
  class Connection {
    var history: seq<DbEvent>

    constructor()
      ensures history == []
    {
      history := [];
    }
  }

  /** The rows one load asks for. */
  const PageSize := 100

  /** One page further is still a whole number of pages. */
  lemma NextPage(offset: int)
    requires offset % PageSize == 0
    ensures (offset + PageSize) % PageSize == 0
  {
  }

  /** The text of the result count label. */
  function CountText(n: nat): string {
    "Showing " + NatStr(n) + " records"
  }

  class SearchWindow {
    /** The texts of the seven filter inputs, in the order of `Fields`. */
    var inputs: seq<string>
    /** The rows shown so far. */
    var results: seq<ResultRow>
    var limit: int
    var offset: int
    /** The result count label; `None` while it shows its initial text. */
    var countLabel: Option<string>
    const connection: Connection

    /** One input per field, and the offset a whole number of pages. */
    predicate Valid()
      reads this
    {
      |inputs| == |Fields| && limit == PageSize && 0 <= offset && offset % PageSize == 0
    }

    constructor(connection: Connection)
      ensures Valid()
      ensures inputs == seq(|Fields|, _ => "") && results == [] && offset == 0
      ensures countLabel == None && this.connection == connection
    {
      inputs := seq(|Fields|, _ => "");
      results := [];
      limit := PageSize;
      offset := 0;
      countLabel := None;
      this.connection := connection;
    }

    /** The user types `text` into filter input `k`. */
    method SetInput(k: nat, text: string)
      requires Valid() && k < |Fields|
      modifies this
      ensures Valid()
      ensures inputs == old(inputs)[k := text]
      ensures results == old(results) && offset == old(offset) && countLabel == old(countLabel)
    {
      inputs := inputs[k := text];
    }

    /** `load_data`: send the query for the current page; on success append
        the rows and move to the next page, on an error roll back and keep
        the results and the offset. */
    method LoadData(db: Database)
      requires Valid()
      modifies this, connection
      ensures Valid()
      ensures inputs == old(inputs)
      ensures var filters := FiltersOf(inputs);
              var sql := Query(filters, limit, old(offset));
              var params := Params(filters, |filters|);
              match db(sql, params)
              case Ok(rows) =>
                && results == old(results) + rows
                && offset == old(offset) + limit
                && countLabel == Some(CountText(|results|))
                && connection.history == old(connection.history) + [Executed(sql, params)]
              case Raised(_) =>
                && results == old(results)
                && offset == old(offset)
                && countLabel == old(countLabel)
                && connection.history == old(connection.history) + [Executed(sql, params), RolledBack]
    {
      var conditions, params := BuildConditions(FiltersOf(inputs));
      var sql := QueryText(conditions, limit, offset);
      connection.history := connection.history + [Executed(sql, params)];
      match db(sql, params)
      case Ok(rows) =>
        results := results + rows;
        countLabel := Some(CountText(|results|));
        NextPage(offset);
        offset := offset + limit;
      case Raised(_) =>
        connection.history := connection.history + [RolledBack];
    }

    /** `apply_filter`: empty the results, then load. */
    method ApplyFilter(db: Database)
      requires Valid()
      modifies this, connection
      ensures Valid()
      ensures inputs == old(inputs)
      ensures var filters := FiltersOf(inputs);
              var sql := Query(filters, limit, old(offset));
              var params := Params(filters, |filters|);
              match db(sql, params)
              case Ok(rows) =>
                && results == rows
                && offset == old(offset) + limit
                && countLabel == Some(CountText(|rows|))
                && connection.history == old(connection.history) + [Executed(sql, params)]
              case Raised(_) =>
                && results == []
                && offset == old(offset)
                && countLabel == old(countLabel)
                && connection.history == old(connection.history) + [Executed(sql, params), RolledBack]
    {
      results := [];
      LoadData(db);
    }

    /** `perform_search`: back to the first page, then filter afresh. */
    method PerformSearch(db: Database)
      requires Valid()
      modifies this, connection
      ensures Valid()
      ensures inputs == old(inputs)
      ensures var filters := FiltersOf(inputs);
              var sql := Query(filters, limit, 0);
              var params := Params(filters, |filters|);
              match db(sql, params)
              case Ok(rows) =>
                && results == rows
                && offset == limit
                && countLabel == Some(CountText(|rows|))
                && connection.history == old(connection.history) + [Executed(sql, params)]
              case Raised(_) =>
                && results == []
                && offset == 0
                && countLabel == old(countLabel)
                && connection.history == old(connection.history) + [Executed(sql, params), RolledBack]
    {
      offset := 0;
      ApplyFilter(db);
    }

    /** `load_more`: load the next page after the rows already shown. */
    method LoadMore(db: Database)
      requires Valid()
      modifies this, connection
      ensures Valid()
      ensures inputs == old(inputs)
      ensures var filters := FiltersOf(inputs);
              var sql := Query(filters, limit, old(offset));
              var params := Params(filters, |filters|);
              match db(sql, params)
              case Ok(rows) =>
                && results == old(results) + rows
                && offset == old(offset) + limit
                && countLabel == Some(CountText(|results|))
                && connection.history == old(connection.history) + [Executed(sql, params)]
              case Raised(_) =>
                && results == old(results)
                && offset == old(offset)
                && countLabel == old(countLabel)
                && connection.history == old(connection.history) + [Executed(sql, params), RolledBack]
    {
      LoadData(db);
    }

    /** `clear_filters`: empty inputs, no results, back to the first page. */
    method ClearFilters()
      requires Valid()
      modifies this
      ensures Valid()
      ensures forall k :: 0 <= k < |inputs| ==> inputs[k] == ""
      ensures results == [] && offset == 0 && countLabel == Some(CountText(0))
    {
      inputs := seq(|Fields|, _ => "");
      results := [];
      countLabel := Some(CountText(0));
      offset := 0;
    }
  }

  /** After clearing, a search asks for the first page of the whole view:
      no conditions and no parameters. */
  lemma ClearedQuery(limit: int)
    ensures var filters := seq(|Fields|, i requires 0 <= i < |Fields| => (Fields[i], ""));
      && Query(filters, limit, 0) == BaseQuery + Paging(limit, 0)
      && Params(filters, |filters|) == map[]
  {
    var filters := seq(|Fields|, i requires 0 <= i < |Fields| => (Fields[i], ""));
    WildcardFiltersQuery(filters, |filters|);
  }
}
