/**
  `handelSubmitFilters`: turns the filter map, the free-text search and a `"field DIR"`
  sort string into the variables of the next fetch. Each value of each column becomes one
  clause of the backend's search grammar (`field:value`, `field:"text"`, or the range
  clause `(field:>="start" field:<="end")`); the clauses are joined with single spaces after
  the free text, and the whole is trimmed.
*/
module QuerySerializer {
  import opened Wrappers
  import opened JsObject
  import opened Strings
  import opened Values

  /**
    The two date computations of `dateArrayToQuery`: the ISO text of the start of the day
    of a date string and of the end of the day, in the client's time zone. They depend on
    the calendar library and are taken as given.
  */
  datatype DayBounds = DayBounds(startOfDay: string -> string, endOfDay: string -> string)

  /** The operand of a scalar clause: a numeric-looking string stays bare, any other string
      is wrapped in double quotes (nothing is escaped), a number or boolean is its text. */
  function Operand(v: FilterValue): string
    requires !v.Range?
  {
    match v
    case Str(s) => if IsNumeric(s) then s else "\"" + s + "\""
    case Num(text) => text
    case Bool(b) => if b then "true" else "false"
  }

  /** Strips one pair of surrounding double quotes, if there is one. */
  function Unquote(t: string): string {
    if |t| >= 2 && t[0] == '"' && t[|t| - 1] == '"' then t[1..|t| - 1] else t
  }

  /** A string operand is bare exactly when the string is numeric, and removing the quotes
      recovers the string in both cases: no two filter strings give the same operand. */
  lemma QuotingIsReversible(s: string)
    ensures Unquote(Operand(Str(s))) == s
    ensures Operand(Str(s)) == s <==> IsNumeric(s)
    ensures Operand(Str(s)) != [] && (Operand(Str(s))[0] == '"' <==> !IsNumeric(s))
  {
    if IsNumeric(s) {
      NumericChars(s);
      assert s[0] != '"';
    } else {
      assert |"\"" + s + "\""| == |s| + 2;
    }
  }

  /** The clause `dateArrayToQuery` builds for a date range: one parenthesised group that
      bounds `field` from the start of the first day to the end of the last, both bounds
      quoted. The day bounds' ISO texts come from `days`. */
  function RangeClause(field: string, start: string, end: string, days: DayBounds): (c: string)
    ensures |c| > 2 && c[0] == '(' && c[|c| - 1] == ')'
  {
    "(" + field + ":>=\"" + days.startOfDay(start) + "\" " + field + ":<=\"" + days.endOfDay(end) + "\")"
  }

  /** Read back at its quotes, a range clause holds, in order, the lower comparison on
      `field`, the start of the first day, the upper comparison on `field` and the end of
      the last day; so the field and both bounds can be recovered from it. */
  lemma RangeClauseBounds(field: string, start: string, end: string, days: DayBounds)
    requires '"' !in field && '"' !in days.startOfDay(start) && '"' !in days.endOfDay(end)
    ensures Split(RangeClause(field, start, end, days), '"')
      == ["(" + field + ":>=", days.startOfDay(start), " " + field + ":<=", days.endOfDay(end), ")"]
  {
    var lo, hi := days.startOfDay(start), days.endOfDay(end);
    var pieces := ["(" + field + ":>=", lo, " " + field + ":<=", hi, ")"];
    assert Join(pieces[4..], '"') == ")";
    assert Join(pieces[3..], '"') == hi + "\")" by { assert pieces[3..][1..] == pieces[4..]; }
    assert Join(pieces[2..], '"') == " " + field + ":<=\"" + hi + "\")" by { assert pieces[2..][1..] == pieces[3..]; }
    assert Join(pieces[1..], '"') == lo + "\" " + field + ":<=\"" + hi + "\")" by { assert pieces[1..][1..] == pieces[2..]; }
    assert Join(pieces, '"') == RangeClause(field, start, end, days);
    SplitJoin(pieces, '"');
  }

  /** The clause one value of column `field` contributes; never empty. */
  function Clause(field: string, v: FilterValue, days: DayBounds): (c: string)
    ensures c != ""
  {
    match v
    case Range(start, end) => RangeClause(field, start, end, days)
    case _ => field + ":" + Operand(v)
  }

  /** `values && values[0] !== ""`: a column whose first value is the empty string is skipped. */
  predicate Skipped(values: seq<FilterValue>) {
    |values| > 0 && values[0].Str? && |values[0].s| == 0
  }

  /** Each value of a column paired with the column's field. */
  function Pairs(field: string, values: seq<FilterValue>): (ps: seq<(string, FilterValue)>)
    ensures |ps| == |values| && forall i :: 0 <= i < |values| ==> ps[i] == (field, values[i])
  {
    seq(|values|, i requires 0 <= i < |values| => (field, values[i]))
  }

  /** The values of one column that produce a clause: all of them, unless it is skipped. */
  function ColumnTerms(field: string, values: seq<FilterValue>): seq<(string, FilterValue)> {
    if Skipped(values) then [] else Pairs(field, values)
  }

  /** The (field, value) pairs of the first `n` columns that produce a clause, in entry order. */
  function TermsOf(filters: Filters, n: nat): seq<(string, FilterValue)>
    requires n <= |filters|
  {
    if n == 0 then [] else TermsOf(filters, n - 1) + ColumnTerms(filters[n - 1].0, filters[n - 1].1)
  }

  /** The (field, value) pair of every clause, in the order the clauses are written. */
  function Terms(filters: Filters): seq<(string, FilterValue)> {
    TermsOf(filters, |filters|)
  }

  /** The text of each clause. */
  function Texts(terms: seq<(string, FilterValue)>, days: DayBounds): (cs: seq<string>)
    ensures |cs| == |terms|
    ensures forall i :: 0 <= i < |terms| ==> cs[i] == Clause(terms[i].0, terms[i].1, days)
  {
    seq(|terms|, i requires 0 <= i < |terms| => Clause(terms[i].0, terms[i].1, days))
  }

  /** The clauses of all columns, in the order the serializer writes them. */
  function Clauses(filters: Filters, days: DayBounds): seq<string> {
    Texts(Terms(filters), days)
  }

  /** The first `n` columns' terms depend on the first `n` entries only. */
  lemma {:induction false} TermsOfPrefix(a: Filters, b: Filters, n: nat)
    requires n <= |a| && n <= |b| && a[..n] == b[..n]
    ensures TermsOf(a, n) == TermsOf(b, n)
  {
    if n > 0 {
      assert a[n - 1] == a[..n][n - 1] == b[..n][n - 1] == b[n - 1];
      assert a[..n - 1] == a[..n][..n - 1] == b[..n][..n - 1] == b[..n - 1];
      TermsOfPrefix(a, b, n - 1);
    }
  }

  /** The terms of `a + b` up to the `k`-th entry of `b`. */
  lemma {:induction false} TermsOfAppend(a: Filters, b: Filters, k: nat)
    requires k <= |b|
    ensures TermsOf(a + b, |a| + k) == Terms(a) + TermsOf(b, k)
  {
    if k == 0 {
      assert (a + b)[..|a|] == a[..|a|];
      TermsOfPrefix(a + b, a, |a|);
    } else {
      TermsOfAppend(a, b, k - 1);
      assert (a + b)[|a| + k - 1] == b[k - 1];
      var x, y, t := Terms(a), TermsOf(b, k - 1), ColumnTerms(b[k - 1].0, b[k - 1].1);
      assert (x + y) + t == x + (y + t);
    }
  }

  /** Rendering is elementwise, so it distributes over concatenation. */
  lemma TextsAppend(x: seq<(string, FilterValue)>, y: seq<(string, FilterValue)>, days: DayBounds)
    ensures Texts(x + y, days) == Texts(x, days) + Texts(y, days)
  {
    var l, r := Texts(x + y, days), Texts(x, days) + Texts(y, days);
    assert forall i :: 0 <= i < |x| + |y| ==> l[i] == r[i] by {
      forall i | 0 <= i < |x| + |y| ensures l[i] == r[i] {
        if i < |x| { assert (x + y)[i] == x[i]; } else { assert (x + y)[i] == y[i - |x|]; }
      }
    }
  }

  /** Clause order follows entry order: the clauses of two maps laid end to end are the
      clauses of the first followed by those of the second. */
  lemma ClausesAppend(a: Filters, b: Filters, days: DayBounds)
    ensures Clauses(a + b, days) == Clauses(a, days) + Clauses(b, days)
  {
    TermsOfAppend(a, b, |b|);
    TextsAppend(Terms(a), Terms(b), days);
  }

  /** A single column contributes nothing when its list is empty or starts with "", and
      otherwise exactly one clause per value, in value order. */
  lemma SingleColumnClauses(field: string, values: seq<FilterValue>, days: DayBounds)
    ensures var cs := Clauses([(field, values)], days);
      && (values == [] || Skipped(values) ==> cs == [])
      && (!Skipped(values) ==> |cs| == |values| && forall i :: 0 <= i < |values| ==> cs[i] == Clause(field, values[i], days))
  {
    var d := [(field, values)];
    assert d[0].0 == field && d[0].1 == values;
    assert TermsOf(d, 1) == [] + ColumnTerms(field, values);
    var ts := ColumnTerms(field, values);
    assert Terms(d) == ts;
    if !Skipped(values) {
      assert ts == Pairs(field, values);
    }
  }

  /** Pairing a prefix one value longer adds that value's pair at the end. */
  lemma PairsPrefix(field: string, values: seq<FilterValue>, n: nat)
    requires n < |values|
    ensures Pairs(field, values[..n + 1]) == Pairs(field, values[..n]) + [(field, values[n])]
  {
    var l, r := Pairs(field, values[..n + 1]), Pairs(field, values[..n]) + [(field, values[n])];
    assert forall i :: 0 <= i <= n ==> l[i] == r[i];
  }

  /** `newFilter ? `${newFilter} ${clause}` : clause`: one step of building the clause string. */
  function AppendClause(newFilter: string, clause: string): string {
    if |newFilter| > 0 then newFilter + " " + clause else clause
  }

  /** The clause string after the first `n` values of one column, starting from `acc`. */
  function ValuesText(acc: string, field: string, values: seq<FilterValue>, n: nat, days: DayBounds): string
    requires n <= |values|
  {
    if n == 0 then acc else AppendClause(ValuesText(acc, field, values, n - 1, days), Clause(field, values[n - 1], days))
  }

  /** The clause string after the first `n` columns. */
  function ColumnsText(filters: Filters, n: nat, days: DayBounds): string
    requires n <= |filters|
  {
    if n == 0 then ""
    else
      var acc := ColumnsText(filters, n - 1, days);
      var values := filters[n - 1].1;
      if Skipped(values) then acc else ValuesText(acc, filters[n - 1].0, values, |values|, days)
  }

  /** Appending a non-empty clause is joining it on: a space goes only between clauses. */
  lemma AppendClauseJoins(done: seq<string>, clause: string)
    requires clause != ""
    requires Join(done, ' ') == "" <==> done == []
    ensures AppendClause(Join(done, ' '), clause) == Join(done + [clause], ' ')
    ensures Join(done + [clause], ' ') != ""
  {
    JoinSnoc(done, clause, ' ');
  }

  /** One column's text extends the joined clauses before it by that column's clauses. */
  lemma {:induction false} ValuesTextJoins(done: seq<string>, field: string, values: seq<FilterValue>, n: nat, days: DayBounds)
    requires n <= |values|
    requires Join(done, ' ') == "" <==> done == []
    ensures var all := done + Texts(Pairs(field, values[..n]), days);
      ValuesText(Join(done, ' '), field, values, n, days) == Join(all, ' ') && (Join(all, ' ') == "" <==> all == [])
  {
    if n == 0 {
      assert done + Texts(Pairs(field, values[..0]), days) == done;
    } else {
      ValuesTextJoins(done, field, values, n - 1, days);
      var before := Texts(Pairs(field, values[..n - 1]), days);
      var clause := Clause(field, values[n - 1], days);
      AppendClauseJoins(done + before, clause);
      PairsPrefix(field, values, n - 1);
      TextsAppend(Pairs(field, values[..n - 1]), [(field, values[n - 1])], days);
      assert done + Texts(Pairs(field, values[..n]), days) == (done + before) + [clause];
    }
  }

  /** The clause string of the first `n` columns is their clauses joined with spaces. */
  lemma {:induction false} ColumnsTextJoins(filters: Filters, n: nat, days: DayBounds)
    requires n <= |filters|
    ensures var cs := Texts(TermsOf(filters, n), days);
      ColumnsText(filters, n, days) == Join(cs, ' ') && (Join(cs, ' ') == "" <==> cs == [])
  {
    if n > 0 {
      ColumnsTextJoins(filters, n - 1, days);
      var done := Texts(TermsOf(filters, n - 1), days);
      var (field, values) := filters[n - 1];
      TextsAppend(TermsOf(filters, n - 1), ColumnTerms(field, values), days);
      if Skipped(values) {
        assert done + Texts([], days) == done;
      } else {
        ValuesTextJoins(done, field, values, |values|, days);
        assert values[..|values|] == values;
      }
    }
  }

  /** `parameterQuery || finalQuery`: the free text of the call, or else the search box's. */
  function FreeText(parameterQuery: Option<string>, finalQuery: string): string {
    if Truthy(parameterQuery) then parameterQuery.value else finalQuery
  }

  /** The `query` variable: absent when the trimmed text is empty. */
  function QueryVariable(text: string): (q: Option<string>)
    ensures q.Some? ==> q.value != "" && Trimmed(q.value)
    ensures q.None? <==> AllWhitespace(text)
  {
    TrimEmptyIff(text);
    var t := Trim(text);
    if t == "" then None else Some(t)
  }

  /** The sort string used: the call's, when truthy, else the current sort selection. */
  function SortText(parameterOrderBy: Option<string>, sortValue: string): string {
    if Truthy(parameterOrderBy) then parameterOrderBy.value else sortValue
  }

  /** `orderBy`: present only when the sort string splits on " " into exactly two tokens and
      the call did not pass the empty sort string. */
  function OrderBy(parameterOrderBy: Option<string>, sortValue: string): Option<seq<Ordering>> {
    var tokens := Split(SortText(parameterOrderBy, sortValue), ' ');
    if |tokens| != 2 || parameterOrderBy == Some("") then None
    else Some([Ordering(tokens[0], DirectionNamed(tokens[1]))])
  }

  /** `orderBy` is present exactly when the sort string holds exactly one space and the call
      did not clear the sort; it then names the field before the space and the direction
      after it (`undefined` unless that is "ASC" or "DESC"). */
  lemma OrderByPresence(parameterOrderBy: Option<string>, sortValue: string)
    ensures var text := SortText(parameterOrderBy, sortValue);
      && (OrderBy(parameterOrderBy, sortValue).Some? <==>
            parameterOrderBy != Some("") && Count(text, ' ') == 1)
      && (OrderBy(parameterOrderBy, sortValue).Some? ==>
            var i := IndexOf(text, ' ');
            OrderBy(parameterOrderBy, sortValue).value ==
              [Ordering(text[..i], DirectionNamed(text[i + 1..]))])
  {
    var text := SortText(parameterOrderBy, sortValue);
    if ' ' in text {
      var i := IndexOf(text, ' ');
      assert Split(text, ' ')[0] == text[..i];
    }
  }

  /** Sorting "field ASC" from the sort menu yields `[{sort: field, direction: ASC}]`. */
  lemma OrderByOfMenuChoice(field: string, dir: Direction)
    requires ' ' !in field
    ensures var text := field + " " + (if dir == ASC then "ASC" else "DESC");
      OrderBy(Some(text), "") == Some([Ordering(field, Some(dir))])
  {
    var name := if dir == ASC then "ASC" else "DESC";
    var text := field + " " + name;
    assert text == Join([field, name], ' ');
    SplitJoin([field, name], ' ');
  }

  /** The inner loop of the serializer: appends the clause of each value of one column. */
  method AppendValueClauses(newFilter: string, field: string, values: seq<FilterValue>, days: DayBounds)
    returns (r: string)
    ensures r == ValuesText(newFilter, field, values, |values|, days)
  {
    r := newFilter;
    for j := 0 to |values|
      invariant r == ValuesText(newFilter, field, values, j, days)
    {
      var clause := Clause(field, values[j], days);
      r := AppendClause(r, clause);
    }
  }

  /** The outer loop of the serializer: the clause string `newFilter` of all columns. */
  method ClauseString(filters: Filters, days: DayBounds) returns (newFilter: string)
    ensures newFilter == ColumnsText(filters, |filters|, days)
  {
    newFilter := "";
    for i := 0 to |filters|
      invariant newFilter == ColumnsText(filters, i, days)
    {
      var (field, values) := filters[i];
      if !Skipped(values) {
        newFilter := AppendValueClauses(newFilter, field, values, days);
      }
    }
  }

  /**
    The serializer: `query` is the trimmed free text and clauses, absent when that is
    empty; `orderBy` follows `OrderBy`; every other variable passes through.
  */
  method SubmitFilters(
    filters: Filters,
    parameterQuery: Option<string>,
    parameterOrderBy: Option<string>,
    variables: Variables,
    finalQuery: string,
    sortValue: string,
    days: DayBounds)
    returns (r: Variables)
    ensures r.query == QueryVariable(FreeText(parameterQuery, finalQuery) + " " + Join(Clauses(filters, days), ' '))
    ensures r.orderBy == OrderBy(parameterOrderBy, sortValue)
    ensures r.first == variables.first && r.last == variables.last
    ensures r.after == variables.after && r.before == variables.before
  {
    var newFilter := ClauseString(filters, days);
    ColumnsTextJoins(filters, |filters|, days);
    var query := QueryVariable(FreeText(parameterQuery, finalQuery) + " " + newFilter);
    var orderBy := OrderBy(parameterOrderBy, sortValue);
    r := variables.(query := query, orderBy := orderBy);
  }
}
