/** `CustomSearch`: turns a grid request into column filters, a sort
    column and a page window, then filters and pages the records. */
module CustomSearchService {
  import opened Records
  import opened Filtering
  import opened Paging

  /** The search box of the grid or of one column; its value may be null. */
  datatype SearchBox = SearchBox(value: Option<string>)

  /** One column definition: the property it shows and its search box. */
  datatype ColumnDef = ColumnDef(data: string, search: SearchBox)

  /** One sort instruction: a column index and a direction string. */
  datatype OrderSpec = OrderSpec(column: int, dir: string)

  /** The request model posted by the grid; `search` and `order` may be null. */
  datatype TableRequest = TableRequest(
    columns: seq<ColumnDef>,
    search: Option<SearchBox>,
    order: Option<seq<OrderSpec>>,
    start: int,
    length: int)

  /** The returned sequence and the two out-parameters. */
  datatype SearchResult = SearchResult(rows: seq<Record>, filteredResultsCount: int, totalResultsCount: int)

  predicate Searchable(c: ColumnDef)
  {
    c.search.value.Some?
  }

  /** The number of columns carrying a search value. */
  function CountSearchable(columns: seq<ColumnDef>): nat
    decreases |columns|
  {
    if columns == [] then 0
    else (if Searchable(columns[0]) then 1 else 0) + CountSearchable(columns[1..])
  }

  /** The column filters built from the request: one per column whose
      search value is not null, in column order. */
  function ColumnSearches(columns: seq<ColumnDef>): seq<ColumnFilter>
    decreases |columns|
  {
    if columns == [] then []
    else
      (if Searchable(columns[0]) then [ColumnFilter(columns[0].data, columns[0].search.value.value)] else []) +
      ColumnSearches(columns[1..])
  }

  /** Each column with a non-null search value, the empty string included,
      gives exactly one filter, placed after those of the columns before it;
      no other filter is built. */
  lemma {:induction false} ColumnSearchesExact(columns: seq<ColumnDef>)
    ensures |ColumnSearches(columns)| == CountSearchable(columns)
    ensures forall i :: 0 <= i < |columns| && Searchable(columns[i]) ==>
      CountSearchable(columns[..i]) < |ColumnSearches(columns)| &&
      ColumnSearches(columns)[CountSearchable(columns[..i])] == ColumnFilter(columns[i].data, columns[i].search.value.value)
    decreases |columns|
  {
    if columns != [] {
      var tail := columns[1..];
      ColumnSearchesExact(tail);
      var head := if Searchable(columns[0]) then [ColumnFilter(columns[0].data, columns[0].search.value.value)] else [];
      assert ColumnSearches(columns) == head + ColumnSearches(tail);
      forall i | 0 <= i < |columns| && Searchable(columns[i])
        ensures CountSearchable(columns[..i]) < |ColumnSearches(columns)|
        ensures ColumnSearches(columns)[CountSearchable(columns[..i])] == ColumnFilter(columns[i].data, columns[i].search.value.value)
      {
        CountPrefixStep(columns, i);
        if i > 0 {
          assert columns[i] == tail[i - 1];
        }
      }
    }
  }

  /** Counting the searchable columns of a prefix: the first column, then
      the rest of the prefix. */
  lemma CountPrefixStep(columns: seq<ColumnDef>, i: int)
    requires 0 <= i < |columns|
    ensures i == 0 ==> CountSearchable(columns[..i]) == 0
    ensures i > 0 ==>
      CountSearchable(columns[..i]) == (if Searchable(columns[0]) then 1 else 0) + CountSearchable(columns[1..][..i - 1])
  {
    if i > 0 {
      assert columns[..i][1..] == columns[1..][..i - 1];
    } else {
      assert columns[..i] == [];
    }
  }

  /** The global search text: null when the request has no search box. */
  function SearchText(model: TableRequest): Option<string>
  {
    if model.search.Some? then model.search.value.value else None
  }

  /** The property names of all columns, in order. */
  function ColumnNames(columns: seq<ColumnDef>): (r: seq<string>)
    ensures |r| == |columns|
    ensures forall i :: 0 <= i < |columns| ==> r[i] == columns[i].data
  {
    seq(|columns|, i requires 0 <= i < |columns| => columns[i].data)
  }

  function LowerChar(c: char): char
  {
    if 'A' <= c <= 'Z' then (c as int - 'A' as int + 'a' as int) as char else c
  }

  /** `ToLower`, for ASCII letters. */
  function ToLowerAscii(s: string): string
  {
    seq(|s|, i requires 0 <= i < |s| => LowerChar(s[i]))
  }

  /** What the service demands of the request: when an order list is sent
      it has a first entry, and that entry names an existing column. */
  predicate OrderResolvable(model: TableRequest)
  {
    model.order.Some? ==>
      |model.order.value| > 0 && 0 <= model.order.value[0].column < |model.columns|
  }

  /** The sort column and direction: from the first order entry only, or
      `("", true)` when the request has no order list. */
  function ResolveSort(model: TableRequest): (string, bool)
    requires OrderResolvable(model)
  {
    if model.order.None? then ("", true)
    else
      var first := model.order.value[0];
      (model.columns[first.column].data, ToLowerAscii(first.dir) == "asc")
  }

  /** `sortDir` is true exactly when there is no order list or the first
      entry's direction spells "asc" in any mix of cases: "desc", "", and
      anything else sort descending. */
  lemma SortDirIsAsc(model: TableRequest)
    requires OrderResolvable(model)
    ensures ResolveSort(model).1 <==>
      model.order.None? ||
      var d := model.order.value[0].dir;
      |d| == 3 && (d[0] == 'a' || d[0] == 'A') && (d[1] == 's' || d[1] == 'S') && (d[2] == 'c' || d[2] == 'C')
    ensures model.order.None? ==> ResolveSort(model).0 == ""
    ensures model.order.Some? ==> ResolveSort(model).0 == model.columns[model.order.value[0].column].data
  {
    if model.order.Some? {
      var d := model.order.value[0].dir;
      var low := ToLowerAscii(d);
      if |d| == 3 {
        assert low == [LowerChar(d[0]), LowerChar(d[1]), LowerChar(d[2])];
      }
    }
  }

  /** The global search's filter entries: every column's property name
      paired with the search text. */
  function GlobalFilters(model: TableRequest, text: string): seq<ColumnFilter>
  {
    FieldFilters(ColumnNames(model.columns), text)
  }

  /** The column searches run over the global search's `source.Where(e)`,
      which nothing has enumerated yet.  With no active entry the column
      `FilterData` never reads it.  Otherwise its probes run the global
      condition up to the first match, and only a condition built from the
      column entries makes paging enumerate both `Where`s to the end. */
  function ColumnsOverPending(schema: Schema, source: seq<Record>, e: Expr, columnsSearch: seq<ColumnFilter>): Result<seq<Record>, Fault>
  {
    if Active(columnsSearch) == [] then Success([])
    else
      match FirstMatch(source, e)
      case Failure(f) => Failure(f)
      case Success(first) =>
        match Accumulate(schema, first, Active(columnsSearch))
        case Failure(f) => Failure(f)
        case Success(None) => Success([])
        case Success(Some(ce)) =>
          match Where(source, e)
          case Failure(f) => Failure(f)
          case Success(afterGlobal) => Where(afterGlobal, ce)
  }

  /** The records that reach paging, as `PaginateData` enumerates them: the
      global search when its text is not null or empty (over every column's
      property name), then the column searches when there is at least one.
      `FilterData` returns a `Where` that is enumerated only when read, so a
      null property value met by the global condition throws only if
      something reads that far. */
  function Filtered(schema: Schema, source: seq<Record>, model: TableRequest): Result<seq<Record>, Fault>
  {
    var searchBy := SearchText(model);
    var columnsSearch := ColumnSearches(model.columns);
    if searchBy.Some? && searchBy.value != "" then
      match Accumulate(schema, source, Active(GlobalFilters(model, searchBy.value)))
      case Failure(f) => Failure(f)
      case Success(None) =>
        if |columnsSearch| > 0 then FilterSpec(schema, [], columnsSearch) else Success([])
      case Success(Some(e)) =>
        if |columnsSearch| > 0 then ColumnsOverPending(schema, source, e, columnsSearch) else Where(source, e)
    else if |columnsSearch| > 0 then FilterSpec(schema, source, columnsSearch)
    else Success(source)
  }

  /** When the global search can be enumerated to the end without throwing,
      the lazy pipeline gives what running the two `FilterData` calls one
      after the other, each to the end, gives. */
  lemma FilteredAgreesWithEager(schema: Schema, source: seq<Record>, model: TableRequest)
    requires SearchText(model).Some? && SearchText(model).value != ""
    requires FilterSpec(schema, source, GlobalFilters(model, SearchText(model).value)).Success?
    ensures var afterGlobal := FilterSpec(schema, source, GlobalFilters(model, SearchText(model).value)).value;
      Filtered(schema, source, model) ==
        if |ColumnSearches(model.columns)| > 0 then FilterSpec(schema, afterGlobal, ColumnSearches(model.columns))
        else Success(afterGlobal)
  {
    var cs := ColumnSearches(model.columns);
    match Accumulate(schema, source, Active(GlobalFilters(model, SearchText(model).value)))
    case Success(None) =>
    case Success(Some(e)) =>
      if |cs| > 0 && Active(cs) != [] {
        var afterGlobal := Where(source, e).value;
        var first := FirstMatch(source, e).value;
        AccumulateReadsFirst(schema, first, afterGlobal, Active(cs));
      }
  }

  /** The main path: with a non-empty search text, a record reaches paging
      exactly when it is in the input, the global search over every
      column's property name selects it, and the column searches select it
      among the records the global search keeps (or no column carries a
      search value).  When the global condition throws on some record yet
      the call succeeds, nothing read the global search to the end and no
      record reaches paging. */
  lemma GlobalThenColumnSearch(schema: Schema, source: seq<Record>, model: TableRequest)
    requires SearchText(model).Some? && SearchText(model).value != ""
    requires Filtered(schema, source, model).Success?
    ensures var gf := GlobalFilters(model, SearchText(model).value);
      var cs := ColumnSearches(model.columns);
      var none := forall i :: 0 <= i < |model.columns| ==> !Searchable(model.columns[i]);
      && (FilterSpec(schema, source, gf).Success? ==>
            forall x :: x in Filtered(schema, source, model).value <==>
              x in source && Selected(schema, source, gf, x) &&
              (none || Selected(schema, FilterSpec(schema, source, gf).value, cs, x)))
      && (FilterSpec(schema, source, gf).Failure? ==> Filtered(schema, source, model).value == [])
  {
    var gf := GlobalFilters(model, SearchText(model).value);
    var cs := ColumnSearches(model.columns);
    ColumnSearchesExact(model.columns);
    if FilterSpec(schema, source, gf).Success? {
      var afterGlobal := FilterSpec(schema, source, gf).value;
      FilteredAgreesWithEager(schema, source, model);
      FilterKeepsExactlySelected(schema, source, gf);
      if forall i :: 0 <= i < |model.columns| ==> !Searchable(model.columns[i]) {
        NoSearchableCountsZero(model.columns);
      } else {
        var i :| 0 <= i < |model.columns| && Searchable(model.columns[i]);
        assert |cs| > 0;
        FilterKeepsExactlySelected(schema, afterGlobal, cs);
      }
    }
  }

  /** `CustomSearch(source, model, out filteredResultsCount, out totalResultsCount)`. */
  function CustomSearch(schema: Schema, source: seq<Record>, model: TableRequest): (r: Result<SearchResult, Fault>)
    requires OrderResolvable(model)
    ensures r.Success? <==> Filtered(schema, source, model).Success?
    ensures r.Failure? ==> r.error == Filtered(schema, source, model).error
    ensures r.Success? ==>
      var post := Filtered(schema, source, model).value;
      r.value.rows == post[PageStart(|post|, model.start)..PageEnd(|post|, model.start, model.length)] &&
      r.value.filteredResultsCount == |r.value.rows| &&
      r.value.totalResultsCount == |post|
  {
    var searchBy := SearchText(model);
    var (sortBy, sortDir) := ResolveSort(model);
    match Filtered(schema, source, model)
    case Failure(f) => Failure(f)
    case Success(post) =>
      var page := Paginate(post, searchBy, model.length, model.start, sortBy, sortDir);
      Success(SearchResult(page.rows, page.filteredResultsCount, page.totalResultsCount))
  }

  /** The records that reach paging are the input's records in their
      original order, some left out. */
  lemma FilteredIsSubsequence(schema: Schema, source: seq<Record>, model: TableRequest)
    requires Filtered(schema, source, model).Success?
    ensures IsSubsequence(Filtered(schema, source, model).value, source)
    ensures |Filtered(schema, source, model).value| <= |source|
  {
    var searchBy := SearchText(model);
    var columnsSearch := ColumnSearches(model.columns);
    var post := Filtered(schema, source, model).value;
    if searchBy.Some? && searchBy.value != "" {
      var filters := GlobalFilters(model, searchBy.value);
      if FilterSpec(schema, source, filters).Success? {
        var afterGlobal := FilterSpec(schema, source, filters).value;
        FilteredAgreesWithEager(schema, source, model);
        FilterKeepsExactlySelected(schema, source, filters);
        if |columnsSearch| > 0 {
          FilterKeepsExactlySelected(schema, afterGlobal, columnsSearch);
          SubsequenceTransitive(post, afterGlobal, source);
        }
      } else {
        GlobalThenColumnSearch(schema, source, model);
        SubsequenceOfEmpty(source);
      }
    } else if |columnsSearch| > 0 {
      FilterKeepsExactlySelected(schema, source, columnsSearch);
    } else {
      SubsequenceReflexive(source);
    }
    SubsequenceMembers(post, source);
  }

  /** With no global search text and no column search value, nothing is
      filtered: the page is a window of the input itself and
      `totalResultsCount` is the input's size. */
  lemma NoSearchPagesInput(schema: Schema, source: seq<Record>, model: TableRequest)
    requires OrderResolvable(model)
    requires SearchText(model).None? || SearchText(model) == Some("")
    requires forall i :: 0 <= i < |model.columns| ==> !Searchable(model.columns[i])
    ensures CustomSearch(schema, source, model).Success?
    ensures CustomSearch(schema, source, model).value.rows ==
      source[PageStart(|source|, model.start)..PageEnd(|source|, model.start, model.length)]
    ensures CustomSearch(schema, source, model).value.totalResultsCount == |source|
  {
    ColumnSearchesExact(model.columns);
    NoSearchableCountsZero(model.columns);
  }

  lemma {:induction false} NoSearchableCountsZero(columns: seq<ColumnDef>)
    requires forall i :: 0 <= i < |columns| ==> !Searchable(columns[i])
    ensures CountSearchable(columns) == 0
    decreases |columns|
  {
    if columns != [] {
      assert !Searchable(columns[0]);
      NoSearchableCountsZero(columns[1..]);
    }
  }

  /** With a null or empty global search text only the column searches
      filter.  The call fails exactly when the column searches fail, with
      their fault; otherwise a record reaches paging exactly when it is in
      the input and either no column carries a search value or it is
      selected by the column searches. */
  lemma EmptySearchTextSkipsGlobalFilter(schema: Schema, source: seq<Record>, model: TableRequest)
    requires SearchText(model).None? || SearchText(model) == Some("")
    ensures var cs := ColumnSearches(model.columns);
      var none := forall i :: 0 <= i < |model.columns| ==> !Searchable(model.columns[i]);
      && (Filtered(schema, source, model).Success? <==> none || FilterSpec(schema, source, cs).Success?)
      && (Filtered(schema, source, model).Failure? ==> Filtered(schema, source, model).error == FilterSpec(schema, source, cs).error)
      && (Filtered(schema, source, model).Success? ==>
            forall x :: x in Filtered(schema, source, model).value <==>
              x in source && (none || Selected(schema, source, cs, x)))
  {
    var cs := ColumnSearches(model.columns);
    ColumnSearchesExact(model.columns);
    if forall i :: 0 <= i < |model.columns| ==> !Searchable(model.columns[i]) {
      NoSearchableCountsZero(model.columns);
    } else {
      var i :| 0 <= i < |model.columns| && Searchable(model.columns[i]);
      assert |cs| > 0;
      if FilterSpec(schema, source, cs).Success? {
        FilterKeepsExactlySelected(schema, source, cs);
      }
    }
  }

  /** A global condition that would throw on a later record is never run on
      it when the column searches build no condition: here the second
      record's `Name` is null, yet the column `FilterData` (whose only entry
      is the numeric column "0") returns `Enumerable.Empty` after the global
      search has been probed no further than its first match. */
  lemma UnreadGlobalConditionExample()
    ensures var schema := map["Name" := StringKind];
      var source := [map["Name" := Some("Al")], map["Name" := None]];
      var model := TableRequest([ColumnDef("Name", SearchBox(None)), ColumnDef("0", SearchBox(Some("")))],
                                Some(SearchBox(Some("A"))), None, 0, 10);
      && Where(source, ContainsCall("Name", "A")) == Failure(NullFieldValue("Name"))
      && CustomSearch(schema, source, model) == Success(SearchResult([], 0, 0))
  {
    var schema := map["Name" := StringKind];
    var source: seq<Record> := [map["Name" := Some("Al")], map["Name" := None]];
    var model := TableRequest([ColumnDef("Name", SearchBox(None)), ColumnDef("0", SearchBox(Some("")))],
                              Some(SearchBox(Some("A"))), None, 0, 10);
    assert Contains("Al", "A");
    assert IsNumericName("0") by {
      assert IsDigit("0"[0]);
    }
    assert !IsNumericName("Name");
    var gf := GlobalFilters(model, "A");
    assert gf == [ColumnFilter("Name", "A"), ColumnFilter("0", "A")];
    assert gf[..1] == [ColumnFilter("Name", "A")];
    assert Active(gf) == [ColumnFilter("Name", "A")];
    var cs := ColumnSearches(model.columns);
    assert cs == [ColumnFilter("0", "")];
    assert Active(cs) == [];
  }
}
