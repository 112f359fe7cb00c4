/** `PaginateData`: order the (already filtered) records, skip and take a
    page, and report two counts. */
module Paging {
  import opened Records

  /** The page and the two out-parameters of `PaginateData`. */
  datatype Page = Page(rows: seq<Record>, filteredResultsCount: int, totalResultsCount: int)

  /** Ordinal order on strings: strictly before. */
  predicate Below(a: string, b: string)
    decreases |a|
  {
    if a == [] then b != []
    else if b == [] then false
    else if a[0] != b[0] then a[0] < b[0]
    else Below(a[1..], b[1..])
  }

  lemma {:induction false} BelowIrreflexive(a: string)
    ensures !Below(a, a)
    decreases |a|
  {
    if a != [] {
      BelowIrreflexive(a[1..]);
    }
  }

  /** `x` goes strictly before `y` under the sort direction. */
  predicate Before(x: Record, y: Record, key: Record -> string, descending: bool)
  {
    if descending then Below(key(y), key(x)) else Below(key(x), key(y))
  }

  /** Inserts `x` after every element of `sorted` it does not go strictly
      before, so that equal keys keep their order. */
  function Insert(sorted: seq<Record>, x: Record, key: Record -> string, descending: bool): seq<Record>
    decreases |sorted|
  {
    if sorted == [] then [x]
    else if Before(x, sorted[|sorted| - 1], key, descending) then
      Insert(sorted[..|sorted| - 1], x, key, descending) + [sorted[|sorted| - 1]]
    else sorted + [x]
  }

  /** The stable sort `OrderBy(key)` (or `OrderByDescending(key)`). */
  function SortBy(s: seq<Record>, key: Record -> string, descending: bool): seq<Record>
    decreases |s|
  {
    if s == [] then []
    else Insert(SortBy(s[..|s| - 1], key, descending), s[|s| - 1], key, descending)
  }

  lemma {:induction false} InsertPermutes(sorted: seq<Record>, x: Record, key: Record -> string, descending: bool)
    ensures multiset(Insert(sorted, x, key, descending)) == multiset(sorted) + multiset{x}
    decreases |sorted|
  {
    if sorted != [] && Before(x, sorted[|sorted| - 1], key, descending) {
      var init := sorted[..|sorted| - 1];
      InsertPermutes(init, x, key, descending);
      assert sorted == init + [sorted[|sorted| - 1]];
    }
  }

  /** Sorting rearranges the records and neither adds nor drops any. */
  lemma {:induction false} SortByPermutes(s: seq<Record>, key: Record -> string, descending: bool)
    ensures multiset(SortBy(s, key, descending)) == multiset(s)
    decreases |s|
  {
    if s != [] {
      var init := s[..|s| - 1];
      SortByPermutes(init, key, descending);
      InsertPermutes(SortBy(init, key, descending), s[|s| - 1], key, descending);
      assert s == init + [s[|s| - 1]];
    }
  }

  /** When every record has the same key the stable sort, in either
      direction, leaves the order as it is. */
  lemma {:induction false} SortByConstantKey(s: seq<Record>, key: Record -> string, descending: bool, k: string)
    requires forall x :: key(x) == k
    ensures SortBy(s, key, descending) == s
    decreases |s|
  {
    if s != [] {
      var init := s[..|s| - 1];
      SortByConstantKey(init, key, descending, k);
      BelowIrreflexive(k);
      if init != [] {
        assert !Before(s[|s| - 1], init[|init| - 1], key, descending);
      }
      assert s == init + [s[|s| - 1]];
    }
  }

  /** LINQ `Skip(n)`: a count of zero or less skips nothing. */
  function Skip(s: seq<Record>, n: int): seq<Record>
  {
    if n <= 0 then s else if n >= |s| then [] else s[n..]
  }

  /** LINQ `Take(n)`: a count of zero or less takes nothing. */
  function Take(s: seq<Record>, n: int): seq<Record>
  {
    if n <= 0 then [] else if n >= |s| then s else s[..n]
  }

  function Min(a: int, b: int): int
  {
    if a <= b then a else b
  }

  /** First index of the page: `skip` clamped into the sequence. */
  function PageStart(count: int, skip: int): int
  {
    if skip <= 0 then 0 else Min(skip, count)
  }

  /** One past the last index of the page. */
  function PageEnd(count: int, skip: int, take: int): int
  {
    if take <= 0 then PageStart(count, skip) else Min(PageStart(count, skip) + take, count)
  }

  /** `PaginateData(source, searchBy, take, skip, sortBy, sortDir, …)`.
      The sort key is the constant string `sortBy`, not a property, so the
      order is left unchanged whatever `sortBy` and `sortDir` are, and
      `searchBy` is not used: the page is the slice `[skip, skip + take)`
      of the source, clamped.  `filteredResultsCount` is the size of that
      page, so never more than `take`; `totalResultsCount` is the size of
      the sequence passed in. */
  function Paginate(source: seq<Record>, searchBy: Option<string>, take: int, skip: int, sortBy: string, sortDir: bool): (p: Page)
    ensures 0 <= PageStart(|source|, skip) <= PageEnd(|source|, skip, take) <= |source|
    ensures p.rows == source[PageStart(|source|, skip)..PageEnd(|source|, skip, take)]
    ensures p.filteredResultsCount == |p.rows|
    ensures take > 0 ==> p.filteredResultsCount <= take
    ensures take <= 0 ==> p.filteredResultsCount == 0
    ensures p.totalResultsCount == |source|
  {
    var key := (b: Record) => sortBy;
    var ordered := if sortDir then SortBy(source, key, false) else SortBy(source, key, true);
    SortByConstantKey(source, key, !sortDir, sortBy);
    var rows := Take(Skip(ordered, skip), take);
    Page(rows, |rows|, |source|)
  }
}
