# DatatableCustomSearchService in Dafny

A model of `DatatableCustomSearchService`, the server-side filtering and
paging helper behind a data grid. Given a sequence of records and the grid's
request (columns, a global search box, per-column search boxes, an order
list, `start` and `length`), `CustomSearch` returns a page of records and two
counts. It is built from three parts:

- **Filtering.** The two `FilterData` overloads: the global search over every
  column's property name, and the per-column searches. Each overload walks
  its entries in a `foreach` loop and passes over names that are empty or
  numeric. For each remaining name it builds a `Contains` call through
  `CreateExpression`, which probes the property's value on the first record.
  The calls are chained with `Expression.AndAlso`.
- **Paging.** `PaginateData` orders by the constant string `sortBy`, then
  applies `Skip` and `Take` and counts.
- **Orchestration.** `CustomSearch` derives the column filters, the sort and
  the window from the request, then runs global search, column search and
  paging in that order.

Reflection is replaced by a schema and records:

- A `Schema` maps each declared property to `StringKind` or `OtherKind`.
- A `Record` maps property names to `Option<string>`, where `None` is null.

The exceptions the code lets escape are modelled as `Failure` values of
`Fault`:

- `MissingProperty`: an undeclared property is read on a non-empty source.
- `NullLeftOperand`: `Expression.AndAlso` is given a null left operand.
- `NullFieldValue`: `Contains` is called on a null property value.

The model follows the code as written, including where it departs from its apparent intent:

- **Global search is AND.** It is a conjunction over the searched fields,
  not "any field matches".
- **Sorting changes nothing.** The sort key is a constant, so the order is
  left as it is and the direction has no effect.
- **`filteredResultsCount` is the page size.** It counts the page after
  `Skip`/`Take`. The comment above line 81 of `DatatableCustomSearchService.cs` says "without the skip and take",
  but the code counts the page.
- **`totalResultsCount` is the post-filter size.** `PaginateData` counts the
  sequence it is given, and `CustomSearch` gives it the filtered sequence.
- **Filtering yields nothing without a predicate.** When no predicate is
  built, the result is the empty sequence, not the input.

Files:

- `records.dfy` (module `Records`): records, ordinal `Contains`,
  subsequences, and the numeric-name test.
- `filtering.dfy` (module `Filtering`): `GetValues`, `CreateExpression`, the
  accumulation of the loops, evaluation of the compiled condition, `Where`,
  and the two `FilterData` methods.
- `paging.dfy` (module `Paging`): stable `OrderBy`/`OrderByDescending`,
  `Skip`, `Take`, and `PaginateData`.
- `search.dfy` (module `CustomSearchService`): the request model,
  `CustomSearch` and its helpers.

Both `FilterData` loops are methods with loop invariants. Each is proved
equal to the specification function `Filtering.FilterSpec`. The lemmas state
what `FilterSpec` means: subsequence, exact selection, conjunction, the
empty result, and the `AndAlso` fault. `CustomSearch`, being a pipeline of
expressions, is a function. `FilterData` returns an unenumerated `Where`, so
`CustomSearch` runs the global condition only as far as something reads it:
- When the column searches build a condition, or when there are none,
  `PaginateData` reads everything.
- When the column searches build nothing, their probes read the global
  `Where` only up to its first match (`Filtering.FirstMatch`). With no
  active column entry they don't read it at all.
A null property value further on then never throws.

## Model

| member | source | states |
|---|---|---|
| `Records.ContainsIffOccurs` | DatatableCustomSearchService.cs:206-209 | ordinal `Contains(s, sub)` holds exactly when `sub` occurs at some position of `s`; the empty string is contained in every string |
| `Records.IsNumericName` | DatatableCustomSearchService.cs:95-97 | a name counted as numeric contains at least one digit (sign, digits, at most one decimal point) |
| `Filtering.GetValues` | DatatableCustomSearchService.cs:220-226 | yields the property's value on every item, in order; fails with `MissingProperty` exactly when the property is undeclared and there is an item to read it on |
| `Filtering.CreateExpression` | DatatableCustomSearchService.cs:195-218 | fails exactly for an undeclared property on a non-empty source; otherwise gives `column.Contains(value)` exactly when the property is `String` and non-null on the first record, and null in every other case (non-string type, null first value, empty source) |
| `Filtering.ActiveMembers` | DatatableCustomSearchService.cs:93-100 | the entries the loop acts on are exactly those whose column is neither empty nor numeric |
| `Filtering.AccumulateFaults` | DatatableCustomSearchService.cs:91-124 | the loop's accumulator throws exactly at the first faulty entry, with that entry's fault: an undeclared property (`MissingProperty`), or an entry that yields a predicate after the first entry yielded none (`NullLeftOperand`, from `AndAlso(null, …)`) |
| `Filtering.AccumulateMeaning` | DatatableCustomSearchService.cs:91-124 | an accumulator that has not thrown stays null exactly when no entry yields a predicate. Otherwise its meaning is the conjunction of "field contains value" over every entry that yields a predicate |
| `Filtering.FaultIsFinal` | DatatableCustomSearchService.cs:87-193 | once the accumulation has thrown, the whole call fails with that fault whatever entries follow |
| `Filtering.Eval` | DatatableCustomSearchService.cs:128-134 | on success the compiled condition's value is the conjunction of its `Contains` calls. A failure is always a `NullFieldValue` on a column the condition reads that is null on the record. With no null column read it never fails |
| `Filtering.WhereSpec` | DatatableCustomSearchService.cs:134 | `Where` fails exactly when the condition throws on some record (with `NullFieldValue`). Otherwise it returns a subsequence of the source holding exactly the records the condition holds of, each with its multiplicity in the source |
| `Filtering.FilterKeepsExactlySelected` | DatatableCustomSearchService.cs:126-137 | a successful filter returns a subsequence of the source. A record is in it exactly when it is in the source, some entry yields a predicate, and every entry that yields one has its value contained in the record's field. Multiplicities are kept |
| `Filtering.NoPredicateNoRows` | DatatableCustomSearchService.cs:137 | the result is the empty sequence, never the unfiltered source, when every column is empty or numeric or when the source is empty; a call that does not fail and has no active entry yielding a predicate also returns the empty sequence |
| `Filtering.NullLeftOperandFault` | DatatableCustomSearchService.cs:108-119 | if the first active entry yields no predicate and a later one does, the call fails (with `NullLeftOperand`, or `MissingProperty` when an earlier entry is undeclared) |
| `Filtering.FirstBuildsNoNullLeftOperand` | DatatableCustomSearchService.cs:163-174 | once the first active entry has yielded a predicate the accumulator is never null again, so no `NullLeftOperand` fault can occur |
| `Filtering.GlobalSearchIsConjunction` | DatatableCustomSearchService.cs:87-138 | the global search keeps a record exactly when at least one searched field yields a predicate and every such field contains the search value: AND, not OR |
| `Filtering.FilterFields` | DatatableCustomSearchService.cs:87-138 | the `foreach` loop over field names, with `exp` and `counter`, computes exactly `FilterSpec` of the fields each paired with the search value |
| `Filtering.FilterColumns` | DatatableCustomSearchService.cs:140-193 | the `foreach` loop over column filters, with `exp` and `counter`, computes exactly `FilterSpec` of the filters |
| `Paging.SortByPermutes` | DatatableCustomSearchService.cs:71-76 | the stable sort used for `OrderBy`/`OrderByDescending` is a permutation of its input |
| `Paging.SortByConstantKey` | DatatableCustomSearchService.cs:72-76 | sorting by a key that is the same for every record leaves the sequence unchanged, in either direction |
| `Paging.Paginate` | DatatableCustomSearchService.cs:69-85 | the page is the slice from `skip` to `skip + take` of the source, clamped, in source order, whatever `sortBy`, `sortDir` and `searchBy` are. `filteredResultsCount` is the page's length, at most `take` and 0 when `take <= 0`. `totalResultsCount` is the length of the sequence passed in |
| `CustomSearchService.ColumnSearchesExact` | DatatableCustomSearchService.cs:23-29 | one column filter per column whose search value is non-null, the empty string included, holding that column's `data` and value, in column order; no other filters |
| `CustomSearchService.SortDirIsAsc` | DatatableCustomSearchService.cs:35-43 | with no order list the sort is `("", true)`. Otherwise the sort column is the `data` of the column named by `order[0]`, and `sortDir` is true exactly when `order[0].dir` is "asc" in any mix of cases |
| `CustomSearchService.CustomSearch` | DatatableCustomSearchService.cs:19-67 | fails exactly when the filtering fails, as far as paging enumerates it. Otherwise it returns the clamped `start`/`length` window of the filtered records. `filteredResultsCount` is the window's length and `totalResultsCount` is the size of the filtered sequence, not the input |
| `Filtering.FirstMatch` | DatatableCustomSearchService.cs:199 | `FirstOrDefault` over an unenumerated `Where` gives at most one record, a source record the condition holds of. With no match the whole `Where` was enumerated and is empty. It throws only with the fault that enumerating the whole `Where` would report, and when that enumeration succeeds it gives that enumeration's first record |
| `Filtering.AccumulateReadsFirst` | DatatableCustomSearchService.cs:195-226 | the loop's accumulation over any entries is the same on two sources that are both empty or share their first record: `CreateExpression` reads only the first value |
| `CustomSearchService.FilteredAgreesWithEager` | DatatableCustomSearchService.cs:45-56 | when the global search can be enumerated without throwing, the records that reach paging are those of the column searches run over the fully enumerated global result, or that result itself when no column carries a search value |
| `CustomSearchService.GlobalThenColumnSearch` | DatatableCustomSearchService.cs:45-56 | with a non-empty search text, a record reaches paging exactly when it is in the input, the global search over every column's `data` selects it, and either no column carries a search value or the column searches select it among the global result. When the global condition throws on some record but the call succeeds, no record reaches paging |
| `CustomSearchService.UnreadGlobalConditionExample` | DatatableCustomSearchService.cs:134 | a global condition that throws on the second record: the only column entry is the numeric name "0", so the column `FilterData` returns `Enumerable.Empty` (line 192) and the call returns an empty page with counts 0 and 0 |
| `CustomSearchService.FilteredIsSubsequence` | DatatableCustomSearchService.cs:45-56 | the records that reach paging, after the global and the column searches, are a subsequence of the input, so there are never more of them than input records |
| `CustomSearchService.NoSearchPagesInput` | DatatableCustomSearchService.cs:45-59 | with no global search text (null or empty) and no column search value, the call succeeds, the page is a window of the input itself and `totalResultsCount` is the input's size |
| `CustomSearchService.EmptySearchTextSkipsGlobalFilter` | DatatableCustomSearchService.cs:45-56 | with a null or empty global search text only the column searches filter. The call fails exactly when they fail, with their fault. Otherwise a record reaches paging exactly when it is in the input and either no column carries a search value or the column searches select it |

## Left out

- Reflection and expression compilation are not modelled as such. `GetProperty`, `Expression.Property`, `Expression.Call`, `Lambda.Compile` and `PropertyType.Name` are replaced by the schema-and-record abstraction and by the `Expr` tree with its evaluator.
- `Records.IsNumericName` approximates `Double.TryParse` with `NumberStyles.Any` and the invariant culture. It accepts an optional sign and digits with at most one decimal point. It does not accept surrounding white space, thousands separators, exponents, currency symbols, parentheses, a trailing sign (`5-`), or `NaN`/`Infinity`, all of which the real parse accepts.
- LINQ's deferred execution is modelled only as far as it decides whether a call fails. Which records are read is modelled: what `PaginateData` enumerates, the probes' reads up to the first match, and records never read. The order in which they are read is not. A `FilterData` call on its own returns its `Where` fully enumerated (`Filtering.FilterSpec`). When the whole pipeline is enumerated and several records would throw, the fault reported follows eager order: the global condition over all records first, then the column condition. The code interleaves the two conditions record by record and may raise another fault first.
- Some nulls are not represented. A column filter's value passed to `FilterData` is never null, so `Contains(null)` does not arise. A column's `data`, an order entry's `dir` and a column's search box are never null either, so `dir.ToLower()` on null and reading the value of a null search box do not arise. The null cases that are modelled are a property value, a search box's value (global or per column), a missing global search box and a missing order list.
- `CustomSearchService.CustomSearch` requires that an order list, when present, is non-empty and that `order[0].column` indexes an existing column. The code throws otherwise, and a null request model is not represented.
- `ToLower` is modelled as ASCII lower-casing. Culture-specific case mapping is left out.
- `Paging.SortBy` compares keys ordinally, where `OrderBy` on strings uses the current culture's comparer. Only a constant key ever reaches it, so the comparer never decides anything.
- The unused `startsWith`/`endsWith` method handles (lines 13-17) are not modelled.
- C#'s 32-bit `int` is modelled as an unbounded `int`. The counts and indices stay far below 2^31 for any sequence the code can hold.
- `IDatatableCustomSearchService` is an interface with no logic and is not part of this model. Neither is the HTTP layer that fills in the request model and serialises the result.
