/** The two `FilterData` overloads of the search service and the predicate
    building they share (`CreateExpression`, `GetValues`).

    The expression tree compiled by the service is modelled by `Expr`; the
    accumulator of the `foreach` loops by `Option<Expr>`, `None` standing
    for a null `Expression`.  The exceptions the service lets escape are
    `Fault`s. */
module Filtering {
  import opened Records

  /** A per-column search: the property name and the text it must contain. */
  datatype ColumnFilter = ColumnFilter(column: string, value: string)

  /** The predicate tree: `record.column.Contains(value)` calls joined by
      `Expression.AndAlso`. */
  datatype Expr =
    | ContainsCall(column: string, value: string)
    | AndAlso(left: Expr, right: Expr)

  /** Why a filter call throws. */
  datatype Fault =
      /** the property is not declared, so reading it on a record fails */
    | MissingProperty(column: string)
      /** `Expression.AndAlso` was given a null left operand */
    | NullLeftOperand(column: string)
      /** `Contains` was called on a null property value */
    | NullFieldValue(column: string)

  /** Filter entries whose column is empty or parses as a number are passed over. */
  predicate Skipped(column: string)
  {
    column == "" || IsNumericName(column)
  }

  /** `GetValues(items, column)`: the value of the property on every item.
      Reading a property the type does not declare throws on the first item
      read, so only a non-empty sequence fails. */
  function GetValues(schema: Schema, items: seq<Record>, column: string): (r: Result<seq<Option<string>>, Fault>)
    ensures r.Failure? <==> |items| > 0 && column !in schema
    ensures r.Failure? ==> r.error == MissingProperty(column)
    ensures r.Success? ==> |r.value| == |items|
    ensures r.Success? ==> forall i :: 0 <= i < |items| ==> r.value[i] == Lookup(items[i], column)
  {
    if |items| == 0 then Success([])
    else if column !in schema then Failure(MissingProperty(column))
    else Success(ValuesOf(items, column))
  }

  /** The property's value on every item, for a declared property. */
  function ValuesOf(items: seq<Record>, column: string): (r: seq<Option<string>>)
    ensures |r| == |items|
    ensures forall i :: 0 <= i < |items| ==> r[i] == Lookup(items[i], column)
    decreases |items|
  {
    if items == [] then [] else [Lookup(items[0], column)] + ValuesOf(items[1..], column)
  }

  function FirstOrDefault(values: seq<Option<string>>): Option<string>
  {
    if values == [] then None else values[0]
  }

  /** The probe that decides whether a column yields a predicate: the source
      is non-empty, the property is declared `String`, and its value on the
      first record is not null. */
  predicate Builds(schema: Schema, src: seq<Record>, column: string)
  {
    |src| > 0 && column in schema && schema[column] == StringKind && Lookup(src[0], column).Some?
  }

  /** The probe of a column the type does not declare, on a non-empty source. */
  predicate Misses(schema: Schema, src: seq<Record>, column: string)
  {
    |src| > 0 && column !in schema
  }

  /** `CreateExpression`: a `Contains` call on the column when the probe
      succeeds, null otherwise; it throws for an undeclared property. */
  function CreateExpression(schema: Schema, src: seq<Record>, column: string, value: string): (r: Result<Option<Expr>, Fault>)
    ensures r.Failure? <==> Misses(schema, src, column)
    ensures r.Failure? ==> r.error == MissingProperty(column)
    ensures r.Success? ==> r.value == if Builds(schema, src, column) then Some(ContainsCall(column, value)) else None
  {
    match GetValues(schema, src, column)
    case Failure(f) => Failure(f)
    case Success(values) =>
      if FirstOrDefault(values).None? then Success(None)
      else if schema[column] == StringKind then Success(Some(ContainsCall(column, value)))
      else Success(None)
  }

  /** The filter entries the loop does not pass over, in order. */
  function Active(filters: seq<ColumnFilter>): (r: seq<ColumnFilter>)
    ensures |r| <= |filters|
  {
    if filters == [] then []
    else
      var last := filters[|filters| - 1];
      Active(filters[..|filters| - 1]) + if Skipped(last.column) then [] else [last]
  }

  /** The active entries are exactly the entries not passed over. */
  lemma {:induction false} ActiveMembers(filters: seq<ColumnFilter>)
    ensures forall c :: c in Active(filters) <==> c in filters && !Skipped(c.column)
    decreases |filters|
  {
    if filters != [] {
      var last := filters[|filters| - 1];
      assert filters == filters[..|filters| - 1] + [last];
      ActiveMembers(filters[..|filters| - 1]);
    }
  }

  lemma ActiveStep(filters: seq<ColumnFilter>, i: int)
    requires 0 <= i < |filters|
    ensures Active(filters[..i + 1]) == Active(filters[..i]) + if Skipped(filters[i].column) then [] else [filters[i]]
  {
    assert filters[..i + 1][..i] == filters[..i];
  }

  /** The accumulator `exp` once the loop has visited the active entries
      `a`: the first entry's expression is taken as it is (null or not);
      each later non-null expression is joined on with `AndAlso`, which
      throws when `exp` is still null. */
  function Accumulate(schema: Schema, src: seq<Record>, a: seq<ColumnFilter>): Result<Option<Expr>, Fault>
  {
    if a == [] then Success(None)
    else
      var prev := Accumulate(schema, src, a[..|a| - 1]);
      var c := a[|a| - 1];
      if prev.Failure? then prev
      else match CreateExpression(schema, src, c.column, c.value)
        case Failure(f) => Failure(f)
        case Success(e) =>
          if |a| == 1 then Success(e)
          else if e.None? then prev
          else if prev.value.None? then Failure(NullLeftOperand(c.column))
          else Success(Some(AndAlso(prev.value.value, e.value)))
  }

  /** One more step of the loop, on an accumulation that has not thrown:
      the cases of `Accumulate` on `a + [c]`, one lemma each. */
  lemma StepFault(schema: Schema, src: seq<Record>, a: seq<ColumnFilter>, c: ColumnFilter)
    requires Accumulate(schema, src, a).Success?
    requires CreateExpression(schema, src, c.column, c.value).Failure?
    ensures Accumulate(schema, src, a + [c]) == Failure(CreateExpression(schema, src, c.column, c.value).error)
  {
    assert (a + [c])[..|a|] == a;
  }

  lemma StepFirst(schema: Schema, src: seq<Record>, c: ColumnFilter)
    requires CreateExpression(schema, src, c.column, c.value).Success?
    ensures Accumulate(schema, src, [c]) == Success(CreateExpression(schema, src, c.column, c.value).value)
  {
    assert [c][..0] == [];
  }

  lemma StepNone(schema: Schema, src: seq<Record>, a: seq<ColumnFilter>, c: ColumnFilter)
    requires a != [] && Accumulate(schema, src, a).Success?
    requires CreateExpression(schema, src, c.column, c.value) == Success(None)
    ensures Accumulate(schema, src, a + [c]) == Accumulate(schema, src, a)
  {
    assert (a + [c])[..|a|] == a;
  }

  lemma StepNullLeft(schema: Schema, src: seq<Record>, a: seq<ColumnFilter>, c: ColumnFilter)
    requires a != [] && Accumulate(schema, src, a) == Success(None)
    requires CreateExpression(schema, src, c.column, c.value).Success?
    requires CreateExpression(schema, src, c.column, c.value).value.Some?
    ensures Accumulate(schema, src, a + [c]) == Failure(NullLeftOperand(c.column))
  {
    assert (a + [c])[..|a|] == a;
  }

  lemma StepAnd(schema: Schema, src: seq<Record>, a: seq<ColumnFilter>, c: ColumnFilter, left: Expr, right: Expr)
    requires a != [] && Accumulate(schema, src, a) == Success(Some(left))
    requires CreateExpression(schema, src, c.column, c.value) == Success(Some(right))
    ensures Accumulate(schema, src, a + [c]) == Success(Some(AndAlso(left, right)))
  {
    assert (a + [c])[..|a|] == a;
  }

  /** Entry `k` of the active entries `a` makes the loop throw: its property
      is undeclared, or it yields a predicate while the first entry did not. */
  predicate FaultAt(schema: Schema, src: seq<Record>, a: seq<ColumnFilter>, k: int)
    requires 0 <= k < |a|
  {
    Misses(schema, src, a[k].column) ||
    (0 < k && !Builds(schema, src, a[0].column) && Builds(schema, src, a[k].column))
  }

  function FaultOf(schema: Schema, src: seq<Record>, a: seq<ColumnFilter>, k: int): Fault
    requires 0 <= k < |a|
  {
    if Misses(schema, src, a[k].column) then MissingProperty(a[k].column) else NullLeftOperand(a[k].column)
  }

  /** `rec`'s property `column` is non-null and contains `value`. */
  predicate FieldContains(rec: Record, column: string, value: string)
  {
    Lookup(rec, column).Some? && Contains(Lookup(rec, column).value, value)
  }

  /** Where the accumulation throws: exactly at the first faulty entry, with
      that entry's fault. */
  lemma {:induction false} AccumulateFaults(schema: Schema, src: seq<Record>, a: seq<ColumnFilter>)
    ensures Accumulate(schema, src, a).Failure? <==> exists k :: 0 <= k < |a| && FaultAt(schema, src, a, k)
    ensures Accumulate(schema, src, a).Failure? ==>
      exists k :: 0 <= k < |a| && FaultAt(schema, src, a, k) &&
        Accumulate(schema, src, a).error == FaultOf(schema, src, a, k) &&
        forall j :: 0 <= j < k ==> !FaultAt(schema, src, a, j)
    decreases |a|
  {
    if a != [] {
      var init := a[..|a| - 1];
      var c := a[|a| - 1];
      var n := |a| - 1;
      AccumulateFaults(schema, src, init);
      var prev := Accumulate(schema, src, init);
      forall k | 0 <= k < n
        ensures init[k] == a[k] && (FaultAt(schema, src, init, k) <==> FaultAt(schema, src, a, k))
        ensures FaultOf(schema, src, init, k) == FaultOf(schema, src, a, k)
      {
      }
      if prev.Failure? {
      } else {
        AccumulateMeaning(schema, src, init);
        var e := CreateExpression(schema, src, c.column, c.value);
        if e.Failure? {
          assert FaultAt(schema, src, a, n);
        } else if |a| == 1 {
          assert !FaultAt(schema, src, a, 0);
        } else if e.value.None? {
          assert !FaultAt(schema, src, a, n);
        } else if prev.value.None? {
          assert !Builds(schema, src, init[0].column);
          assert FaultAt(schema, src, a, n);
        } else {
          var k0 :| 0 <= k0 < n && Builds(schema, src, init[k0].column);
          assert k0 == 0 || !FaultAt(schema, src, init, k0);
          assert Builds(schema, src, a[0].column);
          assert !FaultAt(schema, src, a, n);
        }
      }
    }
  }

  /** What an accumulation that has not thrown means: it stays null exactly
      when no entry yields a predicate; otherwise its predicate is the
      conjunction of "field contains value" over every entry that yields
      one. */
  lemma {:induction false} AccumulateMeaning(schema: Schema, src: seq<Record>, a: seq<ColumnFilter>)
    ensures Accumulate(schema, src, a).Success? ==>
      (Accumulate(schema, src, a).value.None? <==> forall k :: 0 <= k < |a| ==> !Builds(schema, src, a[k].column))
    ensures Accumulate(schema, src, a).Success? && Accumulate(schema, src, a).value.Some? ==>
      forall x :: Truth(Accumulate(schema, src, a).value.value, x) <==>
        forall k :: 0 <= k < |a| && Builds(schema, src, a[k].column) ==> FieldContains(x, a[k].column, a[k].value)
    decreases |a|
  {
    if a != [] {
      var init := a[..|a| - 1];
      AccumulateMeaning(schema, src, init);
      forall k | 0 <= k < |a| - 1
        ensures init[k] == a[k]
      {
      }
    }
  }

  /** The set of columns an expression reads. */
  function Columns(e: Expr): set<string>
  {
    match e
    case ContainsCall(c, _) => {c}
    case AndAlso(l, r) => Columns(l) + Columns(r)
  }

  /** What `e` says of `rec` when none of the properties it reads is null. */
  predicate Truth(e: Expr, rec: Record)
  {
    match e
    case ContainsCall(c, v) => FieldContains(rec, c, v)
    case AndAlso(l, r) => Truth(l, rec) && Truth(r, rec)
  }

  /** The compiled condition applied to one record: `AndAlso` evaluates its
      left operand first and skips the right one when the left is false; a
      `Contains` call on a null property value throws. */
  function Eval(e: Expr, rec: Record): (r: Result<bool, Fault>)
    ensures r.Success? ==> r.value == Truth(e, rec)
    ensures r.Failure? ==> r.error.NullFieldValue? && r.error.column in Columns(e) && Lookup(rec, r.error.column).None?
    ensures (forall c :: c in Columns(e) ==> Lookup(rec, c).Some?) ==> r.Success?
  {
    match e
    case ContainsCall(c, v) =>
      if Lookup(rec, c).None? then Failure(NullFieldValue(c))
      else Success(Contains(Lookup(rec, c).value, v))
    case AndAlso(l, r) =>
      match Eval(l, rec)
      case Failure(f) => Failure(f)
      case Success(b) => if b then Eval(r, rec) else Success(false)
  }

  /** `source.Where(condition)`, enumerated to the end. */
  function Where(source: seq<Record>, e: Expr): Result<seq<Record>, Fault>
  {
    if source == [] then Success([])
    else
      match Eval(e, source[0])
      case Failure(f) => Failure(f)
      case Success(keep) =>
        match Where(source[1..], e)
        case Failure(f) => Failure(f)
        case Success(rest) => Success(if keep then [source[0]] + rest else rest)
  }

  /** `Where` fails exactly when the condition throws on some record;
      otherwise it keeps, in order and with their multiplicity, exactly the
      records the condition holds of. */
  lemma WhereSpec(source: seq<Record>, e: Expr)
    ensures Where(source, e).Success? <==> forall i :: 0 <= i < |source| ==> Eval(e, source[i]).Success?
    ensures Where(source, e).Failure? ==> Where(source, e).error.NullFieldValue?
    ensures Where(source, e).Success? ==>
      IsSubsequence(Where(source, e).value, source) &&
      (forall x :: multiset(Where(source, e).value)[x] == if Truth(e, x) then multiset(source)[x] else 0) &&
      (forall x :: x in Where(source, e).value <==> x in source && Truth(e, x))
  {
    WhereFails(source, e);
    if Where(source, e).Success? {
      var rows := Where(source, e).value;
      WhereKeeps(source, e);
      forall x
        ensures x in rows <==> x in source && Truth(e, x)
      {
        assert x in rows <==> multiset(rows)[x] > 0;
        assert x in source <==> multiset(source)[x] > 0;
      }
    }
  }

  lemma {:induction false} WhereFails(source: seq<Record>, e: Expr)
    ensures Where(source, e).Success? <==> forall i :: 0 <= i < |source| ==> Eval(e, source[i]).Success?
    ensures Where(source, e).Failure? ==> Where(source, e).error.NullFieldValue?
    decreases |source|
  {
    if source != [] {
      WhereFails(source[1..], e);
      assert forall i :: 0 < i < |source| ==> source[i] == source[1..][i - 1];
    }
  }

  lemma {:induction false} WhereKeeps(source: seq<Record>, e: Expr)
    requires Where(source, e).Success?
    ensures IsSubsequence(Where(source, e).value, source)
    ensures forall x :: multiset(Where(source, e).value)[x] == if Truth(e, x) then multiset(source)[x] else 0
    decreases |source|
  {
    if source != [] {
      var tail := source[1..];
      assert source == [source[0]] + tail;
      WhereKeeps(tail, e);
      var rows := Where(source, e).value;
      if Truth(e, source[0]) {
        assert rows[1..] == Where(tail, e).value;
      }
    }
  }

  /** The result of either `FilterData` overload, given its list of
      (column, value) entries: a fault when the accumulation throws, the
      empty sequence when it ends null, the enumerated `Where` otherwise. */
  function FilterSpec(schema: Schema, source: seq<Record>, filters: seq<ColumnFilter>): Result<seq<Record>, Fault>
  {
    match Accumulate(schema, source, Active(filters))
    case Failure(f) => Failure(f)
    case Success(None) => Success([])
    case Success(Some(e)) => Where(source, e)
  }

  /** `FirstOrDefault` over a `source.Where(condition)` that has not been
      enumerated: the condition runs on the records in order up to the
      first it holds of, so a record after that one is never read.  The
      result holds that first match, or nothing when there is none. */
  function FirstMatch(source: seq<Record>, e: Expr): (r: Result<seq<Record>, Fault>)
    ensures r.Success? ==> |r.value| <= 1
    ensures r.Success? && r.value != [] ==> r.value[0] in source && Truth(e, r.value[0])
    ensures r.Success? && r.value == [] ==> Where(source, e) == Success([])
    ensures r.Failure? ==> Where(source, e) == r
    ensures Where(source, e).Success? ==>
      r == Success(if Where(source, e).value == [] then [] else [Where(source, e).value[0]])
    decreases |source|
  {
    if source == [] then Success([])
    else
      match Eval(e, source[0])
      case Failure(f) => Failure(f)
      case Success(keep) =>
        if keep then Success([source[0]]) else FirstMatch(source[1..], e)
  }

  /** `CreateExpression` reads its source only through its first element,
      so the fold over the entries gives the same result on any two sources
      that agree there. */
  lemma {:induction false} AccumulateReadsFirst(schema: Schema, s: seq<Record>, t: seq<Record>, a: seq<ColumnFilter>)
    requires (s == []) == (t == [])
    requires s != [] ==> s[0] == t[0]
    ensures Accumulate(schema, s, a) == Accumulate(schema, t, a)
    decreases |a|
  {
    if a != [] {
      AccumulateReadsFirst(schema, s, t, a[..|a| - 1]);
      var c := a[|a| - 1];
      assert CreateExpression(schema, s, c.column, c.value) == CreateExpression(schema, t, c.column, c.value);
    }
  }

  /** Record `x` is selected by the filter entries: some entry yields a
      predicate, and every entry that does has its value contained in
      `x`'s property. */
  predicate Selected(schema: Schema, source: seq<Record>, filters: seq<ColumnFilter>, x: Record)
  {
    (exists c :: c in filters && !Skipped(c.column) && Builds(schema, source, c.column)) &&
    forall c :: c in filters && !Skipped(c.column) && Builds(schema, source, c.column) ==> FieldContains(x, c.column, c.value)
  }

  /** A successful filter returns a subsequence of its source holding
      exactly the selected records, each as often as in the source. */
  lemma FilterKeepsExactlySelected(schema: Schema, source: seq<Record>, filters: seq<ColumnFilter>)
    requires FilterSpec(schema, source, filters).Success?
    ensures IsSubsequence(FilterSpec(schema, source, filters).value, source)
    ensures forall x :: x in FilterSpec(schema, source, filters).value <==> x in source && Selected(schema, source, filters, x)
    ensures forall x ::
      multiset(FilterSpec(schema, source, filters).value)[x] ==
      if Selected(schema, source, filters, x) then multiset(source)[x] else 0
  {
    var a := Active(filters);
    ActiveMembers(filters);
    AccumulateFaults(schema, source, a);
    AccumulateMeaning(schema, source, a);
    forall k | 0 <= k < |a|
      ensures a[k] in filters && !Skipped(a[k].column)
    {
      assert a[k] in a;
    }
    match Accumulate(schema, source, a)
    case Success(None) =>
      forall x
        ensures !Selected(schema, source, filters, x)
      {
        forall c | c in filters && !Skipped(c.column)
          ensures !Builds(schema, source, c.column)
        {
          assert c in a;
          var k :| 0 <= k < |a| && a[k] == c;
        }
      }
      SubsequenceOfEmpty(source);
    case Success(Some(e)) =>
      WhereSpec(source, e);
      var k0 :| 0 <= k0 < |a| && Builds(schema, source, a[k0].column);
      forall x
        ensures Truth(e, x) <==> Selected(schema, source, filters, x)
      {
        if Truth(e, x) {
          forall c | c in filters && !Skipped(c.column) && Builds(schema, source, c.column)
            ensures FieldContains(x, c.column, c.value)
          {
            assert c in a;
            var k :| 0 <= k < |a| && a[k] == c;
          }
        }
      }
  }

  lemma {:induction false} SubsequenceOfEmpty(s: seq<Record>)
    ensures IsSubsequence([], s)
    decreases |s|
  {
    if s != [] {
      SubsequenceOfEmpty(s[1..]);
    }
  }

  /** With no entry yielding a predicate the result is empty, never the
      unfiltered source: in particular when every column is empty or
      numeric, and when the source is empty. */
  lemma NoPredicateNoRows(schema: Schema, source: seq<Record>, filters: seq<ColumnFilter>)
    ensures (forall c :: c in filters ==> Skipped(c.column)) ==> FilterSpec(schema, source, filters) == Success([])
    ensures |source| == 0 ==> FilterSpec(schema, source, filters) == Success([])
    ensures FilterSpec(schema, source, filters).Success? ==>
      (forall c :: c in filters && !Skipped(c.column) ==> !Builds(schema, source, c.column)) ==>
      FilterSpec(schema, source, filters).value == []
  {
    var a := Active(filters);
    ActiveMembers(filters);
    AccumulateFaults(schema, source, a);
    AccumulateMeaning(schema, source, a);
    assert forall k :: 0 <= k < |a| ==> a[k] in a;
    if FilterSpec(schema, source, filters).Success? && FilterSpec(schema, source, filters).value != [] {
      FilterKeepsExactlySelected(schema, source, filters);
      var x := FilterSpec(schema, source, filters).value[0];
      assert Selected(schema, source, filters, x);
    }
  }

  /** The `AndAlso(null, …)` failure: when the first active entry is
      declared but yields no predicate (non-string, or null on the first
      record) and a later one yields a predicate, the call throws.  Once the
      first entry has yielded a predicate no `AndAlso` fault can occur. */
  lemma NullLeftOperandFault(schema: Schema, source: seq<Record>, filters: seq<ColumnFilter>, j: int)
    requires 0 < j < |Active(filters)|
    requires !Builds(schema, source, Active(filters)[0].column)
    requires Builds(schema, source, Active(filters)[j].column)
    ensures FilterSpec(schema, source, filters).Failure?
    ensures FilterSpec(schema, source, filters).error.MissingProperty? ||
      FilterSpec(schema, source, filters).error.NullLeftOperand?
  {
    var a := Active(filters);
    AccumulateFaults(schema, source, a);
    AccumulateMeaning(schema, source, a);
    assert FaultAt(schema, source, a, j);
  }

  lemma FirstBuildsNoNullLeftOperand(schema: Schema, source: seq<Record>, filters: seq<ColumnFilter>)
    requires |Active(filters)| > 0 && Builds(schema, source, Active(filters)[0].column)
    ensures FilterSpec(schema, source, filters).Failure? ==> !FilterSpec(schema, source, filters).error.NullLeftOperand?
  {
    var a := Active(filters);
    AccumulateFaults(schema, source, a);
    AccumulateMeaning(schema, source, a);
    if Accumulate(schema, source, a).Success? && Accumulate(schema, source, a).value.Some? {
      WhereSpec(source, Accumulate(schema, source, a).value.value);
    }
    if Accumulate(schema, source, a).Failure? {
      var k :| 0 <= k < |a| && FaultAt(schema, source, a, k) &&
        Accumulate(schema, source, a).error == FaultOf(schema, source, a, k);
    }
  }

  /** An accumulation that has thrown stays thrown for the rest of the loop. */
  lemma {:induction false} FaultIsFinal(schema: Schema, source: seq<Record>, filters: seq<ColumnFilter>, i: int)
    requires 0 <= i <= |filters|
    requires Accumulate(schema, source, Active(filters[..i])).Failure?
    ensures FilterSpec(schema, source, filters) == Failure(Accumulate(schema, source, Active(filters[..i])).error)
    decreases |filters| - i
  {
    if i == |filters| {
      assert filters[..i] == filters;
    } else {
      ActiveStep(filters, i);
      var a := Active(filters[..i]);
      if Skipped(filters[i].column) {
        assert a + [] == a;
      } else {
        StepAfterFault(schema, source, a, filters[i]);
      }
      FaultIsFinal(schema, source, filters, i + 1);
    }
  }

  lemma StepAfterFault(schema: Schema, src: seq<Record>, a: seq<ColumnFilter>, c: ColumnFilter)
    requires Accumulate(schema, src, a).Failure?
    ensures Accumulate(schema, src, a + [c]) == Accumulate(schema, src, a)
  {
    assert (a + [c])[..|a|] == a;
  }

  /** The entries the global-search overload filters on: every field name
      paired with the one search value. */
  function FieldFilters(fields: seq<string>, value: string): (r: seq<ColumnFilter>)
    ensures |r| == |fields|
    ensures forall i :: 0 <= i < |fields| ==> r[i] == ColumnFilter(fields[i], value)
  {
    seq(|fields|, i requires 0 <= i < |fields| => ColumnFilter(fields[i], value))
  }

  /** The global search keeps a record only when EVERY searched field that
      yields a predicate contains the one search value (a conjunction, not
      "any field matches"), and only when at least one field yields one. */
  lemma GlobalSearchIsConjunction(schema: Schema, source: seq<Record>, fields: seq<string>, value: string)
    requires FilterSpec(schema, source, FieldFilters(fields, value)).Success?
    ensures forall x :: x in FilterSpec(schema, source, FieldFilters(fields, value)).value <==>
      x in source &&
      (exists i :: 0 <= i < |fields| && !Skipped(fields[i]) && Builds(schema, source, fields[i])) &&
      (forall i :: 0 <= i < |fields| && !Skipped(fields[i]) && Builds(schema, source, fields[i]) ==> FieldContains(x, fields[i], value))
  {
    var filters := FieldFilters(fields, value);
    FilterKeepsExactlySelected(schema, source, filters);
    forall c | c in filters
      ensures exists i :: 0 <= i < |fields| && c == ColumnFilter(fields[i], value)
    {
      var i :| 0 <= i < |filters| && filters[i] == c;
    }
    assert forall i :: 0 <= i < |fields| ==> filters[i] in filters;
  }

  /** One non-skipped iteration of either `FilterData` loop, from the state
      `(exp, counter)` reached after the entries before `i`: what the call
      returns when it throws, and otherwise the accumulator it leaves. */
  lemma Advance(schema: Schema, source: seq<Record>, filters: seq<ColumnFilter>, i: int,
                a: seq<ColumnFilter>, exp: Option<Expr>, counter: int)
    requires 0 <= i < |filters| && !Skipped(filters[i].column)
    requires a == Active(filters[..i]) && Accumulate(schema, source, a) == Success(exp) && counter == |a| + 1
    ensures Active(filters[..i + 1]) == a + [filters[i]]
    ensures var e := CreateExpression(schema, source, filters[i].column, filters[i].value);
      && (e.Failure? ==> FilterSpec(schema, source, filters) == Failure(e.error))
      && (e.Success? && (|filters| == 1 || counter == 1) ==> Accumulate(schema, source, a + [filters[i]]) == Success(e.value))
      && (e.Success? && !(|filters| == 1 || counter == 1) && e.value.None? ==>
            Accumulate(schema, source, a + [filters[i]]) == Success(exp))
      && (e.Success? && !(|filters| == 1 || counter == 1) && e.value.Some? && exp.None? ==>
            FilterSpec(schema, source, filters) == Failure(NullLeftOperand(filters[i].column)))
      && (e.Success? && !(|filters| == 1 || counter == 1) && e.value.Some? && exp.Some? ==>
            Accumulate(schema, source, a + [filters[i]]) == Success(Some(AndAlso(exp.value, e.value.value))))
  {
    ActiveStep(filters, i);
    var c := filters[i];
    var e := CreateExpression(schema, source, c.column, c.value);
    if e.Failure? {
      StepFault(schema, source, a, c);
      FaultIsFinal(schema, source, filters, i + 1);
    } else if |filters| == 1 || counter == 1 {
      assert a == [];
      StepFirst(schema, source, c);
    } else if e.value.None? {
      StepNone(schema, source, a, c);
    } else if exp.None? {
      StepNullLeft(schema, source, a, c);
      FaultIsFinal(schema, source, filters, i + 1);
    } else {
      StepAnd(schema, source, a, c, exp.value, e.value.value);
    }
  }

  /** A skipped iteration leaves the active entries as they were. */
  lemma Pass(filters: seq<ColumnFilter>, i: int)
    requires 0 <= i < |filters| && Skipped(filters[i].column)
    ensures Active(filters[..i + 1]) == Active(filters[..i])
  {
    ActiveStep(filters, i);
    assert Active(filters[..i]) + [] == Active(filters[..i]);
  }

  /** After the last entry: a null accumulator gives the empty sequence,
      a condition gives `Where`. */
  lemma Finish(schema: Schema, source: seq<Record>, filters: seq<ColumnFilter>, exp: Option<Expr>)
    requires Accumulate(schema, source, Active(filters[..|filters|])) == Success(exp)
    ensures FilterSpec(schema, source, filters) == if exp.Some? then Where(source, exp.value) else Success([])
  {
    assert filters[..|filters|] == filters;
  }

  /** `FilterData(source, fields, value)`: the global search box. */
  method FilterFields(schema: Schema, source: seq<Record>, fields: seq<string>, value: string)
    returns (r: Result<seq<Record>, Fault>)
    ensures r == FilterSpec(schema, source, FieldFilters(fields, value))
  {
    ghost var filters := FieldFilters(fields, value);
    ghost var a: seq<ColumnFilter> := [];
    var exp: Option<Expr> := None;
    var counter := 1;
    for i := 0 to |fields|
      invariant a == Active(filters[..i])
      invariant Accumulate(schema, source, a) == Success(exp)
      invariant counter == |a| + 1
    {
      var column := fields[i];
      assert filters[i] == ColumnFilter(column, value);
      if column == "" || IsNumericName(column) {
        Pass(filters, i);
        continue;
      }
      Advance(schema, source, filters, i, a, exp, counter);
      var e := CreateExpression(schema, source, column, value);
      if e.Failure? {
        return Failure(e.error);
      }
      if |fields| == 1 {
        exp := e.value;
      } else {
        if counter == 1 {
          exp := e.value;
        } else {
          var newExpression := e.value;
          if newExpression.Some? {
            if exp.None? {
              return Failure(NullLeftOperand(column));
            }
            exp := Some(AndAlso(exp.value, newExpression.value));
          }
        }
      }
      a := a + [filters[i]];
      counter := counter + 1;
    }
    Finish(schema, source, filters, exp);
    if exp.Some? {
      r := Where(source, exp.value);
    } else {
      r := Success([]);
    }
  }

  /** `FilterData(source, columnFilters)`: the per-column search boxes. */
  method FilterColumns(schema: Schema, source: seq<Record>, columnFilters: seq<ColumnFilter>)
    returns (r: Result<seq<Record>, Fault>)
    ensures r == FilterSpec(schema, source, columnFilters)
  {
    ghost var a: seq<ColumnFilter> := [];
    var exp: Option<Expr> := None;
    var counter := 1;
    for i := 0 to |columnFilters|
      invariant a == Active(columnFilters[..i])
      invariant Accumulate(schema, source, a) == Success(exp)
      invariant counter == |a| + 1
    {
      var column := columnFilters[i].column;
      var value := columnFilters[i].value;
      if column == "" || IsNumericName(column) {
        Pass(columnFilters, i);
        continue;
      }
      Advance(schema, source, columnFilters, i, a, exp, counter);
      var e := CreateExpression(schema, source, column, value);
      if e.Failure? {
        return Failure(e.error);
      }
      if |columnFilters| == 1 {
        exp := e.value;
      } else {
        if counter == 1 {
          exp := e.value;
        } else {
          var newExpression := e.value;
          if newExpression.Some? {
            if exp.None? {
              return Failure(NullLeftOperand(column));
            }
            exp := Some(AndAlso(exp.value, newExpression.value));
          }
        }
      }
      a := a + [columnFilters[i]];
      counter := counter + 1;
    }
    Finish(schema, source, columnFilters, exp);
    if exp.Some? {
      r := Where(source, exp.value);
    } else {
      r := Success([]);
    }
  }
}
