/** Records as the search service sees them through reflection, and the
    string and sequence primitives it relies on. */
module Records {

  datatype Option<T> = None | Some(value: T)

  datatype Result<T, E> = Success(value: T) | Failure(error: E)

  /** The declared type of a property, as far as the service tells types
      apart: `String` or anything else. */
  datatype FieldKind = StringKind | OtherKind

  /** The public properties of the record type: name to declared kind.  A
      name that is not a key is not a property of the type. */
  type Schema = map<string, FieldKind>

  /** One record: property name to its value, `None` being a null value.
      Values of non-string properties only matter for being null or not. */
  type Record = map<string, Option<string>>

  /** The value of property `field` on `rec`; an absent key reads as null. */
  function Lookup(rec: Record, field: string): Option<string>
  {
    if field in rec then rec[field] else None
  }

  /** Ordinal, case-sensitive `String.Contains`. */
  function Contains(s: string, sub: string): bool
    decreases |s|
  {
    sub <= s || (s != [] && Contains(s[1..], sub))
  }

  /** `Contains` holds exactly when `sub` occurs at some position of `s`;
      in particular the empty string occurs in every string. */
  lemma {:induction false} ContainsIffOccurs(s: string, sub: string)
    ensures Contains(s, sub) <==> exists i :: 0 <= i <= |s| && sub <= s[i..]
    ensures Contains(s, [])
    decreases |s|
  {
    assert s[0..] == s;
    if sub <= s {
    } else if s == [] {
      forall i | 0 <= i <= |s|
        ensures !(sub <= s[i..])
      {
        assert s[i..] == s;
      }
    } else {
      ContainsIffOccurs(s[1..], sub);
      if Contains(s, sub) {
        var i :| 0 <= i <= |s[1..]| && sub <= s[1..][i..];
        assert s[1..][i..] == s[i + 1..];
      } else {
        forall i | 0 <= i <= |s|
          ensures !(sub <= s[i..])
        {
          if i > 0 {
            assert s[1..][i - 1..] == s[i..];
          }
        }
      }
    }
  }

  /** `r` is `s` with some elements left out, the others kept in order. */
  ghost predicate IsSubsequence<T>(r: seq<T>, s: seq<T>)
    decreases |s|
  {
    if s == [] then r == []
    else (r != [] && r[0] == s[0] && IsSubsequence(r[1..], s[1..])) || IsSubsequence(r, s[1..])
  }

  lemma {:induction false} SubsequenceMembers<T>(r: seq<T>, s: seq<T>)
    requires IsSubsequence(r, s)
    ensures |r| <= |s|
    ensures forall x :: x in r ==> x in s
    decreases |s|
  {
    if s != [] {
      if r != [] && r[0] == s[0] && IsSubsequence(r[1..], s[1..]) {
        SubsequenceMembers(r[1..], s[1..]);
        assert r == [r[0]] + r[1..];
      } else {
        SubsequenceMembers(r, s[1..]);
      }
    }
  }

  lemma {:induction false} SubsequenceTransitive<T>(a: seq<T>, b: seq<T>, c: seq<T>)
    requires IsSubsequence(a, b) && IsSubsequence(b, c)
    ensures IsSubsequence(a, c)
    decreases |c|
  {
    if c == [] {
      assert b == [];
    } else if b != [] && b[0] == c[0] && IsSubsequence(b[1..], c[1..]) {
      if a != [] && a[0] == b[0] && IsSubsequence(a[1..], b[1..]) {
        SubsequenceTransitive(a[1..], b[1..], c[1..]);
      } else {
        SubsequenceTransitive(a, b[1..], c[1..]);
      }
    } else {
      SubsequenceTransitive(a, b, c[1..]);
    }
  }

  lemma {:induction false} SubsequenceReflexive<T>(s: seq<T>)
    ensures IsSubsequence(s, s)
    decreases |s|
  {
    if s != [] {
      SubsequenceReflexive(s[1..]);
    }
  }

  predicate IsDigit(c: char)
  {
    '0' <= c <= '9'
  }

  /** Whether a column name would parse as a number.  Stands in for
      `Double.TryParse(name, NumberStyles.Any, InvariantInfo)`: an optional
      sign, then digits with at most one decimal point, at least one digit. */
  function IsNumericName(name: string): (r: bool)
    ensures r ==> exists i :: 0 <= i < |name| && IsDigit(name[i])
  {
    var body := if |name| > 0 && (name[0] == '+' || name[0] == '-') then name[1..] else name;
    if DigitsAndPoint(body, false) && (exists i :: 0 <= i < |body| && IsDigit(body[i])) then
      var i :| 0 <= i < |body| && IsDigit(body[i]);
      assert body == name || body[i] == name[i + 1];
      true
    else
      false
  }

  /** Every character of `s` is a digit or a decimal point, and there is at
      most one decimal point (none if `seenPoint`). */
  predicate DigitsAndPoint(s: string, seenPoint: bool)
    decreases |s|
  {
    s == [] ||
    (IsDigit(s[0]) && DigitsAndPoint(s[1..], seenPoint)) ||
    (s[0] == '.' && !seenPoint && DigitsAndPoint(s[1..], true))
  }
}
