/**
 The sidebar filter of health.py (lines 27 to 39): the default selection
 built from the table, and the boolean mask that selects rows by age range,
 gender and admission type.
 */
module Filtering {
  import opened Optional
  import opened Records
  import opened Counting

  /** `s` is `t` with some elements left out, the rest in their order. */
  predicate IsSubsequence<T(==)>(s: seq<T>, t: seq<T>)
    decreases |t|
  {
    if s == [] then true
    else if t == [] then false
    else (s[0] == t[0] && IsSubsequence(s[1..], t[1..])) || IsSubsequence(s, t[1..])
  }

  /** The elements of `xs` that satisfy `keep`, in their order (a boolean mask). */
  function Select<T(==,!new)>(xs: seq<T>, keep: T -> bool): (r: seq<T>)
    ensures |r| <= |xs|
    ensures forall i :: 0 <= i < |r| ==> keep(r[i])
    ensures forall x :: x in r <==> x in xs && keep(x)
    ensures IsSubsequence(r, xs)
  {
    if xs == [] then []
    else if keep(xs[0]) then
      var rest := Select(xs[1..], keep);
      assert ([xs[0]] + rest)[1..] == rest;
      [xs[0]] + rest
    else Select(xs[1..], keep)
  }

  /** No subsequence of `xs` whose elements all satisfy `keep` is longer than `Select`'s. */
  lemma {:induction false} SelectIsLongest<T(!new)>(xs: seq<T>, keep: T -> bool, s: seq<T>)
    requires IsSubsequence(s, xs)
    requires forall i :: 0 <= i < |s| ==> keep(s[i])
    ensures |s| <= |Select(xs, keep)|
  {
    if s != [] {
      if IsSubsequence(s, xs[1..]) {
        SelectIsLongest(xs[1..], keep, s);
      } else {
        assert s[0] == xs[0] && IsSubsequence(s[1..], xs[1..]);
        SelectIsLongest(xs[1..], keep, s[1..]);
      }
    }
  }

  /**
   `Select` is the only subsequence of `xs` of its length whose elements all
   satisfy `keep`: the mask keeps every such element and nothing else.
   */
  lemma {:induction false} SelectIsUnique<T(!new)>(xs: seq<T>, keep: T -> bool, s: seq<T>)
    requires IsSubsequence(s, xs)
    requires forall i :: 0 <= i < |s| ==> keep(s[i])
    requires |s| >= |Select(xs, keep)|
    ensures s == Select(xs, keep)
  {
    if xs == [] {
    } else if keep(xs[0]) {
      if IsSubsequence(s, xs[1..]) {
        SelectIsLongest(xs[1..], keep, s);
        assert false;
      }
      assert s[0] == xs[0] && IsSubsequence(s[1..], xs[1..]);
      SelectIsUnique(xs[1..], keep, s[1..]);
      assert s == [s[0]] + s[1..];
    } else {
      assert s == [] || IsSubsequence(s, xs[1..]);
      SelectIsUnique(xs[1..], keep, s);
    }
  }

  lemma {:induction false} SelectIdempotent<T(!new)>(xs: seq<T>, keep: T -> bool)
    ensures Select(Select(xs, keep), keep) == Select(xs, keep)
  {
    if xs != [] {
      SelectIdempotent(xs[1..], keep);
      if keep(xs[0]) {
        var rest := Select(xs[1..], keep);
        assert ([xs[0]] + rest)[1..] == rest;
      }
    }
  }

  /** Two masks that agree on every element of `xs` select the same rows. */
  lemma {:induction false} SelectAgreeing<T(!new)>(xs: seq<T>, p: T -> bool, q: T -> bool)
    requires forall x :: x in xs ==> p(x) == q(x)
    ensures Select(xs, p) == Select(xs, q)
  {
    if xs != [] {
      assert forall x :: x in xs[1..] ==> x in xs;
      SelectAgreeing(xs[1..], p, q);
    }
  }

  /** The sidebar selection: an inclusive age range and the selected genders and admission types. */
  datatype Criteria = Criteria(ageMin: int, ageMax: int, genders: set<string>, admissionTypes: set<string>)

  /**
   The mask of health.py, lines 36 to 38. A missing cell never matches: a
   NaN age fails both comparisons and `isin` is false for NaN.
   */
  predicate Matches(c: Criteria, row: Row)
  {
    && row.age.Some? && c.ageMin <= row.age.value <= c.ageMax
    && row.gender.Some? && row.gender.value in c.genders
    && row.admissionType.Some? && row.admissionType.value in c.admissionTypes
  }

  /** The three filtered columns are all present. */
  predicate Complete(row: Row)
  {
    row.age.Some? && row.gender.Some? && row.admissionType.Some?
  }

  function Keeper(c: Criteria): Row -> bool
  {
    row => Matches(c, row)
  }

  /** `filtered_data`: the rows that match the selection, in table order. */
  function Filter(rows: seq<Row>, c: Criteria): (view: seq<Row>)
    ensures forall i :: 0 <= i < |view| ==> Matches(c, view[i]) && Complete(view[i])
    ensures forall row :: row in view <==> row in rows && Matches(c, row)
    ensures IsSubsequence(view, rows)
  {
    Select(rows, Keeper(c))
  }

  /**
   The filter keeps every matching row: any order-preserving selection of
   matching rows at least as long as the filtered view is the filtered view.
   */
  lemma FilterIsExact(rows: seq<Row>, c: Criteria, s: seq<Row>)
    requires IsSubsequence(s, rows)
    requires forall i :: 0 <= i < |s| ==> Matches(c, s[i])
    requires |s| >= |Filter(rows, c)|
    ensures s == Filter(rows, c)
  {
    SelectIsUnique(rows, Keeper(c), s);
  }

  lemma FilterIdempotent(rows: seq<Row>, c: Criteria)
    ensures Filter(Filter(rows, c), c) == Filter(rows, c)
  {
    SelectIdempotent(rows, Keeper(c));
  }

  function AgeColumn(rows: seq<Row>): seq<Option<int>>
  {
    seq(|rows|, i requires 0 <= i < |rows| => rows[i].age)
  }

  /** The least value of a column without missing cells (`min` skipping NaN). */
  function Min(xs: seq<int>): (m: Option<int>)
    ensures m.None? <==> xs == []
    ensures m.Some? ==> m.value in xs && forall x :: x in xs ==> m.value <= x
  {
    if xs == [] then None
    else
      assert xs == [xs[0]] + xs[1..];
      match Min(xs[1..])
      case None => Some(xs[0])
      case Some(rest) => Some(if xs[0] <= rest then xs[0] else rest)
  }

  /** The greatest value of a column without missing cells (`max` skipping NaN). */
  function Max(xs: seq<int>): (m: Option<int>)
    ensures m.None? <==> xs == []
    ensures m.Some? ==> m.value in xs && forall x :: x in xs ==> x <= m.value
  {
    if xs == [] then None
    else
      assert xs == [xs[0]] + xs[1..];
      match Max(xs[1..])
      case None => Some(xs[0])
      case Some(rest) => Some(if xs[0] >= rest then xs[0] else rest)
  }

  /** The ages `min` and `max` range over are those of the rows that have one. */
  lemma PresentAges(rows: seq<Row>)
    ensures forall a :: a in Present(AgeColumn(rows)) <==> exists i :: 0 <= i < |rows| && rows[i].age == Some(a)
    ensures Present(AgeColumn(rows)) == [] <==> forall i :: 0 <= i < |rows| ==> rows[i].age.None?
  {
    var column := AgeColumn(rows);
    PresentCells(column);
    assert forall i :: 0 <= i < |rows| ==> column[i] == rows[i].age;
  }

  /**
   The selection the sidebar starts with (health.py, lines 27 to 32): the
   full age range and every observed gender and admission type. With no age
   present `int(data['Age'].min())` raises, which is `None` here.
   */
  function DefaultCriteria(rows: seq<Row>): (c: Option<Criteria>)
    ensures c.None? <==> forall i :: 0 <= i < |rows| ==> rows[i].age.None?
    ensures c.Some? ==>
      (exists i :: 0 <= i < |rows| && rows[i].age == Some(c.value.ageMin)) &&
      (exists i :: 0 <= i < |rows| && rows[i].age == Some(c.value.ageMax))
    ensures c.Some? ==> forall i :: 0 <= i < |rows| && rows[i].age.Some? ==>
      c.value.ageMin <= rows[i].age.value <= c.value.ageMax
    ensures c.Some? ==> forall g :: g in c.value.genders <==> exists i :: 0 <= i < |rows| && rows[i].gender == Some(g)
    ensures c.Some? ==> forall t :: t in c.value.admissionTypes <==> exists i :: 0 <= i < |rows| && rows[i].admissionType == Some(t)
    ensures c.Some? ==> forall i :: 0 <= i < |rows| ==> (Matches(c.value, rows[i]) <==> Complete(rows[i]))
  {
    var ages := Present(AgeColumn(rows));
    PresentAges(rows);
    if ages == [] then None
    else
      var lo, hi := Min(ages).value, Max(ages).value;
      var genders := set i | 0 <= i < |rows| && rows[i].gender.Some? :: rows[i].gender.value;
      var types := set i | 0 <= i < |rows| && rows[i].admissionType.Some? :: rows[i].admissionType.value;
      Some(Criteria(lo, hi, genders, types))
  }

  /**
   With the default selection the filter drops exactly the rows missing an
   age, a gender or an admission type.
   */
  lemma DefaultFilterKeepsCompleteRows(rows: seq<Row>, c: Criteria)
    requires DefaultCriteria(rows) == Some(c)
    ensures Filter(rows, c) == Select(rows, Complete)
  {
    forall row | row in rows ensures Keeper(c)(row) == Complete(row) {
      var i :| 0 <= i < |rows| && rows[i] == row;
    }
    SelectAgreeing(rows, Keeper(c), Complete);
  }

}
