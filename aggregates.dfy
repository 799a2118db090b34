/**
 The two charts of the dashboard: diagnosis frequency (health.py, lines 53
 to 59) and monthly admissions (lines 64 to 71), each with the condition
 under which a placeholder message is shown instead.
 */
module Aggregates {
  import opened Optional
  import opened Records
  import opened Counting

  function DiagnosisColumn(view: seq<Row>): seq<Option<string>>
  {
    seq(|view|, i requires 0 <= i < |view| => view[i].diagnosis)
  }

  function MonthColumn(view: seq<Row>): seq<Option<YearMonth>>
  {
    seq(|view|, i requires 0 <= i < |view| => view[i].month)
  }

  /** The number of rows of the view with diagnosis `d`. */
  function RowsWithDiagnosis(view: seq<Row>, d: string): nat
  {
    Occurrences(DiagnosisColumn(view), Some(d))
  }

  /** The number of rows of the view admitted in month `m`. */
  function RowsInMonth(view: seq<Row>, m: YearMonth): nat
  {
    Occurrences(MonthColumn(view), Some(m))
  }

  /** Line 53: the 'Diagnosis' column is not all missing, so the bar chart is drawn. */
  predicate ShowsDiagnosisChart(view: seq<Row>)
  {
    exists i :: 0 <= i < |view| && view[i].diagnosis.Some?
  }

  /** Line 64: some 'Month' is present, so the line chart is drawn. */
  predicate ShowsMonthlyChart(view: seq<Row>)
  {
    exists i :: 0 <= i < |view| && view[i].month.Some?
  }

  /**
   `filtered_data['Diagnosis'].value_counts()`: every present diagnosis once,
   with the number of rows that have it, most frequent first; the counts add
   up to the number of rows with a diagnosis, and the table is empty exactly
   when the "no diagnosis data" message is shown instead.
   */
  function DiagnosisFrequency(view: seq<Row>): (table: seq<(string, nat)>)
    ensures forall i, j :: 0 <= i < j < |table| ==> table[i].0 != table[j].0
    ensures forall d :: RowsWithDiagnosis(view, d) > 0 <==> exists i :: 0 <= i < |table| && table[i].0 == d
    ensures forall i :: 0 <= i < |table| ==> table[i].1 == RowsWithDiagnosis(view, table[i].0) > 0
    ensures forall i, j :: 0 <= i < j < |table| ==> table[i].1 >= table[j].1
    ensures Total(table) == |view| - Occurrences(DiagnosisColumn(view), None)
    ensures table == [] <==> !ShowsDiagnosisChart(view)
  {
    var column := DiagnosisColumn(view);
    PresentCells(column);
    assert forall i :: 0 <= i < |view| ==> column[i] == view[i].diagnosis;
    ValueCounts(Present(column))
  }

  /** Months strictly increase along `s`. */
  predicate Ascending(s: seq<YearMonth>)
  {
    forall i, j :: 0 <= i < j < |s| ==> Before(s[i], s[j])
  }

  /** Inserts `m` into an ascending list of months unless it is already there. */
  function InsertMonth(m: YearMonth, s: seq<YearMonth>): (r: seq<YearMonth>)
    requires Ascending(s)
    ensures Ascending(r)
    ensures forall x :: x in r <==> x == m || x in s
  {
    if s == [] then [m]
    else if m == s[0] then s
    else if Before(m, s[0]) then [m] + s
    else
      var head, rest := s[0], InsertMonth(m, s[1..]);
      assert forall j :: 0 <= j < |rest| ==> rest[j] == m || rest[j] in s[1..];
      [head] + rest
  }

  /** The distinct months of `ms`, in chronological order (the sorted group keys). */
  function SortedMonths(ms: seq<YearMonth>): (r: seq<YearMonth>)
    ensures Ascending(r)
    ensures forall x :: x in r <==> x in ms
  {
    if ms == [] then [] else InsertMonth(ms[0], SortedMonths(ms[1..]))
  }

  /**
   `filtered_data.groupby('Month').size()`: the months that occur, in
   chronological order and each once, with the number of rows admitted in
   that month; rows without a month form no group. The counts add up to the
   number of rows with a month, and the table is empty exactly when the
   "admission date data is missing" message is shown instead.
   */
  function MonthlyAdmissions(view: seq<Row>): (table: seq<(YearMonth, nat)>)
    ensures forall i, j :: 0 <= i < j < |table| ==> Before(table[i].0, table[j].0)
    ensures forall m :: RowsInMonth(view, m) > 0 <==> exists i :: 0 <= i < |table| && table[i].0 == m
    ensures forall i :: 0 <= i < |table| ==> table[i].1 == RowsInMonth(view, table[i].0) > 0
    ensures Total(table) == |view| - Occurrences(MonthColumn(view), None)
    ensures table == [] <==> !ShowsMonthlyChart(view)
  {
    var column := MonthColumn(view);
    PresentCells(column);
    assert forall i :: 0 <= i < |view| ==> column[i] == view[i].month;
    var months := Present(column);
    var keys := SortedMonths(months);
    MonthTable(keys, months);
    Tabulate(keys, months)
  }

  lemma MonthTable(keys: seq<YearMonth>, months: seq<YearMonth>)
    requires Ascending(keys)
    requires forall x :: x in keys <==> x in months
    ensures var table := Tabulate(keys, months);
      && (forall i, j :: 0 <= i < j < |table| ==> Before(table[i].0, table[j].0))
      && (forall m :: m in months <==> exists i :: 0 <= i < |table| && table[i].0 == m)
      && (forall i :: 0 <= i < |table| ==> table[i].1 == Occurrences(months, table[i].0) > 0)
      && Total(table) == |months|
  {
    var table := Tabulate(keys, months);
    assert NoDuplicates(keys);
    TotalOfTabulate(keys, months);
    forall m | m in months ensures exists i :: 0 <= i < |table| && table[i].0 == m {
      var i :| 0 <= i < |keys| && keys[i] == m;
      assert table[i].0 == m;
    }
  }

}
