/**
 The key metrics of the sidebar (health.py, lines 43 to 45): the number of
 filtered patients and their average billing amount.
 */
module Metrics {
  import opened Optional
  import opened Records
  import opened Counting

  /** What the two metric widgets show; a missing average is shown as "N/A". */
  datatype Summary = Summary(patientCount: nat, averageBilling: Option<real>)

  function BillingColumn(view: seq<Row>): seq<Option<real>>
  {
    seq(|view|, i requires 0 <= i < |view| => view[i].billingAmount)
  }

  function Sum(xs: seq<real>): real
  {
    if xs == [] then 0.0 else xs[0] + Sum(xs[1..])
  }

  /** The arithmetic mean, missing for an empty column (where pandas gives NaN). */
  function Mean(xs: seq<real>): (m: Option<real>)
    ensures m.None? <==> xs == []
    ensures m.Some? ==> m.value * (|xs| as real) == Sum(xs)
  {
    if xs == [] then None else Some(Sum(xs) / (|xs| as real))
  }

  /**
   `len(filtered_data)` and `filtered_data['Billing Amount'].mean()`, which
   skips missing amounts: the mean of the present amounts, and missing
   exactly when the view has no present amount (an empty view included).
   */
  function Summarize(view: seq<Row>): (s: Summary)
    ensures s.patientCount == |view|
    ensures s.averageBilling.None? <==> forall i :: 0 <= i < |view| ==> view[i].billingAmount.None?
    ensures s.averageBilling.Some? ==>
      var amounts := Present(BillingColumn(view));
      amounts != [] && s.averageBilling.value == Sum(amounts) / (|amounts| as real)
  {
    PresentBillings(view);
    Summary(|view|, Mean(Present(BillingColumn(view))))
  }

  lemma PresentBillings(view: seq<Row>)
    ensures forall b :: b in Present(BillingColumn(view)) <==> exists i :: 0 <= i < |view| && view[i].billingAmount == Some(b)
    ensures Present(BillingColumn(view)) == [] <==> forall i :: 0 <= i < |view| ==> view[i].billingAmount.None?
  {
    var column := BillingColumn(view);
    PresentCells(column);
    assert forall i :: 0 <= i < |view| ==> column[i] == view[i].billingAmount;
  }

  lemma {:induction false} SumAtLeast(xs: seq<real>, lo: real)
    requires forall i :: 0 <= i < |xs| ==> lo <= xs[i]
    ensures lo * (|xs| as real) <= Sum(xs)
  {
    if xs != [] {
      SumAtLeast(xs[1..], lo);
    }
  }

  lemma {:induction false} SumAtMost(xs: seq<real>, hi: real)
    requires forall i :: 0 <= i < |xs| ==> xs[i] <= hi
    ensures Sum(xs) <= hi * (|xs| as real)
  {
    if xs != [] {
      SumAtMost(xs[1..], hi);
    }
  }

  /** The mean of a non-empty column lies between any bounds of its values. */
  lemma MeanWithinBounds(xs: seq<real>, lo: real, hi: real)
    requires xs != []
    requires forall i :: 0 <= i < |xs| ==> lo <= xs[i] <= hi
    ensures lo <= Sum(xs) / (|xs| as real) <= hi
  {
    SumAtLeast(xs, lo);
    SumAtMost(xs, hi);
    var total, n := Sum(xs), |xs| as real;
    var m := total / n;
    assert m * n == total;
    assert lo * n <= m * n <= hi * n;
  }

  /**
   The average billing lies between any bounds of the billing amounts of
   the view, so in particular between the least and the greatest present
   amount.
   */
  lemma AverageWithinBounds(view: seq<Row>, lo: real, hi: real)
    requires forall i :: 0 <= i < |view| && view[i].billingAmount.Some? ==> lo <= view[i].billingAmount.value <= hi
    ensures Summarize(view).averageBilling.Some? ==> lo <= Summarize(view).averageBilling.value <= hi
  {
    var amounts := Present(BillingColumn(view));
    PresentBillings(view);
    if amounts != [] {
      forall j | 0 <= j < |amounts| ensures lo <= amounts[j] <= hi {
        assert amounts[j] in amounts;
        var i :| 0 <= i < |view| && view[i].billingAmount == Some(amounts[j]);
      }
      MeanWithinBounds(amounts, lo, hi);
    }
  }

}
