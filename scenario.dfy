/**
 A worked example: what the pipeline gives on three patients, one of whom
 has an overflowed admission date and an elective admission.
 */
module Scenario {
  import opened Optional
  import opened Records
  import opened Counting
  import opened Preprocess
  import opened Filtering
  import opened Metrics
  import opened Aggregates

  /** A parser that knows two dates and nothing else. */
  function ParseCell(text: Option<string>): Option<Date>
  {
    if text == Some("2023-01-05") then Some(Date(2023, 1, 5))
    else if text == Some("2023-02-10") then Some(Date(2023, 2, 10))
    else None
  }

  function Parser(): DateParser
  {
    texts => seq(|texts|, i requires 0 <= i < |texts| => ParseCell(texts[i]))
  }

  function Patients(): Upload
  {
    Upload([
      RawRow(Some(40), Some("M"), Some("Emergency"), Some("Flu"), Some("2023-01-05"), Some(100.0)),
      RawRow(Some(70), Some("F"), Some("Emergency"), Some("Flu"), Some("2023-02-10"), Some(300.0)),
      RawRow(Some(20), Some("M"), Some("Elective"), Some("Asthma"), Some(Overflow), None)
    ], true)
  }

  function Selection(): Criteria
  {
    Criteria(18, 99, {"M", "F"}, {"Emergency"})
  }

  /** The preprocessed table, written out. */
  function Prepared(): seq<Row>
  {
    [
      Row(Some(40), Some("M"), Some("Emergency"), Some("Flu"), Some("2023-01-05"),
          Some(Date(2023, 1, 5)), Some(YearMonth(2023, 1)), Some("Flu"), Some(100.0)),
      Row(Some(70), Some("F"), Some("Emergency"), Some("Flu"), Some("2023-02-10"),
          Some(Date(2023, 2, 10)), Some(YearMonth(2023, 2)), Some("Flu"), Some(300.0)),
      Row(Some(20), Some("M"), Some("Elective"), Some("Asthma"), None,
          None, None, Some("Asthma"), None)
    ]
  }

  lemma ScenarioTexts()
    ensures DateTexts(Patients().rows) == [Some("2023-01-05"), Some("2023-02-10"), None]
  {
    assert "2023-01-05" != Overflow && "2023-02-10" != Overflow;
  }

  lemma ScenarioDates()
    ensures Parser()([Some("2023-01-05"), Some("2023-02-10"), None])
         == [Some(Date(2023, 1, 5)), Some(Date(2023, 2, 10)), None]
  {
    assert "2023-02-10"[6] != "2023-01-05"[6];
  }

  /*
   The lemmas about the example take the upload as a parameter equal to it,
   so that the verifier unfolds the pipeline's functions only as far as the
   proof asks.
   */

  /** Row by row: the overflowed date is blanked and gets no month; the other two get theirs. */
  lemma PreparedRow(upload: Upload, i: int)
    requires upload == Patients() && 0 <= i < 3
    ensures |Derive(upload, Parser())| == 3
    ensures Derive(upload, Parser())[i] == Prepared()[i]
  {
    ScenarioTexts();
    ScenarioDates();
    var rows := Derive(upload, Parser());
    if i == 0 {
      assert rows[0].admissionDate == Some(Date(2023, 1, 5));
      assert rows[0].month == Some(YearMonth(2023, 1));
    } else if i == 1 {
      assert rows[1].admissionDate == Some(Date(2023, 2, 10));
      assert rows[1].month == Some(YearMonth(2023, 2));
    } else {
      assert rows[2].admissionDate == None;
    }
  }

  lemma PreparedRows(upload: Upload)
    requires upload == Patients()
    ensures Derive(upload, Parser()) == Prepared()
  {
    var rows, expected := Derive(upload, Parser()), Prepared();
    forall i | 0 <= i < 3 ensures |rows| == 3 && rows[i] == expected[i] {
      PreparedRow(upload, i);
    }
    assert |rows| == |expected|;
  }

  /** The elective admission is filtered out. */
  lemma FilteredRows()
    ensures Filter(Prepared(), Selection()) == Prepared()[..2]
  {
    var rows, keep := Prepared(), Keeper(Selection());
    assert rows[1..][1..] == [rows[2]];
    assert Select([rows[2]], keep) == [];
    assert Select(rows[1..], keep) == [rows[1]];
  }

  lemma ScenarioMetrics()
    ensures Summarize(Prepared()[..2]) == Summary(2, Some(200.0))
  {
    var view := Prepared()[..2];
    var column := BillingColumn(view);
    assert column == [Some(100.0), Some(300.0)];
    assert column[1..][1..] == [];
    assert Present(column) == [100.0, 300.0];
    assert Sum([100.0, 300.0]) == 400.0;
  }

  lemma ScenarioDiagnoses(view: seq<Row>)
    requires view == Prepared()[..2]
    ensures DiagnosisFrequency(view) == [("Flu", 2)]
  {
    var table := DiagnosisFrequency(view);
    var column := DiagnosisColumn(view);
    assert column == [Some("Flu"), Some("Flu")];
    assert column[1..][1..] == [];
    assert RowsWithDiagnosis(view, "Flu") == 2;
    assert ShowsDiagnosisChart(view) by {
      assert view[0].diagnosis.Some?;
    }
    forall i | 0 <= i < |table| ensures table[i].0 == "Flu" {
      assert Some(table[i].0) in column;
    }
  }

  lemma ScenarioMonths(view: seq<Row>)
    requires view == Prepared()[..2]
    ensures MonthlyAdmissions(view) == [(YearMonth(2023, 1), 1), (YearMonth(2023, 2), 1)]
  {
    var january, february := YearMonth(2023, 1), YearMonth(2023, 2);
    var column := MonthColumn(view);
    assert column == [Some(january), Some(february)];
    assert column[1..] == [Some(february)] && column[1..][1..] == [];
    var months := Present(column);
    assert months == [january, february];
    assert months[1..] == [february] && months[1..][1..] == [];
    assert SortedMonths([february]) == [february];
    assert SortedMonths(months) == [january, february];
    assert Occurrences(months, january) == 1 && Occurrences(months, february) == 1;
    assert [january, february][1..] == [february];
    assert Tabulate([january, february], months) == [(january, 1), (february, 1)];
  }

  /**
   The whole pipeline on the example: two patients remain, their average
   bill is 200, both have the flu, and one was admitted in each of January
   and February 2023.
   */
  lemma Walkthrough(upload: Upload)
    requires upload == Patients()
    ensures var view := Filter(Derive(upload, Parser()), Selection());
      && Summarize(view) == Summary(2, Some(200.0))
      && DiagnosisFrequency(view) == [("Flu", 2)]
      && MonthlyAdmissions(view) == [(YearMonth(2023, 1), 1), (YearMonth(2023, 2), 1)]
  {
    PreparedRows(upload);
    FilteredRows();
    ScenarioMetrics();
    ScenarioDiagnoses(Prepared()[..2]);
    ScenarioMonths(Prepared()[..2]);
  }
}
