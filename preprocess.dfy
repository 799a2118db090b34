/**
 The preprocessing of the uploaded table (health.py, lines 16 to 23): the
 overflow text in 'Date of Admission' becomes missing, the dates are parsed
 with errors coerced to missing, a monthly period is derived from them, and
 'Diagnosis' is a copy of 'Medical Condition'.
 */
module Preprocess {
  import opened Optional
  import opened Records

  /** The text a spreadsheet writes into a date cell too narrow for its value. */
  const Overflow: string := "########"

  /**
   pandas' `to_datetime(column, errors='coerce')`: a whole column of texts in,
   a column of dates out, where a text that does not parse gives a missing
   date instead of an error. It works on the whole column because pandas
   infers one date format for the column.
   */
  type DateParser = seq<Option<string>> -> seq<Option<Date>>

  /** `replace('########', np.nan)` on one cell. */
  function Blank(text: Option<string>): Option<string>
  {
    if text == Some(Overflow) then None else text
  }

  /** The 'Date of Admission' column after the overflow text is blanked. */
  function DateTexts(rows: seq<RawRow>): (texts: seq<Option<string>>)
    ensures |texts| == |rows|
  {
    seq(|rows|, i requires 0 <= i < |rows| => Blank(rows[i].dateOfAdmission))
  }

  /** Row `i` of the parsed column; a missing text always parses to a missing date. */
  function ParsedAt(texts: seq<Option<string>>, parsed: seq<Option<Date>>, i: int): Option<Date>
    requires 0 <= i < |texts|
  {
    if texts[i].None? || i >= |parsed| then None else parsed[i]
  }

  /** The columns that preprocessing copies from the raw row unchanged. */
  predicate Carries(raw: RawRow, row: Row)
  {
    && row.age == raw.age
    && row.gender == raw.gender
    && row.admissionType == raw.admissionType
    && row.medicalCondition == raw.medicalCondition
    && row.billingAmount == raw.billingAmount
  }

  /**
   The preprocessed table. Each row keeps its raw columns; its admission text
   loses the overflow marker; its admission date is what the parser made of
   that text (missing when there was none); its month is the month of that
   date, so missing exactly when the date is (health.py falls back to an
   all-missing column when no date parsed, which is the same thing); and its
   diagnosis is its medical condition, or missing when the upload has no such
   column.
   */
  function Derive(upload: Upload, parse: DateParser): (rows: seq<Row>)
    ensures |rows| == |upload.rows|
    ensures forall i :: 0 <= i < |rows| ==> Carries(upload.rows[i], rows[i])
    ensures forall i :: 0 <= i < |rows| ==>
      rows[i].dateOfAdmission == if upload.rows[i].dateOfAdmission == Some(Overflow) then None else upload.rows[i].dateOfAdmission
    ensures forall i :: 0 <= i < |rows| && upload.rows[i].dateOfAdmission == Some(Overflow) ==>
      rows[i].admissionDate.None? && rows[i].month.None?
    ensures forall i :: 0 <= i < |rows| ==>
      rows[i].admissionDate == ParsedAt(DateTexts(upload.rows), parse(DateTexts(upload.rows)), i)
    ensures forall i :: 0 <= i < |rows| ==>
      (rows[i].month.Some? <==> rows[i].admissionDate.Some?) &&
      (rows[i].month.Some? ==> rows[i].month.value.year == rows[i].admissionDate.value.year
                               && rows[i].month.value.month == rows[i].admissionDate.value.month)
    ensures (forall i :: 0 <= i < |rows| ==> rows[i].admissionDate.None?) ==>
      forall i :: 0 <= i < |rows| ==> rows[i].month.None?
    ensures forall i :: 0 <= i < |rows| ==>
      rows[i].diagnosis == if upload.hasMedicalCondition then upload.rows[i].medicalCondition else None
  {
    var texts := DateTexts(upload.rows);
    var parsed := parse(texts);
    var dates := seq(|texts|, i requires 0 <= i < |texts| => ParsedAt(texts, parsed, i));
    var anyDate := exists i | 0 <= i < |dates| :: dates[i].Some?;
    seq(|upload.rows|, i requires 0 <= i < |upload.rows| =>
      var raw := upload.rows[i];
      Row(raw.age, raw.gender, raw.admissionType, raw.medicalCondition,
          texts[i],
          dates[i],
          if anyDate then PeriodOf(dates[i]) else None,
          if upload.hasMedicalCondition then raw.medicalCondition else None,
          raw.billingAmount))
  }

}
