/**
 The rows of the uploaded healthcare table, before and after the
 preprocessing of health.py. Every cell the dashboard reads may be missing.
 */
module Records {
  import opened Optional

  /** A calendar date as produced by the date parser. */
  datatype Date = Date(year: int, month: int, day: int)

  /** A calendar month, the value of a pandas monthly period. */
  datatype YearMonth = YearMonth(year: int, month: int)

  /** The month a date falls in (`to_period('M')`); a missing date has no month. */
  function PeriodOf(d: Option<Date>): Option<YearMonth>
  {
    match d
    case None => None
    case Some(date) => Some(YearMonth(date.year, date.month))
  }

  /** Chronological order on months: by year, then by month. */
  predicate Before(a: YearMonth, b: YearMonth)
  {
    a.year < b.year || (a.year == b.year && a.month < b.month)
  }

  /** One row of the CSV file as read, with the columns the dashboard uses. */
  datatype RawRow = RawRow(
    age: Option<int>,
    gender: Option<string>,
    admissionType: Option<string>,
    medicalCondition: Option<string>,
    dateOfAdmission: Option<string>,
    billingAmount: Option<real>)

  /**
   The uploaded table. The 'Medical Condition' column is optional; when it
   is absent the cells in `medicalCondition` stand for nothing.
   */
  datatype Upload = Upload(rows: seq<RawRow>, hasMedicalCondition: bool)

  /** One row after preprocessing: the raw columns plus the derived ones. */
  datatype Row = Row(
    age: Option<int>,
    gender: Option<string>,
    admissionType: Option<string>,
    medicalCondition: Option<string>,
    dateOfAdmission: Option<string>,
    admissionDate: Option<Date>,
    month: Option<YearMonth>,
    diagnosis: Option<string>,
    billingAmount: Option<real>)

}
