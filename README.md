# Healthcare dashboard pipeline, modelled in Dafny

`health.py` is a Streamlit dashboard. A user uploads a CSV file of patient
records, picks an age range, genders and admission types in the sidebar,
and sees the number of patients, their average bill, a bar chart of
diagnosis frequencies and a line chart of admissions per month. This
project models the record pipeline behind those views:

- **Preprocessing** (`Preprocess.Derive`). The overflow text `########` in
  'Date of Admission' becomes missing. The column is parsed with errors
  coerced to missing. Each row gets the month of its date, and 'Diagnosis'
  copies 'Medical Condition' (all missing when the upload lacks that column).
- **Default selection and filter** (`Filtering`). The default selection
  is the full observed age range and every observed gender and admission
  type. The boolean mask keeps a row when its age is in the range and its
  gender and admission type are selected. A missing cell never matches.
- **Key metrics** (`Metrics.Summarize`). These are the row count and the
  mean of the present billing amounts. The mean is missing ("N/A") when
  there is none.
- **Diagnosis frequency** (`Aggregates.DiagnosisFrequency`). This is
  pandas' `value_counts` over the present diagnoses.
- **Monthly admissions** (`Aggregates.MonthlyAdmissions`). This is
  `groupby('Month').size()`: months in chronological order, missing months
  dropped.

Missing cells (NaN, NaT) are `Option` values throughout. Billing amounts are
exact `real`s and ages are `int`s. The table is a `seq` of rows, and every
step is a function of it, as in the source, where each step is a whole-column
pandas expression. `Scenario` proves what the pipeline gives on a
three-patient example.

Modules: `Optional` (the `Option` type), `Records` (rows, dates, months),
`Counting` (dropping missing cells, occurrence counts, `value_counts`),
`Preprocess`, `Filtering`, `Metrics`, `Aggregates`, `Scenario`.

## Behaviour of the source worth knowing

- A missing 'Date of Admission', 'Age', 'Gender', 'Admission Type' or
  'Billing Amount' column raises `KeyError` (health.py lines 16, 27, 29, 31
  and 44). Only 'Medical Condition' is optional
  (`Upload.hasMedicalCondition`).
- When no age is present, `int(data['Age'].min())` at line 27 raises.
  `DefaultCriteria` returns `None` for that case.
- `value_counts` at line 54 does not fix the order of equal counts. The
  model's sort is stable, but the contract promises only non-increasing
  counts.
- When no date parses, lines 20-21 fill 'Month' with missing values.
  `Derive`'s contract shows that this gives the same result as taking the
  month of every date.

## Model

| member | source | states |
|---|---|---|
| `Preprocess.Derive` | health.py:16-23 | The row count and the age, gender, type, condition and billing cells are unchanged. The overflow text becomes missing and other date texts are kept. A row whose date text is the overflow text has no date and no month. Each date is what the column parser returns for that row, and is missing when the text is missing. A month is present exactly when a date is, with the same year and month. With no date parsed, every month is missing. The diagnosis equals the medical condition, or is missing when that column is absent. |
| `Counting.Present` | health.py:44 | Dropping missing cells leaves as many values as there are present cells. Each value occurs as often as it does among the present cells. |
| `Filtering.Select` | health.py:35-39 | A boolean-mask selection keeps only elements that satisfy the mask, and keeps every such element. It is an order-preserving subsequence of the input. |
| `Filtering.SelectIsLongest` | health.py:35-39 | No order-preserving subsequence of matching elements is longer than the selection. |
| `Filtering.SelectIsUnique` | health.py:35-39 | The selection is the only order-preserving subsequence of matching elements that is at least as long as the selection. |
| `Filtering.SelectIdempotent` | health.py:35-39 | Applying the same mask twice gives the same result as applying it once. |
| `Filtering.SelectAgreeing` | health.py:35-39 | Two masks that agree on every row select the same rows. |
| `Filtering.Filter` | health.py:35-39 | Every kept row has an age within the inclusive range, a selected gender and a selected admission type, so none of these cells is missing. A row is kept exactly when it is in the table and matches. The result is an order-preserving subsequence of the table. |
| `Filtering.FilterIsExact` | health.py:35-39 | Any order-preserving selection of matching rows that is at least as long as the filtered view equals that view. |
| `Filtering.FilterIdempotent` | health.py:35-39 | Filtering the filtered view again with the same selection changes nothing. |
| `Filtering.Min` | health.py:27 | The least age is missing exactly when no value is given. Otherwise it is one of the values and no greater than any of them. |
| `Filtering.Max` | health.py:27 | The greatest age is missing exactly when no value is given. Otherwise it is one of the values and no less than any of them. |
| `Filtering.DefaultCriteria` | health.py:27-32 | The default selection is missing exactly when no row has an age (the source raises). Otherwise its bounds are the least and greatest present age: both are ages of some rows, and every present age lies between them. The selected genders and types are exactly the observed ones. A row matches exactly when its age, gender and type are all present. |
| `Filtering.DefaultFilterKeepsCompleteRows` | health.py:27-39 | With the default selection, the filter keeps exactly the rows whose age, gender and admission type are present, in table order. |
| `Metrics.Mean` | health.py:44 | The mean is missing exactly for no values. Otherwise the mean times the number of values equals their sum. |
| `Metrics.Summarize` | health.py:43-45 | The patient count is the number of filtered rows. The average billing is missing ("N/A") exactly when no filtered row has a billing amount, an empty view included. Otherwise it is the sum of the present amounts divided by their number. |
| `Metrics.MeanWithinBounds` | health.py:44 | The mean of a non-empty list of amounts lies between any lower and upper bound of those amounts. |
| `Metrics.AverageWithinBounds` | health.py:44-45 | The average billing lies between any bounds of the view's present billing amounts. So it lies between the least and the greatest amount. |
| `Counting.TotalOfTabulate` | health.py:54 | When each value is counted against distinct keys that cover all values, the counts add up to the number of values. |
| `Counting.SortByCount` | health.py:54 | Sorting distinct keys gives counts that never increase. The result has the same keys, each once. |
| `Counting.ValueCounts` | health.py:54 | `value_counts` lists each distinct value once, and every value of the input is listed. Each count is the number of occurrences of that value, and it is positive. Counts never increase along the list. They add up to the length of the input. |
| `Aggregates.DiagnosisFrequency` | health.py:53-59 | Each diagnosis is listed once, and it is listed exactly when some filtered row has it. Its count is the number of filtered rows with that diagnosis. Counts never increase. They add up to the number of filtered rows with a diagnosis. The table is empty exactly when the "no diagnosis data" message is shown. |
| `Aggregates.SortedMonths` | health.py:65 | The group keys are the distinct months that occur, in strictly ascending chronological order. |
| `Aggregates.MonthlyAdmissions` | health.py:64-71 | Months are listed in strictly ascending chronological order, so each appears once. A month is listed exactly when some filtered row has it, and its count is the number of such rows. Rows without a month are in no group, so the counts add up to the number of filtered rows with a month. The table is empty exactly when the missing-data message is shown. |
| `Scenario.PreparedRows` | health.py:16-23 | In the example, preprocessing blanks the overflowed date and gives that row no month. The two readable dates get January and February 2023. |
| `Scenario.Walkthrough` | health.py:16-65 | Three patients, with an age range of 18 to 99, genders M and F, and admission type Emergency: the elective row is dropped. Two patients remain, with an average bill of 200, a diagnosis table of `[("Flu", 2)]`, and one admission in each of January and February 2023. |

## Left out

- The Streamlit page, file uploader, sidebar widgets, metric widgets, raw-data checkbox and table display are left out. The model covers the values they consume, not the widgets.
- Reading the CSV with `pd.read_csv` is left out. The model starts from the parsed table, and missing required columns (a `KeyError` in the source) are not modelled.
- The internals of `pd.to_datetime` are foreign code. Parsing is a parameter `DateParser` applied to the whole column, because pandas infers one format per column. The model fixes only that a missing text gives a missing date.
- The Plotly charts are left out, including the conversion of periods to timestamps at line 66. Only the tables the charts are drawn from are modelled.
- Currency formatting of the average and NumPy's floating-point mean are replaced by exact `real` arithmetic and a missing value for NaN.
- Ages are integers. The source's `int(...)` truncation of a non-integer float age at line 27 is not modelled.
- The range and option lists that the slider and multiselects allow are not modelled. `Filter` takes any selection, so its properties hold for every choice the widgets allow. The selected lists are modelled as sets, since only `isin` membership is used.
- Aggregates.DiagnosisFrequency: the order among diagnoses with equal counts is not stated, because `value_counts` does not fix it. The model's stable sort lists them in order of first appearance.
