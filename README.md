# analiza-energie: the data pipeline of the Gradio energy dashboard

The dashboard (`app.py`) lets a user upload a CSV/XLSX table of Romanian energy-mix time
series and then press one of two buttons. Under the UI and charting calls there is a small
tabular pipeline. This project models that pipeline in Dafny and proves what it promises.

- **Time-column detection** (`detect_time_col`). Rule 1 is an exact, case-insensitive match of
  a column name against `datetime, date, timestamp, time, ora, data`. Rule 2 runs only when
  rule 1 finds nothing: a case-insensitive substring match against `date, time, ora, data`.
  Under either rule the first match in column order wins. When neither rule matches, the
  result is `None`.
- **Coerce, drop, sort** (shared by `get_meta` and `make_plots`). The time column is coerced
  to timestamps. Rows that fail coercion are dropped. The rest are sorted ascending by time.
- **`get_meta`** reports, in this order: no file, no time column, no numeric columns.
  Otherwise it returns a summary (rows, columns, time column, time range), the numeric
  columns as choices, and the first five of them as the default selection.
- **`make_plots`** reports, in this order: no file, no time column, empty selection.
  Otherwise it returns the sorted table for the line chart, the per-month sums of the
  selected columns for the bar chart, and the CSV projection `[t] + cols`.

Modules, one concept each:
`Wrappers` (Option), `Seqs` (ordered filtering), `Strings` (ASCII lower-casing, substring
test), `TimeColumn`, `Table` (timestamps, cells, columns, rows), `Transform`
(coercion with `dropna`, sorting), `Monthly` (`groupby(pd.Grouper(freq="M")).sum()`),
`Export` (the CSV projection) and `App` (the two handlers, written as methods).

Modelling choices:
- The loaded table is an input value: a column list with a numeric type tag per column, and
  rows as maps from column name to cell.
- The date parser inside `pd.to_datetime` is a parameter `toDatetime: Cell -> Option<Timestamp>`.
  `None` stands for NaT. A missing cell always becomes NaT.
- Values are integers. A missing or non-numeric cell adds 0 to a sum, as NaN does in pandas.
- A timestamp is (year, month 1-12, day 1-31, second of day), ordered
  chronologically. A month bucket is keyed by `year * 12 + month - 1`.

Behaviour of the code worth knowing, which the model keeps:
- `sort_values(t)` uses pandas' default quicksort, which is not stable. So the model
  promises only sorted order and a permutation. The monthly sums are proved independent of
  how rows with equal timestamps are ordered.
- `pd.Grouper(freq="M")` emits a bucket for every month from the first to the last. Months
  without rows get zero sums rather than being absent (`Monthly.GapMonthExample`).
- Neither handler has an error for "no row survives coercion". When every time value fails
  to parse, both carry on with an empty table, and so does the model.
- A column named `date` or `datetime` is chosen only when no earlier column is also one of
  the six exact candidates. The first exact candidate in column order wins
  (`TimeColumn.DetectExact`).

## Model

| member | source | states |
|---|---|---|
| `TimeColumn.DetectTimeCol` | app.py:6-9 | any column returned is one of the input columns, and its lower-cased name contains one of the four tokens |
| `TimeColumn.DetectExact` | app.py:7-9 | if column `i` is the first whose lower-cased name is one of the six exact candidates, the result is column `i`, whatever substring matches come earlier |
| `TimeColumn.DetectFallback` | app.py:8-9 | if no column matches exactly, the result is the first column whose lower-cased name contains `date`, `time`, `ora` or `data` |
| `TimeColumn.DetectNone` | app.py:7-9 | the result is `None` exactly when no lower-cased column name contains any of the four tokens (both directions) |
| `TimeColumn.ExactHasToken` | app.py:7-8 | every exact candidate contains a token, so the columns rule 1 matches are a subset of those rule 2 matches |
| `TimeColumn.ExactBeatsEarlierSubstring` | app.py:7-8 | for columns `["update_id", "date"]`, `update_id` contains a token, yet the result is `date` |
| `TimeColumn.CapitalisedExactName` | app.py:7 | for `["Data", "Solar_MW", "Eolian_MW"]` the result is `Data`: the exact match ignores case |
| `TimeColumn.SubstringFallbackExample` | app.py:8-9 | for `["id", "DataOra", "Solar_MW"]` no name matches exactly, and the result is `DataOra`, the first name containing a token |
| `Seqs.Filter` | app.py:7-8 | a list comprehension with a condition: it keeps only input elements that satisfy the condition, and never grows the list |
| `Seqs.FilterHead` | app.py:9 | `c[0]` of the comprehension is the first element in input order that satisfies the condition |
| `Seqs.FilterEmpty` | app.py:8-9 | the comprehension is empty exactly when no element satisfies the condition |
| `Strings.ContainsOccurs` | app.py:8 | the substring test `k in x.lower()` holds exactly when `k` occurs at some position of the string |
| `Strings.LowerIdempotent` | app.py:7-8 | lower-casing a second time changes nothing |
| `TimeColumn.LowerCaseInvariant` | app.py:7-8 | both rules judge a name only by its lower-cased form, so a name and its lower-case spelling are treated alike |
| `TimeColumn.UpperCaseExactName` | app.py:7 | `DATE` and `Timestamp` are exact candidates despite their capitals |
| `Transform.MissingTimeDropped` | app.py:19 | after `dropna(subset=[t])`, no kept row has a missing time cell, and each kept row carries the timestamp its time cell coerced to |
| `Transform.Kept` | app.py:19 | kept count plus failed count equals the input count; a row is kept exactly when it is an input record whose time value coerced, and it carries that timestamp |
| `Transform.KeptConcat` | app.py:19 | `dropna` keeps record order and multiplicity: the kept rows of a split table are those of its first part followed by those of its second |
| `Transform.KeptSingle` | app.py:19 | one record yields exactly one row, with its coerced timestamp, when its time value coerces, and none otherwise |
| `Transform.SortByTime` | app.py:19 | `sort_values(t)` returns the rows non-decreasing by timestamp, as a permutation of its input |
| `Monthly.MonthKeyRoundTrip` | app.py:32 | a month key gives back the year and the month of its timestamp |
| `Monthly.SameMonth` | app.py:32 | two timestamps fall in the same bucket exactly when they share year and month, whatever the day and time of day |
| `Monthly.MonthKeyMonotone` | app.py:32 | a later timestamp never falls in an earlier month |
| `Monthly.SortedMonthsAscending` | app.py:29-32 | along rows sorted by time, month keys never decrease |
| `Monthly.TotalPermutation` | app.py:32 | a column sum does not depend on the order of the rows |
| `Monthly.MonthlySums` | app.py:32 | there is one bucket per month from the earliest to the latest month of the data, in ascending consecutive order; each bucket holds, per selected column, the sum over exactly the rows of its own year and month; there are no buckets for an empty table |
| `Monthly.RowHasBucket` | app.py:32 | every row's month has a bucket |
| `Monthly.MonthlyTotal` | app.py:32 | for each selected column, the sum over all buckets equals the sum over all rows |
| `Monthly.MonthlySumsPermutation` | app.py:32 | the aggregate is the same for any ordering of the same rows, so ties left in unspecified order by the sort do not change it |
| `Monthly.TwoMonthsExample` | app.py:32 | rows (Jan 5: 10, 5), (Jan 20: 20, 15), (Feb 1: 30, 0) give buckets January (30, 20) and February (30, 0) |
| `Monthly.GapMonthExample` | app.py:32 | rows in January and March give three buckets, and February's sum is zero |
| `Export.Project` | app.py:34 | the CSV header is `[t] + cols`, every record has one field per header name, and there are N + 1 lines for N rows |
| `Export.ReadBackTime` | app.py:34 | reading the time column back from the CSV gives every row's timestamp, in table order |
| `Export.ReadBackColumn` | app.py:34 | when the time column is not among the selected names, reading any selected column back gives every row's cell of that column, in table order; a name selected twice reads back from its first copy, which holds the same cells |
| `Export.ReadBackUnknown` | app.py:34 | a column that was not projected cannot be read back |
| `App.NumericColumns` | app.py:20 | the numeric columns are exactly the columns tagged numeric other than the time column, which has become a datetime column |
| `App.NumericColumnsConcat` | app.py:20 | `select_dtypes` keeps column order: the numeric columns of a split column list are those of its first part followed by those of its second |
| `App.NumericColumnsSingle` | app.py:20 | one column is listed exactly when it is numeric and not the time column |
| `App.Earliest` | app.py:22 | `df[t].min()` is a timestamp of some row and no later than any row; it is absent only for an empty table |
| `App.Latest` | app.py:22 | `df[t].max()` is a timestamp of some row and no earlier than any row; it is absent only for an empty table |
| `App.Span` | app.py:22 | the summary's interval runs from a row's timestamp that no row precedes to a row's timestamp that no row follows; it is absent exactly for an empty table |
| `App.CoerceAndSort` | app.py:19 | the shared step yields rows sorted by time that are a permutation of the kept rows, and kept plus dropped equals the input count |
| `App.GetMeta` | app.py:15-23 | a missing file is reported first, then a missing time column, then no numeric columns. When a file, a time column and a numeric column exist, the result is a success. On success the choices are the numeric columns, and the selection is their prefix of length min(5, count). The summary gives the kept row count (kept plus dropped equals input), the column count and the time column. Its interval is absent exactly when no row survives; otherwise its ends are the timestamps of kept rows, and they bound every kept row |
| `App.MakePlots` | app.py:25-34 | a missing file is reported first, then a missing time column, then an empty selection. An error returns no figures and no files, and with a file, a time column and a non-empty selection the result is a success. On success the series is sorted and a permutation of the kept rows. The monthly aggregate equals the aggregate of the kept rows, and each column's buckets sum to its total over the kept rows. The CSV is the projection `[t] + cols` of the series, with one line per kept row plus the header |

## Left out

- Gradio UI construction, event wiring and server start (app.py:43-54): UI and hosting plumbing.
- `load_any` (app.py:11-13): file reading and the CSV/Excel parsers are I/O. The loaded table is an input value.
- Date-string parsing inside `pd.to_datetime`: a foreign library. Only its outcome is modelled, through the `toDatetime` parameter.
- `select_dtypes("number")` type inference: each column carries a given numeric tag instead.
- Plotly figures and HTML rendering (app.py:31, 33, 38-39). The model keeps only the data the charts draw: the sorted table and the monthly buckets.
- ZIP packaging into a `BytesIO` buffer (app.py:36-41): compression and buffer I/O.
- Byte-level CSV text from `to_csv` (quoting, number and date formatting, encoding). The model keeps the column projection, the record order and the line count.
- The message texts the handlers return (app.py:16, 18, 21, 26, 28, 30) and the formatting of the summary line (app.py:22). They are modelled as `Failure` tags and as the `Info` fields.
- Floating-point values and sums: values are integers.
- The labels of `pd.Grouper(freq="M")` buckets, which are month-end dates. A bucket is identified by its month key instead.
- Python's Unicode `str.lower()`: lower-casing is modelled for ASCII letters only.
- Duplicate column names: rows are maps from name to cell, so names are taken as distinct.
- App.CoerceAndSort: promises only sorted order and a permutation, not the order pandas' unstable quicksort gives to equal timestamps. That order is deterministic in pandas but not specified.
- App.MakePlots: requires every selected column to be a numeric column of the current table other than the time column. A name outside the current table, for example a stale selection kept after a new upload when only the plot button is pressed (app.py:49-50), makes `px.line` (app.py:31) raise before any later step runs; that crash is not modelled. Summing a text column (string concatenation in pandas) is not modelled either.
- Non-string column labels: `read_excel` can keep a numeric or date header cell as an int or datetime label, and `c.lower()` (app.py:7-8) then raises `AttributeError`. Column names are strings here, so that crash is not modelled.
- Timestamp precision and calendar: timestamps have whole seconds, no time zone, and any day 1-31 in every month. pandas keeps nanoseconds, so rows that differ below one second tie here but are ordered by `sort_values`.
- Integer overflow: pandas sums int64 columns with wrap-around. Sums here are unbounded integers.
