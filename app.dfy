/** The two handlers behind the dashboard's buttons: `get_meta` (metadata and the default
    column selection) and `make_plots` (time series, monthly sums and CSV export). */
module App {

  import opened Wrappers
  import opened Table
  import opened TimeColumn
  import opened Transform
  import opened Monthly
  import opened Export

  /** The conditions the handlers report with a message instead of results. */
  datatype Failure = NoFile | NoTimeColumn | NoNumeric | EmptySelection

  datatype Result<+T> = Ok(value: T) | Err(failure: Failure)

  /** The earliest and the latest timestamp, `df[t].min()` and `df[t].max()`. */
  datatype Interval = Interval(first: Timestamp, last: Timestamp)

  /** The summary line: row count, column count, time column and time range. */
  datatype Info = Info(rowCount: nat, columnCount: nat, timeColumn: string, interval: Option<Interval>)

  /** What `get_meta` hands to the column picker: every choice and the preselected ones. */
  datatype Meta = Meta(info: Info, choices: seq<string>, selected: seq<string>)

  /** What `make_plots` produces: the table the line chart draws, the monthly aggregate the
      bar chart draws, and the CSV export. */
  datatype Plots = Plots(series: seq<Row>, monthly: seq<Bucket>, csv: Csv)

  /** How many columns `get_meta` preselects. */
  const DefaultSelection: nat := 5

  function Min(a: int, b: int): int {
    if a <= b then a else b
  }

  /** `select_dtypes("number")` after coercion: the numeric columns other than the time column,
      which has become a datetime column, in column order. */
  function NumericColumns(columns: seq<Column>, t: string): (r: seq<string>)
    ensures |r| <= |columns|
    ensures forall n :: n in r <==>
      exists i :: 0 <= i < |columns| && columns[i].numeric && columns[i].name != t && columns[i].name == n
  {
    if columns == [] then []
    else
      var rest := NumericColumns(columns[1..], t);
      assert forall i :: 1 <= i < |columns| ==> columns[i] == columns[1..][i - 1];
      if columns[0].numeric && columns[0].name != t then [columns[0].name] + rest else rest
  }

  /** The numeric columns keep the table's column order: those of a split table are those of
      its first part followed by those of its second part. */
  lemma {:induction false} NumericColumnsConcat(a: seq<Column>, b: seq<Column>, t: string)
    ensures NumericColumns(a + b, t) == NumericColumns(a, t) + NumericColumns(b, t)
  {
    if a == [] {
      assert a + b == b;
    } else {
      assert (a + b)[1..] == a[1..] + b;
      NumericColumnsConcat(a[1..], b, t);
    }
  }

  /** One column is listed exactly when it is numeric and not the time column. */
  lemma NumericColumnsSingle(c: Column, t: string)
    ensures NumericColumns([c], t) == if c.numeric && c.name != t then [c.name] else []
  {
    assert [c][1..] == [];
  }

  /** The earliest timestamp of the rows, if there are any. */
  function Earliest(rows: seq<Row>): (r: Option<Timestamp>)
    ensures r.None? <==> rows == []
    ensures r.Some? ==> forall i :: 0 <= i < |rows| ==> TsLe(r.value, rows[i].ts)
    ensures r.Some? ==> exists i :: 0 <= i < |rows| && rows[i].ts == r.value
  {
    if rows == [] then None
    else
      var rest := Earliest(rows[1..]);
      assert forall i :: 1 <= i < |rows| ==> rows[i] == rows[1..][i - 1];
      match rest
      case None => Some(rows[0].ts)
      case Some(m) =>
        TsTotal(rows[0].ts, m);
        EarliestStep(rows, m);
        if TsLe(rows[0].ts, m) then Some(rows[0].ts) else Some(m)
  }

  lemma EarliestStep(rows: seq<Row>, m: Timestamp)
    requires rows != []
    requires forall i :: 1 <= i < |rows| ==> TsLe(m, rows[i].ts)
    ensures TsLe(rows[0].ts, m) ==> forall i :: 0 <= i < |rows| ==> TsLe(rows[0].ts, rows[i].ts)
  {
    if TsLe(rows[0].ts, m) {
      forall i | 1 <= i < |rows| ensures TsLe(rows[0].ts, rows[i].ts) {
        TsTransitive(rows[0].ts, m, rows[i].ts);
      }
    }
  }

  /** The latest timestamp of the rows, if there are any. */
  function Latest(rows: seq<Row>): (r: Option<Timestamp>)
    ensures r.None? <==> rows == []
    ensures r.Some? ==> forall i :: 0 <= i < |rows| ==> TsLe(rows[i].ts, r.value)
    ensures r.Some? ==> exists i :: 0 <= i < |rows| && rows[i].ts == r.value
  {
    if rows == [] then None
    else
      var rest := Latest(rows[1..]);
      assert forall i :: 1 <= i < |rows| ==> rows[i] == rows[1..][i - 1];
      match rest
      case None => Some(rows[0].ts)
      case Some(m) =>
        TsTotal(rows[0].ts, m);
        LatestStep(rows, m);
        if TsLe(m, rows[0].ts) then Some(rows[0].ts) else Some(m)
  }

  lemma LatestStep(rows: seq<Row>, m: Timestamp)
    requires rows != []
    requires forall i :: 1 <= i < |rows| ==> TsLe(rows[i].ts, m)
    ensures TsLe(m, rows[0].ts) ==> forall i :: 0 <= i < |rows| ==> TsLe(rows[i].ts, rows[0].ts)
  {
    if TsLe(m, rows[0].ts) {
      forall i | 1 <= i < |rows| ensures TsLe(rows[i].ts, rows[0].ts) {
        TsTransitive(rows[i].ts, m, rows[0].ts);
      }
    }
  }

  /** The time range of the summary line: `df[t].min()` to `df[t].max()`, absent for a table
      without rows. */
  function Span(rows: seq<Row>): (r: Option<Interval>)
    ensures r.None? <==> rows == []
    ensures r.Some? ==> forall x :: x in rows ==> TsLe(r.value.first, x.ts) && TsLe(x.ts, r.value.last)
    ensures r.Some? ==> exists x :: x in rows && x.ts == r.value.first
    ensures r.Some? ==> exists x :: x in rows && x.ts == r.value.last
  {
    var first, last := Earliest(rows), Latest(rows);
    if first.Some? && last.Some? then
      var i :| 0 <= i < |rows| && rows[i].ts == first.value;
      var k :| 0 <= k < |rows| && rows[k].ts == last.value;
      assert rows[i] in rows && rows[k] in rows;
      Some(Interval(first.value, last.value))
    else None
  }

  /** Two orderings of the same rows hold the same rows. */
  lemma SameMembers(a: seq<Row>, b: seq<Row>)
    requires multiset(a) == multiset(b)
    ensures forall x :: x in a <==> x in b
  {
    forall x ensures x in a <==> x in b {
      assert x in a <==> x in multiset(a);
      assert x in b <==> x in multiset(b);
    }
  }

  /** `df[t] = pd.to_datetime(df[t], errors="coerce"); df = df.dropna(subset=[t]).sort_values(t)`:
      the rows whose time value coerces, ascending by time. */
  method CoerceAndSort(table: RawTable, t: string, toDatetime: Cell -> Option<Timestamp>)
    returns (ordered: seq<Row>)
    ensures Sorted(ordered)
    ensures multiset(ordered) == multiset(Kept(table.rows, t, toDatetime))
    ensures |ordered| + Failed(table.rows, t, toDatetime) == |table.rows|
  {
    var kept := Kept(table.rows, t, toDatetime);
    ordered := SortByTime(kept);
    assert |ordered| == |multiset(ordered)| == |kept|;
  }

  /** `get_meta`: load, detect the time column, coerce and sort, list the numeric columns and
      preselect the first five of them. */
  method GetMeta(file: Option<RawTable>, toDatetime: Cell -> Option<Timestamp>) returns (r: Result<Meta>)
    ensures file.None? ==> r == Err(NoFile)
    ensures file.Some? && DetectTimeCol(Names(file.value.columns)).None? ==> r == Err(NoTimeColumn)
    ensures (file.Some? && DetectTimeCol(Names(file.value.columns)).Some? &&
             NumericColumns(file.value.columns, DetectTimeCol(Names(file.value.columns)).value) == []) ==>
      r == Err(NoNumeric)
    ensures r.Ok? ==> file.Some? && DetectTimeCol(Names(file.value.columns)).Some?
    ensures (file.Some? && DetectTimeCol(Names(file.value.columns)).Some? &&
             NumericColumns(file.value.columns, DetectTimeCol(Names(file.value.columns)).value) != []) ==>
      r.Ok?
    ensures r.Ok? ==>
      var df := file.value;
      var t := DetectTimeCol(Names(df.columns)).value;
      var kept := Kept(df.rows, t, toDatetime);
      var m := r.value;
      && m.choices == NumericColumns(df.columns, t)
      && m.choices != []
      && |m.selected| == Min(DefaultSelection, |m.choices|)
      && m.selected == m.choices[..|m.selected|]
      && m.info.timeColumn == t
      && m.info.columnCount == |df.columns|
      && m.info.rowCount == |kept|
      && m.info.rowCount + Failed(df.rows, t, toDatetime) == |df.rows|
      && (m.info.interval.None? <==> kept == [])
      && (m.info.interval.Some? ==> forall x :: x in kept ==>
            TsLe(m.info.interval.value.first, x.ts) && TsLe(x.ts, m.info.interval.value.last))
      && (m.info.interval.Some? ==> exists x :: x in kept && x.ts == m.info.interval.value.first)
      && (m.info.interval.Some? ==> exists x :: x in kept && x.ts == m.info.interval.value.last)
  {
    if file.None? {
      return Err(NoFile);
    }
    var df := file.value;
    var detected := DetectTimeCol(Names(df.columns));
    if detected.None? {
      return Err(NoTimeColumn);
    }
    var t := detected.value;
    var ordered := CoerceAndSort(df, t, toDatetime);
    var nums := NumericColumns(df.columns, t);
    if nums == [] {
      return Err(NoNumeric);
    }
    ghost var kept := Kept(df.rows, t, toDatetime);
    var interval := Span(ordered);
    SameMembers(ordered, kept);
    assert |ordered| == |multiset(ordered)| == |kept|;
    var info := Info(|ordered|, |df.columns|, t, interval);
    var selected := nums[..Min(DefaultSelection, |nums|)];
    r := Ok(Meta(info, nums, selected));
  }

  /** `make_plots`: load, detect the time column, coerce and sort, refuse an empty selection,
      then the monthly sums and the CSV export of the selected columns. The column picker only
      offers the numeric columns `get_meta` listed. */
  method MakePlots(file: Option<RawTable>, cols: seq<string>, toDatetime: Cell -> Option<Timestamp>)
    returns (r: Result<Plots>)
    requires file.Some? && DetectTimeCol(Names(file.value.columns)).Some? ==>
      forall c :: c in cols ==> c in NumericColumns(file.value.columns, DetectTimeCol(Names(file.value.columns)).value)
    ensures file.None? ==> r == Err(NoFile)
    ensures file.Some? && DetectTimeCol(Names(file.value.columns)).None? ==> r == Err(NoTimeColumn)
    ensures file.Some? && DetectTimeCol(Names(file.value.columns)).Some? && cols == [] ==>
      r == Err(EmptySelection)
    ensures r.Ok? ==> file.Some? && DetectTimeCol(Names(file.value.columns)).Some? && cols != []
    ensures file.Some? && DetectTimeCol(Names(file.value.columns)).Some? && cols != [] ==> r.Ok?
    ensures r.Ok? ==>
      var df := file.value;
      var t := DetectTimeCol(Names(df.columns)).value;
      var kept := Kept(df.rows, t, toDatetime);
      var p := r.value;
      && Sorted(p.series)
      && multiset(p.series) == multiset(kept)
      && p.monthly == MonthlySums(kept, cols)
      && (forall j :: 0 <= j < |cols| ==> BucketTotal(p.monthly, j) == Total(kept, cols[j], AllMonths))
      && p.csv == Project(p.series, t, cols)
      && p.csv.header == [t] + cols
      && LineCount(p.csv) == |kept| + 1
  {
    if file.None? {
      return Err(NoFile);
    }
    var df := file.value;
    var detected := DetectTimeCol(Names(df.columns));
    if detected.None? {
      return Err(NoTimeColumn);
    }
    var t := detected.value;
    var ordered := CoerceAndSort(df, t, toDatetime);
    if cols == [] {
      return Err(EmptySelection);
    }
    ghost var kept := Kept(df.rows, t, toDatetime);
    var monthly := MonthlySums(ordered, cols);
    MonthlySumsPermutation(ordered, kept, cols);
    forall j | 0 <= j < |cols| ensures BucketTotal(monthly, j) == Total(kept, cols[j], AllMonths) {
      MonthlyTotal(ordered, cols, j);
      TotalPermutation(ordered, kept, cols[j], AllMonths);
    }
    var csv := Project(ordered, t, cols);
    assert |ordered| == |multiset(ordered)| == |kept|;
    r := Ok(Plots(ordered, monthly, csv));
  }

}
