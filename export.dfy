/** The table written out as CSV: `df[[t] + cols].to_csv(index=False)`, as columns and
    records (quoting and number formatting are not modelled). */
module Export {

  import opened Wrappers
  import opened Table

  datatype Field = Time(ts: Timestamp) | Value(cell: Cell)

  /** A header line and one record per row. */
  datatype Csv = Csv(header: seq<string>, records: seq<seq<Field>>)

  /** Every record has one field per header name. */
  ghost predicate WellFormed(csv: Csv) {
    forall i :: 0 <= i < |csv.records| ==> |csv.records[i]| == |csv.header|
  }

  /** The text has one line for the header and one per row. */
  function LineCount(csv: Csv): nat {
    1 + |csv.records|
  }

  function Record(row: Row, cols: seq<string>): seq<Field> {
    [Time(row.ts)] + seq(|cols|, j requires 0 <= j < |cols| => Value(CellOf(row.cells, cols[j])))
  }

  /** The time column first, then the selected columns, one record per row in table order. */
  function Project(rows: seq<Row>, t: string, cols: seq<string>): (r: Csv)
    ensures r.header == [t] + cols
    ensures WellFormed(r)
    ensures LineCount(r) == |rows| + 1
  {
    Csv([t] + cols, seq(|rows|, i requires 0 <= i < |rows| => Record(rows[i], cols)))
  }

  /** The first position of `name` in the header. */
  function IndexOf(header: seq<string>, name: string): (r: Option<nat>)
    ensures r.None? <==> name !in header
    ensures r.Some? ==> r.value < |header| && header[r.value] == name
    ensures r.Some? ==> forall k :: 0 <= k < r.value ==> header[k] != name
  {
    if header == [] then None
    else if header[0] == name then Some(0)
    else
      match IndexOf(header[1..], name)
      case None => None
      case Some(k) => Some(k + 1)
  }

  /** Reading one column back from the CSV by its header name. */
  function SelectColumn(csv: Csv, name: string): Option<seq<Field>>
    requires WellFormed(csv)
  {
    match IndexOf(csv.header, name)
    case None => None
    case Some(k) => Some(seq(|csv.records|, i requires 0 <= i < |csv.records| => csv.records[i][k]))
  }

  /** Reading the time column back gives every row's timestamp, in order. */
  lemma ReadBackTime(rows: seq<Row>, t: string, cols: seq<string>)
    ensures var col := SelectColumn(Project(rows, t, cols), t);
      col.Some? && |col.value| == |rows| &&
      forall i :: 0 <= i < |rows| ==> col.value[i] == Time(rows[i].ts)
  {
  }

  /** Reading a selected column back gives that column's cell of every row, in order. A name
      selected twice is read from its first copy, which holds the same cells. */
  lemma ReadBackColumn(rows: seq<Row>, t: string, cols: seq<string>, j: int)
    requires t !in cols
    requires 0 <= j < |cols|
    ensures var col := SelectColumn(Project(rows, t, cols), cols[j]);
      col.Some? && |col.value| == |rows| &&
      forall i :: 0 <= i < |rows| ==> col.value[i] == Value(CellOf(rows[i].cells, cols[j]))
  {
    var h := [t] + cols;
    assert h[j + 1] == cols[j];
    var k := IndexOf(h, cols[j]);
    assert k.Some? && 0 < k.value && cols[k.value - 1] == cols[j];
  }

  /** A name outside the header reads back as nothing. */
  lemma ReadBackUnknown(rows: seq<Row>, t: string, cols: seq<string>, name: string)
    requires name != t && name !in cols
    ensures SelectColumn(Project(rows, t, cols), name).None?
  {
  }

}
