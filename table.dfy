/** The loaded table and the rows that survive time coercion. */
module Table {

  /** A calendar date with the second of the day. */
  datatype Stamp = Stamp(year: int, month: int, day: int, second: int)

  /** A value `pd.to_datetime` can produce: month, day and second in range. */
  type Timestamp = s: Stamp | 1 <= s.month <= 12 && 1 <= s.day <= 31 && 0 <= s.second < 86400
    witness Stamp(1970, 1, 1, 0)

  /** Chronological order: earlier or equal. */
  predicate TsLe(a: Timestamp, b: Timestamp) {
    a.year < b.year || (a.year == b.year &&
    (a.month < b.month || (a.month == b.month &&
    (a.day < b.day || (a.day == b.day && a.second <= b.second)))))
  }

  lemma TsTotal(a: Timestamp, b: Timestamp)
    ensures TsLe(a, b) || TsLe(b, a)
  {
  }

  lemma TsTransitive(a: Timestamp, b: Timestamp, c: Timestamp)
    requires TsLe(a, b) && TsLe(b, c)
    ensures TsLe(a, c)
  {
  }

  /** A cell as loaded from the file: a number, a string, or missing (NaN). */
  datatype Cell = Num(n: int) | Str(s: string) | Missing

  /** A column name with the type tag `select_dtypes("number")` would see. */
  datatype Column = Column(name: string, numeric: bool)

  /** One row of the loaded table, by column name. */
  type Record = map<string, Cell>

  datatype RawTable = RawTable(columns: seq<Column>, rows: seq<Record>)

  /** A row that kept a valid timestamp in the time column. */
  datatype Row = Row(ts: Timestamp, cells: Record)

  function Names(columns: seq<Column>): seq<string> {
    seq(|columns|, i requires 0 <= i < |columns| => columns[i].name)
  }

  /** The cell of a column in a row; an absent column reads as a missing value. */
  function CellOf(rec: Record, name: string): Cell {
    if name in rec then rec[name] else Missing
  }

}
