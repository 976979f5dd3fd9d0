/** Coercing the time column, dropping the rows that fail, and sorting by time. */
module Transform {

  import opened Wrappers
  import opened Table

  /** `pd.to_datetime(..., errors="coerce")` on one cell: a missing cell becomes NaT; what any
      other cell becomes is decided by the date parser, given here as `toDatetime`. */
  function ParseTime(cell: Cell, toDatetime: Cell -> Option<Timestamp>): (r: Option<Timestamp>)
    ensures cell.Missing? ==> r.None?
  {
    if cell.Missing? then None else toDatetime(cell)
  }

  /** The time value of a record once column `t` is coerced. */
  function TimeOf(rec: Record, t: string, toDatetime: Cell -> Option<Timestamp>): Option<Timestamp> {
    ParseTime(CellOf(rec, t), toDatetime)
  }

  /** How many records fail coercion of column `t`. */
  function Failed(rows: seq<Record>, t: string, toDatetime: Cell -> Option<Timestamp>): nat {
    if rows == [] then 0
    else (if TimeOf(rows[0], t, toDatetime).None? then 1 else 0) + Failed(rows[1..], t, toDatetime)
  }

  /** `df[t] = pd.to_datetime(df[t], errors="coerce"); df.dropna(subset=[t])`: the records whose
      time value coerces, each with its timestamp, in their original order. */
  function Kept(rows: seq<Record>, t: string, toDatetime: Cell -> Option<Timestamp>): (r: seq<Row>)
    ensures |r| + Failed(rows, t, toDatetime) == |rows|
    ensures forall x :: x in r <==>
      exists i :: 0 <= i < |rows| && rows[i] == x.cells && TimeOf(rows[i], t, toDatetime) == Some(x.ts)
  {
    if rows == [] then []
    else
      var rest := Kept(rows[1..], t, toDatetime);
      assert forall i :: 1 <= i < |rows| ==> rows[i] == rows[1..][i - 1];
      match TimeOf(rows[0], t, toDatetime)
      case None => rest
      case Some(ts) => [Row(ts, rows[0])] + rest
  }

  /** `dropna(subset=[t])` keeps records in their original order: the kept rows of a split
      table are those of its first part followed by those of its second part. */
  lemma {:induction false} KeptConcat(a: seq<Record>, b: seq<Record>, t: string, toDatetime: Cell -> Option<Timestamp>)
    ensures Kept(a + b, t, toDatetime) == Kept(a, t, toDatetime) + Kept(b, t, toDatetime)
  {
    if a == [] {
      assert a + b == b;
    } else {
      assert (a + b)[1..] == a[1..] + b;
      KeptConcat(a[1..], b, t, toDatetime);
    }
  }

  /** One record is kept, once and with its coerced timestamp, exactly when its time value
      coerces. */
  lemma KeptSingle(rec: Record, t: string, toDatetime: Cell -> Option<Timestamp>)
    ensures Kept([rec], t, toDatetime) ==
      match TimeOf(rec, t, toDatetime)
      case None => []
      case Some(ts) => [Row(ts, rec)]
  {
    assert [rec][1..] == [];
  }

  /** No kept row has a missing time value, and each carries what its time cell coerced to. */
  lemma MissingTimeDropped(rows: seq<Record>, t: string, toDatetime: Cell -> Option<Timestamp>)
    ensures forall x :: x in Kept(rows, t, toDatetime) ==>
      CellOf(x.cells, t) != Missing && toDatetime(CellOf(x.cells, t)) == Some(x.ts)
  {
  }

  /** Every row is no later than every row after it. */
  ghost predicate Sorted(s: seq<Row>) {
    forall i, j :: 0 <= i < j < |s| ==> TsLe(s[i].ts, s[j].ts)
  }

  function Insert(x: Row, s: seq<Row>): (r: seq<Row>)
    requires Sorted(s)
    ensures Sorted(r)
    ensures multiset(r) == multiset(s) + multiset{x}
  {
    if s == [] then [x]
    else if TsLe(x.ts, s[0].ts) then [x] + s
    else
      var tail := Insert(x, s[1..]);
      InsertBelow(x, s, tail);
      assert s == [s[0]] + s[1..];
      [s[0]] + tail
  }

  /** Placing the head of `s` before the sorted `tail` keeps the order, when `tail` holds `x`
      and the rest of `s` and `x` does not come before the head. */
  lemma InsertBelow(x: Row, s: seq<Row>, tail: seq<Row>)
    requires Sorted(s) && s != [] && !TsLe(x.ts, s[0].ts)
    requires Sorted(tail) && multiset(tail) == multiset(s[1..]) + multiset{x}
    ensures Sorted([s[0]] + tail)
  {
    var r := [s[0]] + tail;
    TsTotal(x.ts, s[0].ts);
    forall j | 0 <= j < |tail| ensures TsLe(s[0].ts, tail[j].ts) {
      var y := tail[j];
      assert y in multiset(tail);
      if y != x {
        assert y in multiset(s[1..]);
        var k :| 0 <= k < |s[1..]| && s[1..][k] == y;
        assert s[k + 1] == y;
      }
    }
    forall i, j | 0 <= i < j < |r| ensures TsLe(r[i].ts, r[j].ts) {
      if i > 0 {
        assert r[i] == tail[i - 1] && r[j] == tail[j - 1];
      } else {
        assert r[j] == tail[j - 1];
      }
    }
  }

  /** `sort_values(t)`: ascending by time. The order among equal timestamps is not
      specified by pandas, so callers rely only on this contract. */
  function SortByTime(s: seq<Row>): (r: seq<Row>)
    ensures Sorted(r)
    ensures multiset(r) == multiset(s)
  {
    if s == [] then []
    else
      assert s == [s[0]] + s[1..];
      Insert(s[0], SortByTime(s[1..]))
  }

}
