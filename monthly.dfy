/** Summing the selected columns per calendar month:
    `df.set_index(t).groupby(pd.Grouper(freq="M"))[cols].sum()`. */
module Monthly {

  import opened Table

  /** A calendar month as a count of months since January of year 0. */
  function MonthKey(ts: Timestamp): int {
    ts.year * 12 + (ts.month - 1)
  }

  function KeyYear(k: int): int {
    k / 12
  }

  function KeyMonth(k: int): int {
    k % 12 + 1
  }

  /** A month key gives back the year and the month it was made from. */
  lemma MonthKeyRoundTrip(ts: Timestamp)
    ensures KeyYear(MonthKey(ts)) == ts.year && KeyMonth(MonthKey(ts)) == ts.month
  {
    var k := MonthKey(ts);
    assert k == ts.year * 12 + (ts.month - 1);
    assert 0 <= ts.month - 1 < 12;
  }

  /** Two timestamps share a bucket exactly when they share year and month. */
  lemma SameMonth(a: Timestamp, b: Timestamp)
    ensures MonthKey(a) == MonthKey(b) <==> a.year == b.year && a.month == b.month
  {
    MonthKeyRoundTrip(a);
    MonthKeyRoundTrip(b);
  }

  /** Later timestamps never fall in earlier months. */
  lemma MonthKeyMonotone(a: Timestamp, b: Timestamp)
    requires TsLe(a, b)
    ensures MonthKey(a) <= MonthKey(b)
  {
    if a.year < b.year {
      assert a.year * 12 + 12 <= b.year * 12;
    }
  }

  /** Along rows sorted by time, the months never go back: the line chart's series and the
      bar chart's buckets run in the same direction. */
  lemma SortedMonthsAscending(rows: seq<Row>)
    requires forall i, j :: 0 <= i < j < |rows| ==> TsLe(rows[i].ts, rows[j].ts)
    ensures forall i, j :: 0 <= i < j < |rows| ==> MonthKey(rows[i].ts) <= MonthKey(rows[j].ts)
  {
    forall i, j | 0 <= i < j < |rows| ensures MonthKey(rows[i].ts) <= MonthKey(rows[j].ts) {
      MonthKeyMonotone(rows[i].ts, rows[j].ts);
    }
  }

  /** The value a cell adds to a sum: NaN and non-numeric cells add nothing. */
  function CellValue(row: Row, c: string): int {
    match CellOf(row.cells, c)
    case Num(n) => n
    case _ => 0
  }

  /** Which rows a total is taken over: all of them, or those of one month. */
  datatype Selector = AllMonths | InMonth(key: int)

  function Weight(row: Row, c: string, sel: Selector): int {
    if sel.AllMonths? || MonthKey(row.ts) == sel.key then CellValue(row, c) else 0
  }

  /** The sum of column `c` over the rows the selector picks. */
  function Total(rows: seq<Row>, c: string, sel: Selector): int {
    if rows == [] then 0 else Weight(rows[0], c, sel) + Total(rows[1..], c, sel)
  }

  lemma {:induction false} TotalConcat(a: seq<Row>, b: seq<Row>, c: string, sel: Selector)
    ensures Total(a + b, c, sel) == Total(a, c, sel) + Total(b, c, sel)
  {
    if a == [] {
      assert a + b == b;
    } else {
      assert (a + b)[0] == a[0] && (a + b)[1..] == a[1..] + b;
      TotalConcat(a[1..], b, c, sel);
    }
  }

  /** A total does not depend on the order of the rows. */
  lemma {:induction false} TotalPermutation(a: seq<Row>, b: seq<Row>, c: string, sel: Selector)
    requires multiset(a) == multiset(b)
    ensures Total(a, c, sel) == Total(b, c, sel)
    decreases |a|
  {
    if a == [] {
      assert |b| == |multiset(b)| == 0;
    } else {
      var rest := PeelFirst(a, b, c, sel);
      TotalPermutation(a[1..], rest, c, sel);
      assert Total(a, c, sel) == Weight(a[0], c, sel) + Total(a[1..], c, sel);
    }
  }

  /** The first row of `a` also occurs in its permutation `b`; taking it out of both leaves
      permutations of each other, and takes its weight out of `b`'s total. */
  lemma PeelFirst(a: seq<Row>, b: seq<Row>, c: string, sel: Selector) returns (rest: seq<Row>)
    requires a != [] && multiset(a) == multiset(b)
    ensures multiset(a[1..]) == multiset(rest)
    ensures Total(b, c, sel) == Weight(a[0], c, sel) + Total(rest, c, sel)
  {
    var x := a[0];
    assert x in multiset(b) by {
      assert x in multiset(a);
    }
    var j :| 0 <= j < |b| && b[j] == x;
    rest := RemoveAt(b, j, c, sel);
    HeadTail(a);
  }

  lemma HeadTail(a: seq<Row>)
    requires a != []
    ensures multiset(a) == multiset{a[0]} + multiset(a[1..])
  {
    assert a == [a[0]] + a[1..];
  }

  /** Taking one row out of a sequence takes its weight out of the total. */
  lemma RemoveAt(b: seq<Row>, j: int, c: string, sel: Selector) returns (rest: seq<Row>)
    requires 0 <= j < |b|
    ensures multiset(rest) == multiset(b) - multiset{b[j]}
    ensures Total(b, c, sel) == Weight(b[j], c, sel) + Total(rest, c, sel)
  {
    rest := b[..j] + b[j + 1..];
    var tail := [b[j]] + b[j + 1..];
    assert b == b[..j] + tail;
    assert tail[1..] == b[j + 1..];
    TotalConcat(b[..j], tail, c, sel);
    TotalConcat(b[..j], b[j + 1..], c, sel);
  }

  /** The earliest month among the rows. */
  function MinKey(rows: seq<Row>): (k: int)
    requires rows != []
    ensures forall i :: 0 <= i < |rows| ==> k <= MonthKey(rows[i].ts)
    ensures exists i :: 0 <= i < |rows| && k == MonthKey(rows[i].ts)
  {
    if |rows| == 1 then MonthKey(rows[0].ts)
    else
      var m := MinKey(rows[1..]);
      assert forall i :: 1 <= i < |rows| ==> rows[i] == rows[1..][i - 1];
      if MonthKey(rows[0].ts) <= m then MonthKey(rows[0].ts) else m
  }

  /** The latest month among the rows. */
  function MaxKey(rows: seq<Row>): (k: int)
    requires rows != []
    ensures forall i :: 0 <= i < |rows| ==> MonthKey(rows[i].ts) <= k
    ensures exists i :: 0 <= i < |rows| && k == MonthKey(rows[i].ts)
  {
    if |rows| == 1 then MonthKey(rows[0].ts)
    else
      var m := MaxKey(rows[1..]);
      assert forall i :: 1 <= i < |rows| ==> rows[i] == rows[1..][i - 1];
      if m <= MonthKey(rows[0].ts) then MonthKey(rows[0].ts) else m
  }

  /** One output row of the aggregate: a month and one sum per selected column. */
  datatype Bucket = Bucket(key: int, sums: seq<int>)

  function Sums(rows: seq<Row>, cols: seq<string>, k: int): seq<int> {
    seq(|cols|, j requires 0 <= j < |cols| => Total(rows, cols[j], InMonth(k)))
  }

  /** The buckets of the `n` consecutive months from `lo`. */
  function Buckets(rows: seq<Row>, cols: seq<string>, lo: int, n: nat): (r: seq<Bucket>)
    ensures |r| == n
    ensures forall i :: 0 <= i < n ==> r[i] == Bucket(lo + i, Sums(rows, cols, lo + i))
  {
    if n == 0 then [] else Buckets(rows, cols, lo, n - 1) + [Bucket(lo + n - 1, Sums(rows, cols, lo + n - 1))]
  }

  /** One bucket per month from the earliest to the latest month of the data, months without
      rows included (their sums are zero), in ascending order. */
  function MonthlySums(rows: seq<Row>, cols: seq<string>): (r: seq<Bucket>)
    ensures r == [] <==> rows == []
    ensures rows != [] ==> r[0].key == MinKey(rows) && r[|r| - 1].key == MaxKey(rows)
    ensures forall i :: 0 < i < |r| ==> r[i].key == r[i - 1].key + 1
    ensures forall i :: 0 <= i < |r| ==> |r[i].sums| == |cols|
    ensures forall i, j :: 0 <= i < |r| && 0 <= j < |cols| ==>
      r[i].sums[j] == Total(rows, cols[j], InMonth(r[i].key))
  {
    if rows == [] then []
    else Buckets(rows, cols, MinKey(rows), MaxKey(rows) - MinKey(rows) + 1)
  }

  /** Every row's month has a bucket. */
  lemma RowHasBucket(rows: seq<Row>, cols: seq<string>, x: Row)
    requires x in rows
    ensures exists i :: 0 <= i < |MonthlySums(rows, cols)| && MonthlySums(rows, cols)[i].key == MonthKey(x.ts)
  {
    var r := MonthlySums(rows, cols);
    var lo := MinKey(rows);
    var i := MonthKey(x.ts) - lo;
    assert 0 <= i < |r|;
    assert r[i].key == lo + i;
  }

  /** The sum of column `j` over a list of buckets. */
  function BucketTotal(bs: seq<Bucket>, j: nat): int
    requires forall i :: 0 <= i < |bs| ==> j < |bs[i].sums|
  {
    if bs == [] then 0 else BucketTotal(bs[..|bs| - 1], j) + bs[|bs| - 1].sums[j]
  }

  /** The sum of column `c` over the `n` months from `lo`. */
  function RangeTotal(rows: seq<Row>, c: string, lo: int, n: nat): int {
    if n == 0 then 0 else RangeTotal(rows, c, lo, n - 1) + Total(rows, c, InMonth(lo + n - 1))
  }

  lemma {:induction false} BucketsTotal(rows: seq<Row>, cols: seq<string>, lo: int, n: nat, j: nat)
    requires j < |cols|
    ensures BucketTotal(Buckets(rows, cols, lo, n), j) == RangeTotal(rows, cols[j], lo, n)
  {
    if n > 0 {
      var bs := Buckets(rows, cols, lo, n);
      assert bs[..n - 1] == Buckets(rows, cols, lo, n - 1);
      BucketsTotal(rows, cols, lo, n - 1, j);
    }
  }

  lemma {:induction false} RangeTotalEmpty(c: string, lo: int, n: nat)
    ensures RangeTotal([], c, lo, n) == 0
  {
    if n > 0 {
      RangeTotalEmpty(c, lo, n - 1);
    }
  }

  /** The first row adds its value to exactly one month of the range: its own. */
  lemma {:induction false} RangeTotalCons(x: Row, rest: seq<Row>, c: string, lo: int, n: nat)
    ensures RangeTotal([x] + rest, c, lo, n) ==
      (if lo <= MonthKey(x.ts) < lo + n then CellValue(x, c) else 0) + RangeTotal(rest, c, lo, n)
  {
    if n > 0 {
      RangeTotalCons(x, rest, c, lo, n - 1);
      assert ([x] + rest)[1..] == rest;
    }
  }

  /** Summing the months of a range that covers every row gives the column total. */
  lemma {:induction false} RangeCoversAll(rows: seq<Row>, c: string, lo: int, n: nat)
    requires forall i :: 0 <= i < |rows| ==> lo <= MonthKey(rows[i].ts) < lo + n
    ensures RangeTotal(rows, c, lo, n) == Total(rows, c, AllMonths)
  {
    if rows == [] {
      RangeTotalEmpty(c, lo, n);
    } else {
      assert rows == [rows[0]] + rows[1..];
      RangeTotalCons(rows[0], rows[1..], c, lo, n);
      RangeCoversAll(rows[1..], c, lo, n);
    }
  }

  /** For every selected column, the buckets add up to the column's sum over all rows. */
  lemma MonthlyTotal(rows: seq<Row>, cols: seq<string>, j: nat)
    requires j < |cols|
    ensures BucketTotal(MonthlySums(rows, cols), j) == Total(rows, cols[j], AllMonths)
  {
    if rows != [] {
      var lo, hi := MinKey(rows), MaxKey(rows);
      BucketsTotal(rows, cols, lo, hi - lo + 1, j);
      RangeCoversAll(rows, cols[j], lo, hi - lo + 1);
    }
  }

  /** The aggregate does not depend on the order of the rows, so it is the same whichever
      way the sort orders rows with equal timestamps. */
  lemma MonthlySumsPermutation(a: seq<Row>, b: seq<Row>, cols: seq<string>)
    requires multiset(a) == multiset(b)
    ensures MonthlySums(a, cols) == MonthlySums(b, cols)
  {
    if a == [] {
      assert |b| == |multiset(b)| == 0;
    } else {
      assert b != [] by {
        assert |b| == |multiset(b)| == |a|;
      }
      SameKeyRange(a, b);
      SameKeyRange(b, a);
      forall k ensures Sums(a, cols, k) == Sums(b, cols, k) {
        SameSums(a, b, cols, k);
      }
      SameBuckets(a, b, cols, MinKey(a), MaxKey(a) - MinKey(a) + 1);
    }
  }

  /** Rows with the same sums in every month have the same buckets. */
  lemma {:induction false} SameBuckets(a: seq<Row>, b: seq<Row>, cols: seq<string>, lo: int, n: nat)
    requires forall k :: Sums(a, cols, k) == Sums(b, cols, k)
    ensures Buckets(a, cols, lo, n) == Buckets(b, cols, lo, n)
  {
    if n > 0 {
      SameBuckets(a, b, cols, lo, n - 1);
    }
  }

  /** Rows with the same elements have the same sums in every month. */
  lemma SameSums(a: seq<Row>, b: seq<Row>, cols: seq<string>, k: int)
    requires multiset(a) == multiset(b)
    ensures Sums(a, cols, k) == Sums(b, cols, k)
  {
    forall j | 0 <= j < |cols| ensures Total(a, cols[j], InMonth(k)) == Total(b, cols[j], InMonth(k)) {
      TotalPermutation(a, b, cols[j], InMonth(k));
    }
  }

  /** Rows with the same elements share the earliest and the latest month. */
  lemma SameKeyRange(a: seq<Row>, b: seq<Row>)
    requires a != [] && b != [] && multiset(a) == multiset(b)
    ensures MinKey(b) <= MinKey(a) && MaxKey(a) <= MaxKey(b)
  {
    var i :| 0 <= i < |a| && MinKey(a) == MonthKey(a[i].ts);
    assert a[i] in multiset(b);
    var p :| 0 <= p < |a| && MaxKey(a) == MonthKey(a[p].ts);
    assert a[p] in multiset(b);
  }

  lemma TotalOfTwo(a: Row, b: Row, c: string, sel: Selector)
    ensures Total([a, b], c, sel) == Weight(a, c, sel) + Weight(b, c, sel)
  {
    assert [a, b][1..] == [b];
    assert [b][1..] == [];
    assert Total([b], c, sel) == Weight(b, c, sel) + Total([], c, sel);
  }

  lemma TotalOfThree(a: Row, b: Row, d: Row, c: string, sel: Selector)
    ensures Total([a, b, d], c, sel) == Weight(a, c, sel) + Weight(b, c, sel) + Weight(d, c, sel)
  {
    assert [a, b, d][1..] == [b, d];
    TotalOfTwo(b, d, c, sel);
  }

  /** Two January rows and one February row give two buckets, January holding the sums of
      both January rows. */
  lemma TwoMonthsExample()
    ensures var jan5 := Row(Stamp(2024, 1, 5, 0), map["solar" := Num(10), "wind" := Num(5)]);
      var jan20 := Row(Stamp(2024, 1, 20, 0), map["solar" := Num(20), "wind" := Num(15)]);
      var feb1 := Row(Stamp(2024, 2, 1, 0), map["solar" := Num(30), "wind" := Num(0)]);
      MonthlySums([jan5, jan20, feb1], ["solar", "wind"]) ==
        [Bucket(2024 * 12, [30, 20]), Bucket(2024 * 12 + 1, [30, 0])]
  {
    var jan5 := Row(Stamp(2024, 1, 5, 0), map["solar" := Num(10), "wind" := Num(5)]);
    var jan20 := Row(Stamp(2024, 1, 20, 0), map["solar" := Num(20), "wind" := Num(15)]);
    var feb1 := Row(Stamp(2024, 2, 1, 0), map["solar" := Num(30), "wind" := Num(0)]);
    var rows := [jan5, jan20, feb1];
    var cols := ["solar", "wind"];
    var jan, feb := 2024 * 12, 2024 * 12 + 1;
    assert MinKey(rows) == jan && MaxKey(rows) == feb;
    TotalOfThree(jan5, jan20, feb1, "solar", InMonth(jan));
    TotalOfThree(jan5, jan20, feb1, "wind", InMonth(jan));
    TotalOfThree(jan5, jan20, feb1, "solar", InMonth(feb));
    TotalOfThree(jan5, jan20, feb1, "wind", InMonth(feb));
    assert Sums(rows, cols, jan) == [30, 20];
    assert Sums(rows, cols, feb) == [30, 0];
    assert Buckets(rows, cols, jan, 2) == [Bucket(jan, [30, 20]), Bucket(feb, [30, 0])];
  }

  /** A month without rows between two months with rows still gets a bucket, with zero sums. */
  lemma GapMonthExample()
    ensures var jan := Row(Stamp(2024, 1, 31, 0), map["solar" := Num(7)]);
      var mar := Row(Stamp(2024, 3, 1, 0), map["solar" := Num(4)]);
      MonthlySums([jan, mar], ["solar"]) ==
        [Bucket(2024 * 12, [7]), Bucket(2024 * 12 + 1, [0]), Bucket(2024 * 12 + 2, [4])]
  {
    var jan := Row(Stamp(2024, 1, 31, 0), map["solar" := Num(7)]);
    var mar := Row(Stamp(2024, 3, 1, 0), map["solar" := Num(4)]);
    var rows := [jan, mar];
    var cols := ["solar"];
    var k := 2024 * 12;
    assert MinKey(rows) == k && MaxKey(rows) == k + 2;
    TotalOfTwo(jan, mar, "solar", InMonth(k));
    TotalOfTwo(jan, mar, "solar", InMonth(k + 1));
    TotalOfTwo(jan, mar, "solar", InMonth(k + 2));
    assert Sums(rows, cols, k) == [7];
    assert Sums(rows, cols, k + 1) == [0];
    assert Sums(rows, cols, k + 2) == [4];
    assert Buckets(rows, cols, k, 3) == [Bucket(k, [7]), Bucket(k + 1, [0]), Bucket(k + 2, [4])];
  }

}
