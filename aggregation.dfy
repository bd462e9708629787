/**
 * The read-only revenue queries over the `sales` table (app.py:128-146):
 *
 *   SELECT date, SUM(total) total FROM sales GROUP BY date ORDER BY date DESC
 *   SELECT substr(date,1,7) month, SUM(total) total
 *     FROM sales GROUP BY month ORDER BY month DESC
 *
 * `GroupBy` computes such a result by inserting the sales one by one into a
 * list of groups kept in descending key order. The lemmas show that the list
 * is exactly what the SQL semantics prescribe: one row per distinct key, each
 * carrying the sum of the matching sales, strictly descending, and nothing
 * else (`GroupByCharacterized`).
 */
module Aggregation {
  import opened Text

  /** One row of the `sales` table: no key, so equal rows may repeat. */
  datatype Sale = Sale(date: string, total: int)

  /** One result row of a grouped query: the group key and `SUM(total)`. */
  datatype Row = Row(key: string, total: int)

  /** The two groupings the queries use: by `date` and by `substr(date,1,7)`. */
  datatype Grouping = ByDay | ByMonth

  function GroupKey(g: Grouping, s: Sale): string {
    match g
    case ByDay => s.date
    case ByMonth => Month(s.date)
  }

  /** The distinct group keys occurring in `sales`. */
  function GroupKeys(g: Grouping, sales: seq<Sale>): set<string> {
    if sales == [] then {} else {GroupKey(g, sales[0])} + GroupKeys(g, sales[1..])
  }

  /** `SUM(total)` over the sales whose group key is `k`. */
  function SumFor(g: Grouping, sales: seq<Sale>, k: string): int {
    if sales == [] then 0
    else (if GroupKey(g, sales[0]) == k then sales[0].total else 0) + SumFor(g, sales[1..], k)
  }

  /** The sum of every sale total. */
  function Total(sales: seq<Sale>): int {
    if sales == [] then 0 else sales[0].total + Total(sales[1..])
  }

  /** Rows strictly descending by key, as `ORDER BY key DESC` over distinct keys. */
  ghost predicate Descending(rows: seq<Row>) {
    forall i, j :: 0 <= i < j < |rows| ==> Less(rows[j].key, rows[i].key)
  }

  /** Every key of `rows` sorts before `k`. */
  ghost predicate AllBelow(rows: seq<Row>, k: string) {
    forall i :: 0 <= i < |rows| ==> Less(rows[i].key, k)
  }

  function KeysOf(rows: seq<Row>): set<string> {
    if rows == [] then {} else {rows[0].key} + KeysOf(rows[1..])
  }

  /** The total of the first row keyed `k`, or 0 when there is none. */
  function TotalOf(rows: seq<Row>, k: string): int {
    if rows == [] then 0 else if rows[0].key == k then rows[0].total else TotalOf(rows[1..], k)
  }

  /** The sum of the `total` column of a query result. */
  function RowsSum(rows: seq<Row>): int {
    if rows == [] then 0 else rows[0].total + RowsSum(rows[1..])
  }

  /** The sum of the totals of the rows whose key falls in month `m`. */
  function RowsSumInMonth(rows: seq<Row>, m: string): int {
    if rows == [] then 0
    else (if Month(rows[0].key) == m then rows[0].total else 0) + RowsSumInMonth(rows[1..], m)
  }

  /** Adds `t` to the group `k`, opening the group at its place in descending order. */
  function Insert(rows: seq<Row>, k: string, t: int): seq<Row> {
    if rows == [] then [Row(k, t)]
    else if rows[0].key == k then [Row(k, rows[0].total + t)] + rows[1..]
    else if Less(rows[0].key, k) then [Row(k, t)] + rows
    else [rows[0]] + Insert(rows[1..], k, t)
  }

  /** `SELECT key, SUM(total) FROM sales GROUP BY key ORDER BY key DESC`. */
  function GroupBy(g: Grouping, sales: seq<Sale>): seq<Row> {
    if sales == [] then [] else Insert(GroupBy(g, sales[1..]), GroupKey(g, sales[0]), sales[0].total)
  }

  /** The result of the daily query (app.py:131-134). */
  function DailyTotals(sales: seq<Sale>): seq<Row> {
    GroupBy(ByDay, sales)
  }

  /** The result of the monthly query (app.py:141-144). */
  function MonthlyTotals(sales: seq<Sale>): seq<Row> {
    GroupBy(ByMonth, sales)
  }

  /** What the SQL semantics prescribe for the grouped, ordered query. */
  ghost predicate IsGroupTotals(g: Grouping, sales: seq<Sale>, rows: seq<Row>) {
    && Descending(rows)
    && KeysOf(rows) == GroupKeys(g, sales)
    && forall i :: 0 <= i < |rows| ==> rows[i].total == SumFor(g, sales, rows[i].key)
  }

  // ---------------------------------------------------------------- helpers

  lemma {:induction false} KeysOfIndex(rows: seq<Row>, k: string)
    requires k in KeysOf(rows)
    ensures exists i :: 0 <= i < |rows| && rows[i].key == k
  {
    if rows[0].key != k {
      KeysOfIndex(rows[1..], k);
      var i :| 0 <= i < |rows[1..]| && rows[1..][i].key == k;
      assert rows[i + 1].key == k;
    }
  }

  lemma {:induction false} IndexInKeysOf(rows: seq<Row>, i: int)
    requires 0 <= i < |rows|
    ensures rows[i].key in KeysOf(rows)
  {
    if i > 0 {
      IndexInKeysOf(rows[1..], i - 1);
    }
  }

  lemma {:induction false} GroupKeysIndex(g: Grouping, sales: seq<Sale>, k: string)
    requires k in GroupKeys(g, sales)
    ensures exists i :: 0 <= i < |sales| && GroupKey(g, sales[i]) == k
  {
    if GroupKey(g, sales[0]) != k {
      GroupKeysIndex(g, sales[1..], k);
      var i :| 0 <= i < |sales[1..]| && GroupKey(g, sales[1..][i]) == k;
      assert GroupKey(g, sales[i + 1]) == k;
    }
  }

  lemma DescendingTail(rows: seq<Row>)
    requires Descending(rows) && rows != []
    ensures Descending(rows[1..]) && AllBelow(rows[1..], rows[0].key)
  {
    forall i | 0 <= i < |rows[1..]|
      ensures Less(rows[1..][i].key, rows[0].key)
    {
      assert rows[1..][i] == rows[i + 1];
    }
  }

  lemma DescendingCons(r: Row, rows: seq<Row>)
    requires Descending(rows) && AllBelow(rows, r.key)
    ensures Descending([r] + rows)
  {
    var s := [r] + rows;
    forall i, j | 0 <= i < j < |s|
      ensures Less(s[j].key, s[i].key)
    {
      assert s[j] == rows[j - 1];
      if i > 0 {
        assert s[i] == rows[i - 1];
      }
    }
  }

  lemma {:induction false} AllBelowNotIn(rows: seq<Row>, k: string)
    requires AllBelow(rows, k)
    ensures k !in KeysOf(rows)
  {
    if rows != [] {
      LessIrreflexive(k);
      assert AllBelow(rows[1..], k) by {
        forall i | 0 <= i < |rows[1..]| ensures Less(rows[1..][i].key, k) {
          assert rows[1..][i] == rows[i + 1];
        }
      }
      AllBelowNotIn(rows[1..], k);
    }
  }

  lemma {:induction false} AbsentTotalOf(rows: seq<Row>, k: string)
    requires k !in KeysOf(rows)
    ensures TotalOf(rows, k) == 0
  {
    if rows != [] {
      AbsentTotalOf(rows[1..], k);
    }
  }

  lemma {:induction false} AbsentSumFor(g: Grouping, sales: seq<Sale>, k: string)
    requires k !in GroupKeys(g, sales)
    ensures SumFor(g, sales, k) == 0
  {
    if sales != [] {
      AbsentSumFor(g, sales[1..], k);
    }
  }

  /** In descending rows each key appears once, so looking it up finds its own row. */
  lemma {:induction false} TotalOfAt(rows: seq<Row>, i: int)
    requires Descending(rows) && 0 <= i < |rows|
    ensures TotalOf(rows, rows[i].key) == rows[i].total
  {
    if i > 0 {
      DescendingTail(rows);
      LessIrreflexive(rows[i].key);
      assert rows[1..][i - 1] == rows[i];
      TotalOfAt(rows[1..], i - 1);
    }
  }

  // ---------------------------------------------------------------- Insert

  lemma {:induction false} InsertKeys(rows: seq<Row>, k: string, t: int)
    ensures KeysOf(Insert(rows, k, t)) == KeysOf(rows) + {k}
  {
    if rows == [] {
    } else if rows[0].key == k {
      assert Insert(rows, k, t)[1..] == rows[1..];
    } else if Less(rows[0].key, k) {
      assert Insert(rows, k, t)[1..] == rows;
    } else {
      assert Insert(rows, k, t)[1..] == Insert(rows[1..], k, t);
      InsertKeys(rows[1..], k, t);
    }
  }

  lemma {:induction false} InsertBelow(rows: seq<Row>, k: string, t: int, h: string)
    requires AllBelow(rows, h) && Less(k, h)
    ensures AllBelow(Insert(rows, k, t), h)
  {
    if rows != [] && rows[0].key != k && !Less(rows[0].key, k) {
      var rest := Insert(rows[1..], k, t);
      assert AllBelow(rows[1..], h) by {
        forall i | 0 <= i < |rows[1..]| ensures Less(rows[1..][i].key, h) {
          assert rows[1..][i] == rows[i + 1];
        }
      }
      InsertBelow(rows[1..], k, t, h);
      forall i | 0 <= i < |[rows[0]] + rest|
        ensures Less(([rows[0]] + rest)[i].key, h)
      {
        if i > 0 {
          assert ([rows[0]] + rest)[i] == rest[i - 1];
        }
      }
    } else if rows != [] && rows[0].key == k {
      var r := Insert(rows, k, t);
      forall i | 0 <= i < |r| ensures Less(r[i].key, h) {
        if i > 0 {
          assert r[i] == rows[i];
        }
      }
    } else if rows != [] {
      var r := Insert(rows, k, t);
      forall i | 0 <= i < |r| ensures Less(r[i].key, h) {
        if i > 0 {
          assert r[i] == rows[i - 1];
        }
      }
    }
  }

  lemma {:induction false} InsertDescending(rows: seq<Row>, k: string, t: int)
    requires Descending(rows)
    ensures Descending(Insert(rows, k, t))
  {
    if rows == [] {
    } else if rows[0].key == k {
      DescendingTail(rows);
      DescendingCons(Row(k, rows[0].total + t), rows[1..]);
    } else if Less(rows[0].key, k) {
      forall i | 0 <= i < |rows| ensures Less(rows[i].key, k) {
        if i > 0 {
          LessTransitive(rows[i].key, rows[0].key, k);
        }
      }
      DescendingCons(Row(k, t), rows);
    } else {
      DescendingTail(rows);
      LessTotal(rows[0].key, k);
      InsertDescending(rows[1..], k, t);
      InsertBelow(rows[1..], k, t, rows[0].key);
      DescendingCons(rows[0], Insert(rows[1..], k, t));
    }
  }

  lemma {:induction false} InsertTotalOf(rows: seq<Row>, k: string, t: int, x: string)
    requires Descending(rows)
    ensures TotalOf(Insert(rows, k, t), x) == TotalOf(rows, x) + (if x == k then t else 0)
  {
    if rows == [] {
    } else if rows[0].key == k {
      assert Insert(rows, k, t)[1..] == rows[1..];
    } else if Less(rows[0].key, k) {
      assert Insert(rows, k, t)[1..] == rows;
      forall i | 0 <= i < |rows| ensures Less(rows[i].key, k) {
        if i > 0 {
          LessTransitive(rows[i].key, rows[0].key, k);
        }
      }
      AllBelowNotIn(rows, k);
      AbsentTotalOf(rows, k);
    } else {
      assert Insert(rows, k, t)[1..] == Insert(rows[1..], k, t);
      DescendingTail(rows);
      InsertTotalOf(rows[1..], k, t, x);
    }
  }

  lemma {:induction false} InsertSum(rows: seq<Row>, k: string, t: int)
    ensures RowsSum(Insert(rows, k, t)) == RowsSum(rows) + t
  {
    if rows == [] {
    } else if rows[0].key == k {
      assert Insert(rows, k, t)[1..] == rows[1..];
    } else if Less(rows[0].key, k) {
      assert Insert(rows, k, t)[1..] == rows;
    } else {
      assert Insert(rows, k, t)[1..] == Insert(rows[1..], k, t);
      InsertSum(rows[1..], k, t);
    }
  }

  lemma {:induction false} InsertSumInMonth(rows: seq<Row>, k: string, t: int, m: string)
    ensures RowsSumInMonth(Insert(rows, k, t), m)
            == RowsSumInMonth(rows, m) + (if Month(k) == m then t else 0)
  {
    if rows == [] {
    } else if rows[0].key == k {
      assert Insert(rows, k, t)[1..] == rows[1..];
    } else if Less(rows[0].key, k) {
      assert Insert(rows, k, t)[1..] == rows;
    } else {
      assert Insert(rows, k, t)[1..] == Insert(rows[1..], k, t);
      InsertSumInMonth(rows[1..], k, t, m);
    }
  }

  // ---------------------------------------------------------------- GroupBy

  /**
   * The grouped query: strictly descending keys, exactly the keys occurring in
   * `sales`, each key's total the sum of its sales, and the grand total kept.
   */
  lemma {:induction false} GroupByCorrect(g: Grouping, sales: seq<Sale>)
    ensures Descending(GroupBy(g, sales))
    ensures KeysOf(GroupBy(g, sales)) == GroupKeys(g, sales)
    ensures forall x :: TotalOf(GroupBy(g, sales), x) == SumFor(g, sales, x)
    ensures RowsSum(GroupBy(g, sales)) == Total(sales)
  {
    if sales != [] {
      var rest := GroupBy(g, sales[1..]);
      var k, t := GroupKey(g, sales[0]), sales[0].total;
      GroupByCorrect(g, sales[1..]);
      InsertDescending(rest, k, t);
      InsertKeys(rest, k, t);
      InsertSum(rest, k, t);
      forall x ensures TotalOf(GroupBy(g, sales), x) == SumFor(g, sales, x) {
        InsertTotalOf(rest, k, t, x);
      }
    }
  }

  /**
   * One row per distinct key (as many rows as keys), each row's total the sum
   * of the sales with that key, keys strictly descending.
   */
  lemma GroupByRows(g: Grouping, sales: seq<Sale>)
    ensures IsGroupTotals(g, sales, GroupBy(g, sales))
    ensures |GroupBy(g, sales)| == |GroupKeys(g, sales)|
  {
    var rows := GroupBy(g, sales);
    GroupByCorrect(g, sales);
    forall i | 0 <= i < |rows| ensures rows[i].total == SumFor(g, sales, rows[i].key) {
      TotalOfAt(rows, i);
    }
    DescendingCardinality(rows);
  }

  /** A descending result has no repeated key: as many rows as distinct keys. */
  lemma {:induction false} DescendingCardinality(rows: seq<Row>)
    requires Descending(rows)
    ensures |KeysOf(rows)| == |rows|
  {
    if rows != [] {
      DescendingTail(rows);
      AllBelowNotIn(rows[1..], rows[0].key);
      DescendingCardinality(rows[1..]);
    }
  }

  /** The first row of a descending result carries its greatest key. */
  lemma HeadIsGreatest(rows: seq<Row>, k: string)
    requires Descending(rows) && k in KeysOf(rows)
    ensures k == rows[0].key || Less(k, rows[0].key)
  {
    KeysOfIndex(rows, k);
  }

  /** Two descending results with the same keys and totals are the same result. */
  lemma {:induction false} DescendingUnique(a: seq<Row>, b: seq<Row>)
    requires Descending(a) && Descending(b)
    requires KeysOf(a) == KeysOf(b)
    requires forall x :: TotalOf(a, x) == TotalOf(b, x)
    ensures a == b
  {
    if a == [] || b == [] {
      if a != [] {
        IndexInKeysOf(a, 0);
      } else if b != [] {
        IndexInKeysOf(b, 0);
      }
    } else {
      DescendingTail(a);
      DescendingTail(b);
      var ka, kb := a[0].key, b[0].key;
      if ka != kb {
        IndexInKeysOf(a, 0);
        IndexInKeysOf(b, 0);
        HeadIsGreatest(a, kb);
        HeadIsGreatest(b, ka);
        LessAsymmetric(kb, ka);
      }
      assert ka == kb;
      AllBelowNotIn(a[1..], ka);
      AllBelowNotIn(b[1..], ka);
      assert KeysOf(a[1..]) == KeysOf(b[1..]) by {
        assert KeysOf(a) == {ka} + KeysOf(a[1..]);
        assert KeysOf(b) == {ka} + KeysOf(b[1..]);
      }
      forall x ensures TotalOf(a[1..], x) == TotalOf(b[1..], x) {
        if x == ka {
          AbsentTotalOf(a[1..], x);
          AbsentTotalOf(b[1..], x);
        } else {
          assert TotalOf(a, x) == TotalOf(a[1..], x);
          assert TotalOf(b, x) == TotalOf(b[1..], x);
        }
      }
      DescendingUnique(a[1..], b[1..]);
      assert TotalOf(a, ka) == TotalOf(b, ka);
      assert a == [a[0]] + a[1..] && b == [b[0]] + b[1..];
    }
  }

  /**
   * The query result is characterised by the SQL semantics: a row sequence is
   * the grouped, ordered query exactly when it is descending, has one row per
   * occurring key and each row carries that key's sum.
   */
  lemma GroupByCharacterized(g: Grouping, sales: seq<Sale>, rows: seq<Row>)
    ensures IsGroupTotals(g, sales, rows) <==> rows == GroupBy(g, sales)
  {
    GroupByRows(g, sales);
    if IsGroupTotals(g, sales, rows) {
      GroupByCorrect(g, sales);
      forall x ensures TotalOf(rows, x) == TotalOf(GroupBy(g, sales), x) {
        if x in KeysOf(rows) {
          KeysOfIndex(rows, x);
          var i :| 0 <= i < |rows| && rows[i].key == x;
          TotalOfAt(rows, i);
        } else {
          AbsentTotalOf(rows, x);
          AbsentSumFor(g, sales, x);
        }
      }
      DescendingUnique(rows, GroupBy(g, sales));
    }
  }

  /**
   * The grand total is the same whichever way the ledger is grouped: the daily
   * rows, the monthly rows and the sales themselves all add up alike.
   */
  lemma GrandTotals(sales: seq<Sale>)
    ensures RowsSum(DailyTotals(sales)) == Total(sales)
    ensures RowsSum(MonthlyTotals(sales)) == Total(sales)
  {
    GroupByCorrect(ByDay, sales);
    GroupByCorrect(ByMonth, sales);
  }

  /** A month's total equals the sum of the daily totals of the days in that month. */
  lemma {:induction false} MonthFromDays(sales: seq<Sale>, m: string)
    ensures RowsSumInMonth(DailyTotals(sales), m) == SumFor(ByMonth, sales, m)
  {
    if sales != [] {
      MonthFromDays(sales[1..], m);
      InsertSumInMonth(DailyTotals(sales[1..]), sales[0].date, sales[0].total, m);
    }
  }

  /**
   * Appending a sale adds its total to its own group and to no other, and adds
   * its key to the set of groups.
   */
  lemma {:induction false} AppendSale(g: Grouping, sales: seq<Sale>, s: Sale, k: string)
    ensures SumFor(g, sales + [s], k) == SumFor(g, sales, k) + (if GroupKey(g, s) == k then s.total else 0)
    ensures GroupKeys(g, sales + [s]) == GroupKeys(g, sales) + {GroupKey(g, s)}
    ensures Total(sales + [s]) == Total(sales) + s.total
  {
    if sales != [] {
      assert (sales + [s])[1..] == sales[1..] + [s];
      AppendSale(g, sales[1..], s, k);
    }
  }

  lemma {:induction false} RowsSumConcat(a: seq<Row>, b: seq<Row>)
    ensures RowsSum(a + b) == RowsSum(a) + RowsSum(b)
  {
    if a == [] {
      assert a + b == b;
    } else {
      assert (a + b)[1..] == a[1..] + b;
      RowsSumConcat(a[1..], b);
    }
  }

  lemma RemoveRowMultiset(b: seq<Row>, j: int)
    requires 0 <= j < |b|
    ensures multiset(b) == multiset{b[j]} + multiset(b[..j] + b[j + 1..])
  {
    var front, back := b[..j], b[j + 1..];
    assert b == front + [b[j]] + back;
  }

  lemma RemoveRowSum(b: seq<Row>, j: int)
    requires 0 <= j < |b|
    ensures RowsSum(b) == b[j].total + RowsSum(b[..j] + b[j + 1..])
  {
    var front, back := b[..j], b[j + 1..];
    var mid := [b[j]] + back;
    assert b == front + mid;
    RowsSumConcat(front, mid);
    assert mid[1..] == back;
    assert RowsSum(mid) == b[j].total + RowsSum(back);
    RowsSumConcat(front, back);
  }

  /** Taking row `j` out of `b`: what is left, as a multiset and as a sum. */
  lemma RemoveRow(b: seq<Row>, j: int)
    requires 0 <= j < |b|
    ensures multiset(b) == multiset{b[j]} + multiset(b[..j] + b[j + 1..])
    ensures RowsSum(b) == b[j].total + RowsSum(b[..j] + b[j + 1..])
  {
    RemoveRowMultiset(b, j);
    RemoveRowSum(b, j);
  }

  /** The grand total of a result does not depend on the order its rows come in. */
  lemma {:induction false} RowsSumPermutation(a: seq<Row>, b: seq<Row>)
    requires multiset(a) == multiset(b)
    ensures RowsSum(a) == RowsSum(b)
  {
    if a == [] {
      assert |multiset(b)| == 0;
    } else {
      assert a == [a[0]] + a[1..];
      assert multiset(a) == multiset{a[0]} + multiset(a[1..]);
      assert a[0] in multiset(b);
      var j :| 0 <= j < |b| && b[j] == a[0];
      RemoveRow(b, j);
      assert multiset(a[1..]) == multiset(a) - multiset{a[0]};
      assert multiset(b[..j] + b[j + 1..]) == multiset(b) - multiset{b[j]};
      RowsSumPermutation(a[1..], b[..j] + b[j + 1..]);
    }
  }

  /** Reordering the rows of a result does not change the keys it holds. */
  lemma KeysOfPermutation(a: seq<Row>, b: seq<Row>)
    requires multiset(a) == multiset(b)
    ensures KeysOf(a) == KeysOf(b)
  {
    forall k | k in KeysOf(a) ensures k in KeysOf(b) {
      KeysOfIndex(a, k);
      var i :| 0 <= i < |a| && a[i].key == k;
      assert a[i] in multiset(b);
      var j :| 0 <= j < |b| && b[j] == a[i];
      IndexInKeysOf(b, j);
    }
    forall k | k in KeysOf(b) ensures k in KeysOf(a) {
      KeysOfIndex(b, k);
      var j :| 0 <= j < |b| && b[j].key == k;
      assert b[j] in multiset(a);
      var i :| 0 <= i < |a| && a[i] == b[j];
      IndexInKeysOf(a, i);
    }
  }

  /**
   * A newly recorded sale raises its own day's and its own month's total by
   * its amount and leaves every other day and month as it was.
   */
  lemma AppendSaleTotals(sales: seq<Sale>, s: Sale, x: string)
    ensures TotalOf(DailyTotals(sales + [s]), x)
            == TotalOf(DailyTotals(sales), x) + (if x == s.date then s.total else 0)
    ensures TotalOf(MonthlyTotals(sales + [s]), x)
            == TotalOf(MonthlyTotals(sales), x) + (if x == Month(s.date) then s.total else 0)
  {
    GroupByCorrect(ByDay, sales);
    GroupByCorrect(ByDay, sales + [s]);
    GroupByCorrect(ByMonth, sales);
    GroupByCorrect(ByMonth, sales + [s]);
    AppendSale(ByDay, sales, s, x);
    AppendSale(ByMonth, sales, s, x);
  }

}
