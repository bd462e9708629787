/**
 * The MiniStore ledger (app.py): a `products` table keyed by name and a
 * keyless `sales` table of (day, total) rows, and the request handlers that
 * read and change them. Each handler is one atomic step over the store; its
 * outcome is a `Response` instead of a JSON body and an HTTP status.
 */
module MiniStore {
  import opened Wrappers
  import opened Text
  import Clock
  import opened Aggregation
  import Csv

  /** Price and quantity of one product row (`price INTEGER, qty INTEGER`). */
  datatype Stock = Stock(price: int, qty: int)

  /** One element of a posted product list; `None` is a key the JSON object lacks. */
  datatype Posted = Posted(name: Option<string>, price: Option<int>, qty: Option<int>)

  /** What a handler answers. `ServerError` is an exception escaping the handler. */
  datatype Response =
    | PinRequired
    | Ignored
    | Saved
    | Ok
    | Products(catalog: map<string, Stock>)
    | BackupFile
    | ServerError

  /** The shared secret of app.py:21. */
  const APP_PIN: string := "1234"

  /** `require_pin`: the `X-PIN` header is present and equals the secret. */
  predicate PinMatches(header: Option<string>) {
    header == Some(APP_PIN)
  }

  /** The three products `init_db` seeds an empty catalogue with. */
  const SEED: map<string, Stock> :=
    map["bia" := Stock(10000, 0), "nuoc ngot" := Stock(8000, 0), "banh mi" := Stock(15000, 0)]

  /** The catalogue after `init_db`: seeded when it held no product, else untouched. */
  function Seeded(products: map<string, Stock>): map<string, Stock> {
    if |products| == 0 then SEED else products
  }

  /**
   * Seeding never leaves the catalogue empty and never replaces a non-empty
   * one, so running `init_db` again changes nothing.
   */
  lemma SeedingIdempotent(products: map<string, Stock>)
    ensures |Seeded(products)| > 0
    ensures |products| > 0 ==> Seeded(products) == products
    ensures Seeded(Seeded(products)) == Seeded(products)
  {
    assert "bia" in SEED;
  }

  /** The posted object has all three keys the insert reads. */
  predicate Complete(p: Posted) {
    p.name.Some? && p.price.Some? && p.qty.Some?
  }

  /** Every posted object has the three keys the insert reads. */
  predicate AllComplete(posted: seq<Posted>) {
    forall i :: 0 <= i < |posted| ==> Complete(posted[i])
  }

  /** Every insert of the posted list succeeds: no key missing, no name twice. */
  predicate Insertable(posted: seq<Posted>) {
    && AllComplete(posted)
    && (forall i, j :: 0 <= i < j < |posted| ==> posted[i].name != posted[j].name)
  }

  /** The table the inserts of a complete posted list build, in list order. */
  function CatalogOf(posted: seq<Posted>): map<string, Stock>
    requires AllComplete(posted)
  {
    if posted == [] then map[]
    else
      var n := |posted| - 1;
      assert Complete(posted[n]);
      CatalogOf(posted[..n])[posted[n].name.value := Stock(posted[n].price.value, posted[n].qty.value)]
  }

  lemma AllCompletePrefix(posted: seq<Posted>, n: int)
    requires AllComplete(posted) && 0 <= n <= |posted|
    ensures AllComplete(posted[..n])
  {
    forall i | 0 <= i < n ensures Complete(posted[..n][i]) {
      assert posted[..n][i] == posted[i];
    }
  }

  /** The catalogue's names are exactly the names in the posted list. */
  lemma {:induction false} CatalogOfKeys(posted: seq<Posted>)
    requires AllComplete(posted)
    ensures forall k :: k in CatalogOf(posted) <==> exists i :: 0 <= i < |posted| && posted[i].name == Some(k)
  {
    if posted != [] {
      var n := |posted| - 1;
      AllCompletePrefix(posted, n);
      CatalogOfKeys(posted[..n]);
      forall k | k in CatalogOf(posted) ensures exists i :: 0 <= i < |posted| && posted[i].name == Some(k) {
        if k != posted[n].name.value {
          var i :| 0 <= i < n && posted[..n][i].name == Some(k);
          assert posted[i] == posted[..n][i];
        }
      }
      forall k | exists i :: 0 <= i < |posted| && posted[i].name == Some(k) ensures k in CatalogOf(posted) {
        var i :| 0 <= i < |posted| && posted[i].name == Some(k);
        if i < n {
          assert posted[..n][i] == posted[i];
        }
      }
    }
  }

  lemma InsertablePrefix(posted: seq<Posted>, n: int)
    requires Insertable(posted) && 0 <= n <= |posted|
    ensures Insertable(posted[..n])
  {
    AllCompletePrefix(posted, n);
    forall i, j | 0 <= i < j < n ensures posted[..n][i].name != posted[..n][j].name {
      assert posted[..n][i] == posted[i] && posted[..n][j] == posted[j];
    }
  }

  /**
   * A list that inserts cleanly becomes exactly the catalogue: each posted
   * name maps to the price and quantity posted with it.
   */
  lemma {:induction false} CatalogOfValues(posted: seq<Posted>)
    requires Insertable(posted)
    ensures forall i :: 0 <= i < |posted| ==>
              && posted[i].name.value in CatalogOf(posted)
              && CatalogOf(posted)[posted[i].name.value] == Stock(posted[i].price.value, posted[i].qty.value)
  {
    if posted != [] {
      var n := |posted| - 1;
      InsertablePrefix(posted, n);
      CatalogOfValues(posted[..n]);
      forall i | 0 <= i < |posted|
        ensures posted[i].name.value in CatalogOf(posted)
        ensures CatalogOf(posted)[posted[i].name.value] == Stock(posted[i].price.value, posted[i].qty.value)
      {
        if i < n {
          assert posted[..n][i] == posted[i];
          assert posted[i].name != posted[n].name;
        }
      }
    }
  }

  /** Accepting one more insert: its name is new, so the list stays insertable. */
  lemma InsertableExtend(posted: seq<Posted>, i: int)
    requires 0 <= i < |posted|
    requires Insertable(posted[..i]) && Complete(posted[i])
    requires posted[i].name.value !in CatalogOf(posted[..i])
    ensures Insertable(posted[..i + 1])
    ensures CatalogOf(posted[..i + 1])
            == CatalogOf(posted[..i])[posted[i].name.value := Stock(posted[i].price.value, posted[i].qty.value)]
  {
    var front, ext := posted[..i], posted[..i + 1];
    assert ext[..i] == front;
    CatalogOfKeys(front);
    forall a | 0 <= a <= i ensures Complete(ext[a]) {
      if a < i {
        assert ext[a] == front[a];
      }
    }
    forall a, b | 0 <= a < b <= i ensures ext[a].name != ext[b].name {
      assert ext[a] == front[a];
      if b < i {
        assert ext[b] == front[b];
      }
    }
  }

  /** An offending element makes the whole posted list fail. */
  lemma NotInsertable(posted: seq<Posted>, i: int)
    requires 0 <= i < |posted|
    requires Insertable(posted[..i])
    requires !Complete(posted[i]) || posted[i].name.value in CatalogOf(posted[..i])
    ensures !Insertable(posted)
  {
    if Complete(posted[i]) {
      CatalogOfKeys(posted[..i]);
      var j :| 0 <= j < i && posted[..i][j].name == Some(posted[i].name.value);
      assert posted[j] == posted[..i][j];
      assert posted[j].name == posted[i].name;
    }
  }

  lemma {:induction false} DayStampMonthPlain(date: string)
    requires Clock.IsDayStamp(date)
    ensures Csv.PlainField(Month(date))
  {
    assert Month(date) == date[..7];
  }

  /**
   * The CSV export of a ledger of stamped days: whatever order the unordered
   * query returns the month groups in, the text reads back to those rows, one
   * line per month occurring in the ledger, each with that month's sum, and
   * the totals add up to the whole ledger.
   */
  lemma MonthlyCsvContents(sales: seq<Sale>, rows: seq<Row>)
    requires forall i :: 0 <= i < |sales| ==> Clock.IsDayStamp(sales[i].date)
    requires multiset(rows) == multiset(MonthlyTotals(sales))
    ensures Csv.Parse(Csv.CsvText(rows)) == Some(rows)
    ensures KeysOf(rows) == GroupKeys(ByMonth, sales)
    ensures |rows| == |GroupKeys(ByMonth, sales)|
    ensures forall i :: 0 <= i < |rows| ==> rows[i].total == SumFor(ByMonth, sales, rows[i].key)
    ensures RowsSum(rows) == Total(sales)
  {
    var monthly := MonthlyTotals(sales);
    GroupByRows(ByMonth, sales);
    GroupByCorrect(ByMonth, sales);
    assert |rows| == |monthly| by {
      assert |multiset(rows)| == |multiset(monthly)|;
    }
    forall i | 0 <= i < |rows|
      ensures rows[i].total == SumFor(ByMonth, sales, rows[i].key)
      ensures Csv.PlainField(rows[i].key)
    {
      assert rows[i] in multiset(monthly);
      var j :| 0 <= j < |monthly| && monthly[j] == rows[i];
      IndexInKeysOf(monthly, j);
      GroupKeysIndex(ByMonth, sales, rows[i].key);
      var s :| 0 <= s < |sales| && GroupKey(ByMonth, sales[s]) == rows[i].key;
      DayStampMonthPlain(sales[s].date);
    }
    Csv.ParseCsvText(rows);
    RowsSumPermutation(rows, monthly);
    KeysOfPermutation(rows, monthly);
  }

  class Store {
    var products: map<string, Stock>
    var sales: seq<Sale>

    /**
     * Every recorded sale was stamped with a calendar day and has a non-zero
     * total: `save_sale` is the only writer of `sales`.
     */
    ghost predicate Valid()
      reads this
    {
      forall i :: 0 <= i < |sales| ==> sales[i].total != 0 && Clock.IsDayStamp(sales[i].date)
    }

    /** A new database file after the startup `init_db`: the seed catalogue, no sales. */
    constructor ()
      ensures Valid()
      ensures products == SEED && sales == []
    {
      products := SEED;
      sales := [];
    }

    /** `init_db` on an existing database: seeds the catalogue only if it is empty. */
    method InitDb()
      requires Valid()
      modifies this
      ensures Valid()
      ensures products == Seeded(old(products)) && sales == old(sales)
    {
      if |products| == 0 {
        products := SEED;
      }
    }

    /** `GET /api/products`: the catalogue, behind the PIN. */
    method ListProducts(pin: Option<string>) returns (r: Response)
      ensures r == if PinMatches(pin) then Products(products) else PinRequired
    {
      if !PinMatches(pin) {
        return PinRequired;
      }
      r := Products(products);
    }

    /**
     * `POST /api/products`: deletes every product and inserts the posted list
     * in one transaction. A missing key or a repeated name raises before the
     * commit, the transaction is rolled back and the catalogue stays as it was.
     */
    method ReplaceProducts(pin: Option<string>, posted: seq<Posted>) returns (r: Response)
      requires Valid()
      modifies this
      ensures Valid() && sales == old(sales)
      ensures !PinMatches(pin) ==> r == PinRequired && products == old(products)
      ensures PinMatches(pin) && Insertable(posted) ==> r == Ok && products == CatalogOf(posted)
      ensures PinMatches(pin) && !Insertable(posted) ==> r == ServerError && products == old(products)
    {
      if !PinMatches(pin) {
        return PinRequired;
      }
      var table: map<string, Stock> := map[];
      for i := 0 to |posted|
        invariant unchanged(this)
        invariant Insertable(posted[..i])
        invariant table == CatalogOf(posted[..i])
      {
        var p := posted[i];
        if !Complete(p) || p.name.value in table {
          NotInsertable(posted, i);
          return ServerError;
        }
        InsertableExtend(posted, i);
        table := table[p.name.value := Stock(p.price.value, p.qty.value)];
      }
      assert posted[..|posted|] == posted;
      products := table;
      r := Ok;
    }

    /**
     * `POST /api/sales`: behind the PIN; an absent or zero total is ignored,
     * any other total, negative ones included, appends one row stamped with
     * the day of `now`.
     */
    method SaveSale(pin: Option<string>, total: Option<int>, now: Clock.Date) returns (r: Response)
      requires Valid() && Clock.ValidDate(now)
      modifies this
      ensures Valid() && products == old(products)
      ensures !PinMatches(pin) ==> r == PinRequired && sales == old(sales)
      ensures PinMatches(pin) && (total == None || total == Some(0)) ==> r == Ignored && sales == old(sales)
      ensures PinMatches(pin) && total.Some? && total.value != 0 ==>
                r == Saved && sales == old(sales) + [Sale(Clock.DayStamp(now), total.value)]
    {
      if !PinMatches(pin) {
        return PinRequired;
      }
      var amount := match total case None => 0 case Some(t) => t;
      if amount == 0 {
        return Ignored;
      }
      Clock.DayStampShape(now);
      sales := sales + [Sale(Clock.DayStamp(now), amount)];
      r := Saved;
    }

    /** `GET /api/sales/daily`: not behind the PIN; one row per day, latest first. */
    method DailySales() returns (rows: seq<Row>)
      ensures IsGroupTotals(ByDay, sales, rows)
    {
      rows := DailyTotals(sales);
      GroupByRows(ByDay, sales);
    }

    /** `GET /api/sales/monthly`: not behind the PIN; one row per month, latest first. */
    method MonthlySales() returns (rows: seq<Row>)
      ensures IsGroupTotals(ByMonth, sales, rows)
    {
      rows := MonthlyTotals(sales);
      GroupByRows(ByMonth, sales);
    }

    /** `GET /api/backup`: the database file, behind the PIN. */
    method Backup(pin: Option<string>) returns (r: Response)
      ensures r == if PinMatches(pin) then BackupFile else PinRequired
    {
      r := if PinMatches(pin) then BackupFile else PinRequired;
    }

    /**
     * `GET /api/sales/monthly.csv`: not behind the PIN. The query has no
     * ORDER BY, so the order of the month groups is the caller's `rows`.
     */
    method MonthlyCsv(rows: seq<Row>) returns (csv: string)
      requires Valid()
      requires multiset(rows) == multiset(MonthlyTotals(sales))
      ensures csv == Csv.CsvText(rows)
      ensures Csv.Parse(csv) == Some(rows)
    {
      csv := Csv.Build(rows);
      MonthlyCsvContents(sales, rows);
    }
  }

  lemma ScenarioStamps()
    ensures Clock.DayStamp(Clock.Date(2024, 5, 1)) == "2024-05-01"
    ensures Clock.DayStamp(Clock.Date(2024, 5, 2)) == "2024-05-02"
    ensures Clock.MonthStamp(2024, 5) == "2024-05"
  {
    assert Clock.Pad4(2024) == "2024" && Clock.Pad2(5) == "05";
  }

  lemma ScenarioDaily(d1: Clock.Date, d2: Clock.Date, sales: seq<Sale>)
    requires d1 == Clock.Date(2024, 5, 1) && d2 == Clock.Date(2024, 5, 2)
    requires sales == [Sale(Clock.DayStamp(d1), 30000), Sale(Clock.DayStamp(d2), 15000)]
    ensures DailyTotals(sales) == [Row(Clock.DayStamp(d2), 15000), Row(Clock.DayStamp(d1), 30000)]
  {
    var s1, s2 := Clock.DayStamp(d1), Clock.DayStamp(d2);
    Clock.DayStampOrder(d2, d1);
    Clock.DayStampInjective(d1, d2);
    assert sales[1..] == [Sale(s2, 15000)] && sales[1..][1..] == [];
    assert DailyTotals(sales[1..][1..]) == [];
    var later := [Row(s2, 15000)];
    assert DailyTotals(sales[1..]) == later;
    assert later[1..] == [];
    assert Insert(later, s1, 30000) == [later[0]] + Insert(later[1..], s1, 30000);
  }

  lemma ScenarioMonthly(d1: Clock.Date, d2: Clock.Date, sales: seq<Sale>)
    requires d1 == Clock.Date(2024, 5, 1) && d2 == Clock.Date(2024, 5, 2)
    requires sales == [Sale(Clock.DayStamp(d1), 30000), Sale(Clock.DayStamp(d2), 15000)]
    ensures MonthlyTotals(sales) == [Row(Clock.MonthStamp(2024, 5), 45000)]
  {
    Clock.MonthOfDayStamp(d1);
    Clock.MonthOfDayStamp(d2);
    assert sales[1..] == [Sale(Clock.DayStamp(d2), 15000)] && sales[1..][1..] == [];
    assert MonthlyTotals(sales[1..][1..]) == [];
    assert MonthlyTotals(sales[1..]) == [Row(Clock.MonthStamp(2024, 5), 15000)];
  }

  lemma ScenarioDecimal()
    ensures Csv.IntToString(45000) == "45000"
  {
    assert Csv.NatToString(4) == "4";
    assert Csv.NatToString(45) == "45";
    assert Csv.NatToString(450) == "450";
    assert Csv.NatToString(4500) == "4500";
  }

  lemma ScenarioCsv()
    ensures Csv.CsvText([Row("2024-05", 45000)]) == "month,total\n2024-05,45000\n"
  {
    ScenarioDecimal();
    var row := Row("2024-05", 45000);
    assert Csv.Line(row) == "2024-05,45000\n";
    assert [row][1..] == [];
    assert Csv.Lines([row]) == Csv.Line(row) + Csv.Lines([]);
  }

  /**
   * A client of the handlers: a new store, a request without the PIN, a
   * missing total, then two sales in May 2024 of 30000 and 15000. The daily
   * query lists the later day first and the export holds the month's sum.
   */
  method SalesScenario() returns (daily: seq<Row>, csv: string)
    ensures daily == [Row("2024-05-02", 15000), Row("2024-05-01", 30000)]
    ensures csv == "month,total\n2024-05,45000\n"
  {
    var store := new Store();
    assert store.products["bia"] == Stock(10000, 0);
    var r := store.SaveSale(None, Some(30000), Clock.Date(2024, 5, 1));
    assert r == PinRequired && store.sales == [];
    r := store.SaveSale(Some(APP_PIN), None, Clock.Date(2024, 5, 1));
    assert r == Ignored && store.sales == [];
    r := store.SaveSale(Some(APP_PIN), Some(30000), Clock.Date(2024, 5, 1));
    r := store.SaveSale(Some(APP_PIN), Some(15000), Clock.Date(2024, 5, 2));
    assert r == Saved;
    ScenarioStamps();
    ScenarioDaily(Clock.Date(2024, 5, 1), Clock.Date(2024, 5, 2), store.sales);
    ScenarioMonthly(Clock.Date(2024, 5, 1), Clock.Date(2024, 5, 2), store.sales);
    daily := store.DailySales();
    GroupByCharacterized(ByDay, store.sales, daily);
    csv := store.MonthlyCsv([Row("2024-05", 45000)]);
    ScenarioCsv();
  }

}
