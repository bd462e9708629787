# MiniStore ledger in Dafny

A model of the ledger behind the MiniStore point-of-sale backend (`app.py`).
The backend keeps two SQLite tables:

- `products`: keyed by name, holding a price and a quantity;
- `sales`: keyless rows of (day, total).

Its startup code (`init_db`) seeds the products table; its HTTP handlers
replace, append to and summarise the tables. The model keeps the tables as the fields of a class, `MiniStore.Store`:

- `products: map<string, Stock>` is the table with its primary key;
- `sales: seq<Sale>` is the keyless table, where duplicate rows are allowed.

Each handler is one method that makes one atomic step over the store. The
PIN-gated handlers (products, `save_sale`, backup) return a `Response`
(`PinRequired | Ignored | Saved | Ok | Products | BackupFile | ServerError`)
in place of a JSON body and a status code. The open reports return their data
directly: `Store.DailySales` and `Store.MonthlySales` a `seq<Row>`,
`Store.MonthlyCsv` the CSV text as a `string`.

The helpers and the SQL the handlers run are written out as functions:

- `MiniStore.PinMatches`: `require_pin`, the `X-PIN` header against `"1234"`.
- `MiniStore.Seeded`: the seeding step of `init_db`.
- `MiniStore.CatalogOf`: the catalogue the `INSERT` loop of a replace builds.

- `Text.Less`: the BINARY collation that `ORDER BY … DESC` sorts with.
- `Text.Month`: `substr(date,1,7)`.
- `Aggregation.GroupBy`: `GROUP BY … SUM(total) … ORDER BY … DESC`, computed by
  inserting each sale into a list of groups kept in descending order.
- `Clock.DayStamp`: `strftime("%Y-%m-%d")`.
- `Csv.IntToString`: Python's `str` of an integer, as the CSV writes totals.
- `Csv.CsvText`: the CSV export.

The lemmas prove what the queries promise:

- one row per distinct key;
- each row holds the sum of its sales;
- keys strictly descending;
- the result is exactly what the SQL semantics prescribe (both directions);
- grand totals agree between the daily rows, the monthly rows and the sales;
- the CSV text parses back to its rows;
- seeding is idempotent;
- a replace either installs exactly the posted catalogue or leaves the old one.

Modules, leaf first: `Wrappers` (Option), `Text`, `Clock`, `Aggregation`,
`Csv`, `MiniStore`.

## What the code does not do

The ledger is smaller than a point-of-sale ledger often is, and the model
keeps to what `app.py` does:

- `save_sale` takes only a total. A sale has no identifier, no line items,
  no duplicate check and no stock deduction.
- Only a total equal to 0 (or absent) is ignored (app.py:116). Negative
  totals are saved.
- The CSV query at app.py:158-161 has no `ORDER BY`, so the order of its
  groups is not fixed. The model leaves the row order to the caller
  (`Store.MonthlyCsv` takes any permutation of the monthly groups).
- There is no `meta` table and no migration. `init_db` only creates the
  tables and seeds the products.

## Model

| member | source | states |
|---|---|---|
| `Text.LessIrreflexive` | app.py:131-134 | no date sorts before itself under the BINARY collation |
| `Text.LessTransitive` | app.py:131-134 | the collation order is transitive |
| `Text.LessAsymmetric` | app.py:141-144 | two keys are never each before the other |
| `Text.LessTotal` | app.py:141-144 | any two different keys are ordered one way or the other, so `ORDER BY … DESC` is determined |
| `Text.Month` | app.py:142 | `substr(date,1,7)` is the prefix of the date of length 7, or the whole date when it is shorter |
| `Text.MonthMonotone` | app.py:131-144 | a later day never falls in an earlier month: the daily and monthly orders agree |
| `Clock.DayStamp` | app.py:122 | `%Y-%m-%d` has 10 characters with dashes at positions 4 and 7 |
| `Clock.DayStampShape` | app.py:122 | every stamp is four digits, a dash, two digits, a dash and two digits |
| `Clock.MonthOfDayStamp` | app.py:122 | `substr(stamp,1,7)` of a day stamp is the `%Y-%m` stamp of its month |
| `Clock.DayStampOrder` | app.py:122 | the text order of two stamps is the calendar order of their dates (both directions), so `ORDER BY date DESC` is newest day first |
| `Clock.DayStampInjective` | app.py:122 | two stamps are equal exactly when their dates are, so a daily group is one calendar day |
| `Aggregation.GroupByCorrect` | app.py:131-134 | the grouped query is strictly descending; its keys are the keys occurring in the sales; each key's total is the sum of its sales; the rows add up to all sales |
| `Aggregation.GroupByRows` | app.py:141-144 | one row per distinct key (as many rows as keys); each row's total is the sum of the sales with that key; keys strictly descending |
| `Aggregation.GroupByCharacterized` | app.py:131-144 | a row sequence is the query result exactly when it is descending, has one row per occurring key and each row carries that key's sum |
| `Aggregation.DescendingCardinality` | app.py:133 | a result strictly descending by key repeats no key |
| `Aggregation.GrandTotals` | app.py:131-144 | the daily rows, the monthly rows and the sales all have the same grand total |
| `Aggregation.MonthFromDays` | app.py:131-144 | a month's total equals the sum of the daily totals of the days in that month |
| `Aggregation.AppendSale` | app.py:120-123 | appending a sale adds its total to its own group only and adds its key to the set of groups |
| `Aggregation.AppendSaleTotals` | app.py:120-144 | after a sale is recorded, its day's and its month's totals rise by its amount and no other day or month changes |
| `Aggregation.RowsSumPermutation` | app.py:158-161 | the grand total of a result does not depend on the order of its rows |
| `Csv.IntToStringRoundTrip` | app.py:166 | the decimal text written for a total reads back to the same integer, negatives included |
| `Csv.Build` | app.py:164-166 | the `csv +=` loop yields the header followed by one line per row, in the given order |
| `Csv.ParseCsvText` | app.py:164-166 | the export reads back to exactly the rows it was written from, in their order, when no month holds a comma or newline |
| `Csv.CsvLineCount` | app.py:164-166 | when no month holds a newline, the export has exactly one newline for the header and one per row |
| `MiniStore.SeedingIdempotent` | app.py:49-59 | seeding never leaves the catalogue empty and never touches a non-empty one, so a second run changes nothing |
| `MiniStore.CatalogOfKeys` | app.py:95-100 | the names of the built catalogue are exactly the names in the posted list |
| `MiniStore.CatalogOfValues` | app.py:95-100 | in a list without missing keys or repeated names, each posted name maps to the price and quantity posted with it |
| `MiniStore.MonthlyCsvContents` | app.py:155-166 | in any order the unordered query returns the months, the export parses back to those rows; their keys are exactly the months occurring in the ledger, one row per month, each with that month's sum, adding up to all sales |
| `MiniStore.Store.constructor` | app.py:31-64 | a new database after the startup `init_db` holds the three seed products and no sales |
| `MiniStore.Store.InitDb` | app.py:31-62 | `init_db` seeds the catalogue only when it is empty and leaves the sales alone |
| `MiniStore.Store.ListProducts` | app.py:84-107 | `GET /api/products` returns the catalogue with the PIN and `PinRequired` without it, changing nothing |
| `MiniStore.Store.ReplaceProducts` | app.py:84-103 | without the PIN nothing changes; with it a clean list becomes exactly the catalogue; a missing key or a repeated name aborts before the commit and leaves the old catalogue; sales never change |
| `MiniStore.Store.SaveSale` | app.py:110-126 | without the PIN nothing changes; an absent or zero total is `Ignored` with no change; any other total, negative included, appends exactly one row (today's stamp, total); products never change |
| `MiniStore.Store.DailySales` | app.py:128-136 | not behind the PIN; returns one row per day with that day's sum, strictly descending |
| `MiniStore.Store.MonthlySales` | app.py:138-146 | not behind the PIN; returns one row per month with that month's sum, strictly descending |
| `MiniStore.Store.Backup` | app.py:149-153 | the backup is handed out only with the PIN and changes nothing either way |
| `MiniStore.Store.MonthlyCsv` | app.py:155-166 | not behind the PIN; the returned text is the export of the given month groups and parses back to them |
| `MiniStore.SalesScenario` | app.py:110-166 | a sale without the PIN and one without a total are not saved; sales of 30000 on 2024-05-01 and 15000 on 2024-05-02 give daily rows latest first and the export `month,total\n2024-05,45000\n` |

## Left out

- Flask routing, `jsonify`, request and response objects and HTTP status
  codes are not modelled. A handler's outcome is a `Response` value, or for
  the open reports the rows or the text they return.
- The sqlite3 connection lifecycle (`get_db`, `commit`, `close`) is not
  modelled. Each handler is one atomic step. A rolled-back transaction is a
  step that leaves the state unchanged.
- The `datetime.now()` clock is not modelled. The date is a parameter of
  `SaveSale`.
- File output is not modelled: creating the data directory, writing
  `monthly.csv` and `send_file` for the backup and the CSV download. These
  are I/O; the backup is the constant `BackupFile`.
- The `health` and `unlock` endpoints are not modelled. `health` returns a
  constant; `unlock` only compares a posted PIN with `APP_PIN` and changes
  no state.
- Concurrency between requests is not modelled. The code has none of its own.
- `CREATE TABLE IF NOT EXISTS` is not modelled. The store always has both
  tables.
- MiniStore.Store.SaveSale: models the total as an absent key or an integer. Other JSON values
  (booleans, floats, `null`, strings) are not modelled. They pass or fail the
  `== 0` test by Python's rules, and the `total INTEGER` column (app.py:45)
  converts what it can. For example, the string `"0"` is not equal to 0, so
  it is saved and stored as the integer 0. That is a zero row, which the
  model's `Valid()` rules out. A body that is not a JSON object (a 500 error)
  is not modelled either.
- MiniStore.Store.SaveSale: requires a date whose year has four digits (1000 to 9999).
  Python's `%Y` padding for earlier years depends on the platform.
- MiniStore.Store.ReplaceProducts: models each posted field as absent or a value of the column's
  type. JSON `null`s and values of other types are not modelled, nor is the
  conversion the column affinities (app.py:36-38) apply to them. A body that
  is not a list is not modelled, and neither is a list element that is not
  an object (where `p["name"]` raises, the handler fails with a 500 and the
  change is rolled back).
- Totals, prices and quantities are unbounded integers. SQLite's 64-bit
  INTEGER limit and the overflow error of `SUM` are not modelled.
- The second PIN check inside the `POST` branch (app.py:92-93) is not
  modelled separately. It can never fail once the first check (app.py:86-87)
  has passed.
- The row order of `GET /api/products` (`SELECT *` without `ORDER BY`) is not
  modelled. The catalogue is returned as a map.
