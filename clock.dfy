/**
 * The day stamp a sale receives: the server clock formatted with
 * `strftime("%Y-%m-%d")` (app.py:122). The clock itself is not modelled; a
 * date is passed in.
 */
module Clock {
  import opened Text

  datatype Date = Date(year: int, month: int, day: int)

  /** A calendar date whose year `%Y` writes with exactly four digits. */
  predicate ValidDate(d: Date) {
    1000 <= d.year <= 9999 && 1 <= d.month <= 12 && 1 <= d.day <= 31
  }

  /** `d` is earlier than `e` on the calendar. */
  predicate Before(d: Date, e: Date) {
    d.year < e.year
    || (d.year == e.year && (d.month < e.month || (d.month == e.month && d.day < e.day)))
  }

  function Digit(n: int): (c: char)
    requires 0 <= n < 10
    ensures '0' <= c <= '9'
  {
    ('0' as int + n) as char
  }

  /** `n` written with exactly two digits, as `%m` and `%d` do. */
  function Pad2(n: int): (s: string)
    requires 0 <= n < 100
    ensures |s| == 2
  {
    [Digit(n / 10), Digit(n % 10)]
  }

  /** `n` written with exactly four digits, as `%Y` does for these years. */
  function Pad4(n: int): (s: string)
    requires 0 <= n < 10000
    ensures |s| == 4
  {
    Pad2(n / 100) + Pad2(n % 100)
  }

  /** The `%Y-%m-%d` text of a date. */
  function DayStamp(d: Date): (s: string)
    requires ValidDate(d)
    ensures |s| == 10 && s[4] == '-' && s[7] == '-'
  {
    Pad4(d.year) + "-" + Pad2(d.month) + "-" + Pad2(d.day)
  }

  /** The `%Y-%m` text of a year and month. */
  function MonthStamp(year: int, month: int): (s: string)
    requires 1000 <= year <= 9999 && 1 <= month <= 12
    ensures |s| == 7 && s[4] == '-'
  {
    Pad4(year) + "-" + Pad2(month)
  }

  /** The shape every stamped date has: `DDDD-DD-DD` with decimal digits `D`. */
  predicate IsDayStamp(s: string) {
    |s| == 10
    && (forall i :: 0 <= i < 10 && i != 4 && i != 7 ==> '0' <= s[i] <= '9')
    && s[4] == '-' && s[7] == '-'
  }

  lemma DayStampShape(d: Date)
    requires ValidDate(d)
    ensures IsDayStamp(DayStamp(d))
  {
    var s := DayStamp(d);
    var y, m, dd := Pad4(d.year), Pad2(d.month), Pad2(d.day);
    assert s == y + "-" + m + "-" + dd;
    assert y == Pad2(d.year / 100) + Pad2(d.year % 100);
    assert s[0] == y[0] && s[1] == y[1] && s[2] == y[2] && s[3] == y[3];
    assert s[5] == m[0] && s[6] == m[1] && s[8] == dd[0] && s[9] == dd[1];
  }

  /** `substr(date, 1, 7)` of a day stamp is the stamp of its month. */
  lemma MonthOfDayStamp(d: Date)
    requires ValidDate(d)
    ensures Month(DayStamp(d)) == MonthStamp(d.year, d.month)
  {
    var s := DayStamp(d);
    assert s == MonthStamp(d.year, d.month) + ("-" + Pad2(d.day));
  }

  lemma Pad2Order(m: int, n: int)
    requires 0 <= m < 100 && 0 <= n < 100
    ensures Less(Pad2(m), Pad2(n)) <==> m < n
  {
    var a, b := Pad2(m), Pad2(n);
    assert a == [a[0]] + [a[1]] && b == [b[0]] + [b[1]];
    LessConcat([a[0]], [a[1]], [b[0]], [b[1]]);
    assert Less([a[0]], [b[0]]) <==> a[0] < b[0] by {
      assert [a[0]][1..] == [] && [b[0]][1..] == [];
    }
    assert Less([a[1]], [b[1]]) <==> a[1] < b[1] by {
      assert [a[1]][1..] == [] && [b[1]][1..] == [];
    }
    assert m == (m / 10) * 10 + m % 10 && n == (n / 10) * 10 + n % 10;
  }

  lemma Pad4Order(m: int, n: int)
    requires 0 <= m < 10000 && 0 <= n < 10000
    ensures Less(Pad4(m), Pad4(n)) <==> m < n
  {
    LessConcat(Pad2(m / 100), Pad2(m % 100), Pad2(n / 100), Pad2(n % 100));
    Pad2Order(m / 100, n / 100);
    Pad2Order(m % 100, n % 100);
    Pad2Injective(m / 100, n / 100);
    assert m == (m / 100) * 100 + m % 100 && n == (n / 100) * 100 + n % 100;
  }

  lemma Pad2Injective(m: int, n: int)
    requires 0 <= m < 100 && 0 <= n < 100
    ensures Pad2(m) == Pad2(n) <==> m == n
  {
    if m != n {
      Pad2Order(m, n);
      Pad2Order(n, m);
      LessIrreflexive(Pad2(m));
    }
  }

  lemma Pad4Injective(m: int, n: int)
    requires 0 <= m < 10000 && 0 <= n < 10000
    ensures Pad4(m) == Pad4(n) <==> m == n
  {
    if m != n {
      Pad4Order(m, n);
      Pad4Order(n, m);
      LessIrreflexive(Pad4(m));
    }
  }

  /**
   * The text order of two stamps is the calendar order of their dates, so
   * `ORDER BY date DESC` lists the most recent day first.
   */
  lemma DayStampOrder(d: Date, e: Date)
    requires ValidDate(d) && ValidDate(e)
    ensures Less(DayStamp(d), DayStamp(e)) <==> Before(d, e)
  {
    var y1, m1, d1 := Pad4(d.year), Pad2(d.month), Pad2(d.day);
    var y2, m2, d2 := Pad4(e.year), Pad2(e.month), Pad2(e.day);
    assert DayStamp(d) == y1 + ("-" + m1 + "-" + d1);
    assert DayStamp(e) == y2 + ("-" + m2 + "-" + d2);
    LessConcat(y1, "-" + m1 + "-" + d1, y2, "-" + m2 + "-" + d2);
    LessConcat("-", m1 + "-" + d1, "-", m2 + "-" + d2);
    assert ("-" + m1 + "-" + d1) == "-" + (m1 + "-" + d1);
    assert ("-" + m2 + "-" + d2) == "-" + (m2 + "-" + d2);
    LessIrreflexive("-");
    assert m1 + "-" + d1 == m1 + ("-" + d1) && m2 + "-" + d2 == m2 + ("-" + d2);
    LessConcat(m1, "-" + d1, m2, "-" + d2);
    LessConcat("-", d1, "-", d2);
    Pad4Order(d.year, e.year);
    Pad4Injective(d.year, e.year);
    Pad2Order(d.month, e.month);
    Pad2Injective(d.month, e.month);
    Pad2Order(d.day, e.day);
  }

  /** Different days get different stamps, so a daily group is one calendar day. */
  lemma DayStampInjective(d: Date, e: Date)
    requires ValidDate(d) && ValidDate(e)
    ensures DayStamp(d) == DayStamp(e) <==> d == e
  {
    if d != e {
      DayStampOrder(d, e);
      DayStampOrder(e, d);
      LessIrreflexive(DayStamp(d));
    }
  }

}
