/**
 * The monthly CSV export (app.py:158-166): a `month,total` header line, then
 * one `month,total` line per group, each ending in a newline, the total
 * written as Python's `str` of an integer.
 *
 * `Parse` reads such a text back; `ParseCsvText` shows that it recovers the
 * rows, in their order, whenever no month contains a comma or a newline.
 */
module Csv {
  import opened Wrappers
  import opened Aggregation
  import Clock

  const HEADER: string := "month,total\n"

  // ---------------------------------------------------------------- decimal

  /** The decimal digits of `n`, most significant first, without leading zeros. */
  function NatToString(n: nat): string
    decreases n
  {
    if n < 10 then [Clock.Digit(n)] else NatToString(n / 10) + [Clock.Digit(n % 10)]
  }

  /** Python's `str(n)` for an integer: a minus sign, then the digits of `|n|`. */
  function IntToString(n: int): string {
    if n < 0 then "-" + NatToString(-n) else NatToString(n)
  }

  predicate IsDigits(s: string) {
    |s| > 0 && forall i :: 0 <= i < |s| ==> '0' <= s[i] <= '9'
  }

  /** The number a string of decimal digits denotes. */
  function DigitsValue(s: string): nat
    requires forall i :: 0 <= i < |s| ==> '0' <= s[i] <= '9'
    decreases |s|
  {
    if s == [] then 0
    else DigitsValue(s[..|s| - 1]) * 10 + (s[|s| - 1] as int - '0' as int)
  }

  /** Reads an optionally negative decimal integer; `None` for anything else. */
  function ParseInt(s: string): Option<int> {
    if |s| > 0 && s[0] == '-' then
      if IsDigits(s[1..]) then Some(-(DigitsValue(s[1..]) as int)) else None
    else if IsDigits(s) then Some(DigitsValue(s))
    else None
  }

  lemma {:induction false} NatToStringValue(n: nat)
    ensures IsDigits(NatToString(n))
    ensures DigitsValue(NatToString(n)) == n
    decreases n
  {
    var s := NatToString(n);
    if n >= 10 {
      NatToStringValue(n / 10);
      assert s[..|s| - 1] == NatToString(n / 10);
    }
  }

  /** Writing an integer and reading it back gives the same integer. */
  lemma IntToStringRoundTrip(n: int)
    ensures ParseInt(IntToString(n)) == Some(n)
  {
    if n < 0 {
      NatToStringValue(-n);
      assert IntToString(n)[1..] == NatToString(-n);
    } else {
      NatToStringValue(n);
    }
  }

  // ---------------------------------------------------------------- writing

  /** `f"{month},{total}\n"` */
  function Line(r: Row): string {
    r.key + "," + IntToString(r.total) + "\n"
  }

  function Lines(rows: seq<Row>): string {
    if rows == [] then "" else Line(rows[0]) + Lines(rows[1..])
  }

  /** The whole export: the header, then one line per row in the given order. */
  function CsvText(rows: seq<Row>): string {
    HEADER + Lines(rows)
  }

  lemma {:induction false} LinesAppend(rows: seq<Row>, r: Row)
    ensures Lines(rows + [r]) == Lines(rows) + Line(r)
  {
    if rows != [] {
      assert (rows + [r])[1..] == rows[1..] + [r];
      LinesAppend(rows[1..], r);
    }
  }

  lemma BuildStep(rows: seq<Row>, i: int)
    requires 0 <= i < |rows|
    ensures HEADER + Lines(rows[..i + 1]) == (HEADER + Lines(rows[..i])) + Line(rows[i])
  {
    assert rows[..i + 1] == rows[..i] + [rows[i]];
    LinesAppend(rows[..i], rows[i]);
  }

  /** Builds the export line by line with `csv +=`, as app.py:164-166 does. */
  method Build(rows: seq<Row>) returns (csv: string)
    ensures csv == CsvText(rows)
  {
    csv := HEADER;
    for i := 0 to |rows|
      invariant csv == HEADER + Lines(rows[..i])
    {
      BuildStep(rows, i);
      csv := csv + Line(rows[i]);
    }
    assert rows[..|rows|] == rows;
  }

  // ---------------------------------------------------------------- reading

  /** A field that neither a comma nor a newline can cut short. */
  predicate PlainField(s: string) {
    forall i :: 0 <= i < |s| ==> s[i] != ',' && s[i] != '\n'
  }

  /** The position of the first `c` in `s`, or `|s|` when there is none. */
  function IndexOf(s: string, c: char): (i: nat)
    ensures i <= |s|
    ensures i < |s| ==> s[i] == c
    ensures forall j :: 0 <= j < i ==> s[j] != c
  {
    if s == [] then 0 else if s[0] == c then 0 else 1 + IndexOf(s[1..], c)
  }

  /** Splits `month,total` at its first comma. */
  function ParseLine(line: string): Option<Row> {
    var k := IndexOf(line, ',');
    if k == |line| then None
    else match ParseInt(line[k + 1..])
      case None => None
      case Some(t) => Some(Row(line[..k], t))
  }

  /** Reads newline-terminated lines until the text is used up. */
  function ParseLines(body: string): Option<seq<Row>>
    decreases |body|
  {
    if body == [] then Some([])
    else
      var n := IndexOf(body, '\n');
      if n == |body| then None
      else match ParseLine(body[..n])
        case None => None
        case Some(r) =>
          match ParseLines(body[n + 1..])
          case None => None
          case Some(rs) => Some([r] + rs)
  }

  /** Reads an export: the header, then its rows. */
  function Parse(text: string): Option<seq<Row>> {
    if |text| >= |HEADER| && text[..|HEADER|] == HEADER then ParseLines(text[|HEADER|..]) else None
  }

  lemma IntToStringPlain(n: int)
    ensures PlainField(IntToString(n))
  {
    var s := IntToString(n);
    if n < 0 {
      NatToStringValue(-n);
      forall i | 0 <= i < |s| ensures s[i] != ',' && s[i] != '\n' {
        if i > 0 {
          assert s[i] == NatToString(-n)[i - 1];
        }
      }
    } else {
      NatToStringValue(n);
    }
  }

  lemma ParseOneLine(r: Row)
    requires PlainField(r.key)
    ensures ParseLine(r.key + "," + IntToString(r.total)) == Some(r)
  {
    var line := r.key + "," + IntToString(r.total);
    var k := IndexOf(line, ',');
    assert line[|r.key|] == ',';
    assert k == |r.key|;
    assert line[..k] == r.key;
    assert line[k + 1..] == IntToString(r.total);
    IntToStringRoundTrip(r.total);
  }

  /** The text of a line before its newline holds no newline. */
  lemma LineFrontPlain(r: Row)
    requires PlainField(r.key)
    ensures forall i :: 0 <= i < |r.key + "," + IntToString(r.total)| ==>
      (r.key + "," + IntToString(r.total))[i] != '\n'
  {
    IntToStringPlain(r.total);
    var front := r.key + "," + IntToString(r.total);
    forall i | 0 <= i < |front| ensures front[i] != '\n' {
      if i < |r.key| {
        assert front[i] == r.key[i];
      } else if i > |r.key| {
        assert front[i] == IntToString(r.total)[i - |r.key| - 1];
      }
    }
  }

  /** The first newline of `Line(r) + rest` ends `Line(r)`. */
  lemma SplitLine(r: Row, rest: string)
    requires PlainField(r.key)
    ensures IndexOf(Line(r) + rest, '\n') == |Line(r)| - 1
    ensures (Line(r) + rest)[..|Line(r)| - 1] == r.key + "," + IntToString(r.total)
    ensures (Line(r) + rest)[|Line(r)|..] == rest
  {
    var front := r.key + "," + IntToString(r.total);
    var body := Line(r) + rest;
    assert body == front + ("\n" + rest);
    LineFrontPlain(r);
    assert body[|front|] == '\n';
  }

  lemma {:induction false} ParseLinesOf(rows: seq<Row>)
    requires forall i :: 0 <= i < |rows| ==> PlainField(rows[i].key)
    ensures ParseLines(Lines(rows)) == Some(rows)
  {
    if rows != [] {
      var r := rows[0];
      var rest := Lines(rows[1..]);
      assert Lines(rows) == Line(r) + rest;
      SplitLine(r, rest);
      ParseOneLine(r);
      ParseLinesOf(rows[1..]);
      assert [r] + rows[1..] == rows;
    }
  }

  /**
   * The export is read back to exactly the rows it was written from, in their
   * order: it holds the header and one line per row, nothing more.
   */
  lemma ParseCsvText(rows: seq<Row>)
    requires forall i :: 0 <= i < |rows| ==> PlainField(rows[i].key)
    ensures Parse(CsvText(rows)) == Some(rows)
  {
    var text := CsvText(rows);
    assert text[..|HEADER|] == HEADER;
    assert text[|HEADER|..] == Lines(rows);
    ParseLinesOf(rows);
  }

  /** The number of occurrences of `c` in `s`. */
  function Count(s: string, c: char): nat {
    if s == [] then 0 else (if s[0] == c then 1 else 0) + Count(s[1..], c)
  }

  lemma {:induction false} CountConcat(a: string, b: string, c: char)
    ensures Count(a + b, c) == Count(a, c) + Count(b, c)
  {
    if a == [] {
      assert a + b == b;
    } else {
      assert (a + b)[1..] == a[1..] + b;
      CountConcat(a[1..], b, c);
    }
  }

  lemma {:induction false} CountAbsent(s: string, c: char)
    requires forall i :: 0 <= i < |s| ==> s[i] != c
    ensures Count(s, c) == 0
  {
    if s != [] {
      CountAbsent(s[1..], c);
    }
  }

  /** The export has one newline for the header and one per row. */
  lemma {:induction false} CsvLineCount(rows: seq<Row>)
    requires forall i :: 0 <= i < |rows| ==> PlainField(rows[i].key)
    ensures Count(CsvText(rows), '\n') == |rows| + 1
  {
    LinesCount(rows);
    CountConcat(HEADER, Lines(rows), '\n');
    HeaderCount();
  }

  /** A string whose only `c` is its last character holds `c` once. */
  lemma CountLastOnly(s: string, c: char)
    requires |s| > 0 && s[|s| - 1] == c
    requires forall i :: 0 <= i < |s| - 1 ==> s[i] != c
    ensures Count(s, c) == 1
  {
    var n := |s| - 1;
    assert s == s[..n] + [c];
    CountConcat(s[..n], [c], c);
    CountAbsent(s[..n], c);
    assert [c][1..] == [];
  }

  lemma HeaderCount()
    ensures Count(HEADER, '\n') == 1
  {
    CountLastOnly(HEADER, '\n');
  }

  lemma {:induction false} LinesCount(rows: seq<Row>)
    requires forall i :: 0 <= i < |rows| ==> PlainField(rows[i].key)
    ensures Count(Lines(rows), '\n') == |rows|
  {
    if rows != [] {
      var r := rows[0];
      var front := r.key + "," + IntToString(r.total);
      LineFrontPlain(r);
      CountAbsent(front, '\n');
      assert Lines(rows) == front + ("\n" + Lines(rows[1..]));
      CountConcat(front, "\n" + Lines(rows[1..]), '\n');
      CountConcat("\n", Lines(rows[1..]), '\n');
      LinesCount(rows[1..]);
    }
  }

}
