/**
 * The two string operations the ledger's SQL relies on: the BINARY collation
 * that `ORDER BY date DESC` and `ORDER BY month DESC` sort with, and
 * `substr(date, 1, 7)`, which cuts a date down to its month.
 *
 * SQLite's BINARY collation compares the UTF-8 bytes with memcmp, and a string
 * that is a proper prefix of another sorts first. UTF-8 byte order coincides
 * with code-point order, so on `seq<char>` it is the lexicographic order on
 * characters.
 */
module Text {

  /** `a` sorts strictly before `b` under the BINARY collation. */
  predicate Less(a: string, b: string)
    decreases |a|
  {
    if |a| == 0 then |b| > 0
    else if |b| == 0 then false
    else if a[0] != b[0] then a[0] < b[0]
    else Less(a[1..], b[1..])
  }

  lemma {:induction false} LessIrreflexive(a: string)
    ensures !Less(a, a)
    decreases |a|
  {
    if |a| > 0 {
      LessIrreflexive(a[1..]);
    }
  }

  lemma {:induction false} LessTransitive(a: string, b: string, c: string)
    requires Less(a, b) && Less(b, c)
    ensures Less(a, c)
    decreases |a|
  {
    if |a| > 0 && a[0] == b[0] && b[0] == c[0] {
      LessTransitive(a[1..], b[1..], c[1..]);
    }
  }

  lemma {:induction false} LessAsymmetric(a: string, b: string)
    requires Less(a, b)
    ensures !Less(b, a)
    decreases |a|
  {
    if |a| > 0 && a[0] == b[0] {
      LessAsymmetric(a[1..], b[1..]);
    }
  }

  /** Two different strings are always ordered one way or the other. */
  lemma {:induction false} LessTotal(a: string, b: string)
    requires a != b
    ensures Less(a, b) || Less(b, a)
    decreases |a|
  {
    if |a| > 0 && |b| > 0 && a[0] == b[0] {
      assert a == [a[0]] + a[1..] && b == [b[0]] + b[1..];
      LessTotal(a[1..], b[1..]);
    }
  }

  /**
   * Comparing two strings that start with parts of the same length compares
   * those parts first and the remainders only on a tie.
   */
  lemma {:induction false} LessConcat(a1: string, b1: string, a2: string, b2: string)
    requires |a1| == |a2|
    ensures Less(a1 + b1, a2 + b2) <==> Less(a1, a2) || (a1 == a2 && Less(b1, b2))
    decreases |a1|
  {
    if |a1| == 0 {
      assert a1 + b1 == b1 && a2 + b2 == b2;
    } else {
      assert (a1 + b1)[0] == a1[0] && (a2 + b2)[0] == a2[0];
      assert (a1 + b1)[1..] == a1[1..] + b1;
      assert (a2 + b2)[1..] == a2[1..] + b2;
      LessConcat(a1[1..], b1, a2[1..], b2);
      if a1[0] == a2[0] {
        assert a1 == a2 <==> a1[1..] == a2[1..] by {
          assert a1 == [a1[0]] + a1[1..] && a2 == [a2[0]] + a2[1..];
        }
      }
    }
  }

  /** The first `n` characters of `s`, or all of `s` if it is shorter. */
  function Take(s: string, n: nat): (r: string)
    ensures |r| == if |s| < n then |s| else n
    ensures r <= s
  {
    if |s| <= n then s else s[..n]
  }

  /** `substr(date, 1, 7)`: the `YYYY-MM` part of a `YYYY-MM-DD` date. */
  function Month(date: string): (m: string)
    ensures |m| == if |date| < 7 then |date| else 7
    ensures m <= date
  {
    Take(date, 7)
  }

  /** Cutting strings to a common length never reverses their order. */
  lemma {:induction false} TakeMonotone(a: string, b: string, n: nat)
    requires Less(a, b)
    ensures Take(a, n) == Take(b, n) || Less(Take(a, n), Take(b, n))
    decreases n
  {
    if n > 0 && |a| > 0 && |b| > 0 && a[0] == b[0] {
      TakeMonotone(a[1..], b[1..], n - 1);
      assert Take(a, n) == [a[0]] + Take(a[1..], n - 1);
      assert Take(b, n) == [b[0]] + Take(b[1..], n - 1);
    } else if n > 0 && |a| > 0 && |b| > 0 {
      assert Take(a, n)[0] == a[0] && Take(b, n)[0] == b[0];
    }
  }

  /**
   * The month order agrees with the day order: a later day never falls in an
   * earlier month, so the daily and the monthly query list periods in the same
   * direction.
   */
  lemma MonthMonotone(a: string, b: string)
    requires Less(a, b)
    ensures Month(a) == Month(b) || Less(Month(a), Month(b))
  {
    TakeMonotone(a, b, 7);
  }

}
