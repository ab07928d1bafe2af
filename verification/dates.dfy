/**
 * Timestamps of applications and the "Mon YYYY" bucket label the dashboard
 * derives from them with `toLocaleDateString('en-US', { month: 'short',
 * year: 'numeric' })`.
 */
module Dates {

  /**
   * A calendar year of the common era. Years before 1 are left out: `en-US`
   * formatting prints them as era years, so year 0 would share the label of
   * year 1.
   */
  type Year = y: nat | y >= 1 witness 1

  /** A calendar month, 1 = January. */
  type Month = m: nat | 1 <= m <= 12 witness 1

  /**
   * A point in time: the calendar year and month it falls in, and its
   * distance (in milliseconds) from the start of that month.
   */
  datatype Timestamp = Timestamp(year: Year, month: Month, offset: nat)

  /** `a` is the same instant as `b` or later (the order `orderBy: 'desc'` uses). */
  predicate AtOrAfter(a: Timestamp, b: Timestamp)
  {
    || a.year > b.year
    || (a.year == b.year && a.month > b.month)
    || (a.year == b.year && a.month == b.month && a.offset >= b.offset)
  }

  lemma AtOrAfterTotal(a: Timestamp, b: Timestamp)
    ensures AtOrAfter(a, b) || AtOrAfter(b, a)
  {
  }

  lemma AtOrAfterTransitive(a: Timestamp, b: Timestamp, c: Timestamp)
    requires AtOrAfter(a, b) && AtOrAfter(b, c)
    ensures AtOrAfter(a, c)
  {
  }

  /** The `en-US` short month names, January first. */
  const MonthNames: seq<string> :=
    ["Jan", "Feb", "Mar", "Apr", "May", "Jun", "Jul", "Aug", "Sep", "Oct", "Nov", "Dec"]

  function MonthAbbrev(m: Month): (r: string)
    ensures |r| == 3
    ensures ' ' !in r
  {
    MonthNames[m - 1]
  }

  lemma MonthAbbrevInjective(m: Month, n: Month)
    ensures MonthAbbrev(m) == MonthAbbrev(n) <==> m == n
  {
  }

  function DigitChar(d: nat): (c: char)
    requires d < 10
    ensures '0' <= c <= '9'
  {
    (48 + d) as char
  }

  /** Decimal rendering of a year, without padding (`numeric` year format). */
  function YearText(y: nat): (r: string)
    ensures 1 <= |r|
    ensures y < 10 <==> |r| == 1
    ensures forall i :: 0 <= i < |r| ==> '0' <= r[i] <= '9'
  {
    if y < 10 then [DigitChar(y)] else YearText(y / 10) + [DigitChar(y % 10)]
  }

  /** The number a string of decimal digits denotes, most significant digit first. */
  function DigitsValue(s: string): nat
    requires forall i :: 0 <= i < |s| ==> '0' <= s[i] <= '9'
  {
    if |s| == 0 then 0
    else 10 * DigitsValue(s[..|s| - 1]) + (s[|s| - 1] as int - 48)
  }

  /** The rendering of a year reads back as that year. */
  lemma {:induction false} YearTextValue(y: nat)
    ensures DigitsValue(YearText(y)) == y
  {
    var t := YearText(y);
    if y >= 10 {
      assert t[..|t| - 1] == YearText(y / 10);
      YearTextValue(y / 10);
    }
  }

  lemma {:induction false} YearTextInjective(x: nat, y: nat)
    ensures YearText(x) == YearText(y) ==> x == y
  {
    if YearText(x) == YearText(y) {
      if x >= 10 && y >= 10 {
        var tx, ty := YearText(x), YearText(y);
        assert tx[..|tx| - 1] == YearText(x / 10);
        assert ty[..|ty| - 1] == YearText(y / 10);
        YearTextInjective(x / 10, y / 10);
        assert DigitChar(x % 10) == tx[|tx| - 1] == ty[|ty| - 1] == DigitChar(y % 10);
      } else {
        assert |YearText(x)| == 1 && |YearText(y)| == 1;
        assert DigitChar(x) == YearText(x)[0];
      }
    }
  }

  /**
   * The bucket label of a timestamp, e.g. "Mar 2024": the short month name,
   * one space, then the year in decimal digits.
   */
  function MonthLabel(t: Timestamp): (r: string)
    ensures |r| >= 5 && r[3] == ' '
    ensures r[..3] == MonthNames[t.month - 1]
    ensures forall i :: 4 <= i < |r| ==> '0' <= r[i] <= '9'
    ensures r[4..] == YearText(t.year)
  {
    MonthAbbrev(t.month) + " " + YearText(t.year)
  }

  /** Two timestamps share a bucket label exactly when they share year and month. */
  lemma MonthLabelInjective(a: Timestamp, b: Timestamp)
    ensures MonthLabel(a) == MonthLabel(b) <==> a.year == b.year && a.month == b.month
  {
    var la, lb := MonthLabel(a), MonthLabel(b);
    if la == lb {
      assert la[..3] == MonthAbbrev(a.month);
      assert lb[..3] == MonthAbbrev(b.month);
      MonthAbbrevInjective(a.month, b.month);
      assert la[4..] == YearText(a.year);
      assert lb[4..] == YearText(b.year);
      YearTextInjective(a.year, b.year);
    }
  }
}
