/**
 The `YYYY-MM[-DD]` strings the extension works with: the shape test of its
 regular expression, and the zero-padded decimal rendering that `date('Y-m')`
 produces, with the facts that make comparing such strings meaningful.
 */
module DateShape {
  import opened Php

  /** `\d` without the `u` modifier: an ASCII decimal digit. */
  predicate IsDigit(c: char)
  {
    '0' <= c <= '9'
  }

  predicate AllDigits(s: string)
  {
    forall i :: 0 <= i < |s| ==> IsDigit(s[i])
  }

  /** `\d{4}-\d{2}`, the whole string. */
  predicate MonthForm(s: string)
  {
    |s| == 7 && AllDigits(s[..4]) && s[4] == '-' && AllDigits(s[5..])
  }

  /** `\d{4}-\d{2}-\d{2}`, the whole string. */
  predicate DayForm(s: string)
  {
    |s| == 10 && MonthForm(s[..7]) && s[7] == '-' && AllDigits(s[8..])
  }

  /**
   `preg_match('#^\d{4}-\d{2}(-\d{2})?$# ', s) === 1`. The space after the
   closing delimiter is a modifier PHP skips. Without the `D` modifier `$`
   matches at the very end and also just before a final line feed.
   */
  function MatchesTargetShape(s: string): (r: bool)
    ensures r <==>
      && (|s| == 7 || |s| == 8 || |s| == 10 || |s| == 11)
      && AllDigits(s[..4]) && s[4] == '-' && AllDigits(s[5..7])
      && (|s| >= 10 ==> s[7] == '-' && AllDigits(s[8..10]))
      && (|s| == 8 || |s| == 11 ==> s[|s| - 1] == '\n')
  {
    assert |s| >= 7 ==> s[..7][..4] == s[..4] && s[..7][4] == s[4] && s[..7][5..] == s[5..7];
    assert |s| == 7 ==> s[5..] == s[5..7];
    assert |s| >= 10 ==> s[..10][..7] == s[..7] && s[..10][7] == s[7] && s[..10][8..] == s[8..10];
    assert |s| == 10 ==> s[8..] == s[8..10];
    MonthForm(s) || DayForm(s)
    || (|s| > 0 && s[|s| - 1] == '\n' && (MonthForm(s[..|s| - 1]) || DayForm(s[..|s| - 1])))
  }

  function DigitChar(d: nat): (c: char)
    requires d < 10
    ensures IsDigit(c)
  {
    ('0' as int + d) as char
  }

  function DigitValue(c: char): (d: nat)
    requires IsDigit(c)
    ensures d < 10 && DigitChar(d) == c
  {
    c as int - '0' as int
  }

  function Pow10(w: nat): nat
  {
    if w == 0 then 1 else 10 * Pow10(w - 1)
  }

  /** `n` written in exactly `w` decimal digits, zero-padded on the left as `date` prints `Y`, `m` and `d`. */
  function Pad(n: nat, w: nat): (r: string)
    ensures |r| == w && AllDigits(r)
  {
    if w == 0 then [] else Pad(n / 10, w - 1) + [DigitChar(n % 10)]
  }

  /** The number a digit string denotes. */
  function DigitsValue(s: string): nat
    requires AllDigits(s)
  {
    if |s| == 0 then 0 else 10 * DigitsValue(s[..|s| - 1]) + DigitValue(s[|s| - 1])
  }

  /** Padding a number that fits and reading it back gives the number. */
  lemma {:induction false} PadValue(n: nat, w: nat)
    requires n < Pow10(w)
    ensures DigitsValue(Pad(n, w)) == n
  {
    if w > 0 {
      PadValue(n / 10, w - 1);
      var p := Pad(n, w);
      assert p[..|p| - 1] == Pad(n / 10, w - 1);
    }
  }

  /** Reading a digit string and padding the number back to its length gives the string. */
  lemma {:induction false} ValuePad(s: string)
    requires AllDigits(s)
    ensures DigitsValue(s) < Pow10(|s|)
    ensures Pad(DigitsValue(s), |s|) == s
  {
    if |s| > 0 {
      var init := s[..|s| - 1];
      ValuePad(init);
      var v := DigitsValue(s);
      assert v / 10 == DigitsValue(init) && v % 10 == DigitValue(s[|s| - 1]);
      assert s == init + [s[|s| - 1]];
    }
  }

  /** Equally wide padded numbers compare as strings exactly as the numbers compare. */
  lemma {:induction false} PadOrder(n1: nat, n2: nat, w: nat)
    requires n1 < Pow10(w) && n2 < Pow10(w)
    ensures StrLess(Pad(n1, w), Pad(n2, w)) <==> n1 < n2
  {
    if w == 0 {
    } else {
      PadOrder(n1 / 10, n2 / 10, w - 1);
      StrLessConcat(Pad(n1 / 10, w - 1), [DigitChar(n1 % 10)], Pad(n2 / 10, w - 1), [DigitChar(n2 % 10)]);
      PadValue(n1 / 10, w - 1);
      PadValue(n2 / 10, w - 1);
      assert Pad(n1 / 10, w - 1) == Pad(n2 / 10, w - 1) <==> n1 / 10 == n2 / 10;
      assert StrLess([DigitChar(n1 % 10)], [DigitChar(n2 % 10)]) <==> n1 % 10 < n2 % 10;
    }
  }

  /** `date('Y-m')` for year `y` and month `m`. */
  function FormatMonth(y: nat, m: nat): (r: string)
    requires y < 10000 && m < 100
    ensures MonthForm(r) && r[..4] == Pad(y, 4) && r[5..] == Pad(m, 2)
  {
    var r := Pad(y, 4) + "-" + Pad(m, 2);
    assert r[..4] == Pad(y, 4) && r[5..] == Pad(m, 2);
    r
  }

  /** `date('Y-m-d')` for year `y`, month `m` and day `d`. */
  function FormatDay(y: nat, m: nat, d: nat): (r: string)
    requires y < 10000 && m < 100 && d < 100
    ensures DayForm(r) && r[..7] == FormatMonth(y, m) && r[8..] == Pad(d, 2)
  {
    var r := FormatMonth(y, m) + "-" + Pad(d, 2);
    assert r[..7] == FormatMonth(y, m) && r[8..] == Pad(d, 2);
    r
  }

  /** The year a `YYYY-MM` string names. */
  function YearOf(s: string): nat
    requires MonthForm(s)
  {
    DigitsValue(s[..4])
  }

  /** The month number a `YYYY-MM` string names. */
  function MonthOf(s: string): nat
    requires MonthForm(s)
  {
    DigitsValue(s[5..])
  }

  /** What `date('Y-m')` prints passes the shape test, and its year and month read back. */
  lemma FormatMonthRoundTrip(y: nat, m: nat)
    requires y < 10000 && m < 100
    ensures MonthForm(FormatMonth(y, m)) && MatchesTargetShape(FormatMonth(y, m))
    ensures YearOf(FormatMonth(y, m)) == y && MonthOf(FormatMonth(y, m)) == m
  {
    var s := FormatMonth(y, m);
    assert s[..4] == Pad(y, 4) && s[5..] == Pad(m, 2);
    PadValue(y, 4);
    PadValue(m, 2);
  }

  /** Every `YYYY-MM` string is what `date('Y-m')` prints for the year and month it names. */
  lemma MonthFormIsFormatted(s: string)
    requires MonthForm(s)
    ensures YearOf(s) < 10000 && MonthOf(s) < 100
    ensures FormatMonth(YearOf(s), MonthOf(s)) == s
  {
    ValuePad(s[..4]);
    ValuePad(s[5..]);
    assert s == s[..4] + "-" + s[5..];
  }

  /** What `date('Y-m-d')` prints passes the shape test. */
  lemma FormatDayMatches(y: nat, m: nat, d: nat)
    requires y < 10000 && m < 100 && d < 100
    ensures DayForm(FormatDay(y, m, d)) && MatchesTargetShape(FormatDay(y, m, d))
  {
  }

  /**
   For strings printed by `date('Y-m')`, string order is chronological order:
   one is less than the other exactly when it names an earlier month.
   */
  lemma MonthOrderIsChronological(y1: nat, m1: nat, y2: nat, m2: nat)
    requires y1 < 10000 && m1 < 100 && y2 < 10000 && m2 < 100
    ensures StrLess(FormatMonth(y1, m1), FormatMonth(y2, m2)) <==> y1 < y2 || (y1 == y2 && m1 < m2)
  {
    assert FormatMonth(y1, m1) == Pad(y1, 4) + ("-" + Pad(m1, 2));
    assert FormatMonth(y2, m2) == Pad(y2, 4) + ("-" + Pad(m2, 2));
    StrLessConcat(Pad(y1, 4), "-" + Pad(m1, 2), Pad(y2, 4), "-" + Pad(m2, 2));
    PadOrder(y1, y2, 4);
    PadValue(y1, 4);
    PadValue(y2, 4);
    assert ("-" + Pad(m1, 2))[1..] == Pad(m1, 2) && ("-" + Pad(m2, 2))[1..] == Pad(m2, 2);
    PadOrder(m1, m2, 2);
  }
}
