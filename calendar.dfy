/**
  The part of Python's `datetime` that tutorials/03.py relies on: parsing with
  `datetime.strptime(s, "%Y-%m-%d")`, formatting with `strftime("%Y-%m-%d")`,
  comparison of datetimes, and `(d2 - d1).days`. Every parsed value is a
  datetime at midnight, so only its calendar date matters.
*/
module Calendar {
  import opened Wrappers
  import opened Text

  datatype Date = Date(year: int, month: int, day: int)

  const MinYear: int := 1
  const MaxYear: int := 9999

  predicate IsLeapYear(y: int)
  {
    y % 4 == 0 && (y % 100 != 0 || y % 400 == 0)
  }

  function DaysInMonth(y: int, m: int): (n: int)
    requires 1 <= m <= 12
    ensures 28 <= n <= 31
  {
    if m == 2 then (if IsLeapYear(y) then 29 else 28)
    else if m == 4 || m == 6 || m == 9 || m == 11 then 30
    else 31
  }

  function DaysInYear(y: int): int
  {
    if IsLeapYear(y) then 366 else 365
  }

  /** What `datetime` accepts: years 1 to 9999 and a day that exists in its month. */
  predicate Valid(d: Date)
  {
    MinYear <= d.year <= MaxYear && 1 <= d.month <= 12 && 1 <= d.day <= DaysInMonth(d.year, d.month)
  }

  /** A `datetime` value at midnight. */
  type DateTime = d: Date | Valid(d) witness Date(1, 1, 1)

  /** `a < b` on datetimes: year, then month, then day. */
  predicate Before(a: Date, b: Date)
  {
    a.year < b.year || (a.year == b.year && (a.month < b.month || (a.month == b.month && a.day < b.day)))
  }

  // ---------------------------------------------------------------------------
  // Day numbers: date.toordinal(), so that (d2 - d1).days == Ordinal(d2) - Ordinal(d1)
  // ---------------------------------------------------------------------------

  /** Days in the years before `y` (CPython's `_days_before_year`). */
  function DaysBeforeYear(y: int): int
    requires y >= 1
  {
    var p := y - 1;
    p * 365 + p / 4 - p / 100 + p / 400
  }

  /** Days in the months of year `y` before month `m` (CPython's `_days_before_month`). */
  function DaysBeforeMonth(y: int, m: int): int
    requires 1 <= m <= 12
  {
    [0, 31, 59, 90, 120, 151, 181, 212, 243, 273, 304, 334][m - 1] + (if m > 2 && IsLeapYear(y) then 1 else 0)
  }

  /** `d.toordinal()`: 1 for 0001-01-01, one more for each following day. */
  function Ordinal(d: DateTime): int
  {
    DaysBeforeYear(d.year) + DaysBeforeMonth(d.year, d.month) + d.day
  }

  /** `(d2 - d1).days`. */
  function DayGap(d1: DateTime, d2: DateTime): (r: int)
    ensures r > 0 <==> Before(d1, d2)
    ensures r == 0 <==> d1 == d2
  {
    OrdinalOrder(d1, d2);
    Ordinal(d2) - Ordinal(d1)
  }

  lemma DaysBeforeYearStep(y: int)
    requires y >= 1
    ensures DaysBeforeYear(y + 1) == DaysBeforeYear(y) + DaysInYear(y)
  {
    var p := y - 1;
    assert y / 4 == p / 4 + (if y % 4 == 0 then 1 else 0);
    assert y / 100 == p / 100 + (if y % 100 == 0 then 1 else 0);
    assert y / 400 == p / 400 + (if y % 400 == 0 then 1 else 0);
  }

  lemma {:induction false} DaysBeforeYearMonotone(y: int, z: int)
    requires 1 <= y <= z
    ensures DaysBeforeYear(y) + (z - y) * 365 <= DaysBeforeYear(z)
    decreases z - y
  {
    if y < z {
      DaysBeforeYearStep(y);
      DaysBeforeYearMonotone(y + 1, z);
    }
  }

  lemma DaysBeforeMonthStep(y: int, m: int)
    requires 1 <= m < 12
    ensures DaysBeforeMonth(y, m + 1) == DaysBeforeMonth(y, m) + DaysInMonth(y, m)
  {
  }

  lemma {:induction false} DaysBeforeMonthMonotone(y: int, m: int, n: int)
    requires 1 <= m <= n <= 12
    ensures DaysBeforeMonth(y, m) + (n - m) * 28 <= DaysBeforeMonth(y, n)
    decreases n - m
  {
    if m < n {
      DaysBeforeMonthStep(y, m);
      DaysBeforeMonthMonotone(y, m + 1, n);
    }
  }

  /** A date's day number lies within its own year's range of day numbers. */
  lemma OrdinalWithinYear(d: DateTime)
    ensures DaysBeforeYear(d.year) < Ordinal(d) <= DaysBeforeYear(d.year) + DaysInYear(d.year)
  {
    if d.month < 12 {
      DaysBeforeMonthStep(d.year, d.month);
      DaysBeforeMonthMonotone(d.year, d.month + 1, 12);
    }
  }

  /** Later dates have larger day numbers. */
  lemma OrdinalIncreasing(a: DateTime, b: DateTime)
    requires Before(a, b)
    ensures Ordinal(a) < Ordinal(b)
  {
    if a.year < b.year {
      OrdinalWithinYear(a);
      OrdinalWithinYear(b);
      DaysBeforeYearStep(a.year);
      DaysBeforeYearMonotone(a.year + 1, b.year);
    } else if a.month < b.month {
      DaysBeforeMonthStep(a.year, a.month);
      DaysBeforeMonthMonotone(a.year, a.month + 1, b.month);
    }
  }

  /** Day numbers order dates exactly as datetime comparison does, and tell dates apart. */
  lemma OrdinalOrder(a: DateTime, b: DateTime)
    ensures Before(a, b) <==> Ordinal(a) < Ordinal(b)
    ensures a == b <==> Ordinal(a) == Ordinal(b)
  {
    if Before(a, b) {
      OrdinalIncreasing(a, b);
    } else if Before(b, a) {
      OrdinalIncreasing(b, a);
    }
  }

  // ---------------------------------------------------------------------------
  // strptime(s, "%Y-%m-%d") and strftime("%Y-%m-%d")
  // ---------------------------------------------------------------------------

  /** What `%m` matches in CPython's `_strptime`: `1[0-2]|0[1-9]|[1-9]`. */
  predicate MonthField(t: string)
  {
    || (|t| == 1 && '1' <= t[0] <= '9')
    || (|t| == 2 && ((t[0] == '1' && '0' <= t[1] <= '2') || (t[0] == '0' && '1' <= t[1] <= '9')))
  }

  /** What `%d` matches: `3[01]|[12]\d|0[1-9]|[1-9]| [1-9]` (a leading space is allowed). */
  predicate DayField(t: string)
  {
    || (|t| == 1 && '1' <= t[0] <= '9')
    || (|t| == 2 && (|| (t[0] == '3' && '0' <= t[1] <= '1')
                     || ('1' <= t[0] <= '2' && IsDigit(t[1]))
                     || (t[0] == '0' && '1' <= t[1] <= '9')
                     || (t[0] == ' ' && '1' <= t[1] <= '9')))
  }

  /** `int(t)` of a matched field (`int` ignores the leading space). */
  function FieldValue(t: string): (v: nat)
    requires MonthField(t) || DayField(t)
    ensures MonthField(t) ==> 1 <= v <= 12
    ensures DayField(t) ==> 1 <= v <= 31
  {
    if t[0] == ' ' then DigitValue(t[1])
    else
      if |t| == 2 then TwoDigits(t); DigitsValue(t) else
      assert t[..0] == [];
      DigitsValue(t)
  }

  /** `datetime.strptime(s, "%Y-%m-%d")`; `None` where it raises `ValueError`:
      a year of four ASCII digits, '-', a month field, '-', a day field that
      ends the string, and a calendar date that exists. */
  function Parse(s: string): (r: Option<DateTime>)
  {
    if |s| < 7 || !AllDigits(s[..4]) || s[4] != '-' then None
    else
      var monthEnd := if s[6] == '-' then 6 else 7;
      if |s| <= monthEnd || s[monthEnd] != '-' then None
      else
        var monthText, dayText := s[5..monthEnd], s[monthEnd + 1..];
        if !MonthField(monthText) || !DayField(dayText) then None
        else
          var year, month, day := DigitsValue(s[..4]), FieldValue(monthText), FieldValue(dayText);
          if year < MinYear || day > DaysInMonth(year, month) then None
          else
            DigitsBound(s[..4]);
            assert Pow10(4) == 10000;
            Some(Date(year, month, day))
  }

  /** `d.strftime("%Y-%m-%d")`: zero-padded year, month and day. */
  function Format(d: DateTime): string
  {
    ZeroPad(d.year, 4) + "-" + ZeroPad(d.month, 2) + "-" + ZeroPad(d.day, 2)
  }

  /** The shape `strftime("%Y-%m-%d")` produces: `DDDD-DD-DD`. */
  predicate Canonical(s: string)
  {
    |s| == 10 && AllDigits(s[..4]) && s[4] == '-' && AllDigits(s[5..7]) && s[7] == '-' && AllDigits(s[8..])
  }

  lemma TwoDigits(t: string)
    requires |t| == 2 && AllDigits(t)
    ensures DigitsValue(t) == DigitValue(t[0]) * 10 + DigitValue(t[1])
  {
    var h := t[..1];
    assert h[..0] == [] && h[0] == t[0];
    assert DigitsValue(h) == DigitValue(t[0]);
    assert t[..|t| - 1] == h;
  }

  /** Formatting yields the canonical shape, field by field. */
  lemma FormatFields(d: DateTime)
    ensures var s := Format(d);
            && Canonical(s)
            && s[..4] == ZeroPad(d.year, 4)
            && s[5..7] == ZeroPad(d.month, 2)
            && s[8..] == ZeroPad(d.day, 2)
  {
    assert Pow10(4) == 10000 && Pow10(2) == 100;
    ZeroPadWidth(d.year, 4);
    ZeroPadWidth(d.month, 2);
    ZeroPadWidth(d.day, 2);
  }

  /** Parsing what `strftime` printed gives the date back. */
  lemma ParseFormat(d: DateTime)
    ensures Parse(Format(d)) == Some(d)
  {
    var s := Format(d);
    FormatFields(d);
    var m, dd := s[5..7], s[8..];
    TwoDigits(m);
    TwoDigits(dd);
    assert s[6] == m[1];
    assert MonthField(m);
    assert DayField(dd);
  }

  /** Formatting a parsed canonical string gives the string back. */
  lemma FormatParse(s: string)
    requires Canonical(s) && Parse(s).Some?
    ensures Format(Parse(s).value) == s
  {
    assert s[6] == s[5..7][1];
    var d := Parse(s).value;
    ZeroPadOfDigits(s[..4]);
    ZeroPadOfDigits(s[5..7]);
    ZeroPadOfDigits(s[8..]);
    assert s == s[..4] + "-" + s[5..7] + "-" + s[8..];
  }

  /** Comparing two strings that start with zero-padded numbers of one width:
      unequal numbers decide by their order, equal ones leave it to the rest. */
  lemma PaddedFieldOrder(x: nat, y: nat, w: nat, ra: string, rb: string)
    requires w >= 1 && x < Pow10(w) && y < Pow10(w)
    ensures x != y ==> (LexLess(ZeroPad(x, w) + ra, ZeroPad(y, w) + rb) <==> x < y)
    ensures x == y ==> (LexLess(ZeroPad(x, w) + ra, ZeroPad(y, w) + rb) <==> LexLess(ra, rb))
  {
    var px, py := ZeroPad(x, w), ZeroPad(y, w);
    ZeroPadWidth(x, w);
    ZeroPadWidth(y, w);
    if x != y {
      assert px != py;
      LexLessFirstDifference(px, py, ra, rb);
      DigitsOrder(px, py);
    } else {
      LexLessCommonPrefix(px, ra, rb);
    }
  }

  /** Canonical date strings sort chronologically: comparing the strings
      `strftime("%Y-%m-%d")` prints is comparing the dates. */
  lemma FormatOrder(a: DateTime, b: DateTime)
    ensures LexLess(Format(a), Format(b)) <==> Before(a, b)
  {
    assert Pow10(4) == 10000 && Pow10(2) == 100;
    var da, db := ZeroPad(a.day, 2), ZeroPad(b.day, 2);
    var ma, mb := "-" + (ZeroPad(a.month, 2) + ("-" + da)), "-" + (ZeroPad(b.month, 2) + ("-" + db));
    assert Format(a) == ZeroPad(a.year, 4) + ma;
    assert Format(b) == ZeroPad(b.year, 4) + mb;
    PaddedFieldOrder(a.year, b.year, 4, ma, mb);
    LexLessCommonPrefix("-", ZeroPad(a.month, 2) + ("-" + da), ZeroPad(b.month, 2) + ("-" + db));
    PaddedFieldOrder(a.month, b.month, 2, "-" + da, "-" + db);
    LexLessCommonPrefix("-", da, db);
    PaddedFieldOrder(a.day, b.day, 2, [], []);
    assert da + [] == da && db + [] == db;
  }
}
