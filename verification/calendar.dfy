/** Proleptic Gregorian dates as Python's `datetime.date` treats them: the
    day ordinal that date subtraction is built on, the `%Y%m%d` stamp the
    monitor writes and compares, and `strptime(s, "%Y%m%d")` for 8-digit input. */
module Calendar {
  import opened Outcomes
  import opened Text
  import opened Numerals

  datatype Date = Date(year: int, month: int, day: int)

  /** Python's `datetime.MINYEAR` and `datetime.MAXYEAR`. */
  const MinYear := 1
  const MaxYear := 9999

  predicate IsLeap(y: int) {
    y % 4 == 0 && (y % 100 != 0 || y % 400 == 0)
  }

  function DaysInMonth(y: int, m: int): int
    requires 1 <= m <= 12
  {
    if m == 2 then (if IsLeap(y) then 29 else 28)
    else if m == 4 || m == 6 || m == 9 || m == 11 then 30
    else 31
  }

  function DaysInYear(y: int): int {
    if IsLeap(y) then 366 else 365
  }

  predicate Valid(d: Date) {
    && MinYear <= d.year <= MaxYear
    && 1 <= d.month <= 12
    && 1 <= d.day <= DaysInMonth(d.year, d.month)
  }

  /** Chronological order. */
  predicate Before(a: Date, b: Date) {
    || a.year < b.year
    || (a.year == b.year && a.month < b.month)
    || (a.year == b.year && a.month == b.month && a.day < b.day)
  }

  /** Days in the years before `y`, counted from 0001-01-01. */
  function DaysBeforeYear(y: int): int
    requires y >= 1
  {
    var p := y - 1;
    p * 365 + p / 4 - p / 100 + p / 400
  }

  /** Days in the months of year `y` before month `m`. */
  function DaysBeforeMonth(y: int, m: int): int
    requires 1 <= m <= 12
  {
    var table := [0, 0, 31, 59, 90, 120, 151, 181, 212, 243, 273, 304, 334];
    table[m] + (if m > 2 && IsLeap(y) then 1 else 0)
  }

  /** Python's `date.toordinal()`: 0001-01-01 is day 1. */
  function Ordinal(d: Date): int
    requires Valid(d)
  {
    DaysBeforeYear(d.year) + DaysBeforeMonth(d.year, d.month) + d.day
  }

  /** `(today - d).days`: whole calendar days from `d` to `today`. */
  function Age(today: Date, d: Date): (r: int)
    requires Valid(today) && Valid(d)
    ensures r == 0 <==> today == d
    ensures r > 0 <==> Before(d, today)
  {
    OrdinalOrder(d, today);
    Ordinal(today) - Ordinal(d)
  }

  /** The calendar day after `d`. */
  function NextDay(d: Date): (r: Date)
    requires Valid(d) && d != Date(MaxYear, 12, 31)
    ensures Valid(r) && Before(d, r)
    ensures Ordinal(r) == Ordinal(d) + 1
  {
    if d.day < DaysInMonth(d.year, d.month) then
      Date(d.year, d.month, d.day + 1)
    else if d.month < 12 then
      MonthStep(d.year, d.month);
      Date(d.year, d.month + 1, 1)
    else
      YearStep(d.year);
      Date(d.year + 1, 1, 1)
  }

  lemma MonthStep(y: int, m: int)
    requires 1 <= m < 12
    ensures DaysBeforeMonth(y, m + 1) == DaysBeforeMonth(y, m) + DaysInMonth(y, m)
  {
  }

  lemma YearStep(y: int)
    requires y >= 1
    ensures DaysBeforeYear(y + 1) == DaysBeforeYear(y) + DaysInYear(y)
  {
    var p := y - 1;
    assert y / 4 == p / 4 + (if y % 4 == 0 then 1 else 0);
    assert y / 100 == p / 100 + (if y % 100 == 0 then 1 else 0);
    assert y / 400 == p / 400 + (if y % 400 == 0 then 1 else 0);
  }

  /** A day's position within its year never exceeds the year's length. */
  lemma WithinYear(d: Date)
    requires Valid(d)
    ensures DaysBeforeMonth(d.year, d.month) + d.day <= DaysInYear(d.year)
  {
  }

  lemma {:induction false} DaysBeforeYearMonotone(y1: int, y2: int)
    requires 1 <= y1 < y2
    ensures DaysBeforeYear(y1) + DaysInYear(y1) <= DaysBeforeYear(y2)
    decreases y2 - y1
  {
    YearStep(y1);
    if y1 + 1 < y2 {
      DaysBeforeYearMonotone(y1 + 1, y2);
    }
  }

  lemma MonthsMonotone(y: int, m1: int, m2: int)
    requires 1 <= m1 < m2 <= 12
    ensures DaysBeforeMonth(y, m1) + DaysInMonth(y, m1) <= DaysBeforeMonth(y, m2)
  {
  }

  lemma OrdinalIncreases(a: Date, b: Date)
    requires Valid(a) && Valid(b) && Before(a, b)
    ensures Ordinal(a) < Ordinal(b)
  {
    if a.year < b.year {
      WithinYear(a);
      DaysBeforeYearMonotone(a.year, b.year);
    } else if a.month < b.month {
      MonthsMonotone(a.year, a.month, b.month);
    }
  }

  /** The ordinal orders dates chronologically, and distinct dates have distinct ordinals. */
  lemma OrdinalOrder(a: Date, b: Date)
    requires Valid(a) && Valid(b)
    ensures Before(a, b) <==> Ordinal(a) < Ordinal(b)
    ensures a == b <==> Ordinal(a) == Ordinal(b)
  {
    if Before(a, b) {
      OrdinalIncreases(a, b);
    } else if Before(b, a) {
      OrdinalIncreases(b, a);
    }
  }

  /** A compose dated today is 0 days old, one dated earlier has a positive
      age, and a date in the future gives a negative age: nothing clamps it. */
  lemma AgeSigns(today: Date, d: Date)
    requires Valid(today) && Valid(d)
    ensures Age(today, d) == 0 <==> today == d
    ensures Age(today, d) < 0 <==> Before(today, d)
    ensures Age(today, d) > 0 <==> Before(d, today)
  {
    OrdinalOrder(today, d);
    OrdinalOrder(d, today);
  }

  /** Each day that passes makes every compose one day older. */
  lemma AgeNextDay(today: Date, d: Date)
    requires Valid(today) && Valid(d) && today != Date(MaxYear, 12, 31)
    ensures Age(NextDay(today), d) == Age(today, d) + 1
  {
  }

  /** The stamp `20240301` reads as 2024-03-01. */
  lemma ParseExample()
    ensures ParseStamp("20240301") == Some(Date(2024, 3, 1))
  {
    var d := Date(2024, 3, 1);
    assert FormatStamp(d) == "20240301" by {
      assert StampNumber(d) == 20240301;
      assert Pad(2, 1) == "2";
      assert Pad(20, 2) == "20";
      assert Pad(202, 3) == "202";
      assert Pad(2024, 4) == "2024";
      assert Pad(20240, 5) == "20240";
      assert Pad(202403, 6) == "202403";
      assert Pad(2024030, 7) == "2024030";
      assert Pad(20240301, 8) == "20240301";
    }
    FormatParse(d);
  }

  /** A compose dated 2024-03-01 is 9 days old on 2024-03-10. */
  lemma AgeExample()
    ensures Age(Date(2024, 3, 10), Date(2024, 3, 1)) == 9
  {
    assert Ordinal(Date(2024, 3, 10)) == Ordinal(Date(2024, 3, 1)) + 9;
  }

  /** The date as the number whose eight digits are `YYYYMMDD`. */
  function StampNumber(d: Date): nat
    requires Valid(d)
  {
    d.year * 10000 + d.month * 100 + d.day
  }

  /** `d.strftime("%Y%m%d")`, zero-padded to eight digits. */
  function FormatStamp(d: Date): (r: string)
    requires Valid(d)
    ensures |r| == 8 && AllDigits(r)
  {
    assert Pow10(8) == 100000000;
    Pad(StampNumber(d), 8)
  }

  /** `datetime.strptime(s, "%Y%m%d").date()` on eight ASCII digits: the
      fixed 4-2-2 split, failing (None) on anything that is not a real date. */
  function ParseStamp(s: string): (r: Option<Date>)
    ensures r.Some? ==> Valid(r.value) && |s| == 8 && AllDigits(s)
  {
    if |s| == 8 && AllDigits(s) then
      var n := ValueOf(s);
      var d := Date(n / 10000, n / 100 % 100, n % 100);
      if Valid(d) then Some(d) else None
    else
      None
  }

  /** Parsing a formatted date gives the date back. */
  lemma FormatParse(d: Date)
    requires Valid(d)
    ensures ParseStamp(FormatStamp(d)) == Some(d)
  {
    var n := StampNumber(d);
    assert Pow10(8) == 100000000;
    ValueOfPad(n, 8);
    StampDigits(d.year, d.month, d.day);
  }

  lemma StampDigits(y: int, m: int, day: int)
    requires 0 <= y && 0 <= m < 100 && 0 <= day < 100
    ensures (y * 10000 + m * 100 + day) / 10000 == y
    ensures (y * 10000 + m * 100 + day) / 100 % 100 == m
    ensures (y * 10000 + m * 100 + day) % 100 == day
  {
    var n := y * 10000 + m * 100 + day;
    assert n == (y * 100 + m) * 100 + day;
    assert n / 100 == y * 100 + m;
  }

  /** Whatever parses is the canonical stamp of the date it parses to. */
  lemma ParseFormat(s: string)
    requires ParseStamp(s).Some?
    ensures Valid(ParseStamp(s).value) && FormatStamp(ParseStamp(s).value) == s
  {
    var n := ValueOf(s);
    var d := ParseStamp(s).value;
    assert Pow10(8) == 100000000;
    assert n == (n / 100) * 100 + n % 100;
    assert n / 100 == (n / 100 / 100) * 100 + n / 100 % 100;
    assert n / 100 / 100 == n / 10000;
    assert StampNumber(d) == n;
    PadValueOf(s);
  }

  /** The stamp a run has not yet alerted under: below every real date. */
  const NeverStamp: string := "00000000"

  /** For `YYYYMMDD` stamps, string order is chronological order. */
  lemma StampOrder(a: Date, b: Date)
    requires Valid(a) && Valid(b)
    ensures Less(FormatStamp(a), FormatStamp(b)) <==> Before(a, b)
  {
    assert Pow10(8) == 100000000;
    PadLess(StampNumber(a), StampNumber(b), 8);
  }

  lemma NeverStampFirst(d: Date)
    requires Valid(d)
    ensures Less(NeverStamp, FormatStamp(d))
  {
    assert Pow10(8) == 100000000;
    assert Pad(0, 8) == NeverStamp;
    PadLess(0, StampNumber(d), 8);
  }
}
