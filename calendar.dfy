/**
 * The proleptic Gregorian calendar as Python's `datetime.date` implements it.
 * A day is its ordinal: day 1 is 0001-01-01 (a Monday) and the last representable
 * day, MaxOrdinal, is 9999-12-31. Civil dates (year, month, day) convert to and from
 * ordinals; weekday 0 is Monday; a date prints as the ISO 8601 extended calendar
 * date `YYYY-MM-DD` (ISO 8601:2004, section 4.1.2.2).
 */
module Calendar {
  import opened Outcome

  const MinYear: int := 1
  const MaxYear: int := 9999

  datatype Date = Date(year: int, month: int, day: int)

  predicate IsLeap(y: int) {
    y % 4 == 0 && (y % 100 != 0 || y % 400 == 0)
  }

  function YearLength(y: int): int {
    if IsLeap(y) then 366 else 365
  }

  /** Number of days of month m (1..12) of year y. */
  function DaysInMonth(y: int, m: int): (n: int)
    requires 1 <= m <= 12
    ensures 28 <= n <= 31
    ensures m == 2 ==> n == (if IsLeap(y) then 29 else 28)
    ensures (m == 4 || m == 6 || m == 9 || m == 11) ==> n == 30
    ensures m != 2 && m != 4 && m != 6 && m != 9 && m != 11 ==> n == 31
  {
    if m == 2 then (if IsLeap(y) then 29 else 28)
    else if m == 4 || m == 6 || m == 9 || m == 11 then 30
    else 31
  }

  predicate ValidDate(d: Date) {
    MinYear <= d.year <= MaxYear && 1 <= d.month <= 12 && 1 <= d.day <= DaysInMonth(d.year, d.month)
  }

  /** Days in the years before year y (Python's `_days_before_year`). */
  function DaysBeforeYear(y: int): int
    requires y >= 1
  {
    var z := y - 1;
    z * 365 + z / 4 - z / 100 + z / 400
  }

  /** Days in the months of year y before month m (Python's `_days_before_month`). */
  function DaysBeforeMonth(y: int, m: int): int
    requires 1 <= m <= 12
  {
    [0, 31, 59, 90, 120, 151, 181, 212, 243, 273, 304, 334][m - 1]
      + (if m > 2 && IsLeap(y) then 1 else 0)
  }

  const MaxOrdinal: int := DaysBeforeYear(MaxYear + 1)

  predicate ValidOrdinal(n: int) {
    1 <= n <= MaxOrdinal
  }

  /** `date.toordinal()`. */
  function ToOrdinal(d: Date): int
    requires ValidDate(d)
  {
    DaysBeforeYear(d.year) + DaysBeforeMonth(d.year, d.month) + d.day
  }

  lemma YearStep(y: int)
    requires y >= 1
    ensures DaysBeforeYear(y + 1) == DaysBeforeYear(y) + YearLength(y)
  {
    var z := y - 1;
    assert (z + 1) / 4 == z / 4 + (if y % 4 == 0 then 1 else 0);
    assert (z + 1) / 100 == z / 100 + (if y % 100 == 0 then 1 else 0);
    assert (z + 1) / 400 == z / 400 + (if y % 400 == 0 then 1 else 0);
  }

  lemma {:induction false} YearMonotone(a: int, b: int)
    requires 1 <= a <= b
    ensures DaysBeforeYear(a) + (b - a) * 365 <= DaysBeforeYear(b)
    decreases b - a
  {
    if a < b {
      YearStep(a);
      YearMonotone(a + 1, b);
    }
  }

  lemma MonthStep(y: int, m: int)
    requires 1 <= m <= 12
    ensures m < 12 ==> DaysBeforeMonth(y, m + 1) == DaysBeforeMonth(y, m) + DaysInMonth(y, m)
    ensures m == 12 ==> DaysBeforeMonth(y, m) + DaysInMonth(y, m) == YearLength(y)
  {
  }

  lemma MonthWithinYear(y: int, m: int)
    requires 1 <= m <= 12
    ensures DaysBeforeMonth(y, m) + DaysInMonth(y, m) <= YearLength(y)
  {
  }

  lemma {:induction false} MonthMonotone(y: int, a: int, b: int)
    requires 1 <= a < b <= 12
    ensures DaysBeforeMonth(y, a) + DaysInMonth(y, a) <= DaysBeforeMonth(y, b)
    decreases b - a
  {
    MonthStep(y, a);
    if a + 1 < b {
      MonthMonotone(y, a + 1, b);
    }
  }

  /** The year holding ordinal n, searched upwards from year y. */
  function YearOf(n: int, y: int): (r: int)
    requires MinYear <= y <= MaxYear
    requires DaysBeforeYear(y) < n <= MaxOrdinal
    ensures y <= r <= MaxYear
    ensures DaysBeforeYear(r) < n <= DaysBeforeYear(r + 1)
    decreases MaxYear - y
  {
    if n <= DaysBeforeYear(y + 1) then y else YearOf(n, y + 1)
  }

  /** The month holding day-of-year r of year y, searched upwards from month m. */
  function MonthOf(y: int, r: int, m: int): (res: int)
    requires 1 <= m <= 12
    requires DaysBeforeMonth(y, m) < r <= YearLength(y)
    ensures m <= res <= 12
    ensures DaysBeforeMonth(y, res) < r <= DaysBeforeMonth(y, res) + DaysInMonth(y, res)
    decreases 12 - m
  {
    MonthStep(y, m);
    if m == 12 || r <= DaysBeforeMonth(y, m + 1) then m else MonthOf(y, r, m + 1)
  }

  /** `date.fromordinal(n)`: the valid civil date whose ordinal is n. */
  function FromOrdinal(n: int): (d: Date)
    requires ValidOrdinal(n)
    ensures ValidDate(d)
    ensures ToOrdinal(d) == n
  {
    assert DaysBeforeYear(1) == 0;
    var y := YearOf(n, 1);
    YearStep(y);
    var m := MonthOf(y, n - DaysBeforeYear(y), 1);
    Date(y, m, n - DaysBeforeYear(y) - DaysBeforeMonth(y, m))
  }

  /** A valid date lies within its own year and month on the ordinal line. */
  lemma OrdinalBounds(d: Date)
    requires ValidDate(d)
    ensures DaysBeforeYear(d.year) < ToOrdinal(d) <= DaysBeforeYear(d.year + 1)
    ensures ToOrdinal(d) <= MaxOrdinal
  {
    YearStep(d.year);
    MonthWithinYear(d.year, d.month);
    YearMonotone(d.year + 1, MaxYear + 1);
  }

  /** Two valid dates with the same ordinal are the same date. */
  lemma OrdinalInjective(d1: Date, d2: Date)
    requires ValidDate(d1) && ValidDate(d2)
    requires ToOrdinal(d1) == ToOrdinal(d2)
    ensures d1 == d2
  {
    OrdinalBounds(d1);
    OrdinalBounds(d2);
    if d1.year < d2.year {
      YearMonotone(d1.year + 1, d2.year);
    } else if d2.year < d1.year {
      YearMonotone(d2.year + 1, d1.year);
    }
    assert d1.year == d2.year;
    if d1.month < d2.month {
      MonthMonotone(d1.year, d1.month, d2.month);
    } else if d2.month < d1.month {
      MonthMonotone(d1.year, d2.month, d1.month);
    }
  }

  /** Every valid date is the date of its own ordinal, and that ordinal is in range. */
  lemma FromToOrdinal(d: Date)
    requires ValidDate(d)
    ensures ValidOrdinal(ToOrdinal(d))
    ensures FromOrdinal(ToOrdinal(d)) == d
  {
    OrdinalBounds(d);
    assert DaysBeforeYear(1) == 0;
    YearMonotone(1, d.year);
    OrdinalInjective(FromOrdinal(ToOrdinal(d)), d);
  }

  /** `date.weekday()`: Monday is 0, Sunday is 6. */
  function Weekday(n: int): (w: int)
    ensures 0 <= w < 7
    ensures (n - w) % 7 == 1 % 7
  {
    (n + 6) % 7
  }

  /** `date + timedelta(days=k)`: OverflowError when the result leaves 0001-01-01..9999-12-31. */
  function AddDays(n: int, k: int): (r: Result<int>)
    ensures r.Ok? <==> ValidOrdinal(n + k)
    ensures r.Ok? ==> r.value == n + k
    ensures r.Err? ==> r.error == DateOverflow
  {
    if ValidOrdinal(n + k) then Ok(n + k) else Err(DateOverflow)
  }

  /** `date.replace(year=y, month=m)`: keeps the day of month, ValueError when it does not exist. */
  function ReplaceYearMonth(n: int, y: int, m: int): (r: Result<int>)
    requires ValidOrdinal(n)
    requires 1 <= m <= 12
    ensures r.Ok? <==> (MinYear <= y <= MaxYear && FromOrdinal(n).day <= DaysInMonth(y, m))
    ensures r.Ok? ==> ValidOrdinal(r.value) && FromOrdinal(r.value) == Date(y, m, FromOrdinal(n).day)
    ensures r.Err? ==> r.error == (if MinYear <= y <= MaxYear then DayOutOfRange else YearOutOfRange)
  {
    var d := FromOrdinal(n);
    if !(MinYear <= y <= MaxYear) then Err(YearOutOfRange)
    else if d.day > DaysInMonth(y, m) then Err(DayOutOfRange)
    else
      FromToOrdinal(Date(y, m, d.day));
      Ok(ToOrdinal(Date(y, m, d.day)))
  }

  // ---- ISO 8601 extended calendar date, YYYY-MM-DD ----

  function DigitChar(k: int): char
    requires 0 <= k <= 9
  {
    ('0' as int + k) as char
  }

  predicate IsDigit(c: char) {
    '0' <= c <= '9'
  }

  function DigitValue(c: char): int
    requires IsDigit(c)
  {
    c as int - '0' as int
  }

  /** n (0..9999) written with exactly four decimal digits. */
  function Pad4(n: int): string
    requires 0 <= n <= 9999
  {
    [DigitChar(n / 1000), DigitChar(n / 100 % 10), DigitChar(n / 10 % 10), DigitChar(n % 10)]
  }

  /** n (0..99) written with exactly two decimal digits. */
  function Pad2(n: int): string
    requires 0 <= n <= 99
  {
    [DigitChar(n / 10), DigitChar(n % 10)]
  }

  /** `strftime('%Y-%m-%d')` of a valid date. */
  function IsoKey(d: Date): (s: string)
    requires ValidDate(d)
    ensures |s| == 10 && s[4] == '-' && s[7] == '-'
  {
    Pad4(d.year) + "-" + Pad2(d.month) + "-" + Pad2(d.day)
  }

  /** The date key of ordinal n. */
  function DateKey(n: int): (s: string)
    requires ValidOrdinal(n)
    ensures |s| == 10 && s[4] == '-' && s[7] == '-'
  {
    IsoKey(FromOrdinal(n))
  }

  predicate AllDigits(s: string) {
    forall i | 0 <= i < |s| :: IsDigit(s[i])
  }

  /** The number a string of decimal digits denotes. */
  function DigitsValue(s: string): int
    requires AllDigits(s)
  {
    if s == [] then 0 else 10 * DigitsValue(s[..|s| - 1]) + DigitValue(s[|s| - 1])
  }

  /** Reads a `YYYY-MM-DD` string back into a date; None when it is not a valid one. */
  function ParseIsoKey(s: string): (r: Option<Date>)
    ensures r.Some? ==> ValidDate(r.value)
  {
    if |s| == 10 && s[4] == '-' && s[7] == '-'
      && AllDigits(s[..4]) && AllDigits(s[5..7]) && AllDigits(s[8..])
    then
      var d := Date(DigitsValue(s[..4]), DigitsValue(s[5..7]), DigitsValue(s[8..]));
      if ValidDate(d) then Some(d) else None
    else None
  }

  lemma DigitsSnoc(s: string, k: int)
    requires AllDigits(s) && 0 <= k <= 9
    ensures AllDigits(s + [DigitChar(k)])
    ensures DigitsValue(s + [DigitChar(k)]) == 10 * DigitsValue(s) + k
  {
    assert (s + [DigitChar(k)])[..|s|] == s;
  }

  lemma Pad2Value(n: int)
    requires 0 <= n <= 99
    ensures AllDigits(Pad2(n)) && DigitsValue(Pad2(n)) == n
  {
    DigitsSnoc([], n / 10);
    DigitsSnoc([DigitChar(n / 10)], n % 10);
    assert Pad2(n) == [DigitChar(n / 10)] + [DigitChar(n % 10)];
  }

  lemma DivChain(n: int)
    requires 0 <= n
    ensures n / 100 == n / 10 / 10 && n / 1000 == n / 100 / 10
  {
  }

  lemma Pad4Value(n: int)
    requires 0 <= n <= 9999
    ensures AllDigits(Pad4(n)) && DigitsValue(Pad4(n)) == n
  {
    var q1, q2, q3 := n / 10, n / 100, n / 1000;
    DivChain(n);
    var a, b, c, d := DigitChar(q3), DigitChar(q2 % 10), DigitChar(q1 % 10), DigitChar(n % 10);
    DigitsSnoc([], q3);
    DigitsSnoc([a], q2 % 10);
    assert [a] + [b] == [a, b];
    assert DigitsValue([a, b]) == q2;
    DigitsSnoc([a, b], q1 % 10);
    assert [a, b] + [c] == [a, b, c];
    assert DigitsValue([a, b, c]) == q1;
    DigitsSnoc([a, b, c], n % 10);
    assert [a, b, c] + [d] == Pad4(n);
  }

  /** Reading a printed date key gives back the date. */
  lemma IsoKeyRoundTrip(d: Date)
    requires ValidDate(d)
    ensures ParseIsoKey(IsoKey(d)) == Some(d)
  {
    var s := IsoKey(d);
    assert s[..4] == Pad4(d.year);
    assert s[5..7] == Pad2(d.month);
    assert s[8..] == Pad2(d.day);
    Pad4Value(d.year);
    Pad2Value(d.month);
    Pad2Value(d.day);
  }

  /** Distinct days have distinct date keys. */
  lemma DateKeyInjective(n1: int, n2: int)
    requires ValidOrdinal(n1) && ValidOrdinal(n2)
    ensures DateKey(n1) == DateKey(n2) <==> n1 == n2
  {
    if DateKey(n1) == DateKey(n2) {
      IsoKeyRoundTrip(FromOrdinal(n1));
      IsoKeyRoundTrip(FromOrdinal(n2));
    }
  }
}
