/** Calendar dates as Python's `datetime.date` sees them: the proleptic
    Gregorian calendar over the years 1 to 9999, day differences through the
    ordinal day number, and the two text forms the program prints. */
module Calendar {
  import opened Text

  datatype Date = Date(year: int, month: int, day: int)

  predicate IsLeap(y: int) {
    y % 4 == 0 && (y % 100 != 0 || y % 400 == 0)
  }

  function DaysInMonth(y: int, m: int): int
    requires 1 <= m <= 12
  {
    if m == 2 then (if IsLeap(y) then 29 else 28)
    else if m == 4 || m == 6 || m == 9 || m == 11 then 30
    else 31
  }

  /** The dates `datetime(year, month, day)` accepts without raising
      `ValueError`. */
  predicate ValidDate(d: Date) {
    1 <= d.year <= 9999 && 1 <= d.month <= 12 && 1 <= d.day <= DaysInMonth(d.year, d.month)
  }

  type CalendarDate = d: Date | ValidDate(d) witness Date(1970, 1, 1)

  function DaysBeforeYear(y: int): int
    requires y >= 1
  {
    var p := y - 1;
    365 * p + p / 4 - p / 100 + p / 400
  }

  function DaysBeforeMonth(y: int, m: int): int
    requires 1 <= m <= 12
  {
    [0, 31, 59, 90, 120, 151, 181, 212, 243, 273, 304, 334][m - 1]
      + (if m > 2 && IsLeap(y) then 1 else 0)
  }

  /** `date.toordinal()`: 1 January of year 1 is day 1. */
  function Ordinal(d: CalendarDate): int {
    DaysBeforeYear(d.year) + DaysBeforeMonth(d.year, d.month) + d.day
  }

  /** `(due - today).days` for two dates. */
  function DaysUntil(due: CalendarDate, today: CalendarDate): int {
    Ordinal(due) - Ordinal(today)
  }

  /** The calendar's successor of a date (the last representable date has
      none). */
  function NextDay(d: CalendarDate): (r: CalendarDate)
    requires d != Date(9999, 12, 31)
  {
    if d.day < DaysInMonth(d.year, d.month) then Date(d.year, d.month, d.day + 1)
    else if d.month < 12 then Date(d.year, d.month + 1, 1)
    else Date(d.year + 1, 1, 1)
  }

  lemma YearLength(y: int)
    requires 1 <= y
    ensures DaysBeforeYear(y + 1) - DaysBeforeYear(y) == if IsLeap(y) then 366 else 365
  {
    MultipleStep4(y);
    MultipleStep100(y);
    MultipleStep400(y);
  }

  /** Going from `y - 1` to `y` crosses a multiple of 4 exactly when `y`
      is one. */
  lemma MultipleStep4(y: int)
    ensures y / 4 - (y - 1) / 4 == if y % 4 == 0 then 1 else 0
  {
    DivStep(y, 4);
  }

  lemma MultipleStep100(y: int)
    ensures y / 100 - (y - 1) / 100 == if y % 100 == 0 then 1 else 0
    ensures y % 100 == 0 ==> y % 4 == 0
  {
    DivStep(y, 100);
    if y % 100 == 0 {
      DivisibleBy(y, 100, 4);
    }
  }

  lemma MultipleStep400(y: int)
    ensures y / 400 - (y - 1) / 400 == if y % 400 == 0 then 1 else 0
    ensures y % 400 == 0 ==> y % 100 == 0
  {
    DivStep(y, 400);
    if y % 400 == 0 {
      DivisibleBy(y, 400, 100);
    }
  }

  /** The quotient by `k` rises by one from `y - 1` to `y` exactly when `k`
      divides `y`. */
  lemma DivStep(y: int, k: int)
    requires k > 0
    ensures y / k - (y - 1) / k == if y % k == 0 then 1 else 0
  {
    var q, r := (y - 1) / k, (y - 1) % k;
    assert y - 1 == k * q + r && 0 <= r < k;
    if r == k - 1 {
      assert y == k * (q + 1) + 0;
      DivUnique(y, k, q + 1, 0);
    } else {
      assert y == k * q + (r + 1);
      DivUnique(y, k, q, r + 1);
    }
  }

  lemma DivUnique(y: int, k: int, q: int, r: int)
    requires k > 0 && y == k * q + r && 0 <= r < k
    ensures y / k == q && y % k == r
  {
    var q', r' := y / k, y % k;
    assert y == k * q' + r' && 0 <= r' < k;
    if q' > q {
      assert k * q' >= k * (q + 1) by {
        MulMono(k, q + 1, q');
      }
    } else if q' < q {
      assert k * q >= k * (q' + 1) by {
        MulMono(k, q' + 1, q);
      }
    }
  }

  lemma MulMono(k: int, a: int, b: int)
    requires k > 0 && a <= b
    ensures k * a <= k * b
  {
    assert k * b - k * a == k * (b - a);
  }

  /** A multiple of `k` is a multiple of every divisor `m` of `k`. */
  lemma DivisibleBy(y: int, k: int, m: int)
    requires k > 0 && m > 0 && k % m == 0 && y % k == 0
    ensures y % m == 0
  {
    var a, b := y / k, k / m;
    assert y == k * a && k == m * b;
    assert y == m * (b * a);
    DivUnique(y, m, b * a, 0);
  }

  /** The day count is consistent with the calendar: the day after `d` is one
      day further from any reference date, across month and year ends and
      leap days alike. */
  lemma NextDayIsOneDayLater(d: CalendarDate, today: CalendarDate)
    requires d != Date(9999, 12, 31)
    ensures DaysUntil(NextDay(d), today) == DaysUntil(d, today) + 1
  {
    if d.day == DaysInMonth(d.year, d.month) && d.month == 12 {
      YearLength(d.year);
    }
  }

  /** `date.isoformat()`: `YYYY-MM-DD`. */
  function IsoFormat(d: CalendarDate): (r: string)
    ensures |r| == 10
  {
    ZeroPadValue(d.year, 4);
    ZeroPadValue(d.month, 2);
    ZeroPadValue(d.day, 2);
    ZeroPad(d.year, 4) + "-" + ZeroPad(d.month, 2) + "-" + ZeroPad(d.day, 2)
  }

  /** `strftime('%d/%m/%Y')`. */
  function FormatDayMonthYear(d: CalendarDate): string {
    ZeroPad(d.day, 2) + "/" + ZeroPad(d.month, 2) + "/" + Decimal(d.year)
  }
}
