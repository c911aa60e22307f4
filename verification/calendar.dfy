/**
 * Proleptic Gregorian calendar arithmetic, the part of kotlinx-datetime the
 * application relies on: epoch days, civil dates, month lengths, weekdays,
 * month arithmetic and the split of an instant into a local date-time under
 * a fixed UTC offset.
 *
 * A `LocalDate` is identified throughout the model with its epoch-day number
 * (days since 1970-01-01); `DateOfDay` and `DayOfDate` are proved to be
 * mutually inverse, so comparing dates and comparing epoch days agree.
 */
module Calendar {

  const MillisPerSecond := 1000
  const MillisPerMinute := 60_000
  const MillisPerHour := 3_600_000
  const MillisPerDay := 86_400_000

  /** A civil date; `month` is 1..12 (JANUARY = 1). */
  datatype Date = Date(year: int, month: int, day: int)

  predicate IsLeapYear(y: int) {
    y % 4 == 0 && (y % 100 != 0 || y % 400 == 0)
  }

  function YearLength(y: int): int {
    if IsLeapYear(y) then 366 else 365
  }

  function DaysInMonth(y: int, m: int): (n: int)
    requires 1 <= m <= 12
    ensures 28 <= n <= 31
    ensures m == 2 ==> (n == 29 <==> IsLeapYear(y))
  {
    if m == 2 then (if IsLeapYear(y) then 29 else 28)
    else if m == 4 || m == 6 || m == 9 || m == 11 then 30
    else 31
  }

  predicate ValidDate(d: Date) {
    1 <= d.month <= 12 && 1 <= d.day <= DaysInMonth(d.year, d.month)
  }

  /** Days of year `y` that come before the first of month `m` (m == 13: the whole year). */
  function DaysBeforeMonth(y: int, m: int): int
    requires 1 <= m <= 13
  {
    if m == 1 then 0 else DaysBeforeMonth(y, m - 1) + DaysInMonth(y, m - 1)
  }

  lemma WholeYear(y: int)
    ensures DaysBeforeMonth(y, 13) == YearLength(y)
  {
    var feb := DaysInMonth(y, 2);
    assert DaysBeforeMonth(y, 2) == 31;
    assert DaysBeforeMonth(y, 3) == 31 + feb;
    assert DaysBeforeMonth(y, 4) == 62 + feb;
    assert DaysBeforeMonth(y, 5) == 92 + feb;
    assert DaysBeforeMonth(y, 6) == 123 + feb;
    assert DaysBeforeMonth(y, 7) == 153 + feb;
    assert DaysBeforeMonth(y, 8) == 184 + feb;
    assert DaysBeforeMonth(y, 9) == 215 + feb;
    assert DaysBeforeMonth(y, 10) == 245 + feb;
    assert DaysBeforeMonth(y, 11) == 276 + feb;
    assert DaysBeforeMonth(y, 12) == 306 + feb;
  }

  lemma {:induction false} DaysBeforeMonthMonotone(y: int, a: int, b: int)
    requires 1 <= a <= b <= 13
    ensures DaysBeforeMonth(y, a) + (b - a) * 28 <= DaysBeforeMonth(y, b)
    decreases b - a
  {
    if a < b {
      DaysBeforeMonthMonotone(y, a, b - 1);
    }
  }

  /** Epoch day of January 1st of year `y`. */
  function DaysBeforeYear(y: int): int
    decreases if y < 1970 then 1970 - y else y - 1970
  {
    if y == 1970 then 0
    else if y > 1970 then DaysBeforeYear(y - 1) + YearLength(y - 1)
    else DaysBeforeYear(y + 1) - YearLength(y)
  }

  lemma NextYear(y: int)
    ensures DaysBeforeYear(y + 1) == DaysBeforeYear(y) + YearLength(y)
  {
  }

  lemma {:induction false} DaysBeforeYearMonotone(a: int, b: int)
    requires a <= b
    ensures DaysBeforeYear(a) + (b - a) * 365 <= DaysBeforeYear(b)
    decreases b - a
  {
    if a < b {
      DaysBeforeYearMonotone(a, b - 1);
      NextYear(b - 1);
    }
  }

  /** Epoch-day number of a civil date (kotlinx `LocalDate.toEpochDays`). */
  function DayOfDate(d: Date): int
    requires 1 <= d.month <= 12
  {
    DaysBeforeYear(d.year) + DaysBeforeMonth(d.year, d.month) + d.day - 1
  }

  // ------------------------------------------------- from epoch day to date

  /** The year containing epoch day `n`, searched upwards from year `y`. */
  function YearUp(n: int, y: int): (r: int)
    requires DaysBeforeYear(y) <= n
    ensures DaysBeforeYear(r) <= n < DaysBeforeYear(r + 1)
    decreases n - DaysBeforeYear(y)
  {
    NextYear(y);
    if n < DaysBeforeYear(y + 1) then y else YearUp(n, y + 1)
  }

  /** The year containing epoch day `n`, searched downwards from year `y`. */
  function YearDown(n: int, y: int): (r: int)
    requires n < DaysBeforeYear(y + 1)
    ensures DaysBeforeYear(r) <= n < DaysBeforeYear(r + 1)
    decreases DaysBeforeYear(y + 1) - n
  {
    NextYear(y);
    if DaysBeforeYear(y) <= n then y else YearDown(n, y - 1)
  }

  function YearOfDay(n: int): (y: int)
    ensures DaysBeforeYear(y) <= n < DaysBeforeYear(y + 1)
  {
    if n >= 0 then YearUp(n, 1970) else YearDown(n, 1969)
  }

  /** The month of year `y` holding day-of-year `r`, searched upwards from month `m`. */
  function MonthUp(y: int, r: int, m: int): (k: int)
    requires 1 <= m <= 12
    requires DaysBeforeMonth(y, m) <= r < DaysBeforeMonth(y, 13)
    ensures 1 <= k <= 12
    ensures DaysBeforeMonth(y, k) <= r < DaysBeforeMonth(y, k + 1)
    decreases 12 - m
  {
    if r < DaysBeforeMonth(y, m + 1) then m else MonthUp(y, r, m + 1)
  }

  /** The civil date of epoch day `n` (kotlinx `LocalDate.fromEpochDays`). */
  function DateOfDay(n: int): (d: Date)
    ensures ValidDate(d)
    ensures DayOfDate(d) == n
  {
    var y := YearOfDay(n);
    NextYear(y);
    WholeYear(y);
    var m := MonthUp(y, n - DaysBeforeYear(y), 1);
    Date(y, m, n - DaysBeforeYear(y) - DaysBeforeMonth(y, m) + 1)
  }

  /** A year is determined by any of its days. */
  lemma {:induction false} YearUnique(n: int, a: int, b: int)
    requires DaysBeforeYear(a) <= n < DaysBeforeYear(a + 1)
    requires DaysBeforeYear(b) <= n < DaysBeforeYear(b + 1)
    ensures a == b
  {
    if a < b {
      DaysBeforeYearMonotone(a + 1, b);
    } else if b < a {
      DaysBeforeYearMonotone(b + 1, a);
    }
  }

  lemma {:induction false} MonthUnique(y: int, r: int, a: int, b: int)
    requires 1 <= a <= 12 && 1 <= b <= 12
    requires DaysBeforeMonth(y, a) <= r < DaysBeforeMonth(y, a + 1)
    requires DaysBeforeMonth(y, b) <= r < DaysBeforeMonth(y, b + 1)
    ensures a == b
  {
    if a < b {
      DaysBeforeMonthMonotone(y, a + 1, b);
    } else if b < a {
      DaysBeforeMonthMonotone(y, b + 1, a);
    }
  }

  /** Round trip: every valid date survives conversion to an epoch day and back. */
  lemma {:induction false} DateRoundTrip(d: Date)
    requires ValidDate(d)
    ensures DateOfDay(DayOfDate(d)) == d
  {
    var n := DayOfDate(d);
    var y := d.year;
    var r := n - DaysBeforeYear(y);
    assert r == DaysBeforeMonth(y, d.month) + d.day - 1;
    assert DaysBeforeMonth(y, d.month) <= r < DaysBeforeMonth(y, d.month + 1);
    DaysBeforeMonthMonotone(y, 1, d.month);
    DaysBeforeMonthMonotone(y, d.month + 1, 13);
    WholeYear(y);
    NextYear(y);
    assert DaysBeforeMonth(y, d.month + 1) <= YearLength(y);
    assert n < DaysBeforeYear(y + 1);
    var e := DateOfDay(n);
    YearUnique(n, y, YearOfDay(n));
    assert e.year == y;
    var k := MonthUp(y, r, 1);
    assert e.month == k;
    MonthUnique(y, r, d.month, k);
  }

  /** Distinct epoch days are distinct dates, and distinct valid dates distinct days. */
  lemma DayOfDateInjective(a: Date, b: Date)
    requires ValidDate(a) && ValidDate(b)
    requires DayOfDate(a) == DayOfDate(b)
    ensures a == b
  {
    DateRoundTrip(a);
    DateRoundTrip(b);
  }

  lemma DateOfDayInjective(m: int, n: int)
    requires DateOfDay(m) == DateOfDay(n)
    ensures m == n
  {
  }

  // ----------------------------------------------------- weekdays and months

  /** ISO day of week, 0 = MONDAY .. 6 = SUNDAY; 1970-01-01 was a Thursday. */
  function Weekday(n: int): (w: int)
    ensures 0 <= w < 7
  {
    (n + 3) % 7
  }

  /** Weekdays repeat every seven days and differ between consecutive days. */
  lemma WeekdayPeriodic(n: int)
    ensures Weekday(n + 7) == Weekday(n)
    ensures Weekday(n + 1) == (Weekday(n) + 1) % 7
  {
  }

  /** kotlinx `DayOfWeek.name`. */
  function WeekdayName(w: int): (s: string)
    requires 0 <= w < 7
    ensures 6 <= |s| <= 9
  {
    ["MONDAY", "TUESDAY", "WEDNESDAY", "THURSDAY", "FRIDAY", "SATURDAY", "SUNDAY"][w]
  }

  /** kotlinx `Month.name`. */
  function MonthName(m: int): (s: string)
    requires 1 <= m <= 12
    ensures 3 <= |s|
    ensures forall i :: 0 <= i < |s| ==> 'A' <= s[i] <= 'Z'
  {
    ["JANUARY", "FEBRUARY", "MARCH", "APRIL", "MAY", "JUNE", "JULY",
     "AUGUST", "SEPTEMBER", "OCTOBER", "NOVEMBER", "DECEMBER"][m - 1]
  }

  /** kotlinx `Month.name.take(3)`. */
  function MonthAbbrev(m: int): (s: string)
    requires 1 <= m <= 12
    ensures s == MonthName(m)[..3]
  {
    ["JAN", "FEB", "MAR", "APR", "MAY", "JUN", "JUL", "AUG", "SEP", "OCT", "NOV", "DEC"][m - 1]
  }

  /** The twelve month names, and their three-letter abbreviations, are pairwise distinct. */
  lemma MonthNamesDistinct(a: int, b: int)
    requires 1 <= a <= 12 && 1 <= b <= 12 && a != b
    ensures MonthName(a) != MonthName(b)
    ensures MonthAbbrev(a) != MonthAbbrev(b)
  {
  }

  /** The month `k` months after month `m` (k may be negative), year ignored. */
  function ShiftMonth(m: int, k: int): (r: int)
    requires 1 <= m <= 12
    ensures 1 <= r <= 12
    ensures (r - m - k) % 12 == 0
  {
    (m - 1 + k) % 12 + 1
  }

  /**
   * kotlinx `LocalDate.plus(DatePeriod(months = k))`: move by whole months and
   * clamp the day to the length of the target month.
   */
  function PlusMonths(d: Date, k: int): (r: Date)
    requires ValidDate(d)
    ensures ValidDate(r)
    ensures r.month == ShiftMonth(d.month, k)
    ensures r.year * 12 + r.month == d.year * 12 + d.month + k
  {
    var total := d.year * 12 + (d.month - 1) + k;
    var y := total / 12;
    var m := total % 12 + 1;
    var last := DaysInMonth(y, m);
    Date(y, m, if d.day <= last then d.day else last)
  }

  // ------------------------------------------------------ local date-time

  /**
   * A local date-time at millisecond precision: the epoch day of its date and
   * the time of day.
   */
  datatype LocalDateTime = LocalDateTime(day: int, hour: int, minute: int, second: int, millis: int) {

    predicate Valid() {
      0 <= hour < 24 && 0 <= minute < 60 && 0 <= second < 60 && 0 <= millis < 1000
    }

    /** Milliseconds since the local epoch that this date-time denotes. */
    function LocalMillis(): int {
      day * MillisPerDay + hour * MillisPerHour + minute * MillisPerMinute + second * MillisPerSecond + millis
    }

    /** kotlinx's `LocalDateTime` ordering: by date, then by time of day. */
    predicate AtOrBefore(other: LocalDateTime) {
      if day != other.day then day < other.day
      else if hour != other.hour then hour < other.hour
      else if minute != other.minute then minute < other.minute
      else if second != other.second then second < other.second
      else millis <= other.millis
    }
  }

  /** The local date-time at the start of hour `hour` of epoch day `day`. */
  function AtHour(day: int, hour: int): LocalDateTime {
    LocalDateTime(day, hour, 0, 0, 0)
  }

  /**
   * `Instant.fromEpochMilliseconds(t).toLocalDateTime(zone)` for a zone with
   * the fixed UTC offset `offset` (milliseconds).
   */
  function ToLocal(t: int, offset: int): (dt: LocalDateTime)
    ensures dt.Valid()
    ensures dt.LocalMillis() == t + offset
  {
    var local := t + offset;
    var ms := local % MillisPerDay;
    var withinHour := ms % MillisPerHour;
    var withinMinute := withinHour % MillisPerMinute;
    DivMod(local, MillisPerDay);
    DivMod(ms, MillisPerHour);
    DivMod(withinHour, MillisPerMinute);
    DivMod(withinMinute, MillisPerSecond);
    LocalDateTime(local / MillisPerDay, ms / MillisPerHour, withinHour / MillisPerMinute,
                  withinMinute / MillisPerSecond, withinMinute % MillisPerSecond)
  }

  /** Euclidean division by a positive divisor: quotient times divisor plus remainder. */
  lemma DivMod(x: int, k: int)
    requires k > 0
    ensures x == x / k * k + x % k
    ensures 0 <= x % k < k
  {
  }

  /** The epoch day of the local date of instant `t`. */
  function LocalDay(t: int, offset: int): (d: int)
    ensures d == ToLocal(t, offset).day
  {
    (t + offset) / MillisPerDay
  }

  /** For valid date-times, the lexicographic order is the order of the instants they denote. */
  lemma AtOrBeforeIffEarlier(a: LocalDateTime, b: LocalDateTime)
    requires a.Valid() && b.Valid()
    ensures a.AtOrBefore(b) <==> a.LocalMillis() <= b.LocalMillis()
  {
  }

  /** Comparing local date-times under one offset is comparing the instants. */
  lemma ToLocalOrder(s: int, t: int, offset: int)
    ensures ToLocal(s, offset).AtOrBefore(ToLocal(t, offset)) <==> s <= t
  {
    AtOrBeforeIffEarlier(ToLocal(s, offset), ToLocal(t, offset));
  }

  /** The local date of an instant, as a civil date. */
  function LocalDate(t: int, offset: int): (d: Date)
    ensures ValidDate(d)
  {
    DateOfDay(LocalDay(t, offset))
  }
}
