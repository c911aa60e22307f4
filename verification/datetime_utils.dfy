/**
 * `DateTimeUtils`: 12-hour time formatting, long date formatting, month
 * bounds, relative-time phrases and the today / yesterday / not-in-future
 * tests. The clock reading `now` (epoch milliseconds) and the system zone's
 * fixed UTC offset `offset` (milliseconds) are parameters.
 */
module DateTimeUtils {
  import opened Wrappers
  import opened Calendar
  import opened Text

  // ------------------------------------------------------------ formatTime

  /** The hour `formatTime` shows: afternoon hours lose 12, while 0 and 12 are shown as they are. */
  function ClockHour(hour: int): int {
    if hour > 12 then hour - 12 else hour
  }

  function Meridiem(hour: int): string {
    if hour >= 12 then "PM" else "AM"
  }

  /** `formatTime`: "h:mm AM" / "h:mm PM". */
  function FormatTime(dt: LocalDateTime): (s: string)
    requires dt.Valid()
    ensures 7 <= |s| <= 8
    ensures s[|s| - 2..] == (if dt.hour >= 12 then "PM" else "AM")
    ensures s[|s| - 6] == ':' && s[|s| - 3] == ' '
  {
    var hourText := NatToString(ClockHour(dt.hour));
    var minuteText := PadStart(NatToString(dt.minute), 2, '0');
    ShortNumber(ClockHour(dt.hour));
    TwoDigits(dt.minute);
    TimeTextParts(hourText, minuteText, Meridiem(dt.hour));
    hourText + ":" + minuteText + " " + Meridiem(dt.hour)
  }

  /** Where the parts of an "h:mm XM" text sit, counted from its end. */
  lemma TimeTextParts(hourText: string, minuteText: string, suffix: string)
    requires |minuteText| == 2 && |suffix| == 2
    ensures var s := hourText + ":" + minuteText + " " + suffix;
      |s| == |hourText| + 6 && s[..|s| - 6] == hourText && s[|s| - 5..|s| - 3] == minuteText
      && s[|s| - 6] == ':' && s[|s| - 3] == ' ' && s[|s| - 2..] == suffix
      && (hourText != [] ==> s[0] == hourText[0])
  {
  }

  /** A text of at least six characters, cut where the "h:mm XM" shape has its separators. */
  lemma TimeTextSplit(s: string)
    requires |s| >= 6
    ensures s == s[..|s| - 6] + [s[|s| - 6]] + s[|s| - 5..|s| - 3] + [s[|s| - 3]] + s[|s| - 2..]
  {
  }

  lemma ShortNumber(n: nat)
    requires n < 100
    ensures |NatToString(n)| <= 2
  {
  }

  /**
   * Reads back the 24-hour clock hour and the minute from a `formatTime`
   * text. Only texts `formatTime` can print are read: the hour without a
   * leading zero, 0 to 11 before "AM" and 1 to 12 before "PM", and a
   * minute below 60.
   */
  function ParseTime(s: string): Option<(int, int)> {
    if |s| < 7 then None
    else
      var n := |s|;
      var hourText := s[..n - 6];
      var minuteText := s[n - 5..n - 3];
      if s[n - 6] != ':' || s[n - 3] != ' ' || s[n - 1] != 'M' || (s[n - 2] != 'A' && s[n - 2] != 'P')
         || !AllDigits(hourText) || !AllDigits(minuteText) || (n > 7 && s[0] == '0') then None
      else
        var shown := ParseDigits(hourText);
        var minute := ParseDigits(minuteText);
        var pm := s[n - 2] == 'P';
        if minute >= 60 || (!pm && shown > 11) || (pm && (shown == 0 || shown > 12)) then None
        else
          var hour := if !pm then shown else if shown == 12 then 12 else shown + 12;
          Some((hour, minute))
  }

  lemma TwoDigits(m: nat)
    requires m < 60
    ensures |PadStart(NatToString(m), 2, '0')| == 2
    ensures AllDigits(PadStart(NatToString(m), 2, '0'))
    ensures ParseDigits(PadStart(NatToString(m), 2, '0')) == m
  {
    var p := PadStart(NatToString(m), 2, '0');
    ParseNatToString(m);
    if m < 10 {
      assert p == ['0'] + NatToString(m);
      assert p[..1] == ['0'];
    }
  }

  /**
   * Round trip: the hour and the minute can be read back from `formatTime`'s
   * text, so two different times of day are never shown alike (the AM/PM
   * suffix tells "0:05 AM" from "12:05 PM").
   */
  lemma FormatTimeRoundTrip(dt: LocalDateTime)
    requires dt.Valid()
    ensures ParseTime(FormatTime(dt)) == Some((dt.hour, dt.minute))
  {
    var shown := ClockHour(dt.hour);
    var hourText := NatToString(shown);
    var minuteText := PadStart(NatToString(dt.minute), 2, '0');
    TwoDigits(dt.minute);
    ShortNumber(shown);
    ShownParts(dt, hourText, minuteText);
    assert Meridiem(dt.hour) == if dt.hour >= 12 then "PM" else "AM";
    ParseTimeParts(hourText, minuteText, dt.hour >= 12);
    ParseNatToString(shown);
  }

  /** `ParseTime` splits a text of the `formatTime` shape into its three parts. */
  lemma ParseTimeParts(hourText: string, minuteText: string, pm: bool)
    requires 1 <= |hourText| <= 2 && AllDigits(hourText) && (|hourText| == 1 || hourText[0] != '0')
    requires |minuteText| == 2 && AllDigits(minuteText) && ParseDigits(minuteText) < 60
    requires if pm then 1 <= ParseDigits(hourText) <= 12 else ParseDigits(hourText) <= 11
    ensures var shown := ParseDigits(hourText);
      ParseTime(hourText + ":" + minuteText + " " + (if pm then "PM" else "AM"))
      == Some((if !pm then shown else if shown == 12 then 12 else shown + 12, ParseDigits(minuteText)))
  {
    var suffix := if pm then "PM" else "AM";
    TimeTextParts(hourText, minuteText, suffix);
    var s := hourText + ":" + minuteText + " " + suffix;
    var n := |s|;
    assert s[n - 2] == suffix[0] && s[n - 1] == suffix[1];
    ParseTimeReads(s);
  }

  /** `ParseTime` on a text that passes every check it makes. */
  lemma ParseTimeReads(s: string)
    requires |s| >= 7 && s[|s| - 6] == ':' && s[|s| - 3] == ' ' && s[|s| - 1] == 'M'
    requires s[|s| - 2] == 'A' || s[|s| - 2] == 'P'
    requires AllDigits(s[..|s| - 6]) && AllDigits(s[|s| - 5..|s| - 3]) && (|s| == 7 || s[0] != '0')
    requires ParseDigits(s[|s| - 5..|s| - 3]) < 60
    requires var shown := ParseDigits(s[..|s| - 6]); if s[|s| - 2] == 'P' then 1 <= shown <= 12 else shown <= 11
    ensures var shown := ParseDigits(s[..|s| - 6]);
      ParseTime(s) == Some((if s[|s| - 2] == 'A' then shown else if shown == 12 then 12 else shown + 12, ParseDigits(s[|s| - 5..|s| - 3])))
  {
  }

  /**
   * The converse of the round trip: a text that reads back as a time of day
   * is exactly the text `formatTime` prints for it, so "0:30 PM" or
   * "01:05 AM" are never read.
   */
  lemma ParseTimeExact(s: string, dt: LocalDateTime)
    requires dt.Valid()
    requires ParseTime(s) == Some((dt.hour, dt.minute))
    ensures s == FormatTime(dt)
  {
    ParseTimeFields(s, dt.hour, dt.minute);
    var n := |s|;
    var hourText := s[..n - 6];
    var minuteText := s[n - 5..n - 3];
    var pm := s[n - 2] == 'P';
    var suffix := if pm then "PM" else "AM";
    assert s[n - 2..] == suffix by {
      assert s[n - 2..] == [s[n - 2], s[n - 1]];
    }
    assert NatToString(ClockHour(dt.hour)) == hourText && Meridiem(dt.hour) == suffix by {
      assert hourText != [] && hourText[0] == s[0];
      NatToStringOfDigits(hourText);
      ShownHour(dt.hour, ParseDigits(hourText), pm);
    }
    assert PadStart(NatToString(dt.minute), 2, '0') == minuteText by {
      TwoDigitText(minuteText);
    }
    ShownParts(dt, hourText, minuteText);
    TimeTextSplit(s);
  }

  /** A padded hour and a "PM" hour of 0 are not texts `formatTime` prints, so they are not read. */
  lemma ParseTimeRejectsNonCanonical(padded: string, zeroPm: string)
    requires padded == "01:05 AM" && zeroPm == "0:30 PM"
    ensures ParseTime(padded) == None && ParseTime(zeroPm) == None
  {
    assert padded[0] == '0' && |padded| == 8;
    var hourText := zeroPm[..1];
    assert hourText == ['0'] && hourText[..0] == [] && zeroPm[5] == 'P';
    assert ParseDigits(hourText) == 0;
  }

  /** What `ParseTime` checked of a text it read. */
  lemma ParseTimeFields(s: string, hour: int, minute: int)
    requires ParseTime(s) == Some((hour, minute))
    ensures |s| >= 7 && s[|s| - 6] == ':' && s[|s| - 3] == ' ' && s[|s| - 1] == 'M'
    ensures s[|s| - 2] == 'A' || s[|s| - 2] == 'P'
    ensures AllDigits(s[..|s| - 6]) && AllDigits(s[|s| - 5..|s| - 3]) && (|s| == 7 || s[0] != '0')
    ensures ParseDigits(s[|s| - 5..|s| - 3]) == minute
    ensures var shown := ParseDigits(s[..|s| - 6]); var pm := s[|s| - 2] == 'P';
      (if pm then 1 <= shown <= 12 else shown <= 11) && hour == (if !pm then shown else if shown == 12 then 12 else shown + 12)
  {
  }

  /** The hour read from a shown hour and its suffix is shown the same way again. */
  lemma ShownHour(hour: int, shown: nat, pm: bool)
    requires if pm then 1 <= shown <= 12 else shown <= 11
    requires hour == if !pm then shown else if shown == 12 then 12 else shown + 12
    ensures ClockHour(hour) == shown
    ensures Meridiem(hour) == if pm then "PM" else "AM"
  {
  }

  /** Two digits are the zero-padded rendering of their value. */
  lemma TwoDigitText(t: string)
    requires |t| == 2 && AllDigits(t)
    ensures PadStart(NatToString(ParseDigits(t)), 2, '0') == t
  {
    var v := ParseDigits(t);
    assert t[..1][..0] == [] && t[..1][0] == t[0];
    assert ParseDigits(t[..1]) == DigitValue(t[0]);
    assert v == DigitValue(t[0]) * 10 + DigitValue(t[1]);
    if t[0] == '0' {
      assert v == DigitValue(t[1]);
      assert NatToString(v) == [t[1]];
      assert PadStart([t[1]], 2, '0') == ['0', t[1]];
      assert t == ['0', t[1]];
    } else {
      NatToStringOfDigits(t);
    }
  }

  lemma FormatTimeInjective(a: LocalDateTime, b: LocalDateTime)
    requires a.Valid() && b.Valid()
    requires FormatTime(a) == FormatTime(b)
    ensures a.hour == b.hour && a.minute == b.minute
  {
    FormatTimeRoundTrip(a);
    FormatTimeRoundTrip(b);
  }

  /** Midnight shows hour 0 and noon shows 12. */
  lemma FormatTimeMidnightNoon(midnight: LocalDateTime, noon: LocalDateTime)
    requires midnight.Valid() && midnight.hour == 0 && midnight.minute == 5
    requires noon.Valid() && noon.hour == 12 && noon.minute == 0
    ensures FormatTime(midnight) == "0:05 AM"
    ensures FormatTime(noon) == "12:00 PM"
  {
    ShownParts(midnight, "0", "05");
    ShownParts(noon, "12", "00");
  }

  /** After noon the shown hour counts from 1 again. */
  lemma FormatTimeAfternoon(dt: LocalDateTime)
    requires dt.Valid() && dt.hour == 13 && dt.minute == 30
    ensures FormatTime(dt) == "1:30 PM"
  {
    ShownParts(dt, "1", "30");
  }

  /** `FormatTime` assembled from the texts of its hour and minute. */
  lemma ShownParts(dt: LocalDateTime, hourText: string, minuteText: string)
    requires dt.Valid()
    requires NatToString(ClockHour(dt.hour)) == hourText
    requires PadStart(NatToString(dt.minute), 2, '0') == minuteText
    ensures FormatTime(dt) == hourText + ":" + minuteText + " " + Meridiem(dt.hour)
  {
  }

  // ------------------------------------------------------------ formatDate

  /**
   * `month.name.lowercase().capitalize()`: "January" .. "December" — the
   * upper-case name's first letter, then the rest in lower case.
   */
  function MonthTitle(m: int): (s: string)
    requires 1 <= m <= 12
    ensures s == [MonthName(m)[0]] + Lower(MonthName(m)[1..])
    ensures 'A' <= s[0] <= 'Z' && forall i :: 1 <= i < |s| ==> 'a' <= s[i] <= 'z'
    ensures Upper(s) == MonthName(m)
  {
    var name := MonthName(m);
    UpperOfTitleCase(name);
    var s := Capitalize(Lower(name));
    assert s[1..] == Lower(name)[1..] == Lower(name[1..]);
    assert s == [s[0]] + s[1..];
    s
  }

  /** Different months have different titles. */
  lemma MonthTitlesDistinct(a: int, b: int)
    requires 1 <= a < b <= 12
    ensures MonthTitle(a) != MonthTitle(b)
  {
    MonthNamesDistinct(a, b);
  }

  /** `formatDate(LocalDate)`: "<Month> <day>, <year>", e.g. "March 5, 2024". */
  function FormatDate(d: Date): string
    requires ValidDate(d)
  {
    MonthTitle(d.month) + " " + NatToString(d.day) + ", " + IntToString(d.year)
  }

  /** `formatDate(timestamp)`: the local date of an instant, formatted. */
  function FormatTimestampDate(t: int, offset: int): string {
    FormatDate(LocalDate(t, offset))
  }

  /** The text `formatDate(timestamp)` shows reads back as the instant's local date. */
  lemma FormatTimestampDateRoundTrip(t: int, offset: int)
    ensures ParseDate(FormatTimestampDate(t, offset)) == Some(LocalDate(t, offset))
  {
    FormatDateRoundTrip(LocalDate(t, offset));
  }

  /** The month whose title, exactly as `formatDate` writes it, is `word`. */
  function MonthNumber(word: string, m: int): (r: Option<int>)
    requires 1 <= m <= 13
    ensures r.Some? ==> 1 <= r.value <= 12 && MonthTitle(r.value) == word
    decreases 13 - m
  {
    if m == 13 then None
    else if MonthTitle(m) == word then Some(m)
    else MonthNumber(word, m + 1)
  }

  lemma {:induction false} MonthNumberFinds(m: int, k: int)
    requires 1 <= k <= m <= 12
    ensures MonthNumber(MonthTitle(m), k) == Some(m)
    decreases m - k
  {
    if k < m {
      MonthTitlesDistinct(k, m);
      MonthNumberFinds(m, k + 1);
    }
  }

  /** Reads a date back from a `formatDate` text; the month title must match exactly, case included. */
  function ParseDate(s: string): Option<Date> {
    match IndexOf(s, ' ')
    case None => None
    case Some(i) =>
      match MonthNumber(s[..i], 1)
      case None => None
      case Some(m) =>
        match ParseDayYear(s[i + 1..])
        case None => None
        case Some(dayYear) => Some(Date(dayYear.1, m, dayYear.0))
  }

  /** Reads "<day>, <year>". */
  function ParseDayYear(rest: string): Option<(int, int)> {
    match IndexOf(rest, ',')
    case None => None
    case Some(j) =>
      if j + 2 <= |rest| && rest[j + 1] == ' ' && AllDigits(rest[..j]) then
        match ParseInt(rest[j + 2..])
        case None => None
        case Some(y) => Some((ParseDigits(rest[..j]), y))
      else None
  }

  lemma MonthTitleHasNoSpace(m: int)
    requires 1 <= m <= 12
    ensures ' ' !in MonthTitle(m)
  {
    var title := MonthTitle(m);
    forall k | 0 <= k < |title|
      ensures title[k] != ' '
    {
      assert Upper(title)[k] == UpperChar(title[k]);
    }
  }

  lemma DigitsHaveNoComma(s: string)
    requires AllDigits(s)
    ensures ',' !in s
  {
    forall k | 0 <= k < |s|
      ensures s[k] != ','
    {
      assert IsDigit(s[k]);
    }
  }

  /** The day-and-year part of a `formatDate` text reads back. */
  lemma DayYearRoundTrip(day: nat, year: int)
    ensures ParseDayYear(NatToString(day) + ", " + IntToString(year)) == Some((day, year))
  {
    var dayText := NatToString(day);
    var yearText := IntToString(year);
    var rest := dayText + ", " + yearText;
    DigitsHaveNoComma(dayText);
    assert rest == dayText + [','] + (" " + yearText);
    IndexOfConcat(dayText, ',', " " + yearText);
    assert rest[..|dayText|] == dayText;
    assert rest[|dayText| + 2..] == yearText;
    ParseNatToString(day);
    ParseIntToString(year);
  }

  /** Round trip: a valid date can be read back from its `formatDate` text, so the format is injective. */
  lemma FormatDateRoundTrip(d: Date)
    requires ValidDate(d)
    ensures ParseDate(FormatDate(d)) == Some(d)
  {
    var title := MonthTitle(d.month);
    var rest := NatToString(d.day) + ", " + IntToString(d.year);
    var s := FormatDate(d);
    assert s == title + [' '] + rest;
    MonthTitleHasNoSpace(d.month);
    IndexOfConcat(title, ' ', rest);
    assert s[..|title|] == title;
    assert s[|title| + 1..] == rest;
    MonthNumberFinds(d.month, 1);
    DayYearRoundTrip(d.day, d.year);
  }

  lemma FormatDateInjective(a: Date, b: Date)
    requires ValidDate(a) && ValidDate(b)
    requires FormatDate(a) == FormatDate(b)
    ensures a == b
  {
    FormatDateRoundTrip(a);
    FormatDateRoundTrip(b);
  }

  /** For example, 5 March 2024 is shown as "March 5, 2024". */
  lemma FormatDateExample(d: Date, month: string, day: string, year: string)
    requires d == Date(2024, 3, 5)
    requires month == "March" && day == "5" && year == "2024"
    ensures FormatDate(d) == month + " " + day + ", " + year
  {
    var name := MonthName(3);
    assert name == "MARCH";
    assert MonthTitle(3) == month;
    assert NatToString(5) == day;
    assert IntToString(2024) == year;
  }

  // ------------------------------------------------------- getMonthStartEnd

  /** The epoch millisecond of `dt` read as a UTC date-time (`toInstant(TimeZone.UTC)`). */
  function UtcMillis(dt: LocalDateTime): int {
    dt.LocalMillis()
  }

  /** The first day of the month after `month` of `year`, rolling December into January. */
  function NextMonthStart(month: int, year: int): (d: Date)
    requires 1 <= month <= 12
    ensures ValidDate(d) && d.day == 1
  {
    if month == 12 then Date(year + 1, 1, 1) else Date(year, month + 1, 1)
  }

  /**
   * `getMonthStartEnd(month, year)`: the month's first day at 00:00:00 and
   * its last day (the next month's first day minus one day) at 23:59:59, both
   * as UTC epoch milliseconds.
   */
  function MonthStartEnd(month: int, year: int): (r: (int, int))
    requires 1 <= month <= 12
    ensures r.0 % MillisPerDay == 0
    ensures DateOfDay(r.0 / MillisPerDay) == Date(year, month, 1)
    ensures r.1 % MillisPerDay == 23 * MillisPerHour + 59 * MillisPerMinute + 59 * MillisPerSecond
    ensures DateOfDay(r.1 / MillisPerDay) == Date(year, month, DaysInMonth(year, month))
    ensures r.1 - r.0 == DaysInMonth(year, month) * MillisPerDay - 1000
  {
    var startDay := DayOfDate(Date(year, month, 1));
    var endDay := DayOfDate(NextMonthStart(month, year)) - 1;
    var start := UtcMillis(AtHour(startDay, 0));
    var end := UtcMillis(LocalDateTime(endDay, 23, 59, 59, 0));
    MonthStart(month, year, startDay, start);
    MonthEnd(month, year, endDay, end);
    MonthLength(month, year);
    SpanMillis(startDay, endDay, DaysInMonth(year, month));
    (start, end)
  }

  /** The window's start is midnight of the month's first day. */
  lemma MonthStart(month: int, year: int, startDay: int, start: int)
    requires 1 <= month <= 12
    requires startDay == DayOfDate(Date(year, month, 1))
    requires start == UtcMillis(AtHour(startDay, 0))
    ensures start == startDay * MillisPerDay
    ensures start % MillisPerDay == 0 && start / MillisPerDay == startDay
    ensures DateOfDay(start / MillisPerDay) == Date(year, month, 1)
  {
    MidnightMillis(startDay);
    DateRoundTrip(Date(year, month, 1));
  }

  /** The window's end is 23:59:59 of the day before the next month's first day, the month's last day. */
  lemma MonthEnd(month: int, year: int, endDay: int, end: int)
    requires 1 <= month <= 12
    requires endDay == DayOfDate(NextMonthStart(month, year)) - 1
    requires end == UtcMillis(LocalDateTime(endDay, 23, 59, 59, 0))
    ensures end == endDay * MillisPerDay + 86_399_000
    ensures end % MillisPerDay == 23 * MillisPerHour + 59 * MillisPerMinute + 59 * MillisPerSecond
    ensures end / MillisPerDay == endDay
    ensures DateOfDay(end / MillisPerDay) == Date(year, month, DaysInMonth(year, month))
  {
    EndOfDayMillis(endDay, end);
    LastDayOfMonth(month, year, endDay);
  }

  lemma EndOfDayMillis(day: int, end: int)
    requires end == UtcMillis(LocalDateTime(day, 23, 59, 59, 0))
    ensures end == day * MillisPerDay + 86_399_000
    ensures end % MillisPerDay == 23 * MillisPerHour + 59 * MillisPerMinute + 59 * MillisPerSecond
    ensures end / MillisPerDay == day
  {
    SplitMillis(day, 86_399_000);
  }

  /** The day before the next month's first day is this month's last day. */
  lemma LastDayOfMonth(month: int, year: int, endDay: int)
    requires 1 <= month <= 12
    requires endDay == DayOfDate(NextMonthStart(month, year)) - 1
    ensures DateOfDay(endDay) == Date(year, month, DaysInMonth(year, month))
  {
    MonthLength(month, year);
    var lastDate := Date(year, month, DaysInMonth(year, month));
    assert DayOfDate(lastDate) == endDay;
    DateRoundTrip(lastDate);
  }

  /** From midnight of `first` to 23:59:59 of `last`, for `n` days. */
  lemma SpanMillis(first: int, last: int, n: int)
    requires last - first == n - 1
    ensures last * MillisPerDay + 86_399_000 - first * MillisPerDay == n * MillisPerDay - 1000
  {
    assert last * MillisPerDay - first * MillisPerDay == (last - first) * MillisPerDay;
  }

  lemma MidnightMillis(day: int)
    ensures (day * MillisPerDay) / MillisPerDay == day
    ensures (day * MillisPerDay) % MillisPerDay == 0
  {
    SplitMillis(day, 0);
  }

  /** Division by the length of a day recovers the day and the time of day. */
  lemma SplitMillis(day: int, ms: int)
    requires 0 <= ms < MillisPerDay
    ensures (day * MillisPerDay + ms) / MillisPerDay == day
    ensures (day * MillisPerDay + ms) % MillisPerDay == ms
  {
  }

  /** A month spans `DaysInMonth` epoch days, February of a leap year 29 of them. */
  lemma MonthLength(month: int, year: int)
    requires 1 <= month <= 12
    ensures DayOfDate(NextMonthStart(month, year)) - DayOfDate(Date(year, month, 1)) == DaysInMonth(year, month)
  {
    if month == 12 {
      NextYear(year);
      WholeYear(year);
    }
  }

  /** Consecutive months' windows are one second apart, December included. */
  lemma NextMonthFollows(month: int, year: int)
    requires 1 <= month <= 12
    ensures month < 12 ==> MonthStartEnd(month + 1, year).0 == MonthStartEnd(month, year).1 + 1000
    ensures month == 12 ==> MonthStartEnd(1, year + 1).0 == MonthStartEnd(month, year).1 + 1000
  {
    MonthLength(month, year);
  }

  /**
   * The windows leave the last 999 ms of every month out: an instant in the
   * final second after 23:59:59.000 lies neither in its month's window nor
   * in the next one's.
   */
  lemma LastSecondUncovered(month: int, year: int, t: int)
    requires 1 <= month <= 12
    requires MonthStartEnd(month, year).1 < t < MonthStartEnd(month, year).1 + 1000
    ensures !(MonthStartEnd(month, year).0 <= t <= MonthStartEnd(month, year).1)
    ensures month < 12 ==> t < MonthStartEnd(month + 1, year).0
    ensures month == 12 ==> t < MonthStartEnd(1, year + 1).0
  {
    NextMonthFollows(month, year);
  }

  // --------------------------------------------------- getRelativeTimeSpan

  /** The phrase `getRelativeTimeSpan` picks, by whole days between the two dates. */
  datatype Span = Today | Yesterday | DaysAgo(n: int) | WeeksAgo(n: int) | MonthsAgo(n: int) | YearsAgo(n: int) {

    /** Order of the phrases from most to least recent. */
    function Rank(): int {
      match this
      case Today => 0
      case Yesterday => 1
      case DaysAgo(_) => 2
      case WeeksAgo(_) => 3
      case MonthsAgo(_) => 4
      case YearsAgo(_) => 5
    }
  }

  function SpanOf(days: int): (s: Span)
    ensures s == Today <==> days == 0
    ensures s == Yesterday <==> days == 1
    ensures s.DaysAgo? <==> days < 7 && days != 0 && days != 1
    ensures s.DaysAgo? ==> s.n == days
    ensures s.WeeksAgo? <==> 7 <= days < 30
    ensures s.WeeksAgo? ==> 1 <= s.n <= 4 && 7 * s.n <= days < 7 * s.n + 7
    ensures s.MonthsAgo? <==> 30 <= days < 365
    ensures s.MonthsAgo? ==> 1 <= s.n <= 12 && 30 * s.n <= days < 30 * s.n + 30
    ensures s.YearsAgo? <==> 365 <= days
    ensures s.YearsAgo? ==> 1 <= s.n && 365 * s.n <= days < 365 * s.n + 365
  {
    if days == 0 then Today
    else if days == 1 then Yesterday
    else if days < 7 then DaysAgo(days)
    else if days < 30 then WeeksAgo(days / 7)
    else if days < 365 then MonthsAgo(days / 30)
    else YearsAgo(days / 365)
  }

  function RenderSpan(s: Span): string {
    match s
    case Today => "Today"
    case Yesterday => "Yesterday"
    case DaysAgo(n) => IntToString(n) + " days ago"
    case WeeksAgo(n) => IntToString(n) + " weeks ago"
    case MonthsAgo(n) => IntToString(n) + " months ago"
    case YearsAgo(n) => IntToString(n) + " years ago"
  }

  /**
   * `getRelativeTimeSpan`: the phrase for the number of days from the
   * instant's local date to today's. A date after today gives a negative
   * count and the "days ago" phrase.
   */
  function RelativeTimeSpan(t: int, now: int, offset: int): (r: string)
    ensures r == RenderSpan(SpanOf(LocalDay(now, offset) - LocalDay(t, offset)))
    ensures LocalDay(t, offset) > LocalDay(now, offset) ==>
      r == IntToString(LocalDay(now, offset) - LocalDay(t, offset)) + " days ago"
  {
    var days := DayOfDate(LocalDate(now, offset)) - DayOfDate(LocalDate(t, offset));
    assert days == LocalDay(now, offset) - LocalDay(t, offset);
    var span := SpanOf(days);
    assert days < 0 ==> span == DaysAgo(days);
    RenderSpan(span)
  }

  /** An older date never gets a more recent phrase. */
  lemma SpanMonotone(d1: int, d2: int)
    requires 0 <= d1 <= d2
    ensures SpanOf(d1).Rank() <= SpanOf(d2).Rank()
  {
  }

  // ---------------------------------------------- isValidDate, isToday, ...

  /** `isValidDate`: the instant's local date-time is not after now's. */
  function IsValidDate(t: int, now: int, offset: int): (r: bool)
    ensures r <==> t <= now
  {
    ToLocalOrder(t, now, offset);
    ToLocal(t, offset).AtOrBefore(ToLocal(now, offset))
  }

  /** `LocalDate.minus(DatePeriod(days = k))`. */
  function MinusDays(d: Date, k: int): (r: Date)
    requires ValidDate(d)
    ensures ValidDate(r) && DayOfDate(r) == DayOfDate(d) - k
  {
    DateOfDay(DayOfDate(d) - k)
  }

  /** `isToday`: the instant's local date is today's. */
  function IsToday(t: int, now: int, offset: int): (r: bool)
    ensures r <==> LocalDay(t, offset) == LocalDay(now, offset)
  {
    LocalDate(t, offset) == LocalDate(now, offset)
  }

  /** `isYesterday`: the instant's local date is the day before today's. */
  function IsYesterday(t: int, now: int, offset: int): (r: bool)
    ensures r <==> LocalDay(t, offset) == LocalDay(now, offset) - 1
  {
    var yesterday := MinusDays(LocalDate(now, offset), 1);
    if LocalDate(t, offset) == yesterday then
      DayOfDateInjective(LocalDate(t, offset), yesterday);
      true
    else false
  }

  lemma NeverTodayAndYesterday(t: int, now: int, offset: int)
    ensures !(IsToday(t, now, offset) && IsYesterday(t, now, offset))
  {
  }
}
