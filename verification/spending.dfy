/**
 * The chart data of the home screen's view-model: `getHourlySpending`,
 * `getDailySpending`, `getWeeklySpending`, `getMonthlySpending` and the
 * `updateSpendingData` dispatch on the selected time frame.
 *
 * "Now" is the epoch-millisecond instant `now`, and the system time zone is a
 * fixed UTC offset `offset` in milliseconds. Dates are epoch days.
 */
module Spending {
  import opened Models
  import opened Calendar
  import Text

  /** One chart point: the bucket's summed amount, its label (`caption`) and its start. */
  datatype SpendingPoint = SpendingPoint(value: int, caption: string, timestamp: LocalDateTime)

  /** The set of local date-times one chart point collects. */
  datatype Bucket =
    | HourOf(day: int, hour: int)      // that hour of that date
    | DaysFrom(first: int, last: int)  // the dates first..last, both included
    | MonthOf(month: int)              // that calendar month, in any year

  /** Whether transaction `e` falls in bucket `b`, read in the local time of `offset`. */
  predicate Matches(b: Bucket, e: Expense, offset: int) {
    var dt := ToLocal(e.date, offset);
    match b
    case HourOf(d, h) => dt.hour == h && dt.day == d
    case DaysFrom(f, l) => f <= dt.day <= l
    case MonthOf(m) => DateOfDay(dt.day).month == m
  }

  /** Sum of the amounts of the transactions of `xs` in bucket `b`. */
  function BucketSum(xs: seq<Expense>, b: Bucket, offset: int): int {
    if xs == [] then 0
    else (if Matches(b, xs[0], offset) then xs[0].amount else 0) + BucketSum(xs[1..], b, offset)
  }

  /** The value of each bucket of `bs`, in order. */
  function ChartValues(xs: seq<Expense>, bs: seq<Bucket>, offset: int): (vs: seq<int>)
    ensures |vs| == |bs|
    ensures forall i :: 0 <= i < |bs| ==> vs[i] == BucketSum(xs, bs[i], offset)
  {
    seq(|bs|, i requires 0 <= i < |bs| => BucketSum(xs, bs[i], offset))
  }

  /** The points of a chart: bucket values with their labels and start times. */
  function Chart(xs: seq<Expense>, bs: seq<Bucket>, labels: seq<string>,
                 stamps: seq<LocalDateTime>, offset: int): (r: seq<SpendingPoint>)
    requires |labels| == |bs| && |stamps| == |bs|
    ensures |r| == |bs|
    ensures Values(r) == ChartValues(xs, bs, offset)
    ensures forall i :: 0 <= i < |r| ==> r[i].caption == labels[i] && r[i].timestamp == stamps[i]
  {
    seq(|bs|, i requires 0 <= i < |bs| => SpendingPoint(BucketSum(xs, bs[i], offset), labels[i], stamps[i]))
  }

  function Values(r: seq<SpendingPoint>): (vs: seq<int>)
    ensures |vs| == |r|
    ensures forall i :: 0 <= i < |r| ==> vs[i] == r[i].value
  {
    seq(|r|, i requires 0 <= i < |r| => r[i].value)
  }

  function Sum(vs: seq<int>): int {
    if vs == [] then 0 else vs[0] + Sum(vs[1..])
  }

  // ---------------------------------------------------- partition algebra

  /** No transaction can fall in two different buckets of `bs`. */
  ghost predicate Disjoint(bs: seq<Bucket>, offset: int) {
    forall e: Expense, i, j :: 0 <= i < j < |bs| && Matches(bs[i], e, offset) ==> !Matches(bs[j], e, offset)
  }

  predicate MatchesAny(bs: seq<Bucket>, e: Expense, offset: int) {
    exists i :: 0 <= i < |bs| && Matches(bs[i], e, offset)
  }

  /** Sum of the amounts of the transactions of `xs` that fall in some bucket of `bs`. */
  function CoveredSum(xs: seq<Expense>, bs: seq<Bucket>, offset: int): int {
    if xs == [] then 0
    else (if MatchesAny(bs, xs[0], offset) then xs[0].amount else 0) + CoveredSum(xs[1..], bs, offset)
  }

  lemma {:induction false} SplitFirstBucket(xs: seq<Expense>, bs: seq<Bucket>, offset: int)
    requires |bs| > 0 && Disjoint(bs, offset)
    ensures BucketSum(xs, bs[0], offset) + CoveredSum(xs, bs[1..], offset) == CoveredSum(xs, bs, offset)
    decreases |xs|
  {
    if xs != [] {
      var e := xs[0];
      if MatchesAny(bs[1..], e, offset) {
        var i :| 0 <= i < |bs| - 1 && Matches(bs[1..][i], e, offset);
        assert Matches(bs[i + 1], e, offset);
      }
      if MatchesAny(bs, e, offset) && !Matches(bs[0], e, offset) {
        var i :| 0 <= i < |bs| && Matches(bs[i], e, offset);
        assert Matches(bs[1..][i - 1], e, offset);
      }
      SplitFirstBucket(xs[1..], bs, offset);
    }
  }

  lemma {:induction false} NothingCovered(xs: seq<Expense>, offset: int)
    ensures CoveredSum(xs, [], offset) == 0
    decreases |xs|
  {
    if xs != [] {
      NothingCovered(xs[1..], offset);
    }
  }

  /** For disjoint buckets, the chart's values add up to the amounts the buckets cover. */
  lemma {:induction false} ChartSum(xs: seq<Expense>, bs: seq<Bucket>, offset: int)
    requires Disjoint(bs, offset)
    ensures Sum(ChartValues(xs, bs, offset)) == CoveredSum(xs, bs, offset)
    decreases |bs|
  {
    if bs == [] {
      NothingCovered(xs, offset);
    } else {
      var rest := bs[1..];
      assert ChartValues(xs, bs, offset)[1..] == ChartValues(xs, rest, offset);
      assert Disjoint(rest, offset) by {
        forall e: Expense, i, j | 0 <= i < j < |rest| && Matches(rest[i], e, offset)
          ensures !Matches(rest[j], e, offset)
        {
          assert rest[i] == bs[i + 1] && rest[j] == bs[j + 1];
        }
      }
      ChartSum(xs, rest, offset);
      SplitFirstBucket(xs, bs, offset);
    }
  }

  /** Covering what one bucket `b` covers, the buckets `bs` cover the same amount. */
  lemma {:induction false} CoveredLikeBucket(xs: seq<Expense>, bs: seq<Bucket>, b: Bucket, offset: int)
    requires forall e: Expense :: MatchesAny(bs, e, offset) <==> Matches(b, e, offset)
    ensures CoveredSum(xs, bs, offset) == BucketSum(xs, b, offset)
    decreases |xs|
  {
    if xs != [] {
      CoveredLikeBucket(xs[1..], bs, b, offset);
    }
  }

  /** Buckets that cover every transaction cover the whole amount. */
  lemma {:induction false} CoveredEverything(xs: seq<Expense>, bs: seq<Bucket>, offset: int)
    requires forall e: Expense :: MatchesAny(bs, e, offset)
    ensures CoveredSum(xs, bs, offset) == Total(xs)
    decreases |xs|
  {
    if xs != [] {
      CoveredEverything(xs[1..], bs, offset);
    }
  }

  /** With non-negative amounts no bucket value is negative. */
  lemma {:induction false} BucketSumNonNegative(xs: seq<Expense>, b: Bucket, offset: int)
    requires forall i :: 0 <= i < |xs| ==> xs[i].amount >= 0
    ensures BucketSum(xs, b, offset) >= 0
    decreases |xs|
  {
    if xs != [] {
      BucketSumNonNegative(xs[1..], b, offset);
    }
  }

  /** Transactions outside a bucket add nothing to it. */
  lemma {:induction false} BucketSumAppendOutside(xs: seq<Expense>, ys: seq<Expense>, b: Bucket, offset: int)
    requires forall i :: 0 <= i < |ys| ==> !Matches(b, ys[i], offset)
    ensures BucketSum(xs + ys, b, offset) == BucketSum(xs, b, offset)
    decreases |xs|
  {
    if xs == [] {
      assert xs + ys == ys;
      BucketSumOutside(ys, b, offset);
    } else {
      assert (xs + ys)[1..] == xs[1..] + ys;
      BucketSumAppendOutside(xs[1..], ys, b, offset);
    }
  }

  lemma {:induction false} BucketSumOutside(ys: seq<Expense>, b: Bucket, offset: int)
    requires forall i :: 0 <= i < |ys| ==> !Matches(b, ys[i], offset)
    ensures BucketSum(ys, b, offset) == 0
    decreases |ys|
  {
    if ys != [] {
      BucketSumOutside(ys[1..], b, offset);
    }
  }

  // --------------------------------------------------------- hourly chart

  function HourlyBuckets(today: int): (bs: seq<Bucket>)
    ensures |bs| == 24
    ensures forall h :: 0 <= h < 24 ==> bs[h] == HourOf(today, h)
  {
    seq(24, h => HourOf(today, h))
  }

  /**
   * `getHourlySpending`: 24 points "0:00" .. "23:00"; point h collects the
   * transactions of today's local date whose local hour is h.
   */
  function HourlySpending(xs: seq<Expense>, now: int, offset: int): (r: seq<SpendingPoint>)
    ensures |r| == 24
    ensures forall h :: 0 <= h < 24 ==>
      && r[h].caption == Text.NatToString(h) + ":00"
      && r[h].timestamp == AtHour(LocalDay(now, offset), h)
      && r[h].value == BucketSum(xs, HourOf(LocalDay(now, offset), h), offset)
  {
    var today := LocalDay(now, offset);
    Chart(xs, HourlyBuckets(today),
          seq(24, h requires 0 <= h < 24 => Text.NatToString(h) + ":00"),
          seq(24, h => AtHour(today, h)), offset)
  }

  /** The hourly chart adds up to exactly today's transactions: each lands in one hour. */
  lemma HourlyTotal(xs: seq<Expense>, now: int, offset: int)
    ensures Sum(Values(HourlySpending(xs, now, offset))) == BucketSum(xs, DaysFrom(LocalDay(now, offset), LocalDay(now, offset)), offset)
  {
    var today := LocalDay(now, offset);
    var bs := HourlyBuckets(today);
    forall e: Expense
      ensures MatchesAny(bs, e, offset) <==> Matches(DaysFrom(today, today), e, offset)
    {
      if Matches(DaysFrom(today, today), e, offset) {
        assert Matches(bs[ToLocal(e.date, offset).hour], e, offset);
      }
    }
    ChartSum(xs, bs, offset);
    CoveredLikeBucket(xs, bs, DaysFrom(today, today), offset);
  }

  /** Transactions of other dates leave the hourly chart unchanged. */
  lemma HourlyIgnoresOtherDays(xs: seq<Expense>, ys: seq<Expense>, now: int, offset: int)
    requires forall i :: 0 <= i < |ys| ==> LocalDay(ys[i].date, offset) != LocalDay(now, offset)
    ensures Values(HourlySpending(xs + ys, now, offset)) == Values(HourlySpending(xs, now, offset))
  {
    var today := LocalDay(now, offset);
    forall h | 0 <= h < 24
      ensures BucketSum(xs + ys, HourOf(today, h), offset) == BucketSum(xs, HourOf(today, h), offset)
    {
      BucketSumAppendOutside(xs, ys, HourOf(today, h), offset);
    }
  }

  // ---------------------------------------------------------- daily chart

  /** Point i (0..6) of the daily chart collects the date today - (6 - i): `daysAgo` runs 6 down to 0. */
  function DailyBuckets(today: int): (bs: seq<Bucket>)
    ensures |bs| == 7
    ensures forall i :: 0 <= i < 7 ==> bs[i] == DaysFrom(today - (6 - i), today - (6 - i))
  {
    seq(7, i => DaysFrom(today - (6 - i), today - (6 - i)))
  }

  /** `DayOfWeek.name.take(3)`. */
  function WeekdayAbbrev(day: int): (s: string)
    ensures |s| == 3
    ensures s == WeekdayName(Weekday(day))[..3]
  {
    Text.Take(WeekdayName(Weekday(day)), 3)
  }

  function DailyLabel(today: int, i: int): string {
    if i == 6 then "Today" else if i == 5 then "Yesterday" else WeekdayAbbrev(today - (6 - i))
  }

  function DailyLabels(today: int): (ls: seq<string>)
    ensures |ls| == 7
    ensures ls[6] == "Today" && ls[5] == "Yesterday"
    ensures forall i :: 0 <= i < 5 ==> ls[i] == WeekdayName(Weekday(today - (6 - i)))[..3]
  {
    seq(7, i => DailyLabel(today, i))
  }

  function DailyStamps(today: int): (ts: seq<LocalDateTime>)
    ensures |ts| == 7
    ensures forall i :: 0 <= i < 7 ==> ts[i] == AtHour(today - (6 - i), 0)
  {
    seq(7, i => AtHour(today - (6 - i), 0))
  }

  /**
   * `getDailySpending`: 7 points, oldest first, one per date today-6 .. today,
   * labelled by weekday except "Yesterday" and "Today" at the end.
   */
  function DailySpending(xs: seq<Expense>, now: int, offset: int): (r: seq<SpendingPoint>)
    ensures |r| == 7
    ensures var today := LocalDay(now, offset);
      forall i :: 0 <= i < 7 ==>
        && r[i].timestamp == AtHour(today - (6 - i), 0)
        && r[i].value == BucketSum(xs, DaysFrom(today - (6 - i), today - (6 - i)), offset)
  {
    DailyChart(xs, LocalDay(now, offset), offset)
  }

  /** The daily chart's captions: weekday abbreviations, then "Yesterday" and "Today". */
  lemma DailyCaptions(xs: seq<Expense>, now: int, offset: int)
    ensures var r := DailySpending(xs, now, offset);
      && r[6].caption == "Today" && r[5].caption == "Yesterday"
      && forall i :: 0 <= i < 5 ==> r[i].caption == WeekdayName(Weekday(LocalDay(now, offset) - (6 - i)))[..3]
  {
    var today := LocalDay(now, offset);
    var r := DailyChart(xs, today, offset);
    assert r == DailySpending(xs, now, offset);
  }

  function DailyChart(xs: seq<Expense>, today: int, offset: int): (r: seq<SpendingPoint>)
    ensures |r| == 7
    ensures forall i :: 0 <= i < 7 ==>
      && r[i].timestamp == AtHour(today - (6 - i), 0)
      && r[i].value == BucketSum(xs, DaysFrom(today - (6 - i), today - (6 - i)), offset)
    ensures r[6].caption == "Today" && r[5].caption == "Yesterday"
    ensures forall i :: 0 <= i < 5 ==> r[i].caption == WeekdayName(Weekday(today - (6 - i)))[..3]
  {
    Chart(xs, DailyBuckets(today), DailyLabels(today), DailyStamps(today), offset)
  }

  /** The daily chart adds up to the transactions of the trailing seven dates. */
  lemma DailyTotal(xs: seq<Expense>, now: int, offset: int)
    ensures Sum(Values(DailySpending(xs, now, offset))) == BucketSum(xs, DaysFrom(LocalDay(now, offset) - 6, LocalDay(now, offset)), offset)
  {
    var today := LocalDay(now, offset);
    var bs := DailyBuckets(today);
    var window := DaysFrom(today - 6, today);
    forall e: Expense
      ensures MatchesAny(bs, e, offset) <==> Matches(window, e, offset)
    {
      if Matches(window, e, offset) {
        assert Matches(bs[ToLocal(e.date, offset).day - today + 6], e, offset);
      }
    }
    ChartSum(xs, bs, offset);
    CoveredLikeBucket(xs, bs, window, offset);
  }

  /** Today's daily point and the whole hourly chart report the same amount. */
  lemma DailyTodayIsHourlyTotal(xs: seq<Expense>, now: int, offset: int)
    ensures DailySpending(xs, now, offset)[6].value == Sum(Values(HourlySpending(xs, now, offset)))
  {
    HourlyTotal(xs, now, offset);
  }

  // --------------------------------------------------------- weekly chart

  /** First epoch day of point i (0..3) of the weekly chart: `weekAgo` runs 3 down to 0. */
  function WeekStart(today: int, i: int): int {
    today - 7 * (3 - i)
  }

  function WeeklyBuckets(today: int): (bs: seq<Bucket>)
    ensures |bs| == 4
    ensures forall i :: 0 <= i < 4 ==> bs[i] == DaysFrom(WeekStart(today, i), WeekStart(today, i) + 6)
  {
    seq(4, i => DaysFrom(WeekStart(today, i), WeekStart(today, i) + 6))
  }

  /**
   * `getWeeklySpending`: 4 points "Week 1" .. "Week 4", oldest first; point i
   * collects the dates today-7(3-i) .. today-7(3-i)+6.
   */
  function WeeklySpending(xs: seq<Expense>, now: int, offset: int): (r: seq<SpendingPoint>)
    ensures |r| == 4
    ensures forall i :: 0 <= i < 4 ==>
      var first := LocalDay(now, offset) - 7 * (3 - i);
      && r[i].caption == "Week " + Text.NatToString(i + 1)
      && r[i].timestamp == AtHour(first, 0)
      && r[i].value == BucketSum(xs, DaysFrom(first, first + 6), offset)
  {
    var today := LocalDay(now, offset);
    Chart(xs, WeeklyBuckets(today), seq(4, i requires 0 <= i < 4 => "Week " + Text.NatToString(i + 1)),
          seq(4, i => AtHour(WeekStart(today, i), 0)), offset)
  }

  /**
   * The four weekly windows are disjoint and contiguous: each starts the day
   * after the previous one ends, and the last one runs from today to six days
   * ahead.
   */
  lemma WeeklyWindows(today: int, offset: int)
    ensures Disjoint(WeeklyBuckets(today), offset)
    ensures forall i :: 0 <= i < 3 ==> WeeklyBuckets(today)[i].last + 1 == WeeklyBuckets(today)[i + 1].first
    ensures WeeklyBuckets(today)[0].first == today - 21
    ensures WeeklyBuckets(today)[3] == DaysFrom(today, today + 6)
  {
  }

  /** The weekly chart adds up to the transactions dated today-21 .. today+6. */
  lemma WeeklyTotal(xs: seq<Expense>, now: int, offset: int)
    ensures Sum(Values(WeeklySpending(xs, now, offset))) == BucketSum(xs, DaysFrom(LocalDay(now, offset) - 21, LocalDay(now, offset) + 6), offset)
  {
    var today := LocalDay(now, offset);
    var bs := WeeklyBuckets(today);
    var window := DaysFrom(today - 21, today + 6);
    forall e: Expense
      ensures MatchesAny(bs, e, offset) <==> Matches(window, e, offset)
    {
      if Matches(window, e, offset) {
        var k := (ToLocal(e.date, offset).day - (today - 21)) / 7;
        assert Matches(bs[k], e, offset);
      }
    }
    WeeklyWindows(today, offset);
    ChartSum(xs, bs, offset);
    CoveredLikeBucket(xs, bs, window, offset);
  }

  // -------------------------------------------------------- monthly chart

  /** Month of point i (0..11) of the monthly chart: `monthAgo` runs 11 down to 0. */
  function ChartMonth(current: int, i: int): (m: int)
    requires 1 <= current <= 12
    ensures 1 <= m <= 12
  {
    ShiftMonth(current, -(11 - i))
  }

  function MonthlyBuckets(current: int): (bs: seq<Bucket>)
    requires 1 <= current <= 12
    ensures |bs| == 12
    ensures forall i :: 0 <= i < 12 ==> bs[i] == MonthOf(ChartMonth(current, i))
  {
    seq(12, i => MonthOf(ChartMonth(current, i)))
  }

  /**
   * `getMonthlySpending`: 12 points, oldest first, one per calendar month
   * ending with the current one, labelled "JAN" .. "DEC"; a transaction is
   * matched on its month alone, whatever its year.
   */
  function MonthlySpending(xs: seq<Expense>, now: int, offset: int): (r: seq<SpendingPoint>)
    ensures |r| == 12
    ensures forall i :: 0 <= i < 12 ==>
      var m := ChartMonth(LocalDate(now, offset).month, i);
      && r[i].caption == MonthName(m)[..3]
      && r[i].value == BucketSum(xs, MonthOf(m), offset)
      && r[i].timestamp == AtHour(DayOfDate(PlusMonths(LocalDate(now, offset), -(11 - i))), 0)
  {
    var date := LocalDate(now, offset);
    Chart(xs, MonthlyBuckets(date.month), MonthlyLabels(date.month), MonthlyStamps(date), offset)
  }

  function MonthlyLabels(current: int): (ls: seq<string>)
    requires 1 <= current <= 12
    ensures |ls| == 12
    ensures forall i :: 0 <= i < 12 ==> ls[i] == MonthName(ChartMonth(current, i))[..3]
  {
    seq(12, i requires 0 <= i < 12 => Text.Take(MonthName(ChartMonth(current, i)), 3))
  }

  function MonthlyStamps(date: Date): (ts: seq<LocalDateTime>)
    requires ValidDate(date)
    ensures |ts| == 12
    ensures forall i :: 0 <= i < 12 ==> ts[i] == AtHour(DayOfDate(PlusMonths(date, -(11 - i))), 0)
  {
    seq(12, i => AtHour(DayOfDate(PlusMonths(date, -(11 - i))), 0))
  }

  /** The monthly chart ends with the current month. */
  lemma MonthlyEndsWithCurrentMonth(xs: seq<Expense>, now: int, offset: int)
    ensures MonthlySpending(xs, now, offset)[11].caption == MonthName(LocalDate(now, offset).month)[..3]
  {
    var current := LocalDate(now, offset).month;
    var r := MonthlySpending(xs, now, offset);
    assert r[11].caption == MonthName(ChartMonth(current, 11))[..3];
    LastChartMonth(current);
  }

  lemma LastChartMonth(current: int)
    requires 1 <= current <= 12
    ensures ChartMonth(current, 11) == current
  {
  }

  lemma ChartMonthsDistinct(current: int, i: int, j: int)
    requires 1 <= current <= 12
    requires 0 <= i < j < 12
    ensures ChartMonth(current, i) != ChartMonth(current, j)
  {
  }

  /** Every month of the year appears among the twelve chart months. */
  lemma ChartMonthsCover(current: int, m: int)
    requires 1 <= current <= 12 && 1 <= m <= 12
    ensures exists i :: 0 <= i < 12 && ChartMonth(current, i) == m
  {
    var i := (m - current + 11) % 12;
    assert ChartMonth(current, i) == m;
  }

  /** The monthly labels are twelve distinct month abbreviations. */
  lemma MonthlyLabelsDistinct(xs: seq<Expense>, now: int, offset: int, i: int, j: int)
    requires 0 <= i < j < 12
    ensures MonthlySpending(xs, now, offset)[i].caption != MonthlySpending(xs, now, offset)[j].caption
  {
    var current := LocalDate(now, offset).month;
    ChartMonthsDistinct(current, i, j);
    MonthNamesDistinct(ChartMonth(current, i), ChartMonth(current, j));
  }

  /** Each transaction lands in exactly one month, so the chart adds up to all amounts. */
  lemma MonthlyTotal(xs: seq<Expense>, now: int, offset: int)
    ensures Sum(Values(MonthlySpending(xs, now, offset))) == Total(xs)
  {
    var current := LocalDate(now, offset).month;
    var bs := MonthlyBuckets(current);
    forall e: Expense, i, j | 0 <= i < j < 12 && Matches(bs[i], e, offset)
      ensures !Matches(bs[j], e, offset)
    {
      ChartMonthsDistinct(current, i, j);
    }
    forall e: Expense
      ensures MatchesAny(bs, e, offset)
    {
      var m := DateOfDay(ToLocal(e.date, offset).day).month;
      ChartMonthsCover(current, m);
      var i :| 0 <= i < 12 && ChartMonth(current, i) == m;
      assert Matches(bs[i], e, offset);
    }
    ChartSum(xs, bs, offset);
    CoveredEverything(xs, bs, offset);
  }

  // ------------------------------------------------------------- dispatch

  /** The time frame the view-model starts with. */
  const InitialTimeFrame := "Month"

  /**
   * `updateSpendingData`: "Today" selects the hourly chart, "Week" the daily,
   * "Month" the weekly and "Year" the monthly one; any other string falls
   * back to the daily chart.
   */
  function SpendingData(frame: string, xs: seq<Expense>, now: int, offset: int): (r: seq<SpendingPoint>)
    ensures frame == "Today" ==> r == HourlySpending(xs, now, offset)
    ensures frame == "Month" ==> r == WeeklySpending(xs, now, offset)
    ensures frame == "Year" ==> r == MonthlySpending(xs, now, offset)
    ensures frame !in {"Today", "Month", "Year"} ==> r == DailySpending(xs, now, offset)
    ensures |r| == if frame == "Today" then 24 else if frame == "Month" then 4 else if frame == "Year" then 12 else 7
  {
    match frame
    case "Today" => HourlySpending(xs, now, offset)
    case "Week" => DailySpending(xs, now, offset)
    case "Month" => WeeklySpending(xs, now, offset)
    case "Year" => MonthlySpending(xs, now, offset)
    case _ => DailySpending(xs, now, offset)
  }

  /** The initial time frame shows the four weekly windows. */
  lemma InitialFrameIsWeekly(xs: seq<Expense>, now: int, offset: int)
    ensures SpendingData(InitialTimeFrame, xs, now, offset) == WeeklySpending(xs, now, offset)
    ensures |SpendingData(InitialTimeFrame, xs, now, offset)| == 4
  {
  }

  /** With non-negative amounts every point of every chart is non-negative. */
  lemma SpendingNonNegative(frame: string, xs: seq<Expense>, now: int, offset: int)
    requires forall i :: 0 <= i < |xs| ==> xs[i].amount >= 0
    ensures forall i :: 0 <= i < |SpendingData(frame, xs, now, offset)| ==> SpendingData(frame, xs, now, offset)[i].value >= 0
  {
    var today := LocalDay(now, offset);
    forall b: Bucket
      ensures BucketSum(xs, b, offset) >= 0
    {
      BucketSumNonNegative(xs, b, offset);
    }
  }
}
