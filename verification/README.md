# Expense tracker core, modelled in Dafny

A model of the pure date-and-money logic of the Kotlin Multiplatform expense
tracker, with proofs of the properties that logic promises. The modelled
parts are:

- the home screen view-model: the totals, the four spending charts and the
  time-frame switch, the filter precedence, the filter setters and
  `clearFilters`, and the month narrowing;
- the date utilities: `formatTime`, `formatDate`, `getMonthStartEnd`,
  `getRelativeTimeSpan`, `isValidDate`, `isToday` and `isYesterday`;
- the transaction and category records and the derived `isIncome`;
- the older view-model: its balance rule, category seed list and favourite
  toggle;
- the sign-up and login field checks, and the add-transaction form;
- the category icon and colour tables.

Representation choices:

- "Now" is an epoch-millisecond parameter `now`. The system time zone is a
  fixed UTC offset `offset` in milliseconds.
- Calendar dates are epoch-day integers. `Calendar.DateOfDay` and
  `Calendar.DayOfDate` convert to and from year/month/day; they are proved
  mutually inverse, so equal dates and equal epoch days are the same thing.
- Amounts are integers in minor currency units (hundredths).
- A chart bucket is a `Spending.Bucket` value. `Spending.ChartSum` states one
  general fact: when no transaction falls in two buckets, the chart's values
  add up to the covered transactions. Each chart's total lemma is an instance
  of it.

Files, one module each:

| file | module | contents |
|---|---|---|
| wrappers.dfy | Wrappers | `Option` |
| text.dfy | Text | digits, number printing and parsing, whitespace and trimming, ASCII letter case, `IndexOf` |
| calendar.dfy | Calendar | proleptic Gregorian calendar on epoch days, weekday and month names, local date-times |
| models.dfy | Models | `Expense`, `Category`, `isIncome` |
| spending.dfy | Spending | the four charts and the time-frame dispatch |
| datetime_utils.dfy | DateTimeUtils | the date and time utilities |
| home_view_model.dfy | HomeViewModel | totals, filters, state, month narrowing, emission |
| legacy_home.dfy | LegacyHome | the older view-model |
| auth_validation.dfy | AuthValidation | sign-up and login checks |
| add_expense.dfy | AddExpense | the add-transaction form |
| category_utils.dfy | CategoryUtils | icon and colour tables |

In the code, the month collector and the filter collector are two
independent writers of the same filtered list, and neither intersects with
the other. The model follows the code: `HomeViewModel.PrimaryView` and
`HomeViewModel.MonthView` are separate mappings, and each emission
(`HomeViewModel.Emit`) publishes whichever list it is given. The filter
collector collects each mapped flow inside its own `collect`, and the
store's flows never end. So it follows the filter inputs only until the
first filter becomes active, and stays on that query from then on
(`HomeViewModel.CollectorRun`).

## Model

| member | source | states |
|---|---|---|
| Models.IncomeIsExactType | composeApp/src/commonMain/kotlin/com/shashank/expense/tracker/models/Models.kt:19-22 | A transaction is income exactly when its type is the string "income". The comparison is case-sensitive, so "Income", "INCOME" and "expense" are not income. |
| Models.NewCategory | composeApp/src/commonMain/kotlin/com/shashank/expense/tracker/models/Models.kt:3-8 | A category created without the flag is not a favourite. Its other fields are those given. |
| Calendar.DateRoundTrip | composeApp/src/commonMain/kotlin/com/shashank/expense/tracker/utils/DateTimeUtils.kt:63 | Converting a valid date to its epoch day and back gives the same date, so epoch-day differences measure days between dates. |
| Calendar.DateOfDay | composeApp/src/commonMain/kotlin/com/shashank/expense/tracker/utils/DateTimeUtils.kt:25-26 | Every epoch day has a valid calendar date whose epoch day is that day. |
| Calendar.ToLocal | composeApp/src/commonMain/kotlin/com/shashank/expense/tracker/utils/DateTimeUtils.kt:46-47 | Converting an instant to local date-time gives a valid time of day denoting the instant shifted by the zone offset. |
| Calendar.ToLocalOrder | composeApp/src/commonMain/kotlin/com/shashank/expense/tracker/utils/DateTimeUtils.kt:51 | Comparing two local date-times of one zone orders them the same way as their instants. |
| Calendar.PlusMonths | composeApp/src/commonMain/kotlin/com/shashank/expense/tracker/screens/homescreen/HomeViewModel.kt:260 | Moving a date by k months gives a valid date, k months away by year and month, with the month shifted cyclically. |
| Calendar.MonthNamesDistinct | composeApp/src/commonMain/kotlin/com/shashank/expense/tracker/screens/homescreen/HomeViewModel.kt:272 | The twelve month names and their three-letter abbreviations are pairwise distinct. |
| Spending.ChartSum | composeApp/src/commonMain/kotlin/com/shashank/expense/tracker/screens/homescreen/HomeViewModel.kt:190-276 | When no transaction falls in two buckets, a chart's values add up to the amounts of the transactions some bucket covers. |
| Spending.HourlySpending | composeApp/src/commonMain/kotlin/com/shashank/expense/tracker/screens/homescreen/HomeViewModel.kt:190-208 | The hourly chart has 24 points in hour order, labelled "0:00" to "23:00", each stamped at that hour of today. Point h sums the transactions of today's date whose local hour is h. |
| Spending.HourlyTotal | composeApp/src/commonMain/kotlin/com/shashank/expense/tracker/screens/homescreen/HomeViewModel.kt:190-208 | The hourly points add up to exactly the transactions dated today: every one of them lands in exactly one hour. |
| Spending.HourlyIgnoresOtherDays | composeApp/src/commonMain/kotlin/com/shashank/expense/tracker/screens/homescreen/HomeViewModel.kt:197 | Adding transactions from other dates leaves every hourly value unchanged. |
| Spending.DailySpending | composeApp/src/commonMain/kotlin/com/shashank/expense/tracker/screens/homescreen/HomeViewModel.kt:210-233 | The daily chart has 7 points, oldest first, for the dates today-6 to today. Each sums that date's transactions and is stamped at that date's midnight. |
| Spending.DailyCaptions | composeApp/src/commonMain/kotlin/com/shashank/expense/tracker/screens/homescreen/HomeViewModel.kt:212-228 | The last point is labelled "Today" and the one before "Yesterday"; the others get the first three letters of the upper-case weekday name of their date. |
| Spending.DailyTotal | composeApp/src/commonMain/kotlin/com/shashank/expense/tracker/screens/homescreen/HomeViewModel.kt:210-233 | The daily points add up to the transactions of the seven trailing dates. |
| Spending.DailyTodayIsHourlyTotal | composeApp/src/commonMain/kotlin/com/shashank/expense/tracker/screens/homescreen/HomeViewModel.kt:190-233 | The daily chart's "Today" point equals the sum of the hourly chart. |
| Spending.WeeklySpending | composeApp/src/commonMain/kotlin/com/shashank/expense/tracker/screens/homescreen/HomeViewModel.kt:235-255 | The weekly chart has 4 points, "Week 1" to "Week 4", oldest first. Point i sums the dates from today-7(3-i) to six days after that, and is stamped at midnight of its first date. |
| Spending.WeeklyWindows | composeApp/src/commonMain/kotlin/com/shashank/expense/tracker/screens/homescreen/HomeViewModel.kt:237-239 | The four windows are disjoint and contiguous. They start at today-21, and the last one is today to today+6. |
| Spending.WeeklyTotal | composeApp/src/commonMain/kotlin/com/shashank/expense/tracker/screens/homescreen/HomeViewModel.kt:235-255 | The weekly points add up to the transactions dated from today-21 to today+6. |
| Spending.MonthlySpending | composeApp/src/commonMain/kotlin/com/shashank/expense/tracker/screens/homescreen/HomeViewModel.kt:257-276 | The monthly chart has 12 points, one per month counting back from the current one. Each point is labelled with the month's three-letter upper-case name and sums the transactions of that month in any year. |
| Spending.MonthlyEndsWithCurrentMonth | composeApp/src/commonMain/kotlin/com/shashank/expense/tracker/screens/homescreen/HomeViewModel.kt:259-272 | The last monthly point is the current month. |
| Spending.MonthlyLabelsDistinct | composeApp/src/commonMain/kotlin/com/shashank/expense/tracker/screens/homescreen/HomeViewModel.kt:272 | The twelve monthly labels are pairwise distinct. |
| Spending.ChartMonthsCover | composeApp/src/commonMain/kotlin/com/shashank/expense/tracker/screens/homescreen/HomeViewModel.kt:259-260 | Every calendar month is one of the twelve chart months. |
| Spending.MonthlyTotal | composeApp/src/commonMain/kotlin/com/shashank/expense/tracker/screens/homescreen/HomeViewModel.kt:257-276 | Every transaction lands in exactly one month, because only the month is compared, so the monthly points add up to the total of all amounts. |
| Spending.SpendingData | composeApp/src/commonMain/kotlin/com/shashank/expense/tracker/screens/homescreen/HomeViewModel.kt:178-188 | "Today" selects the hourly chart, "Month" the weekly one and "Year" the monthly one. "Week" and every other string select the daily chart. The point counts are 24, 4, 12 and 7. |
| Spending.InitialFrameIsWeekly | composeApp/src/commonMain/kotlin/com/shashank/expense/tracker/screens/homescreen/HomeViewModel.kt:43 | The initial time frame "Month" shows the four weekly windows. |
| Spending.SpendingNonNegative | composeApp/src/commonMain/kotlin/com/shashank/expense/tracker/screens/homescreen/HomeViewModel.kt:203 | With non-negative amounts, every point of every chart is non-negative. |
| DateTimeUtils.FormatTime | composeApp/src/commonMain/kotlin/com/shashank/expense/tracker/utils/DateTimeUtils.kt:37-42 | The text is 7 or 8 characters long. It ends in "PM" exactly when the hour is 12 or later, and the minutes are two digits after a colon. `DateTimeUtils.FormatTimeRoundTrip` and `DateTimeUtils.ParseTimeExact` together fix the text. |
| DateTimeUtils.FormatTimeRoundTrip | composeApp/src/commonMain/kotlin/com/shashank/expense/tracker/utils/DateTimeUtils.kt:37-42 | The 24-hour clock hour and the minute can be read back from the text, because the AM/PM suffix tells 0 from 12. |
| DateTimeUtils.FormatTimeInjective | composeApp/src/commonMain/kotlin/com/shashank/expense/tracker/utils/DateTimeUtils.kt:37-42 | Two times of day with the same text have the same hour and minute. |
| DateTimeUtils.ParseTimeExact | composeApp/src/commonMain/kotlin/com/shashank/expense/tracker/utils/DateTimeUtils.kt:38-41 | Any text that reads back as a time of day is exactly the text printed for it. So the shown hour is the hour less 12 after noon and the hour itself otherwise, with no leading zero, and the minute has two digits. |
| DateTimeUtils.ParseTimeRejectsNonCanonical | composeApp/src/commonMain/kotlin/com/shashank/expense/tracker/utils/DateTimeUtils.kt:38-41 | "01:05 AM" (a padded hour) and "0:30 PM" (a PM hour of 0) are never printed, so they are not read. |
| DateTimeUtils.FormatTimeMidnightNoon | composeApp/src/commonMain/kotlin/com/shashank/expense/tracker/utils/DateTimeUtils.kt:38-41 | Five past midnight shows as "0:05 AM" and noon as "12:00 PM". |
| DateTimeUtils.FormatTimeAfternoon | composeApp/src/commonMain/kotlin/com/shashank/expense/tracker/utils/DateTimeUtils.kt:38-41 | 13:30 shows as "1:30 PM". |
| DateTimeUtils.MonthTitle | composeApp/src/commonMain/kotlin/com/shashank/expense/tracker/utils/DateTimeUtils.kt:34 | The month title is the upper-case name's first letter followed by the rest of the name in lower case ("March"), and upper-cases back to the name. |
| DateTimeUtils.MonthTitlesDistinct | composeApp/src/commonMain/kotlin/com/shashank/expense/tracker/utils/DateTimeUtils.kt:34 | Different months get different titles. |
| DateTimeUtils.FormatDateRoundTrip | composeApp/src/commonMain/kotlin/com/shashank/expense/tracker/utils/DateTimeUtils.kt:33-35 | A valid date can be read back from "<Month> <day>, <year>", where the month must be the exact title, case included. |
| DateTimeUtils.FormatDateExample | composeApp/src/commonMain/kotlin/com/shashank/expense/tracker/utils/DateTimeUtils.kt:33-35 | 5 March 2024 is shown as "March 5, 2024". |
| DateTimeUtils.FormatTimestampDateRoundTrip | composeApp/src/commonMain/kotlin/com/shashank/expense/tracker/utils/DateTimeUtils.kt:23-31 | The text shown for an instant reads back as the instant's local date. |
| DateTimeUtils.FormatDateInjective | composeApp/src/commonMain/kotlin/com/shashank/expense/tracker/utils/DateTimeUtils.kt:33-35 | Different valid dates get different texts. |
| DateTimeUtils.MonthStartEnd | composeApp/src/commonMain/kotlin/com/shashank/expense/tracker/utils/DateTimeUtils.kt:78-94 | The start is midnight UTC of day 1 of the month. The end is 23:59:59 UTC of the month's last day, and December ends on Dec 31. The span is the number of days in the month times one day, minus one second, and leap February has 29 days. |
| DateTimeUtils.MonthLength | composeApp/src/commonMain/kotlin/com/shashank/expense/tracker/utils/DateTimeUtils.kt:79-84 | From the first of a month to the first of the next there are as many days as the month has, with December rolling into the next year. |
| DateTimeUtils.NextMonthFollows | composeApp/src/commonMain/kotlin/com/shashank/expense/tracker/utils/DateTimeUtils.kt:78-94 | The next month's start is exactly one second after a month's end, December included. |
| DateTimeUtils.LastSecondUncovered | composeApp/src/commonMain/kotlin/com/shashank/expense/tracker/utils/DateTimeUtils.kt:90-92 | An instant in the final 999 ms of a month lies in neither that month's window nor the next one's. |
| DateTimeUtils.SpanOf | composeApp/src/commonMain/kotlin/com/shashank/expense/tracker/utils/DateTimeUtils.kt:65-72 | A difference of 0 days gives Today and 1 gives Yesterday. Any other difference below 7, negatives included, gives days ago; below 30 gives weeks ago with n = d/7; below 365 gives months ago with n = d/30; otherwise years ago with n = d/365. |
| DateTimeUtils.RelativeTimeSpan | composeApp/src/commonMain/kotlin/com/shashank/expense/tracker/utils/DateTimeUtils.kt:57-76 | The phrase is chosen by the difference between today's local epoch day and the record's. A record dated after today is shown as "days ago". |
| DateTimeUtils.SpanMonotone | composeApp/src/commonMain/kotlin/com/shashank/expense/tracker/utils/DateTimeUtils.kt:65-72 | An older date never gets a more recent phrase. |
| DateTimeUtils.IsValidDate | composeApp/src/commonMain/kotlin/com/shashank/expense/tracker/utils/DateTimeUtils.kt:44-55 | A timestamp is valid exactly when it is not after now. |
| DateTimeUtils.MinusDays | composeApp/src/commonMain/kotlin/com/shashank/expense/tracker/utils/DateTimeUtils.kt:111 | Subtracting k days from a valid date gives the valid date whose epoch day is k smaller. |
| DateTimeUtils.IsToday | composeApp/src/commonMain/kotlin/com/shashank/expense/tracker/utils/DateTimeUtils.kt:96-105 | True exactly when the instant's local date is today's. |
| DateTimeUtils.IsYesterday | composeApp/src/commonMain/kotlin/com/shashank/expense/tracker/utils/DateTimeUtils.kt:107-116 | True exactly when the instant's local date is the day before today's. |
| DateTimeUtils.NeverTodayAndYesterday | composeApp/src/commonMain/kotlin/com/shashank/expense/tracker/utils/DateTimeUtils.kt:96-116 | No instant is both today and yesterday. |
| HomeViewModel.UpdateBalances | composeApp/src/commonMain/kotlin/com/shashank/expense/tracker/screens/homescreen/HomeViewModel.kt:137-141 | Every transaction counts in exactly one of the income and expense totals, so they add up to the total amount. The balance is the signed sum, with income positive. |
| HomeViewModel.IncomeExpensePartition | composeApp/src/commonMain/kotlin/com/shashank/expense/tracker/screens/homescreen/HomeViewModel.kt:138-139 | The income total and the expense total add up to the sum of all amounts. |
| HomeViewModel.BalanceIsNet | composeApp/src/commonMain/kotlin/com/shashank/expense/tracker/screens/homescreen/HomeViewModel.kt:140 | Income minus expenses is the sum with income counted positive and everything else negative. |
| HomeViewModel.CoffeeAndSalary | composeApp/src/commonMain/kotlin/com/shashank/expense/tracker/screens/homescreen/HomeViewModel.kt:137-141 | A 5.00 expense and a 2000.00 income give income 2000.00, expenses 5.00 and balance 1995.00. |
| HomeViewModel.ActiveQuery | composeApp/src/commonMain/kotlin/com/shashank/expense/tracker/screens/homescreen/HomeViewModel.kt:81-87 | A non-blank search query wins, then a category, then a type, then a date range, and otherwise the full list is used. Each case holds exactly when the earlier inputs are unset, and carries its input's value. |
| HomeViewModel.SearchBeatsCategory | composeApp/src/commonMain/kotlin/com/shashank/expense/tracker/screens/homescreen/HomeViewModel.kt:82-83 | A search for "food" with the category "shopping" also set searches and ignores the category. |
| HomeViewModel.BlankQueryIgnored | composeApp/src/commonMain/kotlin/com/shashank/expense/tracker/screens/homescreen/HomeViewModel.kt:82 | A query of whitespace only selects the same filter as an empty query. |
| HomeViewModel.Initial | composeApp/src/commonMain/kotlin/com/shashank/expense/tracker/screens/homescreen/HomeViewModel.kt:43-68 | A new view-model has no active filter, the month of the current instant in the local zone selected, the time frame "Month" and no transactions. |
| HomeViewModel.SetSearchQuery | composeApp/src/commonMain/kotlin/com/shashank/expense/tracker/screens/homescreen/HomeViewModel.kt:282-284 | Setting the search query changes that input only. |
| HomeViewModel.SetSelectedCategory | composeApp/src/commonMain/kotlin/com/shashank/expense/tracker/screens/homescreen/HomeViewModel.kt:286-288 | Setting the category changes that input only. |
| HomeViewModel.SetSelectedType | composeApp/src/commonMain/kotlin/com/shashank/expense/tracker/screens/homescreen/HomeViewModel.kt:290-292 | Setting the type changes that input only. |
| HomeViewModel.SetDateRange | composeApp/src/commonMain/kotlin/com/shashank/expense/tracker/screens/homescreen/HomeViewModel.kt:294-296 | Setting the date range stores the pair and changes nothing else. |
| HomeViewModel.SelectMonth | composeApp/src/commonMain/kotlin/com/shashank/expense/tracker/screens/homescreen/HomeViewModel.kt:278-280 | Selecting a month changes only the selected month: the filters, the time frame and the transactions stay. |
| HomeViewModel.UpdateTimeFrame | composeApp/src/commonMain/kotlin/com/shashank/expense/tracker/screens/homescreen/HomeViewModel.kt:174-176 | Changing the time frame changes only the time frame: the filters, the selected month and the transactions stay. |
| HomeViewModel.ClearFilters | composeApp/src/commonMain/kotlin/com/shashank/expense/tracker/screens/homescreen/HomeViewModel.kt:298-303 | The four filter inputs are reset, so the full list is selected. The selected month, the time frame and the transactions are unchanged. |
| HomeViewModel.ClearForgetsFilters | composeApp/src/commonMain/kotlin/com/shashank/expense/tracker/screens/homescreen/HomeViewModel.kt:298-303 | Clearing after any setter gives the same state as clearing without it, and clearing twice is clearing once. |
| HomeViewModel.PrimaryView | composeApp/src/commonMain/kotlin/com/shashank/expense/tracker/screens/homescreen/HomeViewModel.kt:74-87 | The `when` mapping of one combined value: with no active filter the full list, otherwise the store's answer to the active query. Which combined values are mapped at all is `HomeViewModel.CollectorRunFollows`. |
| HomeViewModel.CollectorRunFollows | composeApp/src/commonMain/kotlin/com/shashank/expense/tracker/screens/homescreen/HomeViewModel.kt:88-94 | The first collector publishes the mapping of each combined value while no filter is active. At the first active filter it publishes that query's answer and takes no later value, because the store's flow never ends. |
| HomeViewModel.CollectorStaysOnFirstFilter | composeApp/src/commonMain/kotlin/com/shashank/expense/tracker/screens/homescreen/HomeViewModel.kt:88-94 | Once a filter is active, any later combined values leave the published lists unchanged. |
| HomeViewModel.ClearAfterFilterUnseen | composeApp/src/commonMain/kotlin/com/shashank/expense/tracker/screens/homescreen/HomeViewModel.kt:88-94 | Clearing the filters after a filter became active does not bring the first collector back to the full list. |
| HomeViewModel.SearchOverridesOtherFilters | composeApp/src/commonMain/kotlin/com/shashank/expense/tracker/screens/homescreen/HomeViewModel.kt:81-83 | With a non-blank query, the category, type and date-range inputs make no difference to the list. |
| HomeViewModel.NarrowToMonth | composeApp/src/commonMain/kotlin/com/shashank/expense/tracker/screens/homescreen/HomeViewModel.kt:99-108 | Keeps exactly the transactions whose timestamp lies in the month's inclusive window, each as many times as it occurs, and drops the rest. The result is a subsequence, in the original order. |
| HomeViewModel.NarrowToMonthIdempotent | composeApp/src/commonMain/kotlin/com/shashank/expense/tracker/screens/homescreen/HomeViewModel.kt:101-108 | Narrowing twice to the same month is narrowing once. |
| HomeViewModel.NarrowKeepsMonth | composeApp/src/commonMain/kotlin/com/shashank/expense/tracker/screens/homescreen/HomeViewModel.kt:99-104 | Every kept transaction has a UTC calendar date in the selected month and year. |
| HomeViewModel.MonthView | composeApp/src/commonMain/kotlin/com/shashank/expense/tracker/screens/homescreen/HomeViewModel.kt:97-108 | The month collector narrows all transactions to the selected month of the current local year, and keeps exactly those inside that window. |
| HomeViewModel.Emit | composeApp/src/commonMain/kotlin/com/shashank/expense/tracker/screens/homescreen/HomeViewModel.kt:88-93 | One emission publishes the list, the totals `updateBalances` computes for it (income and expenses adding up to its amounts, the balance their difference and the signed sum), and the chart of the selected time frame. |
| HomeViewModel.MonthEmissionStaysInMonth | composeApp/src/commonMain/kotlin/com/shashank/expense/tracker/screens/homescreen/HomeViewModel.kt:109-112 | After a month-collector emission, no listed transaction lies outside the selected month's window. |
| LegacyHome.DefaultFavorites | composeApp/src/commonMain/kotlin/viewmodels/HomeViewModel.kt:45-54 | Exactly Shopping, Food and Transport start as favourites, in that order. |
| LegacyHome.DefaultNamesDistinct | composeApp/src/commonMain/kotlin/viewmodels/HomeViewModel.kt:45-54 | The seed list has eight categories with distinct names. |
| LegacyHome.FavoriteSeedNames | composeApp/src/commonMain/kotlin/viewmodels/HomeViewModel.kt:45-56 | The favourite names are exactly the names of seeds flagged favourite. |
| LegacyHome.SetFavorite | composeApp/src/commonMain/kotlin/viewmodels/HomeViewModel.kt:92 | The store update sets the flag of the categories with the given id and changes nothing else (assumed meaning of the unseen update query). |
| LegacyHome.ToggleCategoryFavorite | composeApp/src/commonMain/kotlin/viewmodels/HomeViewModel.kt:91-92 | The category with the given id gets the negation of the caller's flag, and every other category is unchanged. |
| LegacyHome.Favorites | composeApp/src/commonMain/kotlin/viewmodels/HomeViewModel.kt:74-78 | The favourite list holds exactly the stored categories flagged favourite, in store order (assumed meaning of the unseen query). |
| LegacyHome.ToggleTwice | composeApp/src/commonMain/kotlin/viewmodels/HomeViewModel.kt:91-95 | Toggling a category, then toggling its refreshed copy, restores the store. |
| LegacyHome.ToggleFlipsFavorite | composeApp/src/commonMain/kotlin/viewmodels/HomeViewModel.kt:91-95 | After a toggle, the category is listed among the favourites exactly when the caller's copy was not a favourite. |
| LegacyHome.UpdateBalance | composeApp/src/commonMain/kotlin/viewmodels/HomeViewModel.kt:97-107 | Income is the same as the newer view-model's. Expenses plus the amounts of other types equal the newer expense total, so other types count in neither total. The balance is income minus expenses. |
| LegacyHome.LegacyIncomeAgrees | composeApp/src/commonMain/kotlin/viewmodels/HomeViewModel.kt:98-100 | Summing type "income" gives the newer view-model's income total. |
| LegacyHome.LegacyExpenseMissesOthers | composeApp/src/commonMain/kotlin/viewmodels/HomeViewModel.kt:102-104 | The "expense" sum misses exactly the amounts of the other types. |
| LegacyHome.ViewModelsAgree | composeApp/src/commonMain/kotlin/viewmodels/HomeViewModel.kt:97-107 | When every type is "income" or "expense", both view-models give the same three totals. |
| LegacyHome.OtherTypeIgnored | composeApp/src/commonMain/kotlin/viewmodels/HomeViewModel.kt:98-104 | Adding a transaction of any other type changes none of the older totals. |
| AuthValidation.MatchesEmail | composeApp/src/commonMain/kotlin/com/shashank/expense/tracker/screens/auth/SignUpScreen.kt:85 | The matcher accepts exactly the strings the email pattern describes: a non-empty local part of letters, digits and + _ . -, one '@', and a non-empty domain of letters, digits, '.' and '-'. |
| AuthValidation.MatchedEmailHasOneAt | composeApp/src/commonMain/kotlin/com/shashank/expense/tracker/screens/auth/SignUpScreen.kt:85 | An accepted email has exactly one '@', with characters on both sides. |
| AuthValidation.AcceptSplit | composeApp/src/commonMain/kotlin/com/shashank/expense/tracker/screens/auth/SignUpScreen.kt:85 | Any allowed local part, '@' and allowed domain part is accepted. |
| AuthValidation.RejectInDomain | composeApp/src/commonMain/kotlin/com/shashank/expense/tracker/screens/auth/SignUpScreen.kt:85 | A character after the '@' outside the domain set is rejected. |
| AuthValidation.RejectInLocal | composeApp/src/commonMain/kotlin/com/shashank/expense/tracker/screens/auth/SignUpScreen.kt:85 | A character before the '@' outside the local set is rejected. |
| AuthValidation.ValidEmailExamples | composeApp/src/commonMain/kotlin/com/shashank/expense/tracker/screens/auth/SignUpScreen.kt:85 | "user+tag@example.com" and "a@b" are accepted. |
| AuthValidation.UnderscoreInDomainRejected | composeApp/src/commonMain/kotlin/com/shashank/expense/tracker/screens/auth/SignUpScreen.kt:85 | "user@my_host.com" is rejected. |
| AuthValidation.SpaceInLocalRejected | composeApp/src/commonMain/kotlin/com/shashank/expense/tracker/screens/auth/LoginScreen.kt:69 | A space before the '@' is rejected. |
| AuthValidation.TrailingSpaceRejected | composeApp/src/commonMain/kotlin/com/shashank/expense/tracker/screens/auth/LoginScreen.kt:69 | A trailing space is rejected, because the email is not trimmed. |
| AuthValidation.EmptySideRejected | composeApp/src/commonMain/kotlin/com/shashank/expense/tracker/screens/auth/SignUpScreen.kt:85 | An empty local part or an empty domain is rejected. |
| AuthValidation.ValidateName | composeApp/src/commonMain/kotlin/com/shashank/expense/tracker/screens/auth/SignUpScreen.kt:71-79 | A name passes exactly when it is not all whitespace. Otherwise the message is "Name is required". |
| AuthValidation.ValidateEmail | composeApp/src/commonMain/kotlin/com/shashank/expense/tracker/screens/auth/SignUpScreen.kt:81-92 | An empty email gives "Email is required" and one that does not match gives "Please enter a valid email". It passes exactly when it is non-empty and matches. |
| AuthValidation.ValidatePassword | composeApp/src/commonMain/kotlin/com/shashank/expense/tracker/screens/auth/SignUpScreen.kt:94-105 | An empty password gives "Password is required" and one shorter than 6 gives "Password must be at least 6 characters". It passes exactly when it has 6 characters or more. |
| AuthValidation.ValidateConfirmPassword | composeApp/src/commonMain/kotlin/com/shashank/expense/tracker/screens/auth/SignUpScreen.kt:107-121 | The checks run in order: empty, shorter than 6, then different from the password, each with its own message. It passes exactly when it is 6 or more characters and equals the password. |
| AuthValidation.SignUp | composeApp/src/commonMain/kotlin/com/shashank/expense/tracker/screens/auth/SignUpScreen.kt:123-132 | All four fields are checked. Sign-up is requested exactly when all pass, with only the email and password. |
| AuthValidation.MismatchBlocksSignUp | composeApp/src/commonMain/kotlin/com/shashank/expense/tracker/screens/auth/SignUpScreen.kt:114-131 | A confirmation that differs from the password blocks sign-up. |
| AuthValidation.Login | composeApp/src/commonMain/kotlin/com/shashank/expense/tracker/screens/auth/LoginScreen.kt:91-98 | Both fields are checked with the same rules and messages. Sign-in is requested with the email and password exactly when both pass. |
| AuthValidation.SignUpImpliesLogin | composeApp/src/commonMain/kotlin/com/shashank/expense/tracker/screens/auth/LoginScreen.kt:91-98 | Credentials that can sign up also pass the login checks. |
| AddExpense.ParseAmount | composeApp/src/commonMain/kotlin/com/shashank/expense/tracker/screens/AddExpenseScreen.kt:106 | Text that gives an amount is non-empty and holds only digits, points, signs, type suffixes and padding characters. |
| AddExpense.ParseSigned | composeApp/src/commonMain/kotlin/com/shashank/expense/tracker/screens/AddExpenseScreen.kt:106 | A signed decimal that parses is non-empty, holds digits and points after an optional leading sign, and is negative only with a leading '-'. |
| AddExpense.PaddedAmount | composeApp/src/commonMain/kotlin/com/shashank/expense/tracker/screens/AddExpenseScreen.kt:106 | Padding characters on either side and a type suffix f, F, d or D after the number leave the amount unchanged. |
| AddExpense.ParseAmountText | composeApp/src/commonMain/kotlin/com/shashank/expense/tracker/screens/AddExpenseScreen.kt:106 | A plainly written amount with two decimals reads back as itself. |
| AddExpense.ParseWholeAmount | composeApp/src/commonMain/kotlin/com/shashank/expense/tracker/screens/AddExpenseScreen.kt:106 | A whole number of units reads as that many hundreds of hundredths. |
| AddExpense.NonNumericHasNoAmount | composeApp/src/commonMain/kotlin/com/shashank/expense/tracker/screens/AddExpenseScreen.kt:106 | In the plain-decimal notation modelled here, text holding any character other than a digit, a point, a sign, a type suffix or padding gives no amount. |
| AddExpense.Timestamp | composeApp/src/commonMain/kotlin/com/shashank/expense/tracker/screens/AddExpenseScreen.kt:101-102 | Converting now to local time and back in the same zone gives now. |
| AddExpense.Submit | composeApp/src/commonMain/kotlin/com/shashank/expense/tracker/screens/AddExpenseScreen.kt:100-115 | A record is built exactly when the title and amount are not blank and a category is selected. It has id 0, tax 0, date and creation time now, the category's title, and the parsed amount or 0. Its type is "income" exactly when the toggle is on, so its isIncome equals the toggle. |
| AddExpense.EmptyFormBlocked | composeApp/src/commonMain/kotlin/com/shashank/expense/tracker/screens/AddExpenseScreen.kt:23-26 | The form as first shown cannot be submitted, and its toggle starts at expense. |
| AddExpense.SubmittedCountsOnItsSide | composeApp/src/commonMain/kotlin/com/shashank/expense/tracker/screens/AddExpenseScreen.kt:108 | A submitted record raises the income total by its amount when the toggle is on, and the expense total otherwise. |
| CategoryUtils.CategoryIcon | composeApp/src/commonMain/kotlin/com/shashank/expense/tracker/utils/CategoryUtils.kt:9-21 | The fallback camera icon is given exactly to names that lower-case to none of the eight keys. "subscription" and "bills" share the recurring-bill icon. |
| CategoryUtils.CategoryColor | composeApp/src/commonMain/kotlin/com/shashank/expense/tracker/utils/CategoryUtils.kt:23-38 | Every colour is opaque. The default 0xFF607D8B is given exactly to names that lower-case to none of the eleven keys. |
| CategoryUtils.CaseInsensitive | composeApp/src/commonMain/kotlin/com/shashank/expense/tracker/utils/CategoryUtils.kt:10-24 | ASCII upper-casing or lower-casing of a name changes neither its icon nor its colour. |
| CategoryUtils.LowerOfUpper | composeApp/src/commonMain/kotlin/com/shashank/expense/tracker/utils/CategoryUtils.kt:10-24 | Lower-casing an upper-cased name gives the name lower-cased. |
| CategoryUtils.LowerOfLower | composeApp/src/commonMain/kotlin/com/shashank/expense/tracker/utils/CategoryUtils.kt:10-24 | Lower-casing twice is lower-casing once. |
| CategoryUtils.IconKeysHaveColors | composeApp/src/commonMain/kotlin/com/shashank/expense/tracker/utils/CategoryUtils.kt:10-32 | A name with its own icon has its own colour. "entertainment", "health" and "education" have their own colours but the fallback icon. |
| CategoryUtils.SharedEntries | composeApp/src/commonMain/kotlin/com/shashank/expense/tracker/utils/CategoryUtils.kt:28-34 | "salary" and "income" share a colour but not an icon. |
| CategoryUtils.EntertainmentLooksLikeExpense | composeApp/src/commonMain/kotlin/com/shashank/expense/tracker/utils/CategoryUtils.kt:30-35 | "entertainment" and "expense" share a colour. |
| CategoryUtils.TransportSeedFallsBack | composeApp/src/commonMain/kotlin/com/shashank/expense/tracker/utils/CategoryUtils.kt:15-36 | The seeded name "Transport" is not the key "transportation", so it gets the fallback icon and colour. |
| CategoryUtils.FoodSeedHasOwnIcon | composeApp/src/commonMain/kotlin/com/shashank/expense/tracker/utils/CategoryUtils.kt:13 | "Food", "FOOD" and "food" get the restaurant icon. |
| Text.TrimEmptyIffBlank | composeApp/src/commonMain/kotlin/com/shashank/expense/tracker/screens/auth/SignUpScreen.kt:72 | A string trims to empty exactly when it is all whitespace. |
| Text.ParseNatToString | composeApp/src/commonMain/kotlin/com/shashank/expense/tracker/utils/DateTimeUtils.kt:34 | The decimal digits of a number read back as the number. |
| Text.ParseIntToString | composeApp/src/commonMain/kotlin/com/shashank/expense/tracker/utils/DateTimeUtils.kt:34 | A printed integer, negatives included, reads back as itself. |
| Text.UpperOfTitleCase | composeApp/src/commonMain/kotlin/com/shashank/expense/tracker/utils/DateTimeUtils.kt:34 | Capitalising a lower-cased upper-case word and upper-casing it again gives the word back. |

## Left out

- Compose screens, the chart drawing and the Float currency formatting: these are rendering and floating-point code.
- The coroutine and Flow plumbing, including the race between the two collectors that both write the filtered list. Each collector is a separate pure function, and their interleaving is not modelled.
- HomeViewModel.PrimaryView: it is only the mapping of one combined value. The first collector stops taking combined values at the first active filter, because the store's flows never end. From then on `setSearchQuery`, `setSelectedCategory`, `setSelectedType` and `clearFilters` change nothing it publishes. `HomeViewModel.CollectorRun` models this. The store's later re-emissions for that one query, when the table changes, are not modelled.
- The SQL behind `searchExpenses`, `filterExpensesByCategory`, `filterExpensesByType` and `filterExpensesByDateRange`. `HomeViewModel.PrimaryView` takes the store's answers as a parameter.
- The SQL text of `updateCategoryFavorite` and `getFavoriteCategories` is not part of this model. `LegacyHome.SetFavorite` and `LegacyHome.Favorites` state their assumed meaning: set the flag of the rows with that id, and list the favourite rows in store order.
- The store's id assignment and the seeding inserts. The seed list is modelled as data, and the inserts themselves are left out.
- Firebase authentication, the auth view-model and its states. The model stops at the request it would receive.
- Dependency injection, database drivers, platform entry points and build files: these are wiring.
- The older copy of the category tables in utils/CategoryUtils.kt: it is a superseded duplicate and depends on a screen type that is not part of this model.
- `updateExpense` and `deleteExpense`: their bodies are empty, so they have no behaviour to model.
- `addExpense` in either view-model only calls the store. The record it passes on is modelled in `AddExpense.Submit`.
- `formatDateTime` and `getCurrentDateTime` are not separately modelled: the first joins kotlinx's ISO date text, which is not part of this model, with `formatTime`; the second reads the clock, which is a parameter here.
- The exception branches ("Invalid date", "Unknown", `false`) are left out, because instant conversion cannot fail for the integer timestamps of the model.
- Clock and time zone: "now" and a fixed UTC offset are parameters. Zones with daylight-saving changes are not modelled.
- Amounts are integers in minor units, not `Double`. Sums are exact and there is no floating-point rounding.
- AddExpense.ParseAmount: models `toDoubleOrNull` as the JVM reads it, only for plain decimals: padding characters (code points 0 to 0x20) on either side, an optional sign, digits, optionally a point and digits, and an optional type suffix f, F, d or D. It drops digits after the second decimal. Exponents, "NaN", "Infinity", hexadecimal forms and a leading or trailing point are not modelled.
- Text.Lower: models Kotlin's `lowercase()` on ASCII letters only. That is exact for the table keys, but other Unicode letters keep their case in the model.
- Text.Upper: models Kotlin's `uppercase()` on ASCII letters only. Kotlin also maps some non-ASCII letters onto ASCII ones: U+017F (long s) becomes 'S' and U+0131 (dotless i) becomes 'I'. So `getCategoryIcon("ſhopping".uppercase())` is the shopping icon, while `getCategoryIcon("ſhopping")` is the fallback. `CategoryUtils.CaseInsensitive` is stated for ASCII upper-casing only.
- AddExpense.NonNumericHasNoAmount: it holds only for the plain-decimal notation modelled here. The JVM reader also accepts exponents ("1e5" is 100000.0), "NaN", "Infinity" and hexadecimal floating point ("0x1p3"), so such texts do give an amount in the program.
- AuthValidation.ValidatePassword: lengths are counted in Unicode scalar values, not UTF-16 code units. The two differ only for characters outside the Basic Multilingual Plane.
- AuthValidation.ValidateConfirmPassword: the same difference applies to its length check. `confirmPassword.length` counts UTF-16 units, so three U+1F600 characters have length 6 in the program and pass, but count 3 here and give "Password must be at least 6 characters".
- AuthValidation.SignUp: its password and confirmation messages come from `AuthValidation.ValidatePassword` and `AuthValidation.ValidateConfirmPassword`, so it counts lengths in scalar values too.
- AuthValidation.Login: its password length check counts scalar values too, not UTF-16 units.
