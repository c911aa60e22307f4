/**
 * The home screen's view-model apart from its charts: the income / expense /
 * balance totals, the filter inputs with their setters, the precedence that
 * picks one active filter, the selected-month narrowing, and what one
 * emission recomputes.
 *
 * The view-model has two independent collectors that both write the filtered
 * list: one follows the four filter inputs, the other the selected month.
 * Each is modelled as its own pure function (`PrimaryView`, `MonthView`);
 * their interleaving is not. `CollectorRun` follows the first collector over
 * a run of filter changes.
 */
module HomeViewModel {
  import opened Wrappers
  import opened Models
  import opened Calendar
  import Text
  import DateTimeUtils
  import Spending

  // ------------------------------------------------------------- totals

  /** Sum of the amounts of the income transactions. */
  function IncomeTotal(xs: seq<Expense>): int {
    if xs == [] then 0 else (if xs[0].IsIncome() then xs[0].amount else 0) + IncomeTotal(xs[1..])
  }

  /** Sum of the amounts of all other transactions. */
  function ExpenseTotal(xs: seq<Expense>): int {
    if xs == [] then 0 else (if xs[0].IsIncome() then 0 else xs[0].amount) + ExpenseTotal(xs[1..])
  }

  /** Net amount: income counted positive, everything else negative. */
  function SignedTotal(xs: seq<Expense>): int {
    if xs == [] then 0 else (if xs[0].IsIncome() then xs[0].amount else -xs[0].amount) + SignedTotal(xs[1..])
  }

  datatype Balances = Balances(totalIncome: int, totalExpenses: int, totalBalance: int)

  /**
   * `updateBalances`: every transaction counts in exactly one of the two
   * totals, and the balance is the net amount.
   */
  function UpdateBalances(xs: seq<Expense>): (b: Balances)
    ensures b.totalIncome + b.totalExpenses == Total(xs)
    ensures b.totalBalance == SignedTotal(xs)
    ensures b.totalBalance == b.totalIncome - b.totalExpenses
  {
    IncomeExpensePartition(xs);
    BalanceIsNet(xs);
    Balances(IncomeTotal(xs), ExpenseTotal(xs), IncomeTotal(xs) - ExpenseTotal(xs))
  }

  lemma {:induction false} IncomeExpensePartition(xs: seq<Expense>)
    ensures IncomeTotal(xs) + ExpenseTotal(xs) == Total(xs)
  {
    if xs != [] {
      IncomeExpensePartition(xs[1..]);
    }
  }

  lemma {:induction false} BalanceIsNet(xs: seq<Expense>)
    ensures IncomeTotal(xs) - ExpenseTotal(xs) == SignedTotal(xs)
  {
    if xs != [] {
      BalanceIsNet(xs[1..]);
    }
  }

  /** A coffee expense and a salary: income 2000.00, expenses 5.00, balance 1995.00 (in cents). */
  lemma CoffeeAndSalary(t0: int, t1: int)
    ensures var b := UpdateBalances([Expense(1, "Coffee", 500, "Food", "expense", 0, t0, t0),
                                     Expense(2, "Salary", 200000, "Salary", "income", 0, t1, t1)]);
      b == Balances(200000, 500, 199500)
  {
    var coffee := Expense(1, "Coffee", 500, "Food", "expense", 0, t0, t0);
    var salary := Expense(2, "Salary", 200000, "Salary", "income", 0, t1, t1);
    var xs := [coffee, salary];
    assert "expense"[0] != IncomeType[0];
    assert !coffee.IsIncome() && salary.IsIncome();
    assert xs[1..] == [salary] && [salary][1..] == [];
    assert IncomeTotal([salary]) == 200000 && ExpenseTotal([salary]) == 0;
    assert IncomeTotal(xs) == 200000;
    assert ExpenseTotal(xs) == 500;
  }

  // ------------------------------------------------------- filter inputs

  datatype DateRange = DateRange(start: int, end: int)

  /** The four filter inputs: `searchQuery`, `selectedCategory`, `selectedType`, `dateRange`. */
  datatype Filters = Filters(query: string, category: Option<string>, kind: Option<string>, range: Option<DateRange>)

  const NoFilters := Filters("", None, None, None)

  /** The request the first collector makes for a combination of inputs. */
  datatype Query =
    | Search(text: string)          // `searchExpenses`
    | ByCategory(name: string)      // `filterExpensesByCategory`
    | ByType(kind: string)          // `filterExpensesByType`
    | ByDateRange(start: int, end: int)  // `filterExpensesByDateRange`
    | Everything                    // the full list, unfiltered

  /**
   * The `when` of the first collector: a non-blank search query wins, then a
   * category, then a type, then a date range; with none of them set the
   * whole list is shown.
   */
  function ActiveQuery(f: Filters): (q: Query)
    ensures q.Search? <==> !Text.IsBlank(f.query)
    ensures q.Search? ==> q.text == f.query
    ensures q.ByCategory? <==> Text.IsBlank(f.query) && f.category.Some?
    ensures q.ByCategory? ==> q.name == f.category.value
    ensures q.ByType? <==> Text.IsBlank(f.query) && f.category.None? && f.kind.Some?
    ensures q.ByType? ==> q.kind == f.kind.value
    ensures q.ByDateRange? <==> Text.IsBlank(f.query) && f.category.None? && f.kind.None? && f.range.Some?
    ensures q.ByDateRange? ==> q.start == f.range.value.start && q.end == f.range.value.end
    ensures q == Everything <==> Text.IsBlank(f.query) && f.category.None? && f.kind.None? && f.range.None?
  {
    if !Text.IsBlank(f.query) then Search(f.query)
    else if f.category.Some? then ByCategory(f.category.value)
    else if f.kind.Some? then ByType(f.kind.value)
    else if f.range.Some? then ByDateRange(f.range.value.start, f.range.value.end)
    else Everything
  }

  /** A search for "food" with the category "shopping" also selected searches, ignoring the category. */
  lemma SearchBeatsCategory()
    ensures ActiveQuery(Filters("food", Some("shopping"), None, None)) == Search("food")
  {
    assert "food"[0] == 'f' && !Text.IsWhitespace('f');
    assert !Text.IsBlank("food");
  }

  /** A query of spaces only counts as no query. */
  lemma BlankQueryIgnored(f: Filters)
    requires Text.IsBlank(f.query)
    ensures ActiveQuery(f) == ActiveQuery(f.(query := ""))
  {
  }

  // ------------------------------------------------------------- state

  /** The view-model's mutable cells that the derived data depends on. */
  datatype HomeState = HomeState(
    expenses: seq<Expense>,
    filters: Filters,
    selectedMonth: int,
    timeFrame: string)

  /**
   * A freshly created view-model at instant `now`: no filters, the month of
   * `now` in the local zone, time frame "Month".
   */
  function Initial(now: int, offset: int): (s: HomeState)
    ensures ActiveQuery(s.filters) == Everything
    ensures s.selectedMonth == LocalDate(now, offset).month && 1 <= s.selectedMonth <= 12
    ensures s.timeFrame == Spending.InitialTimeFrame && s.expenses == []
  {
    HomeState([], NoFilters, LocalDate(now, offset).month, Spending.InitialTimeFrame)
  }

  function SetSearchQuery(s: HomeState, query: string): (r: HomeState)
    ensures r.filters.query == query
    ensures r == s.(filters := s.filters.(query := query))
  {
    s.(filters := s.filters.(query := query))
  }

  function SetSelectedCategory(s: HomeState, category: Option<string>): (r: HomeState)
    ensures r.filters.category == category
    ensures r == s.(filters := s.filters.(category := category))
  {
    s.(filters := s.filters.(category := category))
  }

  function SetSelectedType(s: HomeState, kind: Option<string>): (r: HomeState)
    ensures r.filters.kind == kind
    ensures r == s.(filters := s.filters.(kind := kind))
  {
    s.(filters := s.filters.(kind := kind))
  }

  function SetDateRange(s: HomeState, start: int, end: int): (r: HomeState)
    ensures r.filters.range == Some(DateRange(start, end))
    ensures r == s.(filters := s.filters.(range := Some(DateRange(start, end))))
  {
    s.(filters := s.filters.(range := Some(DateRange(start, end))))
  }

  function SelectMonth(s: HomeState, month: int): (r: HomeState)
    requires 1 <= month <= 12
    ensures r.selectedMonth == month
    ensures r.filters == s.filters && r.timeFrame == s.timeFrame && r.expenses == s.expenses
  {
    s.(selectedMonth := month)
  }

  function UpdateTimeFrame(s: HomeState, frame: string): (r: HomeState)
    ensures r.timeFrame == frame
    ensures r.filters == s.filters && r.selectedMonth == s.selectedMonth && r.expenses == s.expenses
  {
    s.(timeFrame := frame)
  }

  /**
   * `clearFilters`: resets the four filter inputs, so the whole list is
   * selected again; the selected month, the time frame and the transactions
   * are left as they were.
   */
  function ClearFilters(s: HomeState): (r: HomeState)
    ensures r.filters.query == "" && r.filters.category.None? && r.filters.kind.None? && r.filters.range.None?
    ensures ActiveQuery(r.filters) == Everything
    ensures r.selectedMonth == s.selectedMonth && r.timeFrame == s.timeFrame && r.expenses == s.expenses
  {
    s.(filters := NoFilters)
  }

  /** Clearing forgets every filter input that was set before it. */
  lemma ClearForgetsFilters(s: HomeState, query: string, category: Option<string>, kind: Option<string>, start: int, end: int)
    ensures ClearFilters(SetSearchQuery(s, query)) == ClearFilters(s)
    ensures ClearFilters(SetSelectedCategory(s, category)) == ClearFilters(s)
    ensures ClearFilters(SetSelectedType(s, kind)) == ClearFilters(s)
    ensures ClearFilters(SetDateRange(s, start, end)) == ClearFilters(s)
    ensures ClearFilters(ClearFilters(s)) == ClearFilters(s)
  {
  }

  // ---------------------------------------------------- the two collectors

  /**
   * The mapping the first collector applies to one combined value of the
   * filter inputs: the full list when no filter is active, otherwise
   * whatever the store answers for the active query. The store's SQL is not
   * part of this model, so its answers are the parameter `store`.
   * `CollectorRun` says which combined values the collector takes at all.
   */
  function PrimaryView(s: HomeState, store: Query -> seq<Expense>): (r: seq<Expense>)
    ensures ActiveQuery(s.filters) == Everything ==> r == s.expenses
    ensures ActiveQuery(s.filters) != Everything ==> r == store(ActiveQuery(s.filters))
  {
    match ActiveQuery(s.filters)
    case Everything => s.expenses
    case q => store(q)
  }

  /**
   * The lists the first collector publishes for a run of combined values.
   * The collector collects each mapped flow inside its own `collect`. The
   * full list comes from a flow that ends after one value, so the collector
   * goes on to the next combined value; a store query's flow never ends, so
   * from the first active filter on the collector stays on that query and
   * takes no later combined value.
   */
  function CollectorRun(states: seq<HomeState>, store: Query -> seq<Expense>): (published: seq<seq<Expense>>)
    ensures |published| <= |states|
    ensures states != [] ==> published != []
  {
    if states == [] then []
    else if ActiveQuery(states[0].filters) == Everything then [states[0].expenses] + CollectorRun(states[1..], store)
    else [store(ActiveQuery(states[0].filters))]
  }

  /**
   * What `CollectorRun` publishes: the mapping of each value it takes, every
   * value but the last without an active filter, and it stops early only at
   * an active filter.
   */
  lemma {:induction false} CollectorRunFollows(states: seq<HomeState>, store: Query -> seq<Expense>)
    ensures var published := CollectorRun(states, store);
      forall i :: 0 <= i < |published| ==> published[i] == PrimaryView(states[i], store)
    ensures var published := CollectorRun(states, store);
      forall i :: 0 <= i < |published| - 1 ==> ActiveQuery(states[i].filters) == Everything
    ensures var published := CollectorRun(states, store);
      |published| == |states| || ActiveQuery(states[|published| - 1].filters) != Everything
    decreases |states|
  {
    if states != [] && ActiveQuery(states[0].filters) == Everything {
      var rest := CollectorRun(states[1..], store);
      CollectorRunFollows(states[1..], store);
      var published := CollectorRun(states, store);
      assert published == [states[0].expenses] + rest;
      forall i | 1 <= i < |published|
        ensures published[i] == PrimaryView(states[i], store)
      {
        assert published[i] == rest[i - 1] && states[i] == states[1..][i - 1];
      }
    }
  }

  /**
   * Once a filter is active, nothing that follows reaches the first
   * collector: later searches, filters, `clearFilters` or new transactions
   * change none of the lists it publishes.
   */
  lemma {:induction false} CollectorStaysOnFirstFilter(before: seq<HomeState>, s: HomeState, later: seq<HomeState>,
                                                       store: Query -> seq<Expense>)
    requires ActiveQuery(s.filters) != Everything
    ensures CollectorRun(before + [s] + later, store) == CollectorRun(before + [s], store)
    decreases |before|
  {
    if before != [] {
      assert (before + [s] + later)[1..] == before[1..] + [s] + later;
      assert (before + [s])[1..] == before[1..] + [s];
      CollectorStaysOnFirstFilter(before[1..], s, later, store);
    }
  }

  /** Clearing the filters after a filter became active leaves the first collector on the filter's query. */
  lemma ClearAfterFilterUnseen(s: HomeState, store: Query -> seq<Expense>)
    requires ActiveQuery(s.filters) != Everything
    ensures CollectorRun([s, ClearFilters(s)], store) == [store(ActiveQuery(s.filters))]
  {
  }

  /** With a non-blank search query, the category, type and date-range inputs make no difference. */
  lemma SearchOverridesOtherFilters(s: HomeState, store: Query -> seq<Expense>,
                                    category: Option<string>, kind: Option<string>, range: Option<DateRange>)
    requires !Text.IsBlank(s.filters.query)
    ensures PrimaryView(s.(filters := s.filters.(category := category, kind := kind, range := range)), store)
         == PrimaryView(s, store)
  {
  }

  /** Whether instant `t` lies in the inclusive `getMonthStartEnd` window of `month` in `year`. */
  predicate InMonthWindow(t: int, month: int, year: int)
    requires 1 <= month <= 12
  {
    var bounds := DateTimeUtils.MonthStartEnd(month, year);
    bounds.0 <= t <= bounds.1
  }

  /** `xs` with some elements dropped and the rest in their original order. */
  predicate IsSubsequence<T(==)>(sub: seq<T>, xs: seq<T>)
    decreases |xs|
  {
    if sub == [] then true
    else if xs == [] then false
    else if sub[0] == xs[0] then IsSubsequence(sub[1..], xs[1..])
    else IsSubsequence(sub, xs[1..])
  }

  /**
   * The month filter of the second collector: keeps, in their order, exactly
   * the transactions whose timestamp lies in the month's window, each as
   * many times as it occurs.
   */
  function NarrowToMonth(xs: seq<Expense>, month: int, year: int): (r: seq<Expense>)
    requires 1 <= month <= 12
    ensures forall e :: e in r <==> e in xs && InMonthWindow(e.date, month, year)
    ensures forall e :: multiset(r)[e] == if InMonthWindow(e.date, month, year) then multiset(xs)[e] else 0
    ensures IsSubsequence(r, xs)
    ensures |r| <= |xs|
  {
    if xs == [] then []
    else
      var rest := NarrowToMonth(xs[1..], month, year);
      assert xs == [xs[0]] + xs[1..];
      assert multiset(xs) == multiset{xs[0]} + multiset(xs[1..]);
      if InMonthWindow(xs[0].date, month, year) then
        assert ([xs[0]] + rest)[1..] == rest;
        assert multiset([xs[0]] + rest) == multiset{xs[0]} + multiset(rest);
        [xs[0]] + rest
      else
        assert forall e :: e in xs <==> e == xs[0] || e in xs[1..];
        rest
  }

  lemma {:induction false} NarrowToMonthIdempotent(xs: seq<Expense>, month: int, year: int)
    requires 1 <= month <= 12
    ensures NarrowToMonth(NarrowToMonth(xs, month, year), month, year) == NarrowToMonth(xs, month, year)
    decreases |xs|
  {
    if xs != [] {
      NarrowToMonthIdempotent(xs[1..], month, year);
      var rest := NarrowToMonth(xs[1..], month, year);
      if InMonthWindow(xs[0].date, month, year) {
        assert ([xs[0]] + rest)[1..] == rest;
      }
    }
  }

  /** Every transaction the month filter keeps has a UTC calendar date in that month of that year. */
  lemma NarrowKeepsMonth(xs: seq<Expense>, month: int, year: int, e: Expense)
    requires 1 <= month <= 12
    requires e in NarrowToMonth(xs, month, year)
    ensures DateOfDay(e.date / MillisPerDay).year == year
    ensures DateOfDay(e.date / MillisPerDay).month == month
  {
    WindowDays(e.date, month, year);
    DayInMonth(e.date / MillisPerDay, month, year);
  }

  /** The window of a month covers exactly that month's epoch days. */
  lemma WindowDays(t: int, month: int, year: int)
    requires 1 <= month <= 12
    requires InMonthWindow(t, month, year)
    ensures DayOfDate(Date(year, month, 1)) <= t / MillisPerDay < DayOfDate(Date(year, month, 1)) + DaysInMonth(year, month)
  {
    var bounds := DateTimeUtils.MonthStartEnd(month, year);
    var first := bounds.0 / MillisPerDay;
    assert DayOfDate(DateOfDay(first)) == first;
    assert bounds.0 == first * MillisPerDay;
    DayWithin(t, first, DaysInMonth(year, month));
  }

  /** Each of a month's epoch days has that month and year as its date. */
  lemma DayInMonth(day: int, month: int, year: int)
    requires 1 <= month <= 12
    requires DayOfDate(Date(year, month, 1)) <= day < DayOfDate(Date(year, month, 1)) + DaysInMonth(year, month)
    ensures DateOfDay(day).year == year && DateOfDay(day).month == month
  {
    var d := Date(year, month, day - DayOfDate(Date(year, month, 1)) + 1);
    assert ValidDate(d);
    assert DayOfDate(d) == day;
    DateRoundTrip(d);
  }

  /** An instant inside `length` whole days from the start of epoch day `first` falls on one of those days. */
  lemma DayWithin(t: int, first: int, length: int)
    requires first * MillisPerDay <= t < (first + length) * MillisPerDay
    ensures first <= t / MillisPerDay < first + length
  {
  }

  /** The second collector: all transactions narrowed to the selected month of the current year. */
  function MonthView(s: HomeState, now: int, offset: int): (r: seq<Expense>)
    requires 1 <= s.selectedMonth <= 12
    ensures r == NarrowToMonth(s.expenses, s.selectedMonth, LocalDate(now, offset).year)
    ensures forall e :: e in r <==> e in s.expenses && InMonthWindow(e.date, s.selectedMonth, LocalDate(now, offset).year)
  {
    NarrowToMonth(s.expenses, s.selectedMonth, LocalDate(now, offset).year)
  }

  // ------------------------------------------------------------- emission

  /** What one emission of either collector publishes. */
  datatype Dashboard = Dashboard(filtered: seq<Expense>, balances: Balances, spending: seq<Spending.SpendingPoint>)

  /**
   * One emission: the new filtered list, its totals (`updateBalances`) and
   * the chart for the selected time frame (`updateSpendingData`).
   */
  function Emit(filtered: seq<Expense>, frame: string, now: int, offset: int): (d: Dashboard)
    ensures d.filtered == filtered
    ensures d.balances == UpdateBalances(filtered)
    ensures d.balances.totalIncome + d.balances.totalExpenses == Total(filtered)
    ensures d.balances.totalBalance == SignedTotal(filtered)
    ensures d.balances.totalBalance == d.balances.totalIncome - d.balances.totalExpenses
    ensures d.spending == Spending.SpendingData(frame, filtered, now, offset)
  {
    Dashboard(filtered, UpdateBalances(filtered), Spending.SpendingData(frame, filtered, now, offset))
  }

  /** After a month-collector emission, no listed transaction lies outside the selected month's window. */
  lemma MonthEmissionStaysInMonth(s: HomeState, now: int, offset: int, e: Expense)
    requires 1 <= s.selectedMonth <= 12
    requires e in Emit(MonthView(s, now, offset), s.timeFrame, now, offset).filtered
    ensures InMonthWindow(e.date, s.selectedMonth, LocalDate(now, offset).year)
  {
  }
}
