/**
 * The records of the application: an expense/income transaction and a
 * category. Amounts are whole numbers of minor currency units (the source
 * stores them as `Double`). Timestamps are epoch milliseconds.
 */
module Models {

  /** The `type` string of a transaction that counts as income. */
  const IncomeType := "income"
  /** The `type` string the add-expense form writes for an expense. */
  const ExpenseType := "expense"

  /**
   * `ExpenseModel`: `kind` is the source's `type` field, `date` the moment the
   * transaction happened and `createdAt` the moment it was recorded.
   */
  datatype Expense = Expense(
    id: int,
    title: string,
    amount: int,
    category: string,
    kind: string,
    tax: int,
    date: int,
    createdAt: int)
  {
    /**
     * The derived `isIncome` getter. Being computed from `kind` on every
     * read, it cannot disagree with `kind`; the comparison is exact, so
     * "Income" or "INCOME" is not income.
     */
    predicate IsIncome() {
      kind == IncomeType
    }
  }

  /** `CategoryModel`: `title` is the display name, `icon` an icon key. */
  datatype Category = Category(id: int, title: string, isFavorite: bool, icon: string)

  /** The `CategoryModel` constructor with `isFavorite` left at its default. */
  function NewCategory(id: int, title: string, icon: string): (c: Category)
    ensures !c.isFavorite
    ensures c.id == id && c.title == title && c.icon == icon
  {
    Category(id, title, false, icon)
  }

  /** `isIncome` holds exactly for the type "income": case matters, anything else is not income. */
  lemma IncomeIsExactType(e: Expense)
    ensures e.IsIncome() <==> e.kind == "income"
    ensures e.kind == "Income" || e.kind == "INCOME" || e.kind == "expense" ==> !e.IsIncome()
  {
  }

  // ------------------------------------------------------------ amounts

  /** Sum of the amounts of `xs`. */
  function Total(xs: seq<Expense>): int {
    if xs == [] then 0 else xs[0].amount + Total(xs[1..])
  }

  lemma {:induction false} TotalAppend(xs: seq<Expense>, ys: seq<Expense>)
    ensures Total(xs + ys) == Total(xs) + Total(ys)
  {
    if xs == [] {
      assert xs + ys == ys;
    } else {
      assert (xs + ys)[1..] == xs[1..] + ys;
      TotalAppend(xs[1..], ys);
    }
  }
}
