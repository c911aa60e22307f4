/**
 * The older home view-model: the category seed list, favourite toggling, and
 * its own balance computation, which differs from the newer one in how it
 * treats transactions whose type is neither "income" nor "expense".
 */
module LegacyHome {
  import opened Models
  import HomeViewModel

  // ------------------------------------------------------------- seeding

  /** One row of the seed list: name, icon key, initially a favourite or not. */
  datatype Seed = Seed(name: string, icon: string, favorite: bool)

  /** The eight categories inserted when the view-model starts. */
  const DefaultCategories: seq<Seed> := [
    Seed("Shopping", "shopping_cart", true),
    Seed("Food", "restaurant", true),
    Seed("Transport", "directions_car", true),
    Seed("Entertainment", "movie", false),
    Seed("Bills", "receipt", false),
    Seed("Health", "favorite", false),
    Seed("Education", "school", false),
    Seed("Gifts", "card_giftcard", false)
  ]

  /** Names of the seeds that start as favourites, in seed order. */
  function FavoriteSeedNames(seeds: seq<Seed>): (r: seq<string>)
    ensures forall n :: n in r <==> exists i :: 0 <= i < |seeds| && seeds[i].favorite && seeds[i].name == n
    ensures |r| <= |seeds|
  {
    if seeds == [] then []
    else
      var rest := FavoriteSeedNames(seeds[1..]);
      assert forall i :: 1 <= i < |seeds| ==> seeds[i] == seeds[1..][i - 1];
      assert forall i :: 0 <= i < |seeds| - 1 ==> seeds[1..][i] == seeds[i + 1];
      if seeds[0].favorite then [seeds[0].name] + rest else rest
  }

  /** Exactly Shopping, Food and Transport start as favourites, in that order. */
  lemma DefaultFavorites()
    ensures FavoriteSeedNames(DefaultCategories) == ["Shopping", "Food", "Transport"]
  {
    var d := DefaultCategories;
    NoLaterFavorites();
    Unfold(d, 2);
    Unfold(d, 1);
    Unfold(d, 0);
    assert d[0..] == d;
  }

  /** None of the seeds after the third starts as a favourite. */
  lemma NoLaterFavorites()
    ensures FavoriteSeedNames(DefaultCategories[3..]) == []
  {
    var d := DefaultCategories;
    assert FavoriteSeedNames(d[8..]) == [];
    Unfold(d, 7);
    Unfold(d, 6);
    Unfold(d, 5);
    Unfold(d, 4);
    Unfold(d, 3);
  }

  /** The seed list holds eight distinct names. */
  lemma DefaultNamesDistinct()
    ensures |DefaultCategories| == 8
    ensures forall i, j :: 0 <= i < j < |DefaultCategories| ==> DefaultCategories[i].name != DefaultCategories[j].name
  {
  }

  /** One step of `FavoriteSeedNames` along a suffix. */
  lemma Unfold(seeds: seq<Seed>, k: int)
    requires 0 <= k < |seeds|
    ensures FavoriteSeedNames(seeds[k..])
         == (if seeds[k].favorite then [seeds[k].name] else []) + FavoriteSeedNames(seeds[k + 1..])
  {
    assert seeds[k..][1..] == seeds[k + 1..];
  }

  // ---------------------------------------------------------- favourites

  /**
   * The category store after `updateCategoryFavorite(id, favorite)`. The
   * query text is not part of this model; this is its assumed meaning (set the
   * flag of the rows with that id, leave every other row alone).
   */
  function SetFavorite(cats: seq<Category>, id: int, favorite: bool): (r: seq<Category>)
    ensures |r| == |cats|
    ensures forall i :: 0 <= i < |r| ==> r[i].id == cats[i].id && r[i].title == cats[i].title && r[i].icon == cats[i].icon
    ensures forall i :: 0 <= i < |r| ==> r[i].isFavorite == (if cats[i].id == id then favorite else cats[i].isFavorite)
  {
    seq(|cats|, i requires 0 <= i < |cats| =>
      if cats[i].id == id then cats[i].(isFavorite := favorite) else cats[i])
  }

  /**
   * `toggleCategoryFavorite`: the stored category with the given id gets the
   * opposite of the flag the caller holds, every other category is unchanged.
   */
  function ToggleCategoryFavorite(cats: seq<Category>, c: Category): (r: seq<Category>)
    ensures |r| == |cats|
    ensures forall i :: 0 <= i < |r| && cats[i].id != c.id ==> r[i] == cats[i]
    ensures forall i :: 0 <= i < |r| && cats[i].id == c.id ==> r[i] == cats[i].(isFavorite := !c.isFavorite)
  {
    SetFavorite(cats, c.id, !c.isFavorite)
  }

  /**
   * `getFavoriteCategories`: the favourites, in store order. The query text
   * is not part of this model; this is its assumed meaning (the stored
   * categories flagged favourite, no reordering).
   */
  function Favorites(cats: seq<Category>): (r: seq<Category>)
    ensures forall x :: x in r <==> x in cats && x.isFavorite
    ensures HomeViewModel.IsSubsequence(r, cats)
    ensures |r| <= |cats|
  {
    if cats == [] then []
    else
      var rest := Favorites(cats[1..]);
      assert forall x :: x in cats <==> x == cats[0] || x in cats[1..];
      if cats[0].isFavorite then
        assert ([cats[0]] + rest)[1..] == rest;
        [cats[0]] + rest
      else
        assert rest != [] ==> rest[0] != cats[0];
        rest
  }

  /** Toggling a category and then toggling the refreshed copy restores the store. */
  lemma ToggleTwice(cats: seq<Category>, c: Category)
    requires forall i :: 0 <= i < |cats| && cats[i].id == c.id ==> cats[i].isFavorite == c.isFavorite
    ensures ToggleCategoryFavorite(ToggleCategoryFavorite(cats, c), c.(isFavorite := !c.isFavorite)) == cats
  {
    var once := ToggleCategoryFavorite(cats, c);
    var twice := ToggleCategoryFavorite(once, c.(isFavorite := !c.isFavorite));
    assert forall i :: 0 <= i < |cats| ==> twice[i] == cats[i];
  }

  /** After a toggle, the category with that id is a favourite exactly when the caller's copy was not. */
  lemma ToggleFlipsFavorite(cats: seq<Category>, c: Category, i: int)
    requires 0 <= i < |cats| && cats[i].id == c.id
    ensures ToggleCategoryFavorite(cats, c)[i] in Favorites(ToggleCategoryFavorite(cats, c)) <==> !c.isFavorite
  {
  }

  // ------------------------------------------------------------- balances

  /** Sum of the amounts whose type is exactly `kind`. */
  function SumOfType(xs: seq<Expense>, kind: string): int {
    if xs == [] then 0 else (if xs[0].kind == kind then xs[0].amount else 0) + SumOfType(xs[1..], kind)
  }

  /** Sum of the amounts of transactions typed neither "income" nor "expense". */
  function OtherTotal(xs: seq<Expense>): int {
    if xs == [] then 0
    else (if xs[0].kind != IncomeType && xs[0].kind != ExpenseType then xs[0].amount else 0) + OtherTotal(xs[1..])
  }

  /**
   * `updateBalance`: income counts type "income", expenses count type
   * "expense", and anything else is counted in neither.
   */
  function UpdateBalance(xs: seq<Expense>): (b: HomeViewModel.Balances)
    ensures b.totalIncome == HomeViewModel.IncomeTotal(xs)
    ensures b.totalExpenses + OtherTotal(xs) == HomeViewModel.ExpenseTotal(xs)
    ensures b.totalIncome + b.totalExpenses + OtherTotal(xs) == Total(xs)
    ensures b.totalBalance == b.totalIncome - b.totalExpenses
  {
    LegacyIncomeAgrees(xs);
    LegacyExpenseMissesOthers(xs);
    HomeViewModel.IncomeExpensePartition(xs);
    var income := SumOfType(xs, IncomeType);
    var expense := SumOfType(xs, ExpenseType);
    HomeViewModel.Balances(income, expense, income - expense)
  }

  lemma {:induction false} LegacyIncomeAgrees(xs: seq<Expense>)
    ensures SumOfType(xs, IncomeType) == HomeViewModel.IncomeTotal(xs)
  {
    if xs != [] {
      LegacyIncomeAgrees(xs[1..]);
    }
  }

  lemma {:induction false} LegacyExpenseMissesOthers(xs: seq<Expense>)
    ensures SumOfType(xs, ExpenseType) + OtherTotal(xs) == HomeViewModel.ExpenseTotal(xs)
  {
    if xs != [] {
      LegacyExpenseMissesOthers(xs[1..]);
    }
  }

  /** When every transaction is typed "income" or "expense", both view-models agree on all three totals. */
  lemma {:induction false} ViewModelsAgree(xs: seq<Expense>)
    requires forall i :: 0 <= i < |xs| ==> xs[i].kind == IncomeType || xs[i].kind == ExpenseType
    ensures UpdateBalance(xs) == HomeViewModel.UpdateBalances(xs)
  {
    OthersVanish(xs);
  }

  lemma {:induction false} OthersVanish(xs: seq<Expense>)
    requires forall i :: 0 <= i < |xs| ==> xs[i].kind == IncomeType || xs[i].kind == ExpenseType
    ensures OtherTotal(xs) == 0
  {
    if xs != [] {
      assert forall i :: 0 <= i < |xs[1..]| ==> xs[1..][i] == xs[i + 1];
      OthersVanish(xs[1..]);
    }
  }

  /** A transaction of any other type ("Expense", "transfer", ...) moves none of the older totals. */
  lemma OtherTypeIgnored(xs: seq<Expense>, e: Expense)
    requires e.kind != IncomeType && e.kind != ExpenseType
    ensures UpdateBalance([e] + xs) == UpdateBalance(xs)
  {
    assert ([e] + xs)[1..] == xs;
  }
}
