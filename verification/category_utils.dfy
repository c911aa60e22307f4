/**
 * The icon and the colour shown for a category name. Both look the name up
 * case-insensitively in a fixed table and fall back to a default.
 */
module CategoryUtils {
  import opened Text

  /** The drawable resources a category can be shown with. */
  datatype Icon =
    | ShoppingIcon        // ic_shopping
    | RecurringBillIcon   // ic_recurring_bill
    | RestaurantIcon      // ic_restaurant
    | SalaryIcon          // ic_salary
    | CarIcon             // ic_car
    | IncomeIcon          // ic_income
    | ExpenseIcon         // ic_expense
    | CameraIcon          // ic_camera, the fallback

  /** Lower-cased names with an icon of their own. */
  const IconKeys: set<string> :=
    {"shopping", "subscription", "food", "salary", "transportation", "bills", "income", "expense"}

  /** Lower-cased names with a colour of their own. */
  const ColorKeys: set<string> := IconKeys + {"entertainment", "health", "education"}

  /** The fallback colour, as 0xAARRGGBB. */
  const DefaultColor: nat := 0xFF607D8B

  /** `getCategoryIcon`. */
  function CategoryIcon(category: string): (r: Icon)
    ensures r == CameraIcon <==> Lower(category) !in IconKeys
    ensures r == RecurringBillIcon <==> Lower(category) in {"subscription", "bills"}
  {
    var key := Lower(category);
    if key == "shopping" then ShoppingIcon
    else if key == "subscription" then RecurringBillIcon
    else if key == "food" then RestaurantIcon
    else if key == "salary" then SalaryIcon
    else if key == "transportation" then CarIcon
    else if key == "bills" then RecurringBillIcon
    else if key == "income" then IncomeIcon
    else if key == "expense" then ExpenseIcon
    else CameraIcon
  }

  /** `getCategoryColor`: every colour is fully opaque. */
  function CategoryColor(category: string): (r: nat)
    ensures r / 0x1000000 == 0xFF
    ensures r == DefaultColor <==> Lower(category) !in ColorKeys
  {
    var key := Lower(category);
    if key == "shopping" then 0xFF7B61FF
    else if key == "subscription" then 0xFFFE774C
    else if key == "food" then 0xFF00B2FF
    else if key == "salary" then 0xFF00C48C
    else if key == "transportation" then 0xFFFFB800
    else if key == "entertainment" then 0xFFFF6B6B
    else if key == "health" then 0xFF4CAF50
    else if key == "education" then 0xFF9C27B0
    else if key == "bills" then 0xFFE91E63
    else if key == "income" then 0xFF00C48C
    else if key == "expense" then 0xFFFF6B6B
    else DefaultColor
  }

  /** ASCII letter case never matters: a name and its ASCII upper-cased or lower-cased form look the same. */
  lemma CaseInsensitive(category: string)
    ensures CategoryIcon(Upper(category)) == CategoryIcon(category)
    ensures CategoryColor(Upper(category)) == CategoryColor(category)
    ensures CategoryIcon(Lower(category)) == CategoryIcon(category)
    ensures CategoryColor(Lower(category)) == CategoryColor(category)
  {
    LowerOfUpper(category);
    LowerOfLower(category);
  }

  lemma LowerOfUpper(s: string)
    ensures Lower(Upper(s)) == Lower(s)
  {
    assert forall i :: 0 <= i < |s| ==> Lower(Upper(s))[i] == LowerChar(UpperChar(s[i]));
  }

  lemma LowerOfLower(s: string)
    ensures Lower(Lower(s)) == Lower(s)
  {
    assert forall i :: 0 <= i < |s| ==> Lower(Lower(s))[i] == LowerChar(LowerChar(s[i]));
  }

  /** A name with an icon of its own also has a colour of its own, but not the other way round. */
  lemma IconKeysHaveColors(category: string)
    ensures CategoryIcon(category) != CameraIcon ==> CategoryColor(category) != DefaultColor
    ensures Lower(category) in {"entertainment", "health", "education"} ==>
      CategoryIcon(category) == CameraIcon && CategoryColor(category) != DefaultColor
  {
  }

  /** The values the table shares between names. */
  lemma SharedEntries(a: string, b: string)
    requires Lower(a) == "salary" && Lower(b) == "income"
    ensures CategoryColor(a) == CategoryColor(b)
    ensures CategoryIcon(a) != CategoryIcon(b)
  {
  }

  /** "Entertainment" and "Expense" share a colour. */
  lemma EntertainmentLooksLikeExpense(a: string, b: string)
    requires Lower(a) == "entertainment" && Lower(b) == "expense"
    ensures CategoryColor(a) == CategoryColor(b)
    ensures CategoryIcon(a) == CameraIcon && CategoryIcon(b) == ExpenseIcon
  {
  }

  /**
   * The seeded category "Transport" is not the table's "transportation":
   * it gets the fallback icon and colour.
   */
  lemma TransportSeedFallsBack(name: string)
    requires name == "Transport"
    ensures CategoryIcon(name) == CameraIcon
    ensures CategoryColor(name) == DefaultColor
  {
    assert Lower(name) == "transport" by {
      assert forall i :: 0 <= i < |name| ==> Lower(name)[i] == LowerChar(name[i]);
    }
  }

  /** The seeded category "Food" gets the restaurant icon, in any letter case. */
  lemma FoodSeedHasOwnIcon(name: string)
    requires name == "Food" || name == "FOOD" || name == "food"
    ensures CategoryIcon(name) == RestaurantIcon
  {
    assert Lower(name) == "food" by {
      assert forall i :: 0 <= i < |name| ==> Lower(name)[i] == LowerChar(name[i]);
    }
  }
}
