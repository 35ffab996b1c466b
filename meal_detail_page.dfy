/**
 * The data shaping of the web client's meal page (components/MealDetailPage.tsx): its own
 * copy of the price hash, the price shown for the route's meal id, the ingredient list
 * read off the meal record's keys, and the add-to-cart button.
 */
module MealDetailPage {
  import opened Wrappers
  import opened JsNumber
  import opened MealTypes
  import opened Seqs
  import CategoryPage
  import CartContext

  // ---------------------------------------------------------------- price

  /**
   * The price formula of this page: `8 + Math.abs(hash) % 20 + Math.abs(hash % 100) / 100`
   * dollars, in cents, with JavaScript's sign-keeping `%` on the signed hash. It agrees with
   * the category page's price for every id.
   */
  function DetailPriceCents(mealId: string): (cents: int)
    ensures cents == CategoryPage.PriceCents(mealId)
    ensures 800 <= cents <= 2799
  {
    var h := CategoryPage.HashOf(mealId);
    800 + 100 * (Abs(h) % 20) + Abs(JsRem(h, 100))
  }

  /** `generatePrice`: the hash loop written inline, then the price formula. */
  method GeneratePrice(mealId: string) returns (cents: int)
    ensures cents == DetailPriceCents(mealId)
    ensures cents == CategoryPage.PriceCents(mealId)
  {
    var hash := 0;
    for i := 0 to |mealId|
      invariant hash == CategoryPage.HashOf(mealId[..i])
    {
      assert mealId[..i + 1][..i] == mealId[..i];
      hash := ShiftLeft5(hash) - hash + mealId[i] as int;
      hash := ToInt32(hash);
    }
    assert mealId[..|mealId|] == mealId;
    cents := 800 + 100 * (Abs(hash) % 20) + Abs(JsRem(hash, 100));
  }

  /** The `price` memo: 0 without a (non-empty) route id, else the generated price. */
  function MemoPrice(mealId: Option<string>): (cents: int)
    ensures mealId == None || mealId == Some("") ==> cents == 0
    ensures mealId.Some? && mealId.value != "" ==>
              cents == CategoryPage.PriceCents(mealId.value) && 800 <= cents <= 2799
  {
    match mealId
    case None => 0
    case Some(id) => if id == "" then 0 else DetailPriceCents(id)
  }

  // ---------------------------------------------------------------- ingredients

  /** One row of the ingredient list: the ingredient text and whatever its measure key holds. */
  datatype ShownIngredient = ShownIngredient(ingredient: string, measure: Option<string>)

  const INGREDIENT_KEY: string := "strIngredient"
  const MEASURE_KEY: string := "strMeasure"

  predicate StartsWith(s: string, prefix: string) {
    |prefix| <= |s| && s[..|prefix|] == prefix
  }

  /** A key `strIngredientN` holding a truthy (non-null, non-empty) string. */
  predicate IsIngredientSlot(slot: (string, Option<string>)) {
    StartsWith(slot.0, INGREDIENT_KEY) && slot.1.Some? && slot.1.value != ""
  }

  /** `strMeasure${index}` where `index` is the key with its `strIngredient` prefix removed. */
  function MeasureKeyFor(key: string): (m: string)
    requires StartsWith(key, INGREDIENT_KEY)
    ensures StartsWith(m, MEASURE_KEY) && m[|MEASURE_KEY|..] == key[|INGREDIENT_KEY|..]
  {
    MEASURE_KEY + key[|INGREDIENT_KEY|..]
  }

  function Shown(meal: MealRecord, slot: (string, Option<string>)): ShownIngredient
    requires IsIngredientSlot(slot)
  {
    ShownIngredient(slot.1.value, meal.Get(MeasureKeyFor(slot.0)))
  }

  /**
   * The ingredient rows built from `slots` (keys in object order): the keys are filtered to
   * the ingredient keys with a truthy value, then each is mapped to a row with the measure of
   * the same number. So there is one row per kept key, in key order, and nothing else.
   */
  function ShownFrom(meal: MealRecord, slots: seq<(string, Option<string>)>): (r: seq<ShownIngredient>)
    ensures |r| == |Passing(slots, IsIngredientSlot)| <= |slots|
    ensures forall i :: 0 <= i < |r| ==> r[i] == Shown(meal, slots[Passing(slots, IsIngredientSlot)[i]])
    ensures forall i :: 0 <= i < |r| ==> r[i].ingredient != ""
    ensures forall i :: 0 <= i < |r| ==>
              exists k :: 0 <= k < |slots| && IsIngredientSlot(slots[k]) && r[i] == Shown(meal, slots[k])
    ensures forall k :: 0 <= k < |slots| && IsIngredientSlot(slots[k]) ==> Shown(meal, slots[k]) in r
  {
    var kept := Filter(slots, IsIngredientSlot);
    var r := seq(|kept|, i requires 0 <= i < |kept| => Shown(meal, kept[i]));
    ghost var idx := Passing(slots, IsIngredientSlot);
    assert forall i :: 0 <= i < |r| ==> r[i] == Shown(meal, slots[idx[i]]);
    assert forall k :: 0 <= k < |slots| && IsIngredientSlot(slots[k]) ==> Shown(meal, slots[k]) in r by {
      forall k | 0 <= k < |slots| && IsIngredientSlot(slots[k]) ensures Shown(meal, slots[k]) in r {
        PassingComplete(slots, IsIngredientSlot, k);
        var j :| 0 <= j < |idx| && idx[j] == k;
        assert r[j] == Shown(meal, slots[k]);
      }
    }
    r
  }

  /**
   * `ingredients`: the keys of the record that start with `strIngredient` and hold a truthy
   * value, each with its `strMeasureN`. The record's fixed fields never start with that
   * prefix, so only `slots` contributes.
   */
  function Ingredients(meal: MealRecord): (r: seq<ShownIngredient>)
    ensures |r| == |Passing(meal.slots, IsIngredientSlot)|
    ensures forall i :: 0 <= i < |r| ==> r[i] == Shown(meal, meal.slots[Passing(meal.slots, IsIngredientSlot)[i]])
    ensures forall i :: 0 <= i < |r| ==> r[i].ingredient != ""
    ensures forall i :: 0 <= i < |r| ==>
              exists k :: 0 <= k < |meal.slots| && IsIngredientSlot(meal.slots[k]) && r[i] == Shown(meal, meal.slots[k])
    ensures forall k :: 0 <= k < |meal.slots| && IsIngredientSlot(meal.slots[k]) ==> Shown(meal, meal.slots[k]) in r
  {
    var r := ShownFrom(meal, meal.slots);
    ghost var idx := Passing(meal.slots, IsIngredientSlot);
    assert forall i :: 0 <= i < |r| ==>
             exists k :: 0 <= k < |meal.slots| && IsIngredientSlot(meal.slots[k]) && r[i] == Shown(meal, meal.slots[k]) by {
      forall i | 0 <= i < |r|
        ensures exists k :: 0 <= k < |meal.slots| && IsIngredientSlot(meal.slots[k]) && r[i] == Shown(meal, meal.slots[k])
      {
        var k := idx[i];
        assert IsIngredientSlot(meal.slots[k]) && r[i] == Shown(meal, meal.slots[k]);
      }
    }
    r
  }

  // ---------------------------------------------------------------- add to cart

  /** `handleAddToCart`: nothing without a loaded meal, else one more of it at this page's price. */
  method HandleAddToCart(cart: CartContext.Cart, meal: Option<MealRecord>, mealId: Option<string>)
    requires cart.Valid()
    modifies cart
    ensures cart.Valid()
    ensures meal.None? ==> cart.cartItems == old(cart.cartItems)
    ensures meal.Some? ==>
              cart.cartItems == CartContext.AddLine(old(cart.cartItems), meal.value.Summary(), MemoPrice(mealId))
  {
    if meal.Some? {
      cart.AddToCart(meal.value.Summary(), MemoPrice(mealId));
    }
  }
}
