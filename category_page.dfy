/**
 * The data shaping of the web client's category page (components/CategoryPage.tsx):
 * a price and a rating derived from each meal's id by a 32-bit string hash, the
 * vegetarian classifier, the All/Veg/NonVeg filter and the stable sort.
 */
module CategoryPage {
  import opened Wrappers
  import opened JsNumber
  import opened JsText
  import opened Seqs
  import opened MealTypes

  datatype FilterType = All | Veg | NonVeg
  datatype SortType = Default | PriceAsc | PriceDesc | RatingDesc

  // ---------------------------------------------------------------- the hash

  /**
   * One step of the hash, as the source writes it: `hash = ((hash << 5) - hash) + char`
   * followed by `hash |= 0`. It is the 32-bit wrap of `hash * 31 + char`.
   */
  function HashStep(h: int, c: char): (r: int)
    ensures -TWO_31 <= r < TWO_31
    ensures r == ToInt32(h * 31 + c as int)
  {
    var r := ToInt32(ShiftLeft5(h) - h + c as int);
    ToInt32Congruent(ShiftLeft5(h) - h + c as int, h * 31 + c as int);
    r
  }

  /** The signed hash after all characters of `s`, folding from the left. */
  function HashOf(s: string): (h: int)
    ensures -TWO_31 <= h < TWO_31
    ensures s == "" ==> h == 0
  {
    if s == [] then 0 else HashStep(HashOf(s[..|s| - 1]), s[|s| - 1])
  }

  /** `simpleHash`: the loop over the characters, then `Math.abs`. */
  method SimpleHash(s: string) returns (h: nat)
    ensures h == Abs(HashOf(s))
    ensures h <= TWO_31
    ensures s == "" ==> h == 0
  {
    var hash := 0;
    for i := 0 to |s|
      invariant hash == HashOf(s[..i])
    {
      assert s[..i + 1][..i] == s[..i];
      hash := ShiftLeft5(hash) - hash + s[i] as int;
      hash := ToInt32(hash);
    }
    assert s[..|s|] == s;
    h := Abs(hash);
  }

  // ---------------------------------------------------------------- price and rating

  /**
   * `generatePrice` in cents: `8 + hash % 20 + (hash % 100) / 100` dollars. The hash is
   * non-negative here, so JavaScript's `%` agrees with Dafny's.
   */
  function PriceCents(mealId: string): (cents: int)
    ensures 800 <= cents <= 2799
    ensures mealId == "" ==> cents == 800
  {
    var h := Abs(HashOf(mealId));
    800 + 100 * (h % 20) + h % 100
  }

  /** `generateRating` in tenths: `3.5 + (hash(id + "rating") % 15) / 10` stars. */
  function RatingTenths(mealId: string): (tenths: int)
    ensures 35 <= tenths <= 49
  {
    var h := Abs(HashOf(mealId + "rating"));
    35 + h % 15
  }

  // ---------------------------------------------------------------- loading

  /** How the meals of a category are fetched: two categories use a name search. */
  datatype MealQuery = SearchByName(term: string) | ByCategory(category: string)

  /** The effect that loads the meals: nothing when there is no category name. */
  function MealSource(categoryName: Option<string>): (q: Option<MealQuery>)
    ensures categoryName == None || categoryName == Some("") <==> q == None
    ensures q.Some? ==> (q.value.SearchByName? <==> categoryName.value in {"Pizza", "Biryani"})
    ensures q.Some? && q.value.SearchByName? ==> q.value.term == categoryName.value
    ensures q.Some? && q.value.ByCategory? ==> q.value.category == categoryName.value
  {
    match categoryName
    case None => None
    case Some(name) =>
      if name == "" then None
      else if name == "Pizza" || name == "Biryani" then Some(SearchByName(name))
      else Some(ByCategory(name))
  }

  function IdsOf(meals: seq<MealSummary>): (ids: set<string>)
    ensures forall i :: 0 <= i < |meals| ==> meals[i].idMeal in ids
    ensures forall id :: id in ids ==> exists i :: 0 <= i < |meals| && meals[i].idMeal == id
  {
    set i | 0 <= i < |meals| :: meals[i].idMeal
  }

  lemma IdsOfAppend(a: seq<MealSummary>, b: seq<MealSummary>)
    ensures IdsOf(a + b) == IdsOf(a) + IdsOf(b)
  {
    var ab := a + b;
    forall id | id in IdsOf(ab) ensures id in IdsOf(a) + IdsOf(b) {
      var i :| 0 <= i < |ab| && ab[i].idMeal == id;
      if i >= |a| {
        assert b[i - |a|] == ab[i];
      }
    }
    forall id | id in IdsOf(b) ensures id in IdsOf(ab) {
      var i :| 0 <= i < |b| && b[i].idMeal == id;
      assert ab[|a| + i] == b[i];
    }
    forall id | id in IdsOf(a) ensures id in IdsOf(ab) {
      var i :| 0 <= i < |a| && a[i].idMeal == id;
      assert ab[i] == a[i];
    }
  }

  /**
   * The known-vegetarian ids once the two listings have settled: the ids of the
   * Vegetarian and Vegan listings together. When either request fails the set stays
   * empty, as it was before the effect ran.
   */
  function VegMealIds(listings: Option<(seq<MealSummary>, seq<MealSummary>)>): (ids: set<string>)
    ensures listings.None? ==> ids == {}
    ensures listings.Some? ==> ids == IdsOf(listings.value.0) + IdsOf(listings.value.1)
  {
    match listings
    case None => {}
    case Some((vegetarian, vegan)) =>
      IdsOfAppend(vegetarian, vegan);
      IdsOf(vegetarian + vegan)
  }

  // ---------------------------------------------------------------- classification

  const VEG_KEYWORDS: seq<string> := [
    "mushroom", "vegetable", "veggie", "tofu", "lentil", "spinach", "cheese", "egg",
    "potato", "tomato", "gnocchi", "margherita", "fettuccine alfredo", "penne arrabiata"]

  /** `keywords.some(k => s.includes(k))`. */
  function AnyIncluded(s: string, keywords: seq<string>): (b: bool)
    ensures b <==> exists k :: 0 <= k < |keywords| && Includes(s, keywords[k])
  {
    if keywords == [] then false
    else Includes(s, keywords[0]) || AnyIncluded(s, keywords[1..])
  }

  /** `isVeg`: a known-vegetarian id, or else a keyword in the lower-cased name. */
  function IsVeg(meal: MealSummary, vegMealIds: set<string>): (b: bool)
    ensures meal.idMeal in vegMealIds ==> b
    ensures meal.idMeal !in vegMealIds ==>
              (b <==> exists k :: 0 <= k < |VEG_KEYWORDS| && Includes(Lower(meal.strMeal), VEG_KEYWORDS[k]))
  {
    meal.idMeal in vegMealIds || AnyIncluded(Lower(meal.strMeal), VEG_KEYWORDS)
  }

  // ---------------------------------------------------------------- the view pipeline

  /** A meal with its derived price (cents) and rating (tenths of a star). */
  datatype PricedMeal = PricedMeal(meal: MealSummary, price: int, rating: int)

  /** Step 1 of `processedMeals`: attach price and rating to every meal. */
  function WithPrices(meals: seq<MealSummary>): (r: seq<PricedMeal>)
    ensures |r| == |meals|
    ensures forall i :: 0 <= i < |r| ==> r[i].meal == meals[i]
    ensures forall i :: 0 <= i < |r| ==>
              r[i].price == PriceCents(meals[i].idMeal) && r[i].rating == RatingTenths(meals[i].idMeal)
    ensures forall i :: 0 <= i < |r| ==> 800 <= r[i].price <= 2799 && 35 <= r[i].rating <= 49
  {
    seq(|meals|, i requires 0 <= i < |meals| =>
      PricedMeal(meals[i], PriceCents(meals[i].idMeal), RatingTenths(meals[i].idMeal)))
  }

  /** Step 2: the filter switch. */
  function VegPriced(vegMealIds: set<string>): PricedMeal -> bool {
    (p: PricedMeal) => IsVeg(p.meal, vegMealIds)
  }

  function NonVegPriced(vegMealIds: set<string>): PricedMeal -> bool {
    (p: PricedMeal) => !IsVeg(p.meal, vegMealIds)
  }

  /**
   * Step 2: the filter switch. All keeps the list; Veg and NonVeg keep exactly the
   * vegetarian or the other meals, in list order.
   */
  function FilterMeals(priced: seq<PricedMeal>, filter: FilterType, vegMealIds: set<string>): (r: seq<PricedMeal>)
    ensures filter == All ==> r == priced
    ensures filter == Veg ==> KeepsInOrder(r, priced, VegPriced(vegMealIds))
    ensures filter == NonVeg ==> KeepsInOrder(r, priced, NonVegPriced(vegMealIds))
  {
    match filter
    case Veg => Filter(priced, VegPriced(vegMealIds))
    case NonVeg => Filter(priced, NonVegPriced(vegMealIds))
    case All => priced
  }

  /**
   * The sort comparator of step 3: `a` may stay before `b` exactly when it is not more
   * expensive (price-asc), not cheaper (price-desc), or not lower rated (rating-desc); under
   * 'default' every pair compares equal.
   */
  function Compare(sort: SortType, a: PricedMeal, b: PricedMeal): (r: int)
    ensures sort == PriceAsc ==> (r <= 0 <==> a.price <= b.price)
    ensures sort == PriceDesc ==> (r <= 0 <==> a.price >= b.price)
    ensures sort == RatingDesc ==> (r <= 0 <==> a.rating >= b.rating)
    ensures sort == Default ==> r == 0
  {
    match sort
    case PriceAsc => a.price - b.price
    case PriceDesc => b.price - a.price
    case RatingDesc => b.rating - a.rating
    case Default => 0
  }

  /** "`a` may stay before `b`": the comparator does not ask to swap them. */
  function StaysBefore(sort: SortType): (PricedMeal, PricedMeal) -> bool {
    (a: PricedMeal, b: PricedMeal) => Compare(sort, a, b) <= 0
  }

  /** Step 3: the stable sort of a copy of the filtered list. */
  function SortMeals(filtered: seq<PricedMeal>, sort: SortType): (r: seq<PricedMeal>)
    ensures |r| == |filtered| && multiset(r) == multiset(filtered)
  {
    Seqs.Sort(filtered, StaysBefore(sort))
  }

  /** `processedMeals`: empty while the vegetarian ids load, else price, filter, sort. */
  function ProcessedMeals(meals: seq<MealSummary>, vegMealIds: set<string>, isFetchingVegIds: bool,
                          filter: FilterType, sort: SortType): (r: seq<PricedMeal>)
    ensures isFetchingVegIds ==> r == []
    ensures !isFetchingVegIds ==> |r| <= |meals|
    ensures !isFetchingVegIds ==> r == SortMeals(FilterMeals(WithPrices(meals), filter, vegMealIds), sort)
  {
    if isFetchingVegIds then []
    else SortMeals(FilterMeals(WithPrices(meals), filter, vegMealIds), sort)
  }

  // ---------------------------------------------------------------- properties

  /**
   * The Veg and NonVeg views split the priced list exactly: each keeps its meals in list
   * order, every meal lands in exactly one of them, and All keeps the list as it is.
   */
  lemma FilterPartitions(priced: seq<PricedMeal>, vegMealIds: set<string>)
    ensures multiset(FilterMeals(priced, Veg, vegMealIds)) + multiset(FilterMeals(priced, NonVeg, vegMealIds))
            == multiset(priced)
    ensures |FilterMeals(priced, Veg, vegMealIds)| + |FilterMeals(priced, NonVeg, vegMealIds)| == |priced|
    ensures forall p :: p in FilterMeals(priced, Veg, vegMealIds) <==> p in priced && IsVeg(p.meal, vegMealIds)
    ensures forall p :: p in FilterMeals(priced, NonVeg, vegMealIds) <==> p in priced && !IsVeg(p.meal, vegMealIds)
  {
    FilterPartition(priced, VegPriced(vegMealIds), NonVegPriced(vegMealIds));
    FilterMembers(priced, VegPriced(vegMealIds));
    FilterMembers(priced, NonVegPriced(vegMealIds));
  }

  /** Each comparator orders meals consistently, so the sort result is well defined. */
  lemma ComparatorIsPreorder(sort: SortType)
    ensures TotalPreorder(StaysBefore(sort))
  {
  }

  /**
   * The sort permutes the filtered list into the requested order; meals that compare
   * equal (all of them under Default) keep their filtered order.
   */
  lemma SortMealsOrders(filtered: seq<PricedMeal>, sort: SortType)
    ensures multiset(SortMeals(filtered, sort)) == multiset(filtered)
    ensures var r := SortMeals(filtered, sort);
            sort == PriceAsc ==> forall i, j :: 0 <= i < j < |r| ==> r[i].price <= r[j].price
    ensures var r := SortMeals(filtered, sort);
            sort == PriceDesc ==> forall i, j :: 0 <= i < j < |r| ==> r[i].price >= r[j].price
    ensures var r := SortMeals(filtered, sort);
            sort == RatingDesc ==> forall i, j :: 0 <= i < j < |r| ==> r[i].rating >= r[j].rating
    ensures forall z :: EquivClass(SortMeals(filtered, sort), z, StaysBefore(sort))
                        == EquivClass(filtered, z, StaysBefore(sort))
    ensures sort == Default ==> SortMeals(filtered, sort) == filtered
  {
    var le := StaysBefore(sort);
    ComparatorIsPreorder(sort);
    SortSorted(filtered, le);
    forall z ensures EquivClass(SortMeals(filtered, sort), z, le) == EquivClass(filtered, z, le) {
      SortStable(filtered, z, le);
    }
    if sort == Default {
      SortOfSorted(filtered, le);
    }
  }

  /** Pricing keeps every meal and only adds its price and rating. */
  lemma ProcessedMealsContents(meals: seq<MealSummary>, vegMealIds: set<string>,
                               filter: FilterType, sort: SortType)
    ensures var r := ProcessedMeals(meals, vegMealIds, false, filter, sort);
            multiset(r) == multiset(FilterMeals(WithPrices(meals), filter, vegMealIds))
    ensures var r := ProcessedMeals(meals, vegMealIds, false, All, Default);
            r == WithPrices(meals)
  {
    SortMealsOrders(FilterMeals(WithPrices(meals), filter, vegMealIds), sort);
    SortMealsOrders(WithPrices(meals), Default);
  }
}
