/**
 * The mobile client's data service (src/services/apiService.ts) once the network has answered:
 * the mapping of third-party meal records, the ingredient scan over slots 1..20, the tag split,
 * and the rules that choose between the local store and the configured remote source.
 * Every fetch is an input: `None` stands for a request that threw.
 */
module ApiService {
  import opened Wrappers
  import opened JsText
  import opened MealTypes
  import opened RecipeTypes

  // ---------------------------------------------------------------- configuration and inputs

  /** ACTIVE_API. */
  datatype ApiKind = FoodApi | BackendApi | AlternativeApi

  /** The two constants of the configuration module, as parameters. */
  datatype Config = Config(getLocalData: bool, activeApi: ApiKind)

  /** The local recipe store; its code is not part of this model, so its answers are given. */
  datatype LocalDb = LocalDb(
    all: seq<Recipe>,
    search: string -> seq<Recipe>,
    byId: string -> Option<RecipeDetail>,
    byCategory: string -> seq<Recipe>)

  /** The backend's list reply `{ success, recipes }`; a missing `recipes` is `None`. */
  datatype BackendList = BackendList(success: bool, recipes: Option<seq<Recipe>>)

  /** The backend's detail reply `{ success, recipe }`. */
  datatype BackendDetail = BackendDetail(success: bool, recipe: Option<RecipeDetail>)

  // ---------------------------------------------------------------- backend replies

  /** `fetchFromBackendAPI`: the payload, or [] for a failed request, `!success` or no payload. */
  function FetchFromBackendApi(reply: Option<BackendList>): (r: seq<Recipe>)
    ensures reply.None? || !reply.value.success || reply.value.recipes.None? ==> r == []
    ensures reply.Some? && reply.value.success && reply.value.recipes.Some? ==> r == reply.value.recipes.value
  {
    match reply
    case None => []
    case Some(data) => if !data.success || data.recipes.None? then [] else data.recipes.value
  }

  /** `fetchRecipeDetailFromBackendAPI`: the payload, or null. */
  function FetchRecipeDetailFromBackendApi(reply: Option<BackendDetail>): (r: Option<RecipeDetail>)
    ensures r.Some? <==> reply.Some? && reply.value.success && reply.value.recipe.Some?
    ensures r.Some? ==> r == reply.value.recipe
  {
    match reply
    case None => None
    case Some(data) => if !data.success || data.recipe.None? then None else data.recipe
  }

  // ---------------------------------------------------------------- third-party records

  /** `strTags ? strTags.split(',') : []`: pieces that join back to the tag string. */
  function Tags(strTags: Option<string>): (r: seq<string>)
    ensures strTags.None? || strTags.value == "" ==> r == []
    ensures strTags.Some? && strTags.value != "" ==>
              |r| >= 1 && Join(r, ',') == strTags.value && forall k :: 0 <= k < |r| ==> ',' !in r[k]
  {
    if strTags.Some? && strTags.value != "" then
      JoinSplit(strTags.value, ',');
      Split(strTags.value, ',')
    else []
  }

  /**
   * One element of `data.meals.map(...)` in `fetchFromFoodAPI`: the record's own fields under
   * the recipe's names, and the tags as the pieces of `strTags`.
   */
  function MapMeal(meal: MealRecord): (r: Recipe)
    ensures r.id == meal.idMeal && r.name == meal.strMeal && r.thumbnail == meal.strMealThumb
    ensures r.category == meal.strCategory && r.area == meal.strArea
    ensures r.tags.Some?
    ensures meal.strTags.None? || meal.strTags.value == "" ==> r.tags.value == []
    ensures meal.strTags.Some? && meal.strTags.value != "" ==>
              |r.tags.value| >= 1 && Join(r.tags.value, ',') == meal.strTags.value
  {
    Recipe(meal.idMeal, meal.strMeal, meal.strMealThumb, meal.strCategory, meal.strArea,
           Some(Tags(meal.strTags)))
  }

  /** `fetchFromFoodAPI`: every returned meal mapped, in order; [] when there are none. */
  function FetchFromFoodApi(meals: Option<seq<MealRecord>>): (r: seq<Recipe>)
    ensures meals.None? ==> r == []
    ensures meals.Some? ==> |r| == |meals.value|
    ensures meals.Some? ==> forall i :: 0 <= i < |r| ==>
              && r[i].id == meals.value[i].idMeal && r[i].name == meals.value[i].strMeal
              && r[i].thumbnail == meals.value[i].strMealThumb
              && r[i].category == meals.value[i].strCategory && r[i].area == meals.value[i].strArea
              && r[i].tags == Some(Tags(meals.value[i].strTags))
  {
    match meals
    case None => []
    case Some(ms) => seq(|ms|, i requires 0 <= i < |ms| => MapMeal(ms[i]))
  }

  // ---------------------------------------------------------------- ingredients

  const INGREDIENT_SLOTS: nat := 20

  /** Slot `i` of the record, when its ingredient is non-blank: both strings trimmed. */
  function SlotIngredient(meal: MealRecord, i: nat): Option<Ingredient> {
    KeepIngredient(meal.Get("strIngredient" + NatToString(i)), meal.Get("strMeasure" + NatToString(i)))
  }

  /**
   * `ingredient && ingredient.trim()` keeps the pair exactly when the ingredient is not blank;
   * the ingredient is trimmed, and so is the measure, which becomes '' when falsy.
   */
  function KeepIngredient(ingredient: Option<string>, measure: Option<string>): (x: Option<Ingredient>)
    ensures x.Some? <==> ingredient.Some? && Trim(ingredient.value) != ""
    ensures x.Some? ==> x.value.ingredient == Trim(ingredient.value)
    ensures x.Some? && (measure.None? || measure.value == "") ==> x.value.measure == ""
    ensures x.Some? && measure.Some? && measure.value != "" ==> x.value.measure == Trim(measure.value)
  {
    assert Trim("") == "";
    if ingredient.Some? && ingredient.value != "" && Trim(ingredient.value) != "" then
      Some(Ingredient(Trim(ingredient.value), KeptMeasure(measure)))
    else None
  }

  /** An ingredient entry as the extraction leaves it: trimmed, with a non-empty ingredient. */
  predicate TrimmedEntry(x: Ingredient) {
    x.ingredient != "" && Trim(x.ingredient) == x.ingredient && Trim(x.measure) == x.measure
  }

  /**
   * What `KeepIngredient` keeps is already trimmed, its ingredient is not empty, and its measure
   * is '' when the record's measure is missing or empty.
   */
  lemma KeptIngredientTrimmed(ingredient: Option<string>, measure: Option<string>)
    ensures var x := KeepIngredient(ingredient, measure);
            x.Some? ==> TrimmedEntry(x.value)
    ensures var x := KeepIngredient(ingredient, measure);
            x.Some? && (measure.None? || measure.value == "") ==> x.value.measure == ""
  {
    if ingredient.Some? && ingredient.value != "" && Trim(ingredient.value) != "" {
      var name := Trim(ingredient.value);
      var m := KeptMeasure(measure);
      TrimIdempotent(ingredient.value);
      KeptMeasureTrimmed(measure);
      assert KeepIngredient(ingredient, measure) == Some(Ingredient(name, m));
    }
  }

  /** The measure kept with an ingredient: trimmed when truthy, '' otherwise. */
  function KeptMeasure(measure: Option<string>): string {
    if measure.Some? && measure.value != "" then Trim(measure.value) else ""
  }

  lemma KeptMeasureTrimmed(measure: Option<string>)
    ensures Trim(KeptMeasure(measure)) == KeptMeasure(measure)
  {
    if measure.Some? && measure.value != "" {
      TrimIdempotent(measure.value);
    } else {
      assert Trim("") == "";
    }
  }

  /**
   * The values of slots 1..n that hold one, in slot order: entry k is the value of the k-th
   * slot that holds one.
   */
  function Kept<T>(slot: nat -> Option<T>, n: nat): (r: seq<T>)
    ensures |r| == |KeptSlots(slot, n)| <= n
    ensures forall k :: 0 <= k < |r| ==> r[k] == slot(KeptSlots(slot, n)[k]).value
  {
    if n == 0 then []
    else Kept(slot, n - 1) + (if slot(n).Some? then [slot(n).value] else [])
  }

  /** The slot numbers 1..n that hold a value, in increasing order. */
  function KeptSlots<T>(slot: nat -> Option<T>, n: nat): (ks: seq<nat>)
    ensures |ks| <= n
    ensures forall k :: 0 <= k < |ks| ==> 1 <= ks[k] <= n
    ensures forall k, l :: 0 <= k < l < |ks| ==> ks[k] < ks[l]
    ensures forall i :: 1 <= i <= n && slot(i).Some? ==> i in ks
    ensures forall i :: i in ks ==> slot(i).Some?
  {
    if n == 0 then []
    else KeptSlots(slot, n - 1) + (if slot(n).Some? then [n] else [])
  }

  function MealSlots(meal: MealRecord): nat -> Option<Ingredient> {
    (i: nat) => SlotIngredient(meal, i)
  }

  /** The `ingredients` of the detail: the kept slots among 1..20. */
  function Ingredients(meal: MealRecord): (r: seq<Ingredient>)
    ensures |r| <= INGREDIENT_SLOTS
  {
    Kept(MealSlots(meal), INGREDIENT_SLOTS)
  }

  /**
   * The ingredient list holds exactly the slots 1..20 with a non-blank ingredient, in slot
   * order.
   */
  lemma IngredientsInSlotOrder(meal: MealRecord)
    ensures var slot := MealSlots(meal);
            var ks := KeptSlots(slot, INGREDIENT_SLOTS);
            && |Ingredients(meal)| == |ks|
            && (forall i :: 1 <= i <= INGREDIENT_SLOTS && slot(i).Some? <==> i in ks)
            && (forall k :: 0 <= k < |ks| ==> Ingredients(meal)[k] == slot(ks[k]).value)
  {
  }

  /** Every kept value satisfies what every slot's value satisfies. */
  lemma {:induction false} KeptSatisfies<T>(slot: nat -> Option<T>, n: nat, p: T -> bool)
    requires forall i :: 1 <= i <= n && slot(i).Some? ==> p(slot(i).value)
    ensures forall k :: 0 <= k < |Kept(slot, n)| ==> p(Kept(slot, n)[k])
  {
    if n > 0 {
      KeptSatisfies(slot, n - 1, p);
    }
  }

  /** A slot the extraction keeps is trimmed, with a non-empty ingredient. */
  lemma SlotTrimmed(meal: MealRecord, i: nat)
    ensures MealSlots(meal)(i).Some? ==> TrimmedEntry(MealSlots(meal)(i).value)
  {
    KeptIngredientTrimmed(meal.Get("strIngredient" + NatToString(i)),
                          meal.Get("strMeasure" + NatToString(i)));
  }

  /** Every extracted ingredient is trimmed, with a non-empty ingredient name. */
  lemma IngredientsTrimmed(meal: MealRecord)
    ensures forall k :: 0 <= k < |Ingredients(meal)| ==> TrimmedEntry(Ingredients(meal)[k])
  {
    var slot := MealSlots(meal);
    forall i | 1 <= i <= INGREDIENT_SLOTS && slot(i).Some?
      ensures TrimmedEntry(slot(i).value)
    {
      SlotTrimmed(meal, i);
    }
    KeptSatisfies(slot, INGREDIENT_SLOTS, TrimmedEntry);
  }

  /** One turn of the ingredient loop extends the kept list by what slot `i` holds. */
  lemma KeptStep(meal: MealRecord, i: nat, x: Option<Ingredient>)
    requires i >= 1
    requires x == KeepIngredient(meal.Get("strIngredient" + NatToString(i)),
                                 meal.Get("strMeasure" + NatToString(i)))
    ensures Kept(MealSlots(meal), i) == Kept(MealSlots(meal), i - 1) + (if x.Some? then [x.value] else [])
  {
  }

  /** The ingredient loop of `fetchRecipeDetailFromFoodAPI`. */
  method ExtractIngredients(meal: MealRecord) returns (ingredients: seq<Ingredient>)
    ensures ingredients == Ingredients(meal)
  {
    ingredients := [];
    var i := 1;
    while i <= INGREDIENT_SLOTS
      invariant 1 <= i <= INGREDIENT_SLOTS + 1
      invariant ingredients == Kept(MealSlots(meal), i - 1)
    {
      var ingredient := meal.Get("strIngredient" + NatToString(i));
      var measure := meal.Get("strMeasure" + NatToString(i));
      var x := KeepIngredient(ingredient, measure);
      KeptStep(meal, i, x);
      if x.Some? {
        ingredients := ingredients + [x.value];
      }
      i := i + 1;
    }
  }

  /** The detail `fetchRecipeDetailFromFoodAPI` builds from the first returned meal. */
  function DetailFromMeals(meals: Option<seq<MealRecord>>): (r: Option<RecipeDetail>)
    ensures r.Some? <==> meals.Some? && |meals.value| > 0
    ensures r.Some? ==> r.value.recipe == MapMeal(meals.value[0])
    ensures r.Some? ==> r.value.ingredients == Ingredients(meals.value[0])
                        && |r.value.ingredients| <= INGREDIENT_SLOTS
    ensures r.Some? ==> r.value.instructions == meals.value[0].strInstructions
                        && r.value.youtubeUrl == meals.value[0].strYoutube
                        && r.value.source == meals.value[0].strSource
  {
    if meals.None? || |meals.value| == 0 then None
    else
      var meal := meals.value[0];
      Some(RecipeDetail(MapMeal(meal), meal.strInstructions, Ingredients(meal),
                        meal.strYoutube, meal.strSource))
  }

  method FetchRecipeDetailFromFoodApi(meals: Option<seq<MealRecord>>) returns (r: Option<RecipeDetail>)
    ensures r == DetailFromMeals(meals)
  {
    if meals.None? || |meals.value| == 0 {
      return None;
    }
    var meal := meals.value[0];
    var ingredients := ExtractIngredients(meal);
    r := Some(RecipeDetail(MapMeal(meal), meal.strInstructions, ingredients, meal.strYoutube, meal.strSource));
  }

  // ---------------------------------------------------------------- routing

  /** `query ? searchIndianRecipes(query) : getAllIndianRecipes()`: the store's search for a truthy query. */
  function LocalSearch(db: LocalDb, query: string): (r: seq<Recipe>)
    ensures query == "" ==> r == db.all
    ensures query != "" ==> r == db.search(query)
  {
    if query != "" then db.search(query) else db.all
  }

  /** `searchRecipes`, given what the configured remote source answered. */
  function SearchRecipes(config: Config, db: LocalDb, query: string,
                         backend: Option<BackendList>, food: Option<seq<MealRecord>>): (r: seq<Recipe>)
    ensures config.getLocalData ==> r == LocalSearch(db, query)
    ensures !config.getLocalData && config.activeApi == BackendApi ==> r == FetchFromBackendApi(backend)
    ensures !config.getLocalData && config.activeApi == FoodApi ==>
              |r| == |LocalSearch(db, query)| + |FetchFromFoodApi(food)|
              && r[..|LocalSearch(db, query)|] == LocalSearch(db, query)
              && r[|LocalSearch(db, query)|..] == FetchFromFoodApi(food)
    ensures !config.getLocalData && config.activeApi == AlternativeApi ==> r == LocalSearch(db, query)
  {
    if config.getLocalData then LocalSearch(db, query)
    else
      match config.activeApi
      case BackendApi => FetchFromBackendApi(backend)
      case FoodApi => LocalSearch(db, query) + FetchFromFoodApi(food)
      case AlternativeApi => LocalSearch(db, query) + []
  }

  /** With local data on, remote answers do not matter. */
  lemma SearchIgnoresRemoteWhenLocal(config: Config, db: LocalDb, query: string,
                                     b1: Option<BackendList>, f1: Option<seq<MealRecord>>,
                                     b2: Option<BackendList>, f2: Option<seq<MealRecord>>)
    requires config.getLocalData
    ensures SearchRecipes(config, db, query, b1, f1) == SearchRecipes(config, db, query, b2, f2)
  {
  }

  /** `getRecipeDetail`, given what the configured remote source answered. */
  function GetRecipeDetail(config: Config, db: LocalDb, id: string,
                           backend: Option<BackendDetail>, food: Option<seq<MealRecord>>): (r: Option<RecipeDetail>)
    ensures config.getLocalData ==> r == db.byId(id)
    ensures !config.getLocalData && config.activeApi == BackendApi ==> r == FetchRecipeDetailFromBackendApi(backend)
    ensures !config.getLocalData && config.activeApi != BackendApi && db.byId(id).Some? ==> r == db.byId(id)
    ensures !config.getLocalData && config.activeApi == FoodApi && db.byId(id).None? ==> r == DetailFromMeals(food)
    ensures !config.getLocalData && config.activeApi == AlternativeApi && db.byId(id).None? ==> r == None
  {
    if config.getLocalData then db.byId(id)
    else
      match config.activeApi
      case BackendApi => FetchRecipeDetailFromBackendApi(backend)
      case FoodApi => if db.byId(id).Some? then db.byId(id) else DetailFromMeals(food)
      case AlternativeApi => if db.byId(id).Some? then db.byId(id) else None
  }

  /** A local hit under a non-backend source is returned whatever the remote source would say. */
  lemma DetailLocalFirst(config: Config, db: LocalDb, id: string,
                         b1: Option<BackendDetail>, f1: Option<seq<MealRecord>>,
                         b2: Option<BackendDetail>, f2: Option<seq<MealRecord>>)
    requires config.getLocalData || (config.activeApi != BackendApi && db.byId(id).Some?)
    ensures GetRecipeDetail(config, db, id, b1, f1) == GetRecipeDetail(config, db, id, b2, f2) == db.byId(id)
  {
  }

  const INDIAN_CATEGORIES: seq<string> := ["North Karnataka", "South Indian", "North Indian", "Punjabi"]

  /**
   * One element of `data.meals.map(...)` in the category branch: the summary's fields, the
   * category asked for, and no area or tags.
   */
  function MapCategoryMeal(meal: MealSummary, category: string): (r: Recipe)
    ensures r.id == meal.idMeal && r.name == meal.strMeal && r.thumbnail == meal.strMealThumb
    ensures r.category == Some(category) && r.area.None? && r.tags.None?
  {
    Recipe(meal.idMeal, meal.strMeal, meal.strMealThumb, Some(category), None, None)
  }

  function FoodCategoryList(meals: Option<seq<MealSummary>>, category: string): (r: seq<Recipe>)
    ensures meals.None? ==> r == []
    ensures meals.Some? ==> |r| == |meals.value|
    ensures meals.Some? ==> forall i :: 0 <= i < |r| ==>
              r[i] == MapCategoryMeal(meals.value[i], category)
  {
    match meals
    case None => []
    case Some(ms) => seq(|ms|, i requires 0 <= i < |ms| => MapCategoryMeal(ms[i], category))
  }

  /**
   * `getRecipesByCategory` as written: the backend branch hands back `data.recipes` unchecked, so
   * a successful reply without a payload yields `undefined` (`None` here) instead of a list.
   */
  function GetRecipesByCategoryAsWritten(config: Config, db: LocalDb, category: string,
                                         backend: Option<BackendList>, food: Option<seq<MealSummary>>)
    : (r: Option<seq<Recipe>>)
    ensures r.None? <==> !config.getLocalData && config.activeApi == BackendApi
                         && backend.Some? && backend.value.success && backend.value.recipes.None?
  {
    if !config.getLocalData && config.activeApi == BackendApi then
      match backend
      case None => Some([])
      case Some(data) => if data.success then data.recipes else Some([])
    else Some(GetRecipesByCategory(config, db, category, backend, food))
  }

  lemma AsWrittenCategoryYieldsUndefined(db: LocalDb)
    ensures GetRecipesByCategoryAsWritten(Config(false, BackendApi), db, "Seafood",
                                          Some(BackendList(true, None)), None) == None
  {
  }

  /**
   * `getRecipesByCategory` with the backend payload checked as `fetchFromBackendAPI` checks it:
   * local data only when configured, the four Indian categories from the local store under the
   * third-party API, remote entries tagged with the requested category, and [] otherwise.
   */
  function GetRecipesByCategory(config: Config, db: LocalDb, category: string,
                                backend: Option<BackendList>, food: Option<seq<MealSummary>>): (r: seq<Recipe>)
    ensures config.getLocalData ==> r == db.byCategory(category)
    ensures !config.getLocalData && config.activeApi == BackendApi ==> r == FetchFromBackendApi(backend)
    ensures !config.getLocalData && config.activeApi == FoodApi && category in INDIAN_CATEGORIES ==>
              r == db.byCategory(category)
    ensures !config.getLocalData && config.activeApi == FoodApi && category !in INDIAN_CATEGORIES ==>
              r == FoodCategoryList(food, category)
              && forall i :: 0 <= i < |r| ==> r[i].category == Some(category)
    ensures !config.getLocalData && config.activeApi == AlternativeApi ==> r == []
  {
    if config.getLocalData then db.byCategory(category)
    else
      match config.activeApi
      case BackendApi => FetchFromBackendApi(backend)
      case FoodApi =>
        if category in INDIAN_CATEGORIES then db.byCategory(category) else FoodCategoryList(food, category)
      case AlternativeApi => []
  }

  /** Where the source's result is a list, the corrected function returns that same list. */
  lemma CategoryCorrectionAgrees(config: Config, db: LocalDb, category: string,
                                 backend: Option<BackendList>, food: Option<seq<MealSummary>>)
    ensures var w := GetRecipesByCategoryAsWritten(config, db, category, backend, food);
            w.Some? ==> w.value == GetRecipesByCategory(config, db, category, backend, food)
  {
  }
}
