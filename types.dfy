/** The records of the web client (types.ts). */
module MealTypes {
  import opened Wrappers

  /** ApiCategory: one entry of the third-party category listing. */
  datatype ApiCategory = ApiCategory(
    idCategory: string,
    strCategory: string,
    strCategoryThumb: string,
    strCategoryDescription: string)

  /** ApiMealSummary: what category and search listings return for a meal. */
  datatype MealSummary = MealSummary(strMeal: string, strMealThumb: string, idMeal: string)

  /**
   * A meal record as the third-party API returns it from search and lookup (ApiMealDetail).
   * The fixed fields are named; every other key of the JSON object (strIngredient1..20,
   * strMeasure1..20, and the rest) is kept in `slots`, in the object's key order.
   * A JSON `null` or a missing key is `None`.
   */
  datatype MealRecord = MealRecord(
    idMeal: string,
    strMeal: string,
    strMealThumb: string,
    strCategory: Option<string>,
    strArea: Option<string>,
    strTags: Option<string>,
    strInstructions: Option<string>,
    strYoutube: Option<string>,
    strSource: Option<string>,
    slots: seq<(string, Option<string>)>)
  {
    /** `meal[key]` for a key held in `slots`. */
    function Get(key: string): (v: Option<string>)
      ensures v.Some? ==> (key, v) in slots
      ensures (forall k :: 0 <= k < |slots| ==> slots[k].0 != key) ==> v == None
    {
      Lookup(slots, key)
    }

    function Summary(): MealSummary {
      MealSummary(strMeal, strMealThumb, idMeal)
    }
  }

  /** The value of the first pair with the given key. */
  function Lookup(pairs: seq<(string, Option<string>)>, key: string): (v: Option<string>)
    ensures v.Some? ==> (key, v) in pairs
    ensures (forall k :: 0 <= k < |pairs| ==> pairs[k].0 != key) ==> v == None
  {
    if pairs == [] then None
    else if pairs[0].0 == key then pairs[0].1
    else Lookup(pairs[1..], key)
  }
}

/** The records of the mobile client (src/types/recipe.ts). */
module RecipeTypes {
  import opened Wrappers

  datatype Recipe = Recipe(
    id: string,
    name: string,
    thumbnail: string,
    category: Option<string>,
    area: Option<string>,
    tags: Option<seq<string>>)

  datatype Ingredient = Ingredient(ingredient: string, measure: string)

  /** RecipeDetail: a Recipe with the fields of the detail view. */
  datatype RecipeDetail = RecipeDetail(
    recipe: Recipe,
    instructions: Option<string>,
    ingredients: seq<Ingredient>,
    youtubeUrl: Option<string>,
    source: Option<string>)

  datatype SortOption = NameAsc | NameDesc | ByCategory
}
