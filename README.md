# foodie — a verified model of the client-side data shaping

This project models, in Dafny, what the foodie clients do with data once the network has
answered. The web client and the mobile client are both covered:

- **Category page.** Prices and ratings are derived from each meal id by a 32-bit string hash.
  Meals are classified as vegetarian by a known-id set or by name keywords, then filtered
  All/Veg/NonVeg and stably sorted.
- **Meal detail page.** It has its own inlined copy of the price hash, the ingredient list it
  shows, and the add-to-cart guard.
- **Cart.** A keyed table of lines with add, update-quantity and remove, and its two totals.
- **Mobile recipe list.** Search, the category chips, the category filter and the sort. The
  sorted list is repeated ten times with rewritten ids, and the original id is recovered for
  navigation.
- **Mobile data service.** Third-party meal records are mapped to recipes. Ingredients are
  scanned over slots 1..20 and tags are split. Routing rules choose between the local store
  and the configured remote source.
- **Home page.** The category list is shaped: four meats are excluded and two custom entries
  are prepended.
- **Authentication context.** A mock user is derived from a user name, there is sign-out, and
  the stored user is restored when the provider starts.

Modelling conventions:

- Fetched payloads are inputs. `None` stands for a request that threw.
- Configuration constants (local data on or off, the active API) are parameters.
- The local recipe store is a parameter: a datatype of functions.
- Money is integer cents and ratings are integer tenths.
- Strings are sequences of Unicode scalar values, which equal UTF-16 code units on text in the
  Basic Multilingual Plane.
- The 32-bit wrap of the hash is ECMA-262's ToInt32 (section 7.1.6), written out on
  unbounded integers.
- JavaScript's truncating `%` is written out separately from Dafny's Euclidean one.
- `Array.prototype.sort` is modelled as a stable insertion sort. It is stable as required
  since ECMAScript 2019.
- A comparator is read as the relation "may stay before" (`compare(a, b) <= 0`).
- `localeCompare` is any comparison whose "not after" relation is a total preorder.

Modules:

- Helpers: `Wrappers`, `JsNumber`, `JsText`, `Seqs`, and `MealTypes`/`RecipeTypes` for the
  records.
- One module per source file: `CategoryPage`, `MealDetailPage`, `CartContext`,
  `RecipeListScreen`, `ApiService`, `HomePage`, `AuthContext`.

Where the configured data differs from a prose description of the app, the code wins. The
vegetarian id set is filled only when BOTH listings arrive, because the two requests are
joined and one failure discards both. It is not filled from whichever listing arrives.

## Model

| member | source | states |
|---|---|---|
| JsNumber.ToInt32 | components/CategoryPage.tsx:17 | `hash \|= 0`: the result is a signed 32-bit value congruent to the input modulo 2^32 |
| JsNumber.ShiftLeft5 | components/CategoryPage.tsx:16 | `x << 5` is congruent to 32·x modulo 2^32 and lies in the int32 range |
| JsNumber.JsRem | components/MealDetailPage.tsx:17 | truncating `%`: the sign follows the dividend and the magnitude is \|a\| mod d |
| CategoryPage.HashStep | components/CategoryPage.tsx:16-17 | the source's shift-and-subtract step equals the 32-bit wrap of `h*31 + c` |
| CategoryPage.HashOf | components/CategoryPage.tsx:13-18 | the signed hash folded over the characters is a 32-bit value, and 0 for "" |
| CategoryPage.SimpleHash | components/CategoryPage.tsx:12-20 | the loop returns \|fold of the wrapped step\|, at most 2^31, and 0 for "" |
| CategoryPage.PriceCents | components/CategoryPage.tsx:22-26 | the price lies in [8.00, 27.99] and is 8.00 for the empty id |
| CategoryPage.RatingTenths | components/CategoryPage.tsx:28-32 | the rating, hashed from `id + "rating"`, lies in [3.5, 4.9] |
| CategoryPage.MealSource | components/CategoryPage.tsx:78-88 | no load without a category; Pizza and Biryani load by name search and every other category by category lookup |
| CategoryPage.IdsOf | components/CategoryPage.tsx:67 | the id set holds exactly the ids of the listing |
| CategoryPage.IdsOfAppend | components/CategoryPage.tsx:66-67 | the ids of the joined listings are the union of both listings' ids |
| CategoryPage.VegMealIds | components/CategoryPage.tsx:62-72 | the veg set is the union of the Vegetarian and Vegan ids, or empty when the join fails |
| CategoryPage.AnyIncluded | components/CategoryPage.tsx:116 | true iff some keyword occurs in the name |
| CategoryPage.FilterMeals | components/CategoryPage.tsx:119-125 | All keeps the list; Veg and NonVeg give the order-preserving subsequence of exactly the veg or the other meals |
| CategoryPage.Compare | components/CategoryPage.tsx:128-135 | a meal may stay before another iff not dearer (price-asc), not cheaper (price-desc) or not lower rated (rating-desc); 'default' compares all equal |
| CategoryPage.SortMeals | components/CategoryPage.tsx:128-135 | the sorted copy is a permutation of the filtered list |
| CategoryPage.IsVeg | components/CategoryPage.tsx:111-117 | a known veg id is veg whatever its name; otherwise veg iff the lower-cased name contains one of the 14 keywords |
| CategoryPage.WithPrices | components/CategoryPage.tsx:104-108 | same length, each meal kept unchanged, and price and rating equal the hash-derived values within their bounds |
| CategoryPage.FilterPartitions | components/CategoryPage.tsx:119-125 | Veg holds exactly the veg meals and NonVeg exactly the others; together they are a permutation of the list |
| CategoryPage.ComparatorIsPreorder | components/CategoryPage.tsx:128-135 | each sort option's comparator gives a total preorder |
| CategoryPage.SortMealsOrders | components/CategoryPage.tsx:128-135 | the result is a permutation. Prices ascend (price-asc) or descend (price-desc) and ratings descend (rating-desc). Equal keys keep their order, and 'default' changes nothing |
| CategoryPage.ProcessedMeals | components/CategoryPage.tsx:100-135 | empty while the veg ids load; otherwise the priced meals, filtered by the diet filter, then sorted by the sort option, and no longer than the input |
| CategoryPage.ProcessedMealsContents | components/CategoryPage.tsx:100-135 | the processed list is a permutation of the filtered priced list; with All and default it is the priced list itself |
| MealDetailPage.DetailPriceCents | components/MealDetailPage.tsx:17 | the detail price formula, using truncating `%` on the signed hash, equals the category page's price for every id, within [8.00, 27.99] |
| MealDetailPage.GeneratePrice | components/MealDetailPage.tsx:10-19 | the inlined hash loop yields the category page's price |
| MealDetailPage.MemoPrice | components/MealDetailPage.tsx:30 | 0 without a meal id, otherwise the generated price |
| MealDetailPage.MeasureKeyFor | components/MealDetailPage.tsx:66-67 | `strIngredientN` maps to `strMeasureN` with the same suffix N |
| MealDetailPage.ShownFrom | components/MealDetailPage.tsx:63-72 | one row per `strIngredient*` key with a truthy value, in key order (the i-th row comes from the i-th such key), each paired with its own measure key; no other rows, and every such key is shown |
| MealDetailPage.Ingredients | components/MealDetailPage.tsx:63-72 | one row per truthy `strIngredient*` key of the record, in key order, each with a non-empty ingredient and its own measure; every such key gives a row |
| MealDetailPage.HandleAddToCart | components/MealDetailPage.tsx:49-53 | without a meal the cart is unchanged; otherwise the meal is added at the hash-derived price |
| CartContext.IndexOfId | context/CartContext.tsx:33 | `find`: the first line with the id, or none |
| CartContext.AddLine | context/CartContext.tsx:31-42 | an existing id has its quantity raised by 1 and nothing else changes; a new id appends one line with quantity 1 at the given price |
| CartContext.RemoveLines | context/CartContext.tsx:57-59 | exactly the lines with other ids remain, each once and in their cart order |
| CartContext.UpdateLines | context/CartContext.tsx:45-55 | q ≤ 0 is removal; q > 0 sets only the matching line's quantity |
| CartContext.TotalItems | context/CartContext.tsx:61-63 | sum of quantities, 0 for an empty cart |
| CartContext.TotalPrice | context/CartContext.tsx:65-67 | sum of price × quantity, 0 for an empty cart |
| CartContext.Cart.constructor | context/CartContext.tsx:29 | the cart starts empty and well formed |
| CartContext.Cart.AddToCart | context/CartContext.tsx:31-43 | the new lines are `AddLine` of the old ones; unique ids and positive quantities are kept |
| CartContext.Cart.UpdateQuantity | context/CartContext.tsx:45-55 | the new lines are `UpdateLines` of the old ones; the invariant is kept |
| CartContext.Cart.RemoveFromCart | context/CartContext.tsx:57-59 | the new lines are `RemoveLines` of the old ones; the invariant is kept |
| CartContext.AddKeepsWellFormed | context/CartContext.tsx:33-41 | adding keeps ids unique and quantities ≥ 1 |
| CartContext.UpdateKeepsWellFormed | context/CartContext.tsx:45-53 | updating keeps ids unique and quantities ≥ 1 |
| CartContext.RemoveKeepsWellFormed | context/CartContext.tsx:57-59 | removing keeps ids unique and quantities ≥ 1 |
| CartContext.RemoveAbsent | context/CartContext.tsx:58 | removing an absent id changes nothing |
| CartContext.UpdateAbsent | context/CartContext.tsx:49-53 | updating an absent id changes nothing |
| CartContext.TotalItemsCoversLines | context/CartContext.tsx:61-63 | with quantities ≥ 1 the item total is at least the number of lines |
| CartContext.TotalsAppend | context/CartContext.tsx:61-67 | both totals add over concatenation |
| CartContext.TotalsReplaceAt | context/CartContext.tsx:61-67 | setting one line's quantity moves the totals by exactly that line's difference |
| CartContext.AddTotals | context/CartContext.tsx:31-43 | an add raises the item total by 1 and the price total by the line's stored price (existing id) or the given price (new id) |
| CartContext.AddExistingIsReplace | context/CartContext.tsx:35-39 | adding an existing id is the same as setting that line's quantity one higher |
| CartContext.RemoveTotals | context/CartContext.tsx:57-67 | removal lowers the totals by the removed line's quantity and price × quantity |
| CartContext.UpdateTotals | context/CartContext.tsx:49-67 | an update to q > 0 changes the totals by the matching line's difference only |
| RecipeListScreen.SearchResults | src/screens/RecipeListScreen.tsx:84-92 | a query blank after trimming restores all recipes. Otherwise the result is the order-preserving subsequence of exactly the recipes whose lower-cased name contains the lower-cased, untrimmed query |
| RecipeListScreen.CategoriesOf | src/screens/RecipeListScreen.tsx:99-102 | no duplicates; a string is listed iff it is the non-empty category of some recipe |
| RecipeListScreen.Categories | src/screens/RecipeListScreen.tsx:98-104 | the Set-filling loop yields 'All' followed by the distinct categories |
| RecipeListScreen.CategoriesInFirstOccurrenceOrder | src/screens/RecipeListScreen.tsx:99-103 | the chips appear in the order their categories first occur |
| RecipeListScreen.CategoryResults | src/screens/RecipeListScreen.tsx:111-116 | 'All' gives every recipe; any other category gives the order-preserving subsequence of exactly the recipes with `category ===` it |
| RecipeListScreen.RecipeList.constructor | src/screens/RecipeListScreen.tsx:32-37 | no recipes, an empty query, name-asc sort and the 'All' category |
| RecipeListScreen.RecipeList.SetSortOption | src/screens/RecipeListScreen.tsx:36 | only the sort option changes |
| RecipeListScreen.RecipeList.HandleCategoryFilter | src/screens/RecipeListScreen.tsx:107-120 | sets the category and the filtered list, and clears the search query |
| RecipeListScreen.RecipeList.HandleSearch | src/screens/RecipeListScreen.tsx:80-95 | stores the query and the search result; nothing else changes |
| RecipeListScreen.RecipeList.LoadRecipes | src/screens/RecipeListScreen.tsx:64-77 | a successful load sets both lists; a failed one leaves them |
| RecipeListScreen.ComparatorIsPreorder | src/screens/RecipeListScreen.tsx:126-138 | each option's comparator is a total preorder when `localeCompare` is a collation |
| RecipeListScreen.SortRecipes | src/screens/RecipeListScreen.tsx:123-138 | the sorted copy is a permutation of the filtered list |
| RecipeListScreen.SortRecipesOrders | src/screens/RecipeListScreen.tsx:123-138 | the result is a permutation in name order, reverse name order, or category order with a missing category as ''. Equal keys keep their order |
| RecipeListScreen.SortedRecipes | src/screens/RecipeListScreen.tsx:123-152 | the nested push loops yield the ten-fold renamed list of the sorted recipes, of length 10·n |
| RecipeListScreen.CopyId | src/screens/RecipeListScreen.tsx:146 | a copy id starts with the original id followed by `_copy_` |
| RecipeListScreen.Recycled | src/screens/RecipeListScreen.tsx:141-151 | the ten-fold list has length 10·n |
| RecipeListScreen.RecycledAt | src/screens/RecipeListScreen.tsx:141-149 | entry i·n+j is sorted recipe j with id `${id}_copy_${i}_${j}` and nothing else changed |
| RecipeListScreen.RecycledIdsDistinct | src/screens/RecipeListScreen.tsx:146 | all ten-fold ids are pairwise distinct, for every input, even with repeated original ids |
| RecipeListScreen.CopyIdInjective | src/screens/RecipeListScreen.tsx:146 | a copy id determines the original id, the copy number and the index |
| RecipeListScreen.OriginalId | src/screens/RecipeListScreen.tsx:158 | corrected strip: the prefix before the last `_copy_`, or the whole id when there is none |
| RecipeListScreen.OriginalIdAsWritten | src/screens/RecipeListScreen.tsx:158 | as written: the prefix before the first `_copy_`, or the whole id when there is none |
| RecipeListScreen.OriginalIdRoundTrip | src/screens/RecipeListScreen.tsx:158 | the corrected strip (before the last `_copy_`) recovers every original id |
| RecipeListScreen.RecycledNavigation | src/screens/RecipeListScreen.tsx:158-166 | with the corrected strip (`OriginalId`, not the written `split('_copy_')[0]`), navigating from any recycled row targets the recipe it was copied from |
| RecipeListScreen.AsWrittenRecoversPlainIds | src/screens/RecipeListScreen.tsx:158 | `split('_copy_')[0]` recovers ids that contain no '_' |
| RecipeListScreen.AsWrittenLosesCopySuffix | src/screens/RecipeListScreen.tsx:158 | `split('_copy_')[0]` turns the copy of "x_copy" into "x" |
| JsText.Includes | src/screens/RecipeListScreen.tsx:90 | `includes` is true iff the needle occurs at some position |
| JsText.Trim | src/screens/RecipeListScreen.tsx:84 | `trim` never leaves whitespace at either end and never lengthens the string |
| JsText.TrimIsSlice | src/screens/RecipeListScreen.tsx:84 | the trim is a slice of the string and only whitespace is cut off on either side |
| JsText.TrimIdempotent | src/services/apiService.ts:95-96 | a trimmed string trims to itself |
| JsText.Lower | src/screens/RecipeListScreen.tsx:90 | ASCII lower-casing, per code unit |
| JsText.LowerIdempotent | src/screens/RecipeListScreen.tsx:90 | lower-casing twice is lower-casing once |
| JsText.JoinSplit | src/services/apiService.ts:70 | joining the pieces of `split(',')` restores the string |
| JsText.ReplaceFirst | context/AuthContext.tsx:54 | `replace(' ', '.')` with a one-character pattern: only the first occurrence changes, the length is kept |
| JsText.Split | src/services/apiService.ts:70 | `split(',')` gives at least one piece and no piece holds a ',' |
| JsText.BeforeFirst | src/screens/RecipeListScreen.tsx:158 | `split(sep)[0]` is the prefix up to the first occurrence, or the whole string |
| JsText.ParseNatToString | src/screens/RecipeListScreen.tsx:146 | decimal printing of an index parses back to it |
| Seqs.Filter | src/screens/RecipeListScreen.tsx:89-91 | `filter` gives the order-preserving subsequence of the passing elements: entry k is the element at the k-th passing position |
| Seqs.Passing | src/screens/RecipeListScreen.tsx:89-91 | the passing positions, strictly increasing, each holding a passing element |
| Seqs.PassingComplete | src/screens/RecipeListScreen.tsx:89-91 | no passing position is missed |
| Seqs.FilterMembers | src/screens/RecipeListScreen.tsx:89-91 | an element is in the filtered list iff it is in the list and passes |
| Seqs.FilterPartition | components/CategoryPage.tsx:121-122 | complementary filters split a list into a permutation of it |
| Seqs.Sort | components/CategoryPage.tsx:128 | `sort` returns a permutation of its input |
| Seqs.SortSorted | components/CategoryPage.tsx:128 | under a total-preorder comparator the result is sorted |
| Seqs.SortStable | components/CategoryPage.tsx:128 | elements that compare equal keep their input order |
| Seqs.SortOfSorted | components/CategoryPage.tsx:133 | an already ordered list, such as any list under the always-0 comparator, is unchanged |
| ApiService.FetchFromBackendApi | src/services/apiService.ts:19-35 | a failed request, `!success` or a missing payload gives []; otherwise the payload |
| ApiService.FetchRecipeDetailFromBackendApi | src/services/apiService.ts:38-50 | a detail exactly when the request succeeded with `success` and a payload |
| ApiService.Tags | src/services/apiService.ts:70 | an absent or empty tag string gives []; otherwise comma-free pieces that join back to it |
| ApiService.MapMeal | src/services/apiService.ts:64-71 | the record's id, name, thumbnail, category and area, and tags that join back to `strTags` ([] when absent) |
| ApiService.FetchFromFoodApi | src/services/apiService.ts:53-76 | one recipe per returned meal, in order, with id, name, thumbnail, category, area and split tags; [] when there are none |
| ApiService.KeepIngredient | src/services/apiService.ts:91-97 | a pair is kept iff the ingredient is non-blank; the ingredient is trimmed; the measure is trimmed, or '' when missing or empty |
| ApiService.KeptIngredientTrimmed | src/services/apiService.ts:93-97 | a kept pair has a non-empty trimmed ingredient and a trimmed measure, which is '' when the measure is missing or empty |
| ApiService.IngredientsTrimmed | src/services/apiService.ts:89-99 | every extracted ingredient name is non-empty and trimmed, and its measure is trimmed |
| ApiService.Kept | src/services/apiService.ts:90-99 | the pushed values: entry k is the value of the k-th slot that holds one, at most n of them |
| ApiService.Ingredients | src/services/apiService.ts:89-99 | the kept slots among 1..20: at most 20 entries |
| ApiService.IngredientsInSlotOrder | src/services/apiService.ts:89-99 | the ingredients are exactly the values of the non-blank slots among 1..20, in slot order |
| ApiService.ExtractIngredients | src/services/apiService.ts:89-99 | the `for i in 1..20` loop yields that list, of at most 20 entries |
| ApiService.DetailFromMeals | src/services/apiService.ts:84-112 | no meals give null; otherwise the first meal's mapped recipe, its extracted ingredients (at most 20), and its instructions, video and source links |
| ApiService.FetchRecipeDetailFromFoodApi | src/services/apiService.ts:79-117 | the lookup-by-id method builds that detail |
| ApiService.LocalSearch | src/services/apiService.ts:136 | the store's search for a non-empty query, the whole store otherwise |
| ApiService.SearchRecipes | src/services/apiService.ts:133-155 | local data only when configured; the backend's list for the backend; with the third-party API, local results come first, then the remote results |
| ApiService.SearchIgnoresRemoteWhenLocal | src/services/apiService.ts:135-137 | with local data on, remote answers do not affect search |
| ApiService.GetRecipeDetail | src/services/apiService.ts:157-176 | local only when configured. A non-backend source returns a local hit; otherwise it returns the remote detail (third-party API) or null (alternative API) |
| ApiService.DetailLocalFirst | src/services/apiService.ts:167-174 | a local hit is returned whatever the remote source would answer |
| ApiService.MapCategoryMeal | src/services/apiService.ts:210-215 | the summary's id, name and thumbnail with the requested category, no area and no tags |
| ApiService.FoodCategoryList | src/services/apiService.ts:206-215 | [] without meals; otherwise one mapped entry per meal, in order, carrying the requested category |
| ApiService.GetRecipesByCategory | src/services/apiService.ts:179-222 | local store when configured. Under the third-party API the four Indian categories come from the local store and other categories are the remote list tagged with the request. The alternative API gives [] |
| ApiService.GetRecipesByCategoryAsWritten | src/services/apiService.ts:188-192 | the result is undefined exactly when the backend succeeds without a `recipes` payload |
| ApiService.AsWrittenCategoryYieldsUndefined | src/services/apiService.ts:192 | a `{ success: true }` reply yields undefined |
| ApiService.CategoryCorrectionAgrees | src/services/apiService.ts:179-222 | wherever the written code returns a list, the corrected function returns the same list |
| HomePage.ShapeCategories | components/HomePage.tsx:18-36 | Pizza then Biryani first, no Beef/Lamb/Pork/Goat anywhere, then the order-preserving subsequence of exactly the non-excluded fetched entries |
| HomePage.ShapeKeepsOrderAndLength | components/HomePage.tsx:19-36 | entry k+2 is the fetched entry at the k-th kept position, the positions increase, and the length is 2 + fetched − excluded |
| HomePage.ShapeWithoutExclusions | components/HomePage.tsx:36 | with nothing excluded the fetched list follows the custom entries verbatim |
| HomePage.LoadCategories | components/HomePage.tsx:13-43 | loading ends; a failed fetch leaves the list empty with the error message, otherwise the shaped list and no error |
| AuthContext.LowerKeepsFirstSpace | context/AuthContext.tsx:54 | lower-casing keeps the position of the first space |
| AuthContext.MockUser | context/AuthContext.tsx:52-56 | the name is as given; the e-mail is the lower-cased name with its first space only made '.', then "@example.com"; the avatar URL ends in the name as given |
| AuthContext.RestoredUser | context/AuthContext.tsx:38-40 | a user is restored iff storage holds a parsable entry, and it is the stored user |
| AuthContext.StoredAfterStart | context/AuthContext.tsx:36-44 | unparsable non-empty text is removed; anything else stays as it was |
| AuthContext.AuthProvider.constructor | context/AuthContext.tsx:33-34 | no user and loading, over the given storage |
| AuthContext.AuthProvider.Start | context/AuthContext.tsx:36-48 | loading ends false, a stored user is adopted, unparsable text is removed, and a fresh provider ends with storage in step with the user |
| AuthContext.AuthProvider.Login | context/AuthContext.tsx:50-59 | the user and the stored entry become the mock user |
| AuthContext.AuthProvider.Logout | context/AuthContext.tsx:61-64 | the user and the stored entry are cleared whatever the prior state |
| AuthContext.RestartAfterLogin | context/AuthContext.tsx:36-59 | a provider started on the storage a sign-in left behind is signed in as that user |

## Left out

- Network requests, `async`/`await`, React rendering, effects, navigation and styles. Fetched payloads are inputs and React state is plain fields or values.
- The placeholder-rotation timer of the recipe list, and the debouncing and image-size helpers. They are timers and floating point.
- `toFixed` and `parseFloat`. Prices are whole cents and ratings whole tenths, and the cart's total price is in cents.
- `localeCompare` is a parameter (any total-preorder collation). `toLowerCase` is modelled on ASCII letters only. Characters outside the Basic Multilingual Plane are not modelled as surrogate pairs.
- The local recipe store and the configuration module are not part of this model. Their answers and constants are parameters.
- The backend server, its routes, controllers, Mongoose schema and seed script.
- RecipeListScreen.SortRecipes: the copy is sorted in place in the source; here the sort is a function on values.
- CartContext.Cart.AddToCart: a cart line keeps the meal summary only. Extra fields that the detail page spreads into it are not modelled, and neither are non-integer quantities.
- AuthContext.AuthProvider.Start: `JSON.parse` is reduced to "parses as a user" or "throws". Stored text that parses to something other than a user object is not modelled.
- ApiService.SearchRecipes: how the query is placed in the request URL is not modelled; the remote answer is an input.
- ApiService.GetRecipesByCategory: the corrected backend branch is used by the rest of the model; the written behaviour is kept beside it as GetRecipesByCategoryAsWritten.
- RecipeListScreen.AsWrittenRecoversPlainIds: proved for ids without '_' (such as the third-party numeric ids), not for every id without "_copy_", because that wider statement is false (see Findings).

## Findings

| source | as written | input that shows it | evidently intended | confidence | as-written member | corrected member |
|---|---|---|---|---|---|---|
| src/screens/RecipeListScreen.tsx:158 | `item.id.split('_copy_')[0]` keeps what precedes the first `_copy_` | original id `x_copy`: its copy `x_copy_copy_0_0` navigates to `x` | the text before the last `_copy_`, the one the recycler appended | high; not executed | RecipeListScreen.AsWrittenLosesCopySuffix | RecipeListScreen.OriginalIdRoundTrip |
| src/services/apiService.ts:192 | `data.success ? data.recipes : []` returns the payload unchecked | backend reply `{ success: true }` without `recipes`: the result is `undefined` | [] as the list fetch at line 28 does, matching the declared `Recipe[]` result | medium; not executed | ApiService.AsWrittenCategoryYieldsUndefined | ApiService.GetRecipesByCategory |
