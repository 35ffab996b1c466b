/**
 * The category list of the web client's home page (components/HomePage.tsx): the fetched
 * categories without the four excluded ones, behind two custom entries.
 */
module HomePage {
  import opened Wrappers
  import opened Seqs
  import opened MealTypes

  const UNWANTED: seq<string> := ["Beef", "Lamb", "Pork", "Goat"]

  const PIZZA: ApiCategory := ApiCategory(
    "custom-1", "Pizza",
    "https://www.themealdb.com/images/media/meals/x0lk931587671540.jpg",
    "Delicious pizzas of all kinds.")

  const BIRYANI: ApiCategory := ApiCategory(
    "custom-2", "Biryani",
    "https://www.themealdb.com/images/media/meals/xrttsx1487339558.jpg",
    "Aromatic and flavorful biryani dishes.")

  const FETCH_ERROR: string := "Failed to fetch categories. Please try again later."

  /** `!unwanted.includes(c.strCategory)`: an exact, case-sensitive match. */
  function Wanted(): ApiCategory -> bool {
    (c: ApiCategory) => c.strCategory !in UNWANTED
  }

  function Unwanted(): ApiCategory -> bool {
    (c: ApiCategory) => c.strCategory in UNWANTED
  }

  /** `[...customCategories, ...filteredCategories]`. */
  function ShapeCategories(data: seq<ApiCategory>): (r: seq<ApiCategory>)
    ensures |r| >= 2 && r[0] == PIZZA && r[1] == BIRYANI
    ensures forall i :: 0 <= i < |r| ==> r[i].strCategory !in UNWANTED
    ensures KeepsInOrder(r[2..], data, Wanted())
    ensures forall c :: c in r[2..] <==> c in data && c.strCategory !in UNWANTED
  {
    FilterMembers(data, Wanted());
    var kept := Filter(data, Wanted());
    assert ([PIZZA, BIRYANI] + kept)[2..] == kept;
    [PIZZA, BIRYANI] + kept
  }

  /**
   * After the two custom entries come the fetched categories that are kept, unchanged and in
   * fetched order, and the list is two longer than the input less the excluded entries.
   */
  lemma ShapeKeepsOrderAndLength(data: seq<ApiCategory>)
    ensures var r := ShapeCategories(data);
            forall k :: 2 <= k < |r| ==> r[k] == data[Passing(data, Wanted())[k - 2]]
    ensures var idx := Passing(data, Wanted());
            forall k, l :: 0 <= k < l < |idx| ==> idx[k] < idx[l]
    ensures |ShapeCategories(data)| + |Filter(data, Unwanted())| == |data| + 2
  {
    var r := ShapeCategories(data);
    assert KeepsInOrder(r[2..], data, Wanted());
    assert forall k :: 2 <= k < |r| ==> r[k] == r[2..][k - 2];
    FilterPartition(data, Wanted(), Unwanted());
  }

  /** When nothing fetched is excluded, the fetched list follows the custom entries verbatim. */
  lemma ShapeWithoutExclusions(data: seq<ApiCategory>)
    requires forall i :: 0 <= i < |data| ==> data[i].strCategory !in UNWANTED
    ensures ShapeCategories(data) == [PIZZA, BIRYANI] + data
  {
    FilterAll(data, Wanted());
  }

  /** The page's state once `loadCategories` has settled. */
  datatype HomeState = HomeState(categories: seq<ApiCategory>, loading: bool, error: Option<string>)

  /** `loadCategories`, given the fetch's outcome (`None`: it threw); the list starts out empty. */
  function LoadCategories(fetched: Option<seq<ApiCategory>>): (s: HomeState)
    ensures !s.loading
    ensures fetched.None? ==> s.categories == [] && s.error == Some(FETCH_ERROR)
    ensures fetched.Some? ==> s.categories == ShapeCategories(fetched.value) && s.error == None
  {
    match fetched
    case None => HomeState([], false, Some(FETCH_ERROR))
    case Some(data) => HomeState(ShapeCategories(data), false, None)
  }
}
