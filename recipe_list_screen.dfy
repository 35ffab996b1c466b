/**
 * The data shaping of the mobile client's recipe list (src/screens/RecipeListScreen.tsx):
 * search, the category chips, the category filter, the sort, the ten-fold recycling of the
 * sorted list with rewritten ids, and the recovery of the original id for navigation.
 */
module RecipeListScreen {
  import opened Wrappers
  import opened JsText
  import opened Seqs
  import opened RecipeTypes

  // ---------------------------------------------------------------- search

  predicate NameMatches(recipe: Recipe, query: string) {
    Includes(Lower(recipe.name), Lower(query))
  }

  function MatchesQuery(query: string): Recipe -> bool {
    (r: Recipe) => NameMatches(r, query)
  }

  /**
   * The list `handleSearch` shows: everything for a query that is blank after trimming,
   * otherwise the recipes whose lower-cased name contains the lower-cased, untrimmed query.
   */
  function SearchResults(recipes: seq<Recipe>, query: string): (r: seq<Recipe>)
    ensures Trim(query) == "" ==> r == recipes
    ensures Trim(query) != "" ==> KeepsInOrder(r, recipes, MatchesQuery(query))
    ensures Trim(query) != "" ==> forall i :: 0 <= i < |r| ==> NameMatches(r[i], query)
    ensures Trim(query) != "" ==> forall x :: x in r <==> x in recipes && NameMatches(x, query)
  {
    if Trim(query) == "" then recipes
    else
      FilterMembers(recipes, MatchesQuery(query));
      Filter(recipes, MatchesQuery(query))
  }

  // ---------------------------------------------------------------- categories

  /** A truthy category: present and not the empty string. */
  predicate HasCategory(recipes: seq<Recipe>, c: string) {
    c != "" && exists i :: 0 <= i < |recipes| && recipes[i].category == Some(c)
  }

  /** The distinct truthy categories of `recipes`, each where it first occurs. */
  function CategoriesOf(recipes: seq<Recipe>): (cats: seq<string>)
    ensures forall i, j :: 0 <= i < j < |cats| ==> cats[i] != cats[j]
    ensures forall c :: c in cats <==> HasCategory(recipes, c)
  {
    if recipes == [] then []
    else
      var init := recipes[..|recipes| - 1];
      var prev := CategoriesOf(init);
      var last := recipes[|recipes| - 1].category;
      assert forall i :: 0 <= i < |init| ==> init[i] == recipes[i];
      assert forall c :: HasCategory(recipes, c) <==>
                         HasCategory(init, c) || (last == Some(c) && c != "");
      if last.Some? && last.value != "" && last.value !in prev then prev + [last.value] else prev
  }

  /** The `categories` memo: 'All', then every truthy category once, as a JavaScript Set keeps them. */
  method Categories(recipes: seq<Recipe>) returns (cats: seq<string>)
    ensures cats == ["All"] + CategoriesOf(recipes)
  {
    var seen: seq<string> := [];
    for i := 0 to |recipes|
      invariant seen == CategoriesOf(recipes[..i])
    {
      assert recipes[..i + 1][..i] == recipes[..i];
      var c := recipes[i].category;
      if c.Some? && c.value != "" {
        if c.value !in seen {
          seen := seen + [c.value];
        }
      }
    }
    assert recipes[..|recipes|] == recipes;
    cats := ["All"] + seen;
  }

  /** Index of the first recipe in category `c`, or `|recipes|`. */
  function FirstWith(recipes: seq<Recipe>, c: string): (k: nat)
    ensures k <= |recipes|
    ensures k < |recipes| ==> recipes[k].category == Some(c)
    ensures forall j :: 0 <= j < k ==> recipes[j].category != Some(c)
  {
    if recipes == [] then 0
    else if recipes[0].category == Some(c) then 0
    else 1 + FirstWith(recipes[1..], c)
  }

  /** The chips appear in the order in which their categories first occur in the list. */
  ghost predicate InFirstOccurrenceOrder(recipes: seq<Recipe>, cats: seq<string>) {
    forall i, j :: 0 <= i < j < |cats| ==> FirstWith(recipes, cats[i]) < FirstWith(recipes, cats[j])
  }

  lemma {:induction false} CategoriesInFirstOccurrenceOrder(recipes: seq<Recipe>)
    ensures InFirstOccurrenceOrder(recipes, CategoriesOf(recipes))
  {
    if recipes != [] {
      var m := |recipes| - 1;
      var init := recipes[..m];
      CategoriesInFirstOccurrenceOrder(init);
      var prev := CategoriesOf(init);
      var cats := CategoriesOf(recipes);
      assert forall i :: 0 <= i < m ==> init[i] == recipes[i];
      forall c | c in prev ensures FirstWith(recipes, c) == FirstWith(init, c) < m {
        assert HasCategory(init, c);
        var w :| 0 <= w < m && init[w].category == Some(c);
        assert FirstWith(init, c) <= w;
      }
      if cats != prev {
        var c := recipes[m].category.value;
        assert cats == prev + [c];
        assert c !in prev;
        assert !HasCategory(init, c);
        assert FirstWith(recipes, c) == m;
      }
      forall i, j | 0 <= i < j < |cats|
        ensures FirstWith(recipes, cats[i]) < FirstWith(recipes, cats[j])
      {
        assert cats[i] == prev[i] && prev[i] in prev;
        if j < |prev| {
          assert cats[j] == prev[j] && prev[j] in prev;
          assert InFirstOccurrenceOrder(init, prev);
          assert FirstWith(init, prev[i]) < FirstWith(init, prev[j]);
        }
      }
    }
  }

  // ---------------------------------------------------------------- category filter

  function InCategory(category: string): Recipe -> bool {
    (r: Recipe) => r.category == Some(category)
  }

  /** The list `handleCategoryFilter` shows: all for 'All', else the exact-category matches. */
  function CategoryResults(recipes: seq<Recipe>, category: string): (r: seq<Recipe>)
    ensures category == "All" ==> r == recipes
    ensures category != "All" ==> KeepsInOrder(r, recipes, InCategory(category))
    ensures category != "All" ==> forall i :: 0 <= i < |r| ==> r[i].category == Some(category)
    ensures category != "All" ==> forall x :: x in r <==> x in recipes && x.category == Some(category)
  {
    if category == "All" then recipes
    else
      FilterMembers(recipes, InCategory(category));
      Filter(recipes, InCategory(category))
  }

  // ---------------------------------------------------------------- sort

  /**
   * `localeCompare` is a parameter: any comparison whose "not after" relation is a total
   * preorder on strings.
   */
  ghost predicate IsCollation(collate: (string, string) -> int) {
    && (forall a, b :: collate(a, b) <= 0 || collate(b, a) <= 0)
    && (forall a, b, c :: collate(a, b) <= 0 && collate(b, c) <= 0 ==> collate(a, c) <= 0)
  }

  /** `recipe.category || ''`. */
  function CategoryKey(r: Recipe): string {
    r.category.GetOr("")
  }

  /** "`a` may stay before `b`" under each sort option's comparator. */
  function StaysBefore(option: SortOption, collate: (string, string) -> int): (Recipe, Recipe) -> bool {
    match option
    case NameAsc => (a: Recipe, b: Recipe) => collate(a.name, b.name) <= 0
    case NameDesc => (a: Recipe, b: Recipe) => collate(b.name, a.name) <= 0
    case ByCategory => (a: Recipe, b: Recipe) => collate(CategoryKey(a), CategoryKey(b)) <= 0
  }

  /** `[...filteredRecipes].sort(...)`: the stable sort of a copy under the option's comparator. */
  function SortRecipes(filtered: seq<Recipe>, option: SortOption, collate: (string, string) -> int): (r: seq<Recipe>)
    ensures |r| == |filtered| && multiset(r) == multiset(filtered)
  {
    Seqs.Sort(filtered, StaysBefore(option, collate))
  }

  lemma ComparatorIsPreorder(option: SortOption, collate: (string, string) -> int)
    requires IsCollation(collate)
    ensures TotalPreorder(StaysBefore(option, collate))
  {
    var le := StaysBefore(option, collate);
    var key := (r: Recipe) => if option == ByCategory then CategoryKey(r) else r.name;
    var flip := option == NameDesc;
    assert forall x, y :: le(x, y) == (if flip then collate(key(y), key(x)) <= 0 else collate(key(x), key(y)) <= 0);
    forall x, y ensures le(x, y) || le(y, x) {
      assert collate(key(x), key(y)) <= 0 || collate(key(y), key(x)) <= 0;
    }
    forall x, y, z | le(x, y) && le(y, z) ensures le(x, z) {
      if flip {
        assert collate(key(z), key(y)) <= 0 && collate(key(y), key(x)) <= 0;
      } else {
        assert collate(key(x), key(y)) <= 0 && collate(key(y), key(z)) <= 0;
      }
    }
  }

  /**
   * The sort permutes the filtered list into name order, reverse name order or category
   * order (a missing category counting as ''); recipes that compare equal keep their order.
   */
  lemma SortRecipesOrders(filtered: seq<Recipe>, option: SortOption, collate: (string, string) -> int)
    requires IsCollation(collate)
    ensures multiset(SortRecipes(filtered, option, collate)) == multiset(filtered)
    ensures var r := SortRecipes(filtered, option, collate);
            option == NameAsc ==> forall i, j :: 0 <= i < j < |r| ==> collate(r[i].name, r[j].name) <= 0
    ensures var r := SortRecipes(filtered, option, collate);
            option == NameDesc ==> forall i, j :: 0 <= i < j < |r| ==> collate(r[j].name, r[i].name) <= 0
    ensures var r := SortRecipes(filtered, option, collate);
            option == ByCategory ==>
              forall i, j :: 0 <= i < j < |r| ==> collate(CategoryKey(r[i]), CategoryKey(r[j])) <= 0
    ensures forall z :: EquivClass(SortRecipes(filtered, option, collate), z, StaysBefore(option, collate))
                        == EquivClass(filtered, z, StaysBefore(option, collate))
  {
    var le := StaysBefore(option, collate);
    ComparatorIsPreorder(option, collate);
    SortSorted(filtered, le);
    forall z ensures EquivClass(SortRecipes(filtered, option, collate), z, le) == EquivClass(filtered, z, le) {
      SortStable(filtered, z, le);
    }
  }

  // ---------------------------------------------------------------- recycled ids

  const COPY_MARK: string := "_copy_"
  const COPIES: nat := 10

  /** `${id}_copy_${copy}_${index}`. */
  function CopyId(id: string, copy: nat, index: nat): (r: string)
    ensures |r| > |id| + |COPY_MARK|
    ensures r[..|id|] == id && OccursAt(r, COPY_MARK, |id|)
  {
    assert (id + COPY_MARK)[|id|..|id| + |COPY_MARK|] == COPY_MARK;
    id + COPY_MARK + NatToString(copy) + "_" + NatToString(index)
  }

  function CopyOf(r: Recipe, copy: nat, index: nat): Recipe {
    r.(id := CopyId(r.id, copy, index))
  }

  /**
   * The original id as the source recovers it, `id.split('_copy_')[0]`: everything before the
   * FIRST `_copy_`.
   */
  function OriginalIdAsWritten(id: string): (r: string)
    ensures |r| <= |id| && r == id[..|r|]
    ensures |r| < |id| ==> OccursAt(id, COPY_MARK, |r|)
    ensures forall i :: 0 <= i < |r| ==> !OccursAt(id, COPY_MARK, i)
    ensures (forall i :: !OccursAt(id, COPY_MARK, i)) ==> r == id
  {
    BeforeFirst(id, COPY_MARK)
  }

  /** The original id: everything before the LAST `_copy_`, which is the one the recycler added. */
  function OriginalId(id: string): (r: string)
    ensures |r| <= |id| && r == id[..|r|]
    ensures |r| < |id| ==> OccursAt(id, COPY_MARK, |r|)
    ensures forall i :: |r| < i ==> !OccursAt(id, COPY_MARK, i)
    ensures (forall i :: !OccursAt(id, COPY_MARK, i)) ==> r == id
  {
    var i := LastIndexOf(id, COPY_MARK);
    if i >= 0 then id[..i] else id
  }

  /** After the id, a copy id holds `_copy_` only where the recycler put it. */
  lemma CopyMarkIsLast(id: string, copy: nat, index: nat)
    ensures LastIndexOf(CopyId(id, copy, index), COPY_MARK) == |id|
  {
    var s := CopyId(id, copy, index);
    var d1, d2 := NatToString(copy), NatToString(index);
    var tail := COPY_MARK + d1 + "_" + d2;
    assert s == id + tail;
    assert s[|id|..|id| + 6] == COPY_MARK;
    assert OccursAt(s, COPY_MARK, |id|);
    forall q | 2 <= q < |tail| ensures tail[q] != 'c' {
      if q < 6 {
      } else if q < 6 + |d1| {
        assert tail[q] == d1[q - 6];
      } else if q == 6 + |d1| {
      } else {
        assert tail[q] == d2[q - 7 - |d1|];
      }
    }
    forall p | p > |id| ensures !OccursAt(s, COPY_MARK, p) {
      if p + 6 <= |s| {
        assert s[p + 1] == tail[p + 1 - |id|];
        assert s[p..p + 6][1] == s[p + 1];
      }
    }
  }

  /** The id shown for navigation is the original id, whatever that id is. */
  lemma OriginalIdRoundTrip(id: string, copy: nat, index: nat)
    ensures OriginalId(CopyId(id, copy, index)) == id
  {
    CopyMarkIsLast(id, copy, index);
    var s := CopyId(id, copy, index);
    assert s[..|id|] == id;
  }

  /** Distinct (id, copy, index) triples give distinct copy ids. */
  lemma CopyIdInjective(a: string, c1: nat, x1: nat, b: string, c2: nat, x2: nat)
    requires CopyId(a, c1, x1) == CopyId(b, c2, x2)
    ensures a == b && c1 == c2 && x1 == x2
  {
    OriginalIdRoundTrip(a, c1, x1);
    OriginalIdRoundTrip(b, c2, x2);
    var s := CopyId(a, c1, x1);
    var t1 := NatToString(c1) + "_" + NatToString(x1);
    var t2 := NatToString(c2) + "_" + NatToString(x2);
    assert s == a + COPY_MARK + t1;
    assert s == a + COPY_MARK + t2;
    assert t1 == s[|a| + 6..] == t2;
    DigitsThenUnderscore(NatToString(c1), NatToString(x1));
    DigitsThenUnderscore(NatToString(c2), NatToString(x2));
    assert NatToString(c1) == t1[..IndexOfChar(t1, '_')] == NatToString(c2);
    assert NatToString(x1) == t1[IndexOfChar(t1, '_') + 1..] == NatToString(x2);
    NatToStringInjective(c1, c2);
    NatToStringInjective(x1, x2);
  }

  lemma DigitsThenUnderscore(d1: string, d2: string)
    requires forall i :: 0 <= i < |d1| ==> IsDigit(d1[i])
    ensures var t := d1 + "_" + d2;
            IndexOfChar(t, '_') == |d1| && t[..|d1|] == d1 && t[|d1| + 1..] == d2
  {
    var t := d1 + "_" + d2;
    assert forall j :: 0 <= j < |d1| ==> t[j] == d1[j] && t[j] != '_';
    assert t[|d1|] == '_';
  }

  // ---------------------------------------------------------------- recycling

  /** One pass of the inner loop: every sorted recipe, renamed as copy `copy`. */
  function Round(sorted: seq<Recipe>, copy: nat): (r: seq<Recipe>)
    ensures |r| == |sorted|
  {
    seq(|sorted|, j requires 0 <= j < |sorted| => CopyOf(sorted[j], copy, j))
  }

  /** The first `copies` passes of the outer loop. */
  function Rounds(sorted: seq<Recipe>, copies: nat): (r: seq<Recipe>)
    ensures |r| == copies * |sorted|
  {
    if copies == 0 then []
    else
      var r := Rounds(sorted, copies - 1) + Round(sorted, copies - 1);
      assert (copies - 1) * |sorted| + |sorted| == copies * |sorted|;
      r
  }

  /** The ten-fold list. */
  function Recycled(sorted: seq<Recipe>): (r: seq<Recipe>)
    ensures |r| == COPIES * |sorted|
  {
    Rounds(sorted, COPIES)
  }

  /** The integer whose quotient and remainder by `n` are `copy` and `index` is `copy * n + index`. */
  lemma DivModPosition(copy: nat, index: nat, n: nat)
    requires index < n
    ensures (copy * n + index) / n == copy
    ensures (copy * n + index) % n == index
  {
    var k := copy * n + index;
    var q, r := k / n, k % n;
    assert k == q * n + r;
    assert (q - copy) * n == index - r;
    if q > copy {
      MulAtLeast(q - copy, n);
      assert false;
    } else if q < copy {
      MulAtLeast(copy - q, n);
      assert false;
    }
  }

  lemma MulAtLeast(d: int, n: nat)
    requires d >= 1
    ensures d * n >= n
  {
    assert d * n == (d - 1) * n + n;
  }

  lemma {:induction false} RoundsAt(sorted: seq<Recipe>, copies: nat, k: nat)
    requires k < copies * |sorted|
    ensures |sorted| > 0
    ensures Rounds(sorted, copies)[k] == CopyOf(sorted[k % |sorted|], k / |sorted|, k % |sorted|)
  {
    var n := |sorted|;
    var prefix := Rounds(sorted, copies - 1);
    if k < |prefix| {
      RoundsAt(sorted, copies - 1, k);
    } else {
      var j := k - |prefix|;
      assert k == (copies - 1) * n + j;
      DivModPosition(copies - 1, j, n);
    }
  }

  /** Entry `k` of the ten-fold list is sorted recipe `k % n`, renamed as copy `k / n`. */
  lemma RecycledAt(sorted: seq<Recipe>, k: nat)
    requires k < |Recycled(sorted)|
    ensures |sorted| > 0
    ensures Recycled(sorted)[k] == CopyOf(sorted[k % |sorted|], k / |sorted|, k % |sorted|)
  {
    RoundsAt(sorted, COPIES, k);
  }

  /** Every id of the recycled list is different, so each rendered row has its own key. */
  lemma RecycledIdsDistinct(sorted: seq<Recipe>)
    ensures var r := Recycled(sorted);
            forall k1, k2 :: 0 <= k1 < k2 < |r| ==> r[k1].id != r[k2].id
  {
    forall k1, k2 | 0 <= k1 < k2 < |Recycled(sorted)|
      ensures Recycled(sorted)[k1].id != Recycled(sorted)[k2].id
    {
      RoundsPairDistinct(sorted, COPIES, k1, k2);
    }
  }

  lemma RoundsPairDistinct(sorted: seq<Recipe>, copies: nat, k1: nat, k2: nat)
    requires k1 < k2 < copies * |sorted|
    ensures Rounds(sorted, copies)[k1].id != Rounds(sorted, copies)[k2].id
  {
    var n := |sorted|;
    RoundsAt(sorted, copies, k1);
    RoundsAt(sorted, copies, k2);
    var c1, x1 := Position(k1, n);
    var c2, x2 := Position(k2, n);
    assert c1 != c2 || x1 != x2;
    EntriesDiffer(Rounds(sorted, copies)[k1], Rounds(sorted, copies)[k2],
                  sorted[x1], c1, x1, sorted[x2], c2, x2);
  }

  lemma EntriesDiffer(e1: Recipe, e2: Recipe, r1: Recipe, c1: nat, x1: nat, r2: Recipe, c2: nat, x2: nat)
    requires e1 == CopyOf(r1, c1, x1) && e2 == CopyOf(r2, c2, x2)
    requires c1 != c2 || x1 != x2
    ensures e1.id != e2.id
  {
    CopyIdsDiffer(r1.id, c1, x1, r2.id, c2, x2);
  }

  lemma CopyIdsDiffer(a: string, c1: nat, x1: nat, b: string, c2: nat, x2: nat)
    requires c1 != c2 || x1 != x2
    ensures CopyId(a, c1, x1) != CopyId(b, c2, x2)
  {
    if CopyId(a, c1, x1) == CopyId(b, c2, x2) {
      CopyIdInjective(a, c1, x1, b, c2, x2);
    }
  }

  /** Quotient and remainder of `k` by `n`. */
  lemma Position(k: nat, n: nat) returns (q: nat, r: nat)
    requires n > 0
    ensures q == k / n && r == k % n && r < n
    ensures k == q * n + r
  {
    q, r := k / n, k % n;
  }

  /**
   * Navigating from any recycled row opens the recipe it was copied from; apart from the id,
   * the row is that recipe unchanged.
   */
  lemma RecycledNavigation(sorted: seq<Recipe>, k: nat)
    requires k < |Recycled(sorted)|
    ensures var n := |sorted|;
            n > 0 && OriginalId(Recycled(sorted)[k].id) == sorted[k % n].id
            && Recycled(sorted)[k].(id := sorted[k % n].id) == sorted[k % n]
  {
    RecycledAt(sorted, k);
    var q, r := Position(k, |sorted|);
    var e := Recycled(sorted)[k];
    assert e == CopyOf(sorted[r], q, r);
    OriginalIdRoundTrip(sorted[r].id, q, r);
    assert e.(id := sorted[r].id) == sorted[r];
  }

  /** The `sortedRecipes` memo: sort a copy, then push ten renamed copies of it. */
  method SortedRecipes(filtered: seq<Recipe>, option: SortOption, collate: (string, string) -> int)
    returns (recycled: seq<Recipe>)
    ensures recycled == Recycled(SortRecipes(filtered, option, collate))
    ensures |recycled| == COPIES * |filtered|
  {
    var sorted := SortRecipes(filtered, option, collate);
    var n := |sorted|;
    recycled := [];
    for i := 0 to COPIES
      invariant recycled == Rounds(sorted, i)
    {
      for j := 0 to n
        invariant recycled == Rounds(sorted, i) + Round(sorted, i)[..j]
      {
        assert Round(sorted, i)[..j + 1] == Round(sorted, i)[..j] + [CopyOf(sorted[j], i, j)];
        recycled := recycled + [CopyOf(sorted[j], i, j)];
      }
      assert Round(sorted, i)[..n] == Round(sorted, i);
    }
  }

  // ---------------------------------------------------------------- the screen's state

  class RecipeList {
    var recipes: seq<Recipe>
    var filteredRecipes: seq<Recipe>
    var searchQuery: string
    var sortOption: SortOption
    var selectedCategory: string

    constructor ()
      ensures recipes == [] && filteredRecipes == [] && searchQuery == ""
      ensures sortOption == NameAsc && selectedCategory == "All"
    {
      recipes, filteredRecipes, searchQuery := [], [], "";
      sortOption, selectedCategory := NameAsc, "All";
    }

    /** `loadRecipes` once the fetch has settled; a failed fetch changes nothing. */
    method LoadRecipes(data: Option<seq<Recipe>>)
      modifies this
      ensures data.Some? ==> recipes == data.value && filteredRecipes == data.value
      ensures data.None? ==> recipes == old(recipes) && filteredRecipes == old(filteredRecipes)
      ensures searchQuery == old(searchQuery) && sortOption == old(sortOption)
      ensures selectedCategory == old(selectedCategory)
    {
      if data.Some? {
        recipes := data.value;
        filteredRecipes := data.value;
      }
    }

    method HandleSearch(query: string)
      modifies this
      ensures searchQuery == query
      ensures filteredRecipes == SearchResults(recipes, query)
      ensures recipes == old(recipes) && sortOption == old(sortOption)
      ensures selectedCategory == old(selectedCategory)
    {
      searchQuery := query;
      filteredRecipes := SearchResults(recipes, query);
    }

    /** Choosing a category also clears the search box. */
    method HandleCategoryFilter(category: string)
      modifies this
      ensures selectedCategory == category
      ensures filteredRecipes == CategoryResults(recipes, category)
      ensures searchQuery == ""
      ensures recipes == old(recipes) && sortOption == old(sortOption)
    {
      selectedCategory := category;
      filteredRecipes := CategoryResults(recipes, category);
      searchQuery := "";
    }

    method SetSortOption(option: SortOption)
      modifies this
      ensures sortOption == option
      ensures recipes == old(recipes) && filteredRecipes == old(filteredRecipes)
      ensures searchQuery == old(searchQuery) && selectedCategory == old(selectedCategory)
    {
      sortOption := option;
    }
  }

  // ---------------------------------------------------------------- the source's id recovery

  /** With no '_' in the original id (the third-party API's numeric ids), the source's split works. */
  lemma AsWrittenRecoversPlainIds(id: string, copy: nat, index: nat)
    requires '_' !in id
    ensures OriginalIdAsWritten(CopyId(id, copy, index)) == id
  {
    var s := CopyId(id, copy, index);
    assert s[..|id|] == id;
    assert s[|id|..|id| + 6] == COPY_MARK;
    assert OccursAt(s, COPY_MARK, |id|);
    forall p | 0 <= p < |id| ensures !OccursAt(s, COPY_MARK, p) {
      assert s[p] == id[p];
      assert id[p] in id;
    }
  }

  /** An id ending in "_copy" loses that ending: the source navigates to "x" from a copy of "x_copy". */
  lemma AsWrittenLosesCopySuffix()
    ensures CopyId("x_copy", 0, 0) == "x_copy_copy_0_0"
    ensures OriginalIdAsWritten(CopyId("x_copy", 0, 0)) == "x"
    ensures OriginalId(CopyId("x_copy", 0, 0)) == "x_copy"
  {
    var s := CopyId("x_copy", 0, 0);
    assert NatToString(0) == "0";
    assert s == "x_copy_copy_0_0";
    assert s[1..7] == COPY_MARK;
    assert OccursAt(s, COPY_MARK, 1);
    assert !OccursAt(s, COPY_MARK, 0) by { assert s[0] != COPY_MARK[0]; }
    OriginalIdRoundTrip("x_copy", 0, 0);
  }
}
