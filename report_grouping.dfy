// The category grouping both report generators perform on an offer's line
// items (pdf_generator.py and docx_generator.py carry identical copies): a
// dictionary from category name to items, in first-seen order, then visited
// in sorted key order.
module ReportGrouping {
  import opened Options
  import opened Ordering

  /** One entry of offer_data['items'], as the offer session builds it. */
  datatype LineItem = LineItem(
    productId: int,
    name: string,
    unit: string,
    quantity: real,
    purchasePriceNet: real,
    vatRate: real,
    margin: real,
    categoryName: Option<string>)

  /** The label used when an item has no 'category_name' key. */
  const DefaultCategory := "Bez kategorii"

  /** item.get('category_name', 'Bez kategorii') */
  function CategoryOf(item: LineItem): string {
    item.categoryName.GetOr(DefaultCategory)
  }

  /** The dictionary key of an item is its category name, or "Bez kategorii" when it has none. */
  lemma CategoryOfKey(item: LineItem)
    ensures item.categoryName.Some? ==> CategoryOf(item) == item.categoryName.value
    ensures item.categoryName.None? ==> CategoryOf(item) == DefaultCategory
  {
  }

  /** The items of one category, in offer order. */
  function ItemsIn(items: seq<LineItem>, category: string): (r: seq<LineItem>)
    ensures |r| <= |items|
    ensures forall x :: x in r ==> x in items && CategoryOf(x) == category
  {
    if items == [] then []
    else
      var last := items[|items| - 1];
      ItemsIn(items[..|items| - 1], category) + if CategoryOf(last) == category then [last] else []
  }

  function CategoryNames(items: seq<LineItem>): set<string> {
    set i | 0 <= i < |items| :: CategoryOf(items[i])
  }

  /** The sum of `f` over the items, added up in order. */
  function SumBy(items: seq<LineItem>, f: LineItem -> real): real {
    if items == [] then 0.0 else SumBy(items[..|items| - 1], f) + f(items[|items| - 1])
  }

  /** The sum over the categories `names`, in order, of each category's own sum. */
  function SumGroups(items: seq<LineItem>, names: seq<string>, f: LineItem -> real): real {
    if names == [] then 0.0
    else SumGroups(items, names[..|names| - 1], f) + SumBy(ItemsIn(items, names[|names| - 1]), f)
  }

  function Identity(s: string): string { s }

  /**
   * The grouping loop and the sorted() over the dictionary's items: `byCategory` maps each
   * category to its items in offer order, and `names` lists the categories in ascending order.
   */
  method GroupByCategory(items: seq<LineItem>) returns (byCategory: map<string, seq<LineItem>>, names: seq<string>)
    ensures StrictlyAscending(names)
    ensures forall k :: k in names <==> k in CategoryNames(items)
    ensures byCategory.Keys == CategoryNames(items)
    ensures forall k :: k in byCategory ==> byCategory[k] == ItemsIn(items, k)
  {
    byCategory := map[];
    var seen: seq<string> := [];
    var i := 0;
    while i < |items|
      invariant 0 <= i <= |items|
      invariant GroupedSoFar(items[..i], byCategory, seen)
    {
      var item := items[i];
      var category := CategoryOf(item);
      assert items[..i + 1] == items[..i] + [item];
      if category !in byCategory {
        GroupStepNew(items[..i], item, byCategory, seen);
        byCategory := byCategory[category := []];
        seen := seen + [category];
      } else {
        GroupStepSeen(items[..i], item, byCategory, seen);
      }
      byCategory := byCategory[category := byCategory[category] + [item]];
      i := i + 1;
    }
    assert items[..i] == items;
    names := SortBy(seen, Identity);
    SortedNames(seen);
  }

  /** The loop invariant of the grouping: the dictionary and its first-seen key order so far. */
  ghost predicate GroupedSoFar(prefix: seq<LineItem>, byCategory: map<string, seq<LineItem>>, seen: seq<string>) {
    && byCategory.Keys == CategoryNames(prefix)
    && (forall k :: k in byCategory ==> byCategory[k] == ItemsIn(prefix, k))
    && Distinct(seen)
    && (forall k :: k in seen <==> k in byCategory)
  }

  /** What appending one item does to the category names and to each category's items. */
  lemma ItemsStep(items: seq<LineItem>, item: LineItem)
    ensures CategoryNames(items + [item]) == CategoryNames(items) + {CategoryOf(item)}
    ensures forall k :: ItemsIn(items + [item], k) == ItemsIn(items, k) + if CategoryOf(item) == k then [item] else []
  {
    var s := items + [item];
    assert forall j :: 0 <= j < |items| ==> s[j] == items[j];
    assert s[|items|] == item;
    forall k ensures ItemsIn(s, k) == ItemsIn(items, k) + if CategoryOf(item) == k then [item] else [] {
      ItemsInSnoc(items, item, k);
    }
  }

  /** One step of the grouping loop, for a category already in the dictionary, keeps its invariant. */
  lemma GroupStepSeen(prefix: seq<LineItem>, item: LineItem, byCategory: map<string, seq<LineItem>>, seen: seq<string>)
    requires GroupedSoFar(prefix, byCategory, seen) && CategoryOf(item) in byCategory
    ensures GroupedSoFar(prefix + [item], byCategory[CategoryOf(item) := byCategory[CategoryOf(item)] + [item]], seen)
  {
    ItemsStep(prefix, item);
  }

  /** One step of the grouping loop, for a category met for the first time, keeps its invariant. */
  lemma GroupStepNew(prefix: seq<LineItem>, item: LineItem, byCategory: map<string, seq<LineItem>>, seen: seq<string>)
    requires GroupedSoFar(prefix, byCategory, seen) && CategoryOf(item) !in byCategory
    ensures GroupedSoFar(prefix + [item], byCategory[CategoryOf(item) := [item]], seen + [CategoryOf(item)])
  {
    var c := CategoryOf(item);
    var b := byCategory[c := [item]];
    ItemsStep(prefix, item);
    ItemsInAbsent(prefix, c);
    assert b.Keys == CategoryNames(prefix + [item]);
    forall k | k in b ensures b[k] == ItemsIn(prefix + [item], k) {
      if k != c {
        assert b[k] == byCategory[k] == ItemsIn(prefix, k);
      }
    }
    DistinctSnoc(seen, c);
    assert forall k :: k in seen + [c] <==> k in seen || k == c;
  }

  lemma DistinctSnoc(seen: seq<string>, c: string)
    requires Distinct(seen) && c !in seen
    ensures Distinct(seen + [c])
  {
    var seen' := seen + [c];
    forall i, j | 0 <= i < j < |seen'| ensures seen'[i] != seen'[j] {
      if j < |seen| {
        assert seen'[i] == seen[i] && seen'[j] == seen[j];
      } else {
        assert seen'[i] == seen[i] && seen[i] in seen;
      }
    }
  }

  /** Sorting distinct names gives them in strictly ascending order. */
  lemma SortedNames(seen: seq<string>)
    requires Distinct(seen)
    ensures StrictlyAscending(SortBy(seen, Identity))
    ensures forall k :: k in SortBy(seen, Identity) <==> k in seen
  {
    var names := SortBy(seen, Identity);
    PermutationDistinct(seen, names);
    assert forall k :: k in names <==> k in multiset(seen);
  }

  lemma ItemsInSnoc(items: seq<LineItem>, x: LineItem, category: string)
    ensures ItemsIn(items + [x], category) == ItemsIn(items, category) + if CategoryOf(x) == category then [x] else []
  {
    assert (items + [x])[..|items|] == items;
  }

  /** A category no item carries has no items. */
  lemma {:induction false} ItemsInAbsent(items: seq<LineItem>, category: string)
    ensures category !in CategoryNames(items) ==> ItemsIn(items, category) == []
  {
    if items != [] {
      var init := items[..|items| - 1];
      ItemsInAbsent(init, category);
      assert CategoryOf(items[|items| - 1]) in CategoryNames(items);
      assert forall j :: 0 <= j < |init| ==> init[j] == items[j];
      assert CategoryNames(init) <= CategoryNames(items);
    }
  }

  /** No item is lost: every item of the category is in the category's group. */
  lemma {:induction false} ItemsInComplete(items: seq<LineItem>, category: string, x: LineItem)
    requires x in items && CategoryOf(x) == category
    ensures x in ItemsIn(items, category)
  {
    var init := items[..|items| - 1];
    assert items == init + [items[|items| - 1]];
    if x != items[|items| - 1] {
      ItemsInComplete(init, category, x);
    }
  }

  /**
   * Grouping keeps offer order: the group of a category in a concatenation is the group in the
   * first part followed by the group in the second.
   */
  lemma {:induction false} ItemsInAppend(a: seq<LineItem>, b: seq<LineItem>, category: string)
    ensures ItemsIn(a + b, category) == ItemsIn(a, category) + ItemsIn(b, category)
    decreases |b|
  {
    if b == [] {
      assert a + b == a;
    } else {
      var init := b[..|b| - 1];
      var y := b[|b| - 1];
      var tail := if CategoryOf(y) == category then [y] else [];
      var front, middle := ItemsIn(a, category), ItemsIn(init, category);
      assert b == init + [y];
      assert ItemsIn(b, category) == middle + tail by {
        ItemsInSnoc(init, y, category);
      }
      assert ItemsIn(a + b, category) == ItemsIn(a + init, category) + tail by {
        assert a + b == (a + init) + [y];
        ItemsInSnoc(a + init, y, category);
      }
      ItemsInAppend(a, init, category);
      assert (front + middle) + tail == front + (middle + tail);
    }
  }

  lemma SumBySnoc(items: seq<LineItem>, x: LineItem, f: LineItem -> real)
    ensures SumBy(items + [x], f) == SumBy(items, f) + f(x)
  {
    assert (items + [x])[..|items|] == items;
  }

  /** Adding one item to the offer adds its amount to exactly one category's sum, if that category is listed. */
  lemma {:induction false} SumGroupsSnoc(items: seq<LineItem>, x: LineItem, names: seq<string>, f: LineItem -> real)
    requires Distinct(names)
    ensures SumGroups(items + [x], names, f) == SumGroups(items, names, f) + if CategoryOf(x) in names then f(x) else 0.0
  {
    if names != [] {
      var init := names[..|names| - 1];
      var k := names[|names| - 1];
      assert names == init + [k];
      assert Distinct(init);
      SumGroupsSnoc(items, x, init, f);
      var before := SumBy(ItemsIn(items, k), f);
      var after := SumBy(ItemsIn(items + [x], k), f);
      ItemsInSnoc(items, x, k);
      if CategoryOf(x) == k {
        SumBySnoc(ItemsIn(items, k), x, f);
        assert after == before + f(x);
        assert CategoryOf(x) !in init;
      } else {
        assert ItemsIn(items + [x], k) == ItemsIn(items, k);
        assert after == before;
        assert CategoryOf(x) in names <==> CategoryOf(x) in init;
      }
    }
  }

  /**
   * Grouping does not change a total: summing the per-category sums over a list of distinct
   * categories that covers every item gives the sum over all items.
   */
  lemma {:induction false} SumGroupsIsTotal(items: seq<LineItem>, names: seq<string>, f: LineItem -> real)
    requires Distinct(names)
    requires forall i :: 0 <= i < |items| ==> CategoryOf(items[i]) in names
    ensures SumGroups(items, names, f) == SumBy(items, f)
  {
    if items == [] {
      SumGroupsOfEmpty(names, f);
    } else {
      var init := items[..|items| - 1];
      var x := items[|items| - 1];
      forall i | 0 <= i < |init| ensures CategoryOf(init[i]) in names {
        assert init[i] == items[i];
      }
      SumGroupsIsTotal(init, names, f);
      assert SumGroups(items, names, f) == SumGroups(init, names, f) + f(x) by {
        assert items == init + [x];
        SumGroupsSnoc(init, x, names, f);
      }
    }
  }

  lemma {:induction false} SumGroupsOfEmpty(names: seq<string>, f: LineItem -> real)
    ensures SumGroups([], names, f) == 0.0
  {
    if names != [] {
      SumGroupsOfEmpty(names[..|names| - 1], f);
    }
  }

  function One(item: LineItem): real { 1.0 }

  lemma {:induction false} SumOfOnes(items: seq<LineItem>)
    ensures SumBy(items, One) == |items| as real
  {
    if items != [] {
      SumOfOnes(items[..|items| - 1]);
    }
  }

  /** Every item lands in exactly one group: the group sizes add up to the number of items. */
  lemma GroupSizesAddUp(items: seq<LineItem>, names: seq<string>)
    requires Distinct(names)
    requires forall i :: 0 <= i < |items| ==> CategoryOf(items[i]) in names
    ensures SumGroups(items, names, One) == |items| as real
  {
    SumGroupsIsTotal(items, names, One);
    SumOfOnes(items);
  }
}
