/**
 The static browse page: twenty generated placeholder items and the filter
 that combines a category choice with a case-insensitive title search.
 */
module Catalog {
  import opened Lists
  import opened Text

  const ItemCount: nat := 20
  const AllCategories: string := "All"
  const Description: string := "Stylish, well-maintained second-hand item."

  datatype CatalogItem = CatalogItem(
    id: nat,
    title: string,
    image: string,
    category: string,
    description: string)

  /** The generator's entry for index `i`. */
  function MakeItem(i: nat): CatalogItem
  {
    CatalogItem(
      i,
      "Item " + Decimal(i + 1),
      "https://source.unsplash.com/random/400x300?clothing&sig=" + Decimal(i),
      if i % 2 == 0 then "Men" else "Women",
      Description)
  }

  /** `allItems`. */
  function AllItems(): (r: seq<CatalogItem>)
    ensures |r| == ItemCount
    ensures forall i :: 0 <= i < |r| ==> r[i].id == i
    ensures forall i :: 0 <= i < |r| ==> (r[i].category == "Men" <==> i % 2 == 0)
    ensures forall i :: 0 <= i < |r| ==> (r[i].category == "Women" <==> i % 2 == 1)
  {
    seq(ItemCount, i requires 0 <= i < ItemCount => MakeItem(i))
  }

  /** Titles number the items from one, so no two items share a title. */
  lemma TitlesDistinct(i: nat, j: nat)
    requires i < ItemCount && j < ItemCount && i != j
    ensures AllItems()[i].title != AllItems()[j].title
  {
    var ti := AllItems()[i].title;
    var tj := AllItems()[j].title;
    if ti == tj {
      assert ti[5..] == Decimal(i + 1) && tj[5..] == Decimal(j + 1);
      DecimalInjective(i + 1, j + 1);
    }
  }

  /** The filter callback: the category matches (or is "All") and the search term occurs in the title, ignoring ASCII case. */
  function Matches(item: CatalogItem, search: string, category: string): (r: bool)
    ensures r <==> (category == AllCategories || item.category == category)
                   && exists i :: OccursAt(Lower(item.title), Lower(search), i)
  {
    ContainsIffOccurs(Lower(item.title), Lower(search));
    (category == AllCategories || item.category == category) &&
    Contains(Lower(item.title), Lower(search))
  }

  /** `filteredItems`: the items passing the filter, in the generator's order. */
  function FilteredItems(search: string, category: string): (r: seq<CatalogItem>)
    ensures forall x :: x in r <==> x in AllItems() && Matches(x, search, category)
    ensures IsSubsequence(r, AllItems())
  {
    FilterIsSubsequence(AllItems(), (x: CatalogItem) => Matches(x, search, category));
    Filter(AllItems(), (x: CatalogItem) => Matches(x, search, category))
  }

  /** The page's initial selections show every item. */
  lemma DefaultShowsEverything()
    ensures FilteredItems("", AllCategories) == AllItems()
  {
    var all := AllItems();
    forall i | 0 <= i < |all|
      ensures Matches(all[i], "", AllCategories)
    {
      ContainsEmpty(Lower(all[i].title));
    }
    FilterKeepsAll(all, (x: CatalogItem) => Matches(x, "", AllCategories));
  }

  /** Choosing "Men" shows only the even-numbered items, "Women" only the odd ones. */
  lemma CategoryParity(search: string, x: CatalogItem)
    ensures x in FilteredItems(search, "Men") ==> x.id % 2 == 0
    ensures x in FilteredItems(search, "Women") ==> x.id % 2 == 1
  {
  }

  /** The search ignores ASCII case in both the title and the term. */
  lemma SearchIgnoresCase(search: string, category: string)
    ensures FilteredItems(Lower(search), category) == FilteredItems(search, category)
  {
    LowerIdempotent(search);
    FilterSamePredicate(AllItems(), (x: CatalogItem) => Matches(x, Lower(search), category),
                        (x: CatalogItem) => Matches(x, search, category));
  }

  /** A category the generator never uses shows nothing. */
  lemma UnknownCategoryShowsNothing(search: string, category: string)
    requires category != AllCategories && category != "Men" && category != "Women"
    ensures FilteredItems(search, category) == []
  {
  }
}
