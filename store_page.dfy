/** frontend/src/pages/StorePage.tsx: the catalogue's filter sidebar and
    sort menu, applied to the items the page fetched. */
module StorePage {
  import opened Schema
  import Sql
  import Text
  import Sorting

  /** The product-type select: every type, or one type id. */
  datatype TypeFilter = AllTypes | OfType(id: int)

  /** The sidebar's state. `inStockOnly` has a check box but no filter
      behind it yet. */
  datatype Filters = Filters(selectedType: TypeFilter, inStockOnly: bool, priceRange: int, searchQuery: string)

  /** The lowercased query occurs in the lowercased name or description. */
  predicate MatchesQuery(query: string, item: Item) {
    Text.Contains(Text.ToLower(item.name), Text.ToLower(query))
    || Text.Contains(Text.ToLower(item.description), Text.ToLower(query))
  }

  /** The `items.filter` callback: each test rejects, and an item that
      passes them all is kept. */
  function Keep(f: Filters, item: Item): (kept: bool)
    ensures kept <==>
      && (f.selectedType.AllTypes? || item.itemTypeId == f.selectedType.id)
      && item.price <= f.priceRange
      && (f.searchQuery == [] || MatchesQuery(f.searchQuery, item))
  {
    if f.selectedType.OfType? && item.itemTypeId != f.selectedType.id then false
    else if item.price > f.priceRange then false
    else if f.searchQuery != [] && !MatchesQuery(f.searchQuery, item) then false
    else true
  }

  function KeepIn(f: Filters): Item -> bool {
    (item: Item) => Keep(f, item)
  }

  /** `filteredItems`: the kept items, each as often and in the order the
      fetched list has them. */
  function FilteredItems(items: seq<Item>, f: Filters): (r: seq<Item>)
    ensures Sql.Subsequence(r, items)
    ensures forall x :: x in r <==> x in items && Keep(f, x)
    ensures forall x :: multiset(r)[x] == if Keep(f, x) then multiset(items)[x] else 0
  {
    Sql.Select(items, KeepIn(f))
  }

  /** The four options the sort menu offers. */
  predicate KnownOption(sortOption: string) {
    sortOption == "nameAsc" || sortOption == "nameDesc" || sortOption == "priceAsc" || sortOption == "priceDesc"
  }

  /** The `sortedItems` comparator for a menu option; an unknown option
      ranks every pair equal. */
  function Comparator(sortOption: string): (Item, Item) -> int {
    if sortOption == "nameAsc" then (a: Item, b: Item) => Text.Compare(a.name, b.name)
    else if sortOption == "nameDesc" then (a: Item, b: Item) => Text.Compare(b.name, a.name)
    else if sortOption == "priceAsc" then (a: Item, b: Item) => a.price - b.price
    else if sortOption == "priceDesc" then (a: Item, b: Item) => b.price - a.price
    else (a: Item, b: Item) => 0
  }

  /** Each comparator flips sign when its arguments swap, so the stable sort
      orders by it. */
  lemma ComparatorAntisymmetric(sortOption: string)
    ensures Sorting.Antisymmetric(Comparator(sortOption))
  {
    var cmp := Comparator(sortOption);
    forall a: Item, b: Item ensures Sorting.Sign(cmp(a, b)) == -Sorting.Sign(cmp(b, a)) {
      Text.CompareAntisymmetric(a.name, b.name);
    }
  }

  /** Two items each ranked equal to a third are ranked equal to each other:
      the names, or the prices, of all three are the same. */
  lemma ComparatorTiesTransitive(sortOption: string)
    ensures Sorting.TiesTransitive(Comparator(sortOption))
  {
  }

  /** `sortedItems`: a stable sort of a copy of the filtered list. Items the
      option ranks equal (same name, or same price) keep the order the
      filtered list has them in. */
  function SortedItems(filtered: seq<Item>, sortOption: string): (r: seq<Item>)
    ensures multiset(r) == multiset(filtered)
    ensures sortOption == "nameAsc" ==> forall k :: 0 < k < |r| ==> Text.Compare(r[k - 1].name, r[k].name) <= 0
    ensures sortOption == "nameDesc" ==> forall k :: 0 < k < |r| ==> Text.Compare(r[k - 1].name, r[k].name) >= 0
    ensures sortOption == "priceAsc" ==> forall k :: 0 < k < |r| ==> r[k - 1].price <= r[k].price
    ensures sortOption == "priceDesc" ==> forall k :: 0 < k < |r| ==> r[k - 1].price >= r[k].price
    ensures !KnownOption(sortOption) ==> r == filtered
    ensures forall e :: Sorting.Ties(r, e, Comparator(sortOption)) == Sorting.Ties(filtered, e, Comparator(sortOption))
  {
    ComparatorAntisymmetric(sortOption);
    ComparatorTiesTransitive(sortOption);
    var r := Sorting.SortBy(filtered, Comparator(sortOption));
    OrderedByOption(r, sortOption);
    assert !KnownOption(sortOption) ==> r == filtered by {
      if !KnownOption(sortOption) {
        Sorting.SortByNeutral(filtered, Comparator(sortOption));
      }
    }
    r
  }

  /** What ordering by each option's comparator means for names and
      prices. */
  lemma OrderedByOption(r: seq<Item>, sortOption: string)
    requires Sorting.Ordered(r, Comparator(sortOption))
    ensures sortOption == "nameAsc" ==> forall k :: 0 < k < |r| ==> Text.Compare(r[k - 1].name, r[k].name) <= 0
    ensures sortOption == "nameDesc" ==> forall k :: 0 < k < |r| ==> Text.Compare(r[k - 1].name, r[k].name) >= 0
    ensures sortOption == "priceAsc" ==> forall k :: 0 < k < |r| ==> r[k - 1].price <= r[k].price
    ensures sortOption == "priceDesc" ==> forall k :: 0 < k < |r| ==> r[k - 1].price >= r[k].price
  {
    var cmp := Comparator(sortOption);
    forall k | 0 < k < |r| ensures cmp(r[k - 1], r[k]) <= 0 {
    }
    if sortOption == "nameDesc" {
      forall k | 0 < k < |r| ensures Text.Compare(r[k - 1].name, r[k].name) >= 0 {
        Text.CompareAntisymmetric(r[k].name, r[k - 1].name);
      }
    }
  }

  /** The grid shows exactly the items that pass the filters, each as often
      as it was fetched, whatever the sort option. */
  lemma ShownItems(items: seq<Item>, f: Filters, sortOption: string)
    ensures forall x :: multiset(SortedItems(FilteredItems(items, f), sortOption))[x]
                          == if Keep(f, x) then multiset(items)[x] else 0
  {
  }

  /** The in-stock check box changes nothing in the list. */
  lemma InStockOnlyIgnored(items: seq<Item>, f: Filters, inStockOnly: bool)
    ensures FilteredItems(items, f.(inStockOnly := inStockOnly)) == FilteredItems(items, f)
  {
    Sql.SelectAgreeing(items, KeepIn(f.(inStockOnly := inStockOnly)), KeepIn(f));
  }

  /** Raising the price limit never hides an item that was shown. */
  lemma WiderPriceRangeKeeps(items: seq<Item>, f: Filters, priceRange: int)
    requires f.priceRange <= priceRange
    ensures forall x :: x in FilteredItems(items, f) ==> x in FilteredItems(items, f.(priceRange := priceRange))
  {
  }

  /** With every type, an empty query and a limit no price exceeds, every
      fetched item is shown in fetch order. */
  lemma {:induction false} NoFilterKeepsAll(items: seq<Item>, f: Filters)
    requires f.selectedType.AllTypes? && f.searchQuery == []
    requires forall k :: 0 <= k < |items| ==> items[k].price <= f.priceRange
    ensures FilteredItems(items, f) == items
  {
    Sql.SelectAllMatching(items, KeepIn(f));
  }
}
