/** frontend/src/store/cartStore.ts: the shopping cart, a list of lines kept
    unique by (item, size) plus an open/closed flag. The actions replace the
    store's fields; the totals are folds over the lines. Prices are integer
    cents. */
module CartStore {
  import opened Schema
  import Sql

  /** One cart line: the item's display fields, the chosen size and the
      quantity. */
  datatype CartItem = CartItem(id: int, name: string, price: int, imageUrl: string, size: Size, quantity: int)

  /** The line belongs to the (item, size) pair. */
  predicate IsPair(line: CartItem, itemId: int, sizeId: int) {
    line.id == itemId && line.size.id == sizeId
  }

  function OfPair(itemId: int, sizeId: int): CartItem -> bool {
    (line: CartItem) => IsPair(line, itemId, sizeId)
  }

  function WithQuantity(quantity: int): CartItem -> CartItem {
    (line: CartItem) => line.(quantity := quantity)
  }

  /** Two lines name different (item, size) pairs. */
  function DistinctPairs(): (CartItem, CartItem) -> bool {
    (a: CartItem, b: CartItem) => !(a.id == b.id && a.size.id == b.size.id)
  }

  /** No two lines of the cart share an (item, size) pair. */
  ghost predicate Unique(items: seq<CartItem>) {
    Sql.Pairwise(items, DistinctPairs())
  }

  /** The position of the first line at or after `from` of the pair, or
      `|items|` when none is. */
  function FindFrom(items: seq<CartItem>, itemId: int, sizeId: int, from: int): (k: int)
    requires 0 <= from <= |items|
    ensures from <= k <= |items|
    ensures k < |items| ==> IsPair(items[k], itemId, sizeId)
    ensures forall j :: from <= j < k ==> !IsPair(items[j], itemId, sizeId)
    decreases |items| - from
  {
    if from == |items| || IsPair(items[from], itemId, sizeId) then from else FindFrom(items, itemId, sizeId, from + 1)
  }

  /** `findIndex`: the position of the first line of the pair, or -1. */
  function FindIndex(items: seq<CartItem>, itemId: int, sizeId: int): (k: int)
    ensures -1 <= k < |items|
    ensures k >= 0 ==> IsPair(items[k], itemId, sizeId) && forall j :: 0 <= j < k ==> !IsPair(items[j], itemId, sizeId)
    ensures k == -1 <==> forall j :: 0 <= j < |items| ==> !IsPair(items[j], itemId, sizeId)
  {
    var k := FindFrom(items, itemId, sizeId, 0);
    if k < |items| then k else -1
  }

  /** The line `addItem` appends for a pair not yet in the cart. */
  function NewLine(item: Item, size: Size, quantity: int): CartItem {
    CartItem(item.id, item.name, item.price, item.imageUrl, Size(size.id, size.name), quantity)
  }

  /** The lines after `addItem`: the pair's line gains the quantity, or a new
      line is appended. */
  function Added(items: seq<CartItem>, item: Item, size: Size, quantity: int): seq<CartItem> {
    var k := FindIndex(items, item.id, size.id);
    if k >= 0 then items[k := items[k].(quantity := items[k].quantity + quantity)]
    else items + [NewLine(item, size, quantity)]
  }

  /** The lines after `removeItem`: the `filter` that drops the pair. */
  function Removed(items: seq<CartItem>, itemId: int, sizeId: int): seq<CartItem> {
    Sql.DeleteWhere(items, OfPair(itemId, sizeId))
  }

  /** The lines after a positive `updateQuantity`: the `map` that sets the
      pair's quantity. */
  function Requantified(items: seq<CartItem>, itemId: int, sizeId: int, quantity: int): seq<CartItem> {
    Sql.UpdateWhere(items, OfPair(itemId, sizeId), WithQuantity(quantity))
  }

  /** `totalQuantity`: the `reduce` adding up the quantities, left to right. */
  function TotalQuantity(items: seq<CartItem>): int
    decreases |items|
  {
    if items == [] then 0 else TotalQuantity(items[..|items| - 1]) + items[|items| - 1].quantity
  }

  /** `totalPrice`: the `reduce` adding up price times quantity. */
  function TotalPrice(items: seq<CartItem>): int
    decreases |items|
  {
    if items == [] then 0
    else TotalPrice(items[..|items| - 1]) + items[|items| - 1].price * items[|items| - 1].quantity
  }

  /** The zustand store: the cart's lines and whether the drawer is open. */
  class Cart {
    var items: seq<CartItem>
    var isOpen: bool

    /** The initial state: no lines, drawer closed. */
    constructor ()
      ensures items == [] && !isOpen
    {
      items := [];
      isOpen := false;
    }

    /** `addItem`: look the pair up and either grow its line or append a
        new one. */
    method AddItem(item: Item, size: Size, quantity: int)
      modifies this
      ensures items == Added(old(items), item, size, quantity)
      ensures isOpen == old(isOpen)
    {
      var existingItemIndex := FindIndex(items, item.id, size.id);
      if existingItemIndex >= 0 {
        var line := items[existingItemIndex];
        items := items[existingItemIndex := line.(quantity := line.quantity + quantity)];
      } else {
        items := items + [CartItem(item.id, item.name, item.price, item.imageUrl, Size(size.id, size.name), quantity)];
      }
    }

    /** `removeItem`: drop every line of the pair. */
    method RemoveItem(itemId: int, sizeId: int)
      modifies this
      ensures items == Removed(old(items), itemId, sizeId)
      ensures isOpen == old(isOpen)
    {
      items := Sql.DeleteWhere(items, OfPair(itemId, sizeId));
    }

    /** `updateQuantity`: a quantity of zero or less removes the pair;
        otherwise every line of the pair takes the new quantity. */
    method UpdateQuantity(itemId: int, sizeId: int, newQuantity: int)
      modifies this
      ensures newQuantity <= 0 ==> items == Removed(old(items), itemId, sizeId)
      ensures newQuantity > 0 ==> items == Requantified(old(items), itemId, sizeId, newQuantity)
      ensures isOpen == old(isOpen)
    {
      if newQuantity <= 0 {
        RemoveItem(itemId, sizeId);
        return;
      }
      items := Sql.UpdateWhere(items, OfPair(itemId, sizeId), WithQuantity(newQuantity));
    }

    /** `clearCart`: no lines left; the drawer is left as it was. */
    method ClearCart()
      modifies this
      ensures items == [] && isOpen == old(isOpen)
    {
      items := [];
    }

    /** `toggleCart`: flips the drawer; the lines stay. */
    method ToggleCart()
      modifies this
      ensures isOpen == !old(isOpen) && items == old(items)
    {
      isOpen := !isOpen;
    }

    /** `setIsOpen`. */
    method SetIsOpen(open: bool)
      modifies this
      ensures isOpen == open && items == old(items)
    {
      isOpen := open;
    }
  }

  /** Adding to a pair already in the cart grows the quantity of its first
      line by the amount and changes nothing else: same length, same
      order. */
  lemma AddToExistingLine(items: seq<CartItem>, item: Item, size: Size, quantity: int, k: int)
    requires 0 <= k < |items| && IsPair(items[k], item.id, size.id)
    requires forall j :: 0 <= j < k ==> !IsPair(items[j], item.id, size.id)
    ensures var r := Added(items, item, size, quantity);
            && |r| == |items|
            && r[k] == items[k].(quantity := items[k].quantity + quantity)
            && forall j :: 0 <= j < |items| && j != k ==> r[j] == items[j]
  {
    var i := FindIndex(items, item.id, size.id);
    assert !(i < k) && !(k < i);
  }

  /** Adding a pair the cart does not hold appends exactly one line for it
      at the end. */
  lemma AddNewLine(items: seq<CartItem>, item: Item, size: Size, quantity: int)
    requires forall j :: 0 <= j < |items| ==> !IsPair(items[j], item.id, size.id)
    ensures Added(items, item, size, quantity) == items + [NewLine(item, size, quantity)]
  {
  }

  /** `addItem` keeps the lines unique by pair. */
  lemma AddKeepsUnique(items: seq<CartItem>, item: Item, size: Size, quantity: int)
    requires Unique(items)
    ensures Unique(Added(items, item, size, quantity))
  {
    var r := Added(items, item, size, quantity);
    var i := FindIndex(items, item.id, size.id);
    forall j, k | 0 <= j < k < |r| ensures DistinctPairs()(r[j], r[k]) {
      if i >= 0 {
        assert r[j].id == items[j].id && r[j].size == items[j].size;
        assert r[k].id == items[k].id && r[k].size == items[k].size;
        assert DistinctPairs()(items[j], items[k]);
      } else if k < |items| {
        assert DistinctPairs()(items[j], items[k]);
      } else {
        assert r[j] == items[j];
      }
    }
  }

  /** `removeItem` keeps the lines unique by pair. */
  lemma RemoveKeepsUnique(items: seq<CartItem>, itemId: int, sizeId: int)
    requires Unique(items)
    ensures Unique(Removed(items, itemId, sizeId))
  {
    Sql.DeleteKeepsPairwise(items, OfPair(itemId, sizeId), DistinctPairs());
  }

  /** `removeItem` drops exactly the lines of the pair and keeps the others
      in order. */
  lemma RemoveDropsPair(items: seq<CartItem>, itemId: int, sizeId: int)
    ensures forall x :: x in Removed(items, itemId, sizeId) <==> x in items && !IsPair(x, itemId, sizeId)
    ensures Sql.Subsequence(Removed(items, itemId, sizeId), items)
  {
  }

  /** Removing a pair the cart does not hold changes nothing. */
  lemma RemoveAbsentPair(items: seq<CartItem>, itemId: int, sizeId: int)
    requires forall j :: 0 <= j < |items| ==> !IsPair(items[j], itemId, sizeId)
    ensures Removed(items, itemId, sizeId) == items
  {
    assert !Sql.AnyRow(items, OfPair(itemId, sizeId));
    Sql.DeleteAppended(items, [], OfPair(itemId, sizeId));
    assert items + [] == items;
  }

  /** A positive `updateQuantity` sets the quantity of the pair's lines,
      leaves every other line alone and keeps the lines unique. */
  lemma RequantifyLines(items: seq<CartItem>, itemId: int, sizeId: int, quantity: int)
    ensures var r := Requantified(items, itemId, sizeId, quantity);
            && |r| == |items|
            && (forall k :: 0 <= k < |items| && IsPair(items[k], itemId, sizeId) ==> r[k] == items[k].(quantity := quantity))
            && (forall k :: 0 <= k < |items| && !IsPair(items[k], itemId, sizeId) ==> r[k] == items[k])
            && (Unique(items) ==> Unique(r))
  {
    var r := Requantified(items, itemId, sizeId, quantity);
    if Unique(items) {
      forall j, k | 0 <= j < k < |r| ensures DistinctPairs()(r[j], r[k]) {
        assert DistinctPairs()(items[j], items[k]);
      }
    }
  }

  /** `updateQuantity` with the same positive quantity twice is the same as
      once. */
  lemma RequantifyIdempotent(items: seq<CartItem>, itemId: int, sizeId: int, quantity: int)
    ensures Requantified(Requantified(items, itemId, sizeId, quantity), itemId, sizeId, quantity)
              == Requantified(items, itemId, sizeId, quantity)
  {
    Sql.UpdateWhereIdempotent(items, OfPair(itemId, sizeId), WithQuantity(quantity));
  }

  /** Replacing one line moves the total quantity by the difference of the
      two quantities. */
  lemma {:induction false} TotalQuantityUpdate(items: seq<CartItem>, k: int, line: CartItem)
    requires 0 <= k < |items|
    ensures TotalQuantity(items[k := line]) == TotalQuantity(items) - items[k].quantity + line.quantity
    decreases |items|
  {
    var n := |items|;
    var r := items[k := line];
    assert r[..n - 1] == if k == n - 1 then items[..n - 1] else items[..n - 1][k := line];
    if k < n - 1 {
      TotalQuantityUpdate(items[..n - 1], k, line);
    }
  }

  /** Replacing one line moves the total price by the difference of the two
      line amounts. */
  lemma {:induction false} TotalPriceUpdate(items: seq<CartItem>, k: int, line: CartItem)
    requires 0 <= k < |items|
    ensures TotalPrice(items[k := line])
              == TotalPrice(items) - items[k].price * items[k].quantity + line.price * line.quantity
    decreases |items|
  {
    var n := |items|;
    var r := items[k := line];
    assert r[..n - 1] == if k == n - 1 then items[..n - 1] else items[..n - 1][k := line];
    if k < n - 1 {
      TotalPriceUpdate(items[..n - 1], k, line);
    }
  }

  /** After `addItem(q)` the total quantity has grown by exactly `q`. */
  lemma AddTotalQuantity(items: seq<CartItem>, item: Item, size: Size, quantity: int)
    ensures TotalQuantity(Added(items, item, size, quantity)) == TotalQuantity(items) + quantity
  {
    var k := FindIndex(items, item.id, size.id);
    if k >= 0 {
      TotalQuantityUpdate(items, k, items[k].(quantity := items[k].quantity + quantity));
    } else {
      var r := items + [NewLine(item, size, quantity)];
      assert r[..|r| - 1] == items;
    }
  }

  /** After `addItem(q)` the total price has grown by `q` times the price of
      the line that took the quantity: the line already in the cart, whose
      price was copied when it was added, or the new line. */
  lemma AddTotalPrice(items: seq<CartItem>, item: Item, size: Size, quantity: int)
    ensures var k := FindIndex(items, item.id, size.id);
            TotalPrice(Added(items, item, size, quantity))
              == TotalPrice(items) + (if k >= 0 then items[k].price else item.price) * quantity
  {
    var k := FindIndex(items, item.id, size.id);
    if k >= 0 {
      var line := items[k];
      TotalPriceUpdate(items, k, line.(quantity := line.quantity + quantity));
      assert line.price * (line.quantity + quantity) == line.price * line.quantity + line.price * quantity;
    } else {
      var r := items + [NewLine(item, size, quantity)];
      assert r[..|r| - 1] == items;
    }
  }
}
