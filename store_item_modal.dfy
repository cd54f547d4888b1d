/** frontend/src/components/StoreItemModal.tsx: the product dialog's stock
    lookup, its quantity box and its "add to cart" button. */
module StoreItemModal {
  import opened Wrappers
  import opened Schema
  import Text
  import CartStore

  /** The position of the first availability row for the size, or the
      length when there is none. */
  function StockIndex(availability: seq<ItemAvailability>, sizeId: int, from: int): (k: int)
    requires 0 <= from <= |availability|
    ensures from <= k <= |availability|
    ensures k < |availability| ==> availability[k].sizeId == sizeId
    ensures forall j :: from <= j < k ==> availability[j].sizeId != sizeId
    decreases |availability| - from
  {
    if from == |availability| || availability[from].sizeId == sizeId then from
    else StockIndex(availability, sizeId, from + 1)
  }

  /** `getStockForSize`: the stock of the first row for the size; no row
      (and a zero stock) gives 0. */
  function GetStockForSize(availability: seq<ItemAvailability>, sizeId: int): (stock: int)
    ensures (forall j :: 0 <= j < |availability| ==> availability[j].sizeId != sizeId) ==> stock == 0
    ensures forall k :: 0 <= k < |availability| && availability[k].sizeId == sizeId
                        && (forall j :: 0 <= j < k ==> availability[j].sizeId != sizeId)
                        ==> stock == availability[k].quantityInStock
  {
    var k := StockIndex(availability, sizeId, 0);
    if k < |availability| then availability[k].quantityInStock else 0
  }

  /** `isSizeInStock`. */
  predicate IsSizeInStock(availability: seq<ItemAvailability>, sizeId: int) {
    GetStockForSize(availability, sizeId) > 0
  }

  /** A size is in stock exactly when its first row holds a positive stock. */
  lemma InStockIffFirstRowPositive(availability: seq<ItemAvailability>, sizeId: int)
    ensures IsSizeInStock(availability, sizeId) <==>
      exists k :: 0 <= k < |availability| && availability[k].sizeId == sizeId
                  && (forall j :: 0 <= j < k ==> availability[j].sizeId != sizeId)
                  && availability[k].quantityInStock > 0
  {
    var k := StockIndex(availability, sizeId, 0);
    if k < |availability| {
      assert availability[k].sizeId == sizeId;
    }
  }

  /** The quantity box's `onChange`: the typed number (`None` when it does
      not parse), with 0 and a failed parse read as 1, raised to at least 1
      and then capped at the stock. */
  function ClampQuantity(parsed: Option<int>, stock: int): (quantity: int)
    ensures stock >= 1 ==> 1 <= quantity <= stock
    ensures stock < 1 ==> quantity == stock
    ensures parsed.Some? && 1 <= parsed.value <= stock ==> quantity == parsed.value
    ensures (parsed.None? || parsed.value < 1) && stock >= 1 ==> quantity == 1
  {
    var asked := if parsed.None? || parsed.value == 0 then 1 else parsed.value;
    var atLeastOne := if asked < 1 then 1 else asked;
    if atLeastOne < stock then atLeastOne else stock
  }

  /** `String(n)` for any whole number. */
  function IntToString(n: int): string {
    if n < 0 then "-" + Text.NatToString(-n) else Text.NatToString(n)
  }

  /** The position of the first size with the id, or the length. */
  function SizeIndex(sizes: seq<Size>, sizeId: int, from: int): (k: int)
    requires 0 <= from <= |sizes|
    ensures from <= k <= |sizes|
    ensures k < |sizes| ==> sizes[k].id == sizeId
    ensures forall j :: from <= j < k ==> sizes[j].id != sizeId
    decreases |sizes| - from
  {
    if from == |sizes| || sizes[from].id == sizeId then from
    else SizeIndex(sizes, sizeId, from + 1)
  }

  /** What pressing the button leads to. */
  datatype AddResult = Ignored | Refused(error: string) | AddedToCart(size: Size)

  /** `handleAddToCart`'s decision. No item, no selected size (an empty
      select, or the falsy id 0) or a size outside the item type's sizes:
      nothing happens. A quantity above the size's stock: the stock error.
      Otherwise the first size with the selected id goes to the cart. */
  function AddOutcome(item: Option<Item>, sizes: seq<Size>, availability: seq<ItemAvailability>,
                      selectedSizeId: Option<int>, quantity: int): (result: AddResult)
    ensures result.Ignored? <==>
      || item.None? || selectedSizeId.None? || selectedSizeId.value == 0
      || forall j :: 0 <= j < |sizes| ==> sizes[j].id != selectedSizeId.value
    ensures result.Refused? <==> !result.Ignored? && quantity > GetStockForSize(availability, selectedSizeId.value)
    ensures result.Refused? ==>
              result.error == "Sorry, only " + IntToString(GetStockForSize(availability, selectedSizeId.value)) + " items available in this size."
    ensures result.AddedToCart? ==> result.size in sizes && result.size.id == selectedSizeId.value
  {
    if item.None? || selectedSizeId.None? || selectedSizeId.value == 0 then Ignored
    else
      var k := SizeIndex(sizes, selectedSizeId.value, 0);
      if k == |sizes| then Ignored
      else
        var availableStock := GetStockForSize(availability, selectedSizeId.value);
        if quantity > availableStock then
          Refused("Sorry, only " + IntToString(availableStock) + " items available in this size.")
        else AddedToCart(sizes[k])
  }

  /** `handleAddToCart`: the cart gains the quantity only when the decision
      is to add; every other outcome leaves the cart as it was. */
  method HandleAddToCart(cart: CartStore.Cart, item: Option<Item>, sizes: seq<Size>, availability: seq<ItemAvailability>,
                         selectedSizeId: Option<int>, quantity: int)
    returns (result: AddResult)
    modifies cart
    ensures result == AddOutcome(item, sizes, availability, selectedSizeId, quantity)
    ensures result.AddedToCart? ==> cart.items == CartStore.Added(old(cart.items), item.value, result.size, quantity)
    ensures !result.AddedToCart? ==> cart.items == old(cart.items)
    ensures cart.isOpen == old(cart.isOpen)
  {
    result := AddOutcome(item, sizes, availability, selectedSizeId, quantity);
    if result.AddedToCart? {
      cart.AddItem(item.value, result.size, quantity);
    }
  }

  /** An added quantity never exceeds the stock the dialog showed. */
  lemma AddedWithinStock(item: Option<Item>, sizes: seq<Size>, availability: seq<ItemAvailability>,
                         selectedSizeId: Option<int>, quantity: int)
    requires AddOutcome(item, sizes, availability, selectedSizeId, quantity).AddedToCart?
    ensures quantity <= GetStockForSize(availability, selectedSizeId.value)
    ensures IsSizeInStock(availability, selectedSizeId.value) || quantity <= 0
  {
  }
}
