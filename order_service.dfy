/** backend/src/services/orderService.ts: orders and their lines. Creating
    an order resolves missing prices from the catalogue, works out the
    total, then inserts the order row and one line row per input line. */
module OrderService {
  import opened Wrappers
  import opened Schema
  import opened OrderValidation
  import Sql
  import Sorting
  import Text
  import ItemService
  import SizeService

  /** An input line once its price is known. */
  datatype PricedLine = PricedLine(itemId: int, sizeId: int, quantity: int, price: int)

  /** `Partial<Order>`, the body of an update. */
  datatype OrderPatch = OrderPatch(userId: Option<int>, orderDate: Option<string>, totalAmount: Option<int>, status: Option<string>)
  {
    /** No field supplied: `update` has nothing to set. */
    predicate IsEmpty() { userId.None? && orderDate.None? && totalAmount.None? && status.None? }
  }

  /** One record of `getOrderLines`: the line row, and the item and the size
      the left joins found, when they carry a name. */
  datatype OrderLineView = OrderLineView(line: OrderLine, item: Option<Item>, size: Option<Size>)

  /** The `WHERE id = ?` clause. */
  function HasId(id: int): Order -> bool {
    (o: Order) => o.id == id
  }

  /** The `WHERE userId = ?` clause. */
  function OfUser(userId: int): Order -> bool {
    (o: Order) => o.userId == userId
  }

  /** The `WHERE orderId = ?` clause on order lines. */
  function OfOrder(orderId: int): OrderLine -> bool {
    (l: OrderLine) => l.orderId == orderId
  }

  function OrderRowId(o: Order): int { o.id }

  function LineRowId(l: OrderLine): int { l.id }

  /** `ORDER BY orderDate DESC`: the later date (in code-point order) first. */
  function NewestFirst(): (Order, Order) -> int {
    (a: Order, b: Order) => Text.Compare(b.orderDate, a.orderDate)
  }

  /** The `SET` list `update` assembles: one assignment per supplied field. */
  function Patched(patch: OrderPatch): Order -> Order {
    (o: Order) =>
      o.(userId := patch.userId.GetOr(o.userId),
         orderDate := patch.orderDate.GetOr(o.orderDate),
         totalAmount := patch.totalAmount.GetOr(o.totalAmount),
         status := patch.status.GetOr(o.status))
  }

  /** A line `create` can price: it brings its own price, or its item
      exists. */
  predicate Priceable(items: seq<Item>, line: OrderLineInput) {
    line.priceAtTimeOfOrder.Some? || ItemService.GetById(items, line.itemId).Some?
  }

  /** The price `create` stores for a priceable line: its own, or the
      item's current price. */
  function PriceOf(items: seq<Item>, line: OrderLineInput): int
    requires Priceable(items, line)
  {
    if line.priceAtTimeOfOrder.Some? then line.priceAtTimeOfOrder.value
    else ItemService.GetById(items, line.itemId).value.price
  }

  /** The position of the first line at or after `from` that cannot be
      priced, or `|lines|` when all can. */
  function FirstUnpriceable(items: seq<Item>, lines: seq<OrderLineInput>, from: int): (k: int)
    requires 0 <= from <= |lines|
    ensures from <= k <= |lines|
    ensures k < |lines| ==> !Priceable(items, lines[k])
    ensures forall j :: from <= j < k ==> Priceable(items, lines[j])
    decreases |lines| - from
  {
    if from == |lines| || !Priceable(items, lines[from]) then from else FirstUnpriceable(items, lines, from + 1)
  }

  /** The price resolution of `create`: a line without a price takes the
      item's current price; an unknown item fails the whole order with its
      id. */
  function ResolvePrices(items: seq<Item>, lines: seq<OrderLineInput>): (r: Result<seq<PricedLine>, int>)
    ensures r.Success? <==>
      forall k :: 0 <= k < |lines| && lines[k].priceAtTimeOfOrder.None? ==> ItemService.GetById(items, lines[k].itemId).Some?
    ensures r.Success? ==> |r.value| == |lines|
    ensures r.Success? ==> forall k :: 0 <= k < |lines| ==>
      && r.value[k].itemId == lines[k].itemId
      && r.value[k].sizeId == lines[k].sizeId
      && r.value[k].quantity == lines[k].quantity
      && r.value[k].price == if lines[k].priceAtTimeOfOrder.Some? then lines[k].priceAtTimeOfOrder.value
                             else ItemService.GetById(items, lines[k].itemId).value.price
    ensures r.Failure? ==> exists k :: 0 <= k < |lines| && lines[k].priceAtTimeOfOrder.None?
                                        && ItemService.GetById(items, lines[k].itemId).None? && r.error == lines[k].itemId
  {
    var k := FirstUnpriceable(items, lines, 0);
    if k < |lines| then Failure(lines[k].itemId)
    else Success(seq(|lines|, j requires 0 <= j < |lines| =>
                   PricedLine(lines[j].itemId, lines[j].sizeId, lines[j].quantity, PriceOf(items, lines[j]))))
  }

  /** The sum of price times quantity over the lines. */
  function LineTotal(lines: seq<PricedLine>): int {
    if lines == [] then 0 else lines[0].price * lines[0].quantity + LineTotal(lines[1..])
  }

  /** `orderData.totalAmount || sum`: the supplied total unless it is absent
      or zero. */
  function OrderTotal(given: Option<int>, lines: seq<PricedLine>): (r: int)
    ensures given.Some? && given.value != 0 ==> r == given.value
    ensures given.None? || given.value == 0 ==> r == LineTotal(lines)
  {
    if given.Some? && given.value != 0 then given.value else LineTotal(lines)
  }

  /** `orderData.orderDate || now`. */
  function OrderDate(given: Option<string>, now: string): (r: string)
    ensures given.Some? && given.value != "" ==> r == given.value
    ensures given.None? || given.value == "" ==> r == now
  {
    if given.Some? && given.value != "" then given.value else now
  }

  /** `orderData.status || 'Completed'`. */
  function OrderStatus(given: Option<string>): (r: string)
    ensures given.Some? && given.value != "" ==> r == given.value
    ensures given.None? || given.value == "" ==> r == "Completed"
  {
    if given.Some? && given.value != "" then given.value else "Completed"
  }

  /** The line rows `create` inserts for order `orderId`, with consecutive
      ids from `firstId`, in input order. */
  function LineRows(orderId: int, firstId: int, lines: seq<PricedLine>): (r: seq<OrderLine>)
    ensures |r| == |lines|
    ensures forall k :: 0 <= k < |lines| ==>
      r[k] == OrderLine(firstId + k, orderId, lines[k].itemId, lines[k].sizeId, lines[k].quantity, lines[k].price)
  {
    seq(|lines|, k requires 0 <= k < |lines| =>
      OrderLine(firstId + k, orderId, lines[k].itemId, lines[k].sizeId, lines[k].quantity, lines[k].price))
  }


  /** `getAll`: every order, latest date first. */
  function GetAll(orders: seq<Order>): (r: seq<Order>)
    ensures multiset(r) == multiset(orders)
    ensures forall k :: 0 < k < |r| ==> Text.Compare(r[k - 1].orderDate, r[k].orderDate) >= 0
  {
    NewestFirstAntisymmetric();
    Sorting.SortBy(orders, NewestFirst())
  }

  /** `getById`: the order with that id, or null. */
  function GetById(orders: seq<Order>, id: int): (r: Option<Order>)
    ensures r.Some? ==> r.value in orders && r.value.id == id
    ensures r.None? <==> forall k :: 0 <= k < |orders| ==> orders[k].id != id
  {
    Sql.First(orders, HasId(id))
  }

  /** `getByUserId`: exactly the user's orders, each once per row, latest
      date first. */
  function GetByUserId(orders: seq<Order>, userId: int): (r: seq<Order>)
    ensures forall o :: multiset(r)[o] == if o.userId == userId then multiset(orders)[o] else 0
    ensures forall k :: 0 < k < |r| ==> Text.Compare(r[k - 1].orderDate, r[k].orderDate) >= 0
  {
    NewestFirstAntisymmetric();
    Sorting.SortBy(Sql.Select(orders, OfUser(userId)), NewestFirst())
  }

  /** The row mapping of `getOrderLines`: an item is attached only when the
      join found one with a non-empty name (its type id read as 0), a size
      only when the join found one with a non-empty name. */
  function ViewOf(line: OrderLine, items: seq<Item>, sizes: seq<Size>): (v: OrderLineView)
    ensures v.line == line
    ensures v.item.Some? <==> ItemService.GetById(items, line.itemId).Some? && ItemService.GetById(items, line.itemId).value.name != ""
    ensures v.item.Some? ==> v.item.value == ItemService.GetById(items, line.itemId).value.(itemTypeId := 0)
    ensures v.size.Some? <==> SizeService.GetById(sizes, line.sizeId).Some? && SizeService.GetById(sizes, line.sizeId).value.name != ""
    ensures v.size.Some? ==> v.size.value == Size(line.sizeId, SizeService.GetById(sizes, line.sizeId).value.name)
  {
    var item := ItemService.GetById(items, line.itemId);
    var size := SizeService.GetById(sizes, line.sizeId);
    OrderLineView(
      line,
      if item.Some? && item.value.name != "" then
        Some(Item(line.itemId, item.value.name, item.value.description, item.value.price, 0, item.value.imageUrl))
      else None,
      if size.Some? && size.value.name != "" then Some(Size(line.sizeId, size.value.name)) else None)
  }

  function Views(rows: seq<OrderLine>, items: seq<Item>, sizes: seq<Size>): (r: seq<OrderLineView>)
    ensures |r| == |rows|
    ensures forall k :: 0 <= k < |rows| ==> r[k] == ViewOf(rows[k], items, sizes)
  {
    seq(|rows|, k requires 0 <= k < |rows| => ViewOf(rows[k], items, sizes))
  }

  /** `getOrderLines`: one record per line row of the order, in table
      order. */
  function GetOrderLines(lines: seq<OrderLine>, items: seq<Item>, sizes: seq<Size>, orderId: int): (r: seq<OrderLineView>)
    ensures |r| == |Sql.Select(lines, OfOrder(orderId))|
    ensures forall k :: 0 <= k < |r| ==> r[k] == ViewOf(Sql.Select(lines, OfOrder(orderId))[k], items, sizes)
    ensures forall v :: v in r ==> v.line in lines && v.line.orderId == orderId
  {
    var selected := Sql.Select(lines, OfOrder(orderId));
    assert forall k :: 0 <= k < |selected| ==> selected[k] in lines && OfOrder(orderId)(selected[k]);
    Views(selected, items, sizes)
  }

  /** The table after a non-empty `update` of order `id`: that row takes the
      supplied fields and keeps the others, every other order is
      untouched. */
  function ApplyPatch(orders: seq<Order>, id: int, patch: OrderPatch): (r: seq<Order>)
    ensures |r| == |orders|
    ensures forall k :: 0 <= k < |orders| && orders[k].id != id ==> r[k] == orders[k]
    ensures forall k :: 0 <= k < |orders| && orders[k].id == id ==>
      && r[k].id == id
      && r[k].userId == (if patch.userId.Some? then patch.userId.value else orders[k].userId)
      && r[k].orderDate == (if patch.orderDate.Some? then patch.orderDate.value else orders[k].orderDate)
      && r[k].totalAmount == (if patch.totalAmount.Some? then patch.totalAmount.value else orders[k].totalAmount)
      && r[k].status == (if patch.status.Some? then patch.status.value else orders[k].status)
  {
    Sql.UpdateWhere(orders, HasId(id), Patched(patch))
  }

  /** `create`, after the body passed `orderSchema` (at least one line: with
      none, the transaction is never committed and the call never
      settles). An unknown item fails before anything is written;
      otherwise the order row and its line rows are inserted and the new
      order id is returned. */
  method Create(db: Store, input: OrderInput, now: string) returns (result: Result<int, int>)
    requires |input.orderLines| >= 1
    modifies db`orders, db`orderLines
    ensures ResolvePrices(db.items, input.orderLines).Failure? ==>
      && result == Failure(ResolvePrices(db.items, input.orderLines).error)
      && db.orders == old(db.orders) && db.orderLines == old(db.orderLines)
    ensures ResolvePrices(db.items, input.orderLines).Success? ==>
      var priced := ResolvePrices(db.items, input.orderLines).value;
      var orderId := Sql.NextId(old(db.orders), OrderRowId);
      && result == Success(orderId)
      && db.orders == old(db.orders) + [Order(orderId, input.userId, OrderDate(input.orderDate, now),
                                              OrderTotal(input.totalAmount, priced), OrderStatus(input.status))]
      && db.orderLines == old(db.orderLines) + LineRows(orderId, Sql.NextId(old(db.orderLines), LineRowId), priced)
  {
    var resolved := ResolvePrices(db.items, input.orderLines);
    if resolved.Failure? {
      return Failure(resolved.error);
    }
    var orderId := InsertOrder(db, input, now, resolved.value);
    result := Success(orderId);
  }

  /** The inserts of `create` once the prices are resolved: the order row
      with its defaults, then one line row per priced line. */
  method InsertOrder(db: Store, input: OrderInput, now: string, priced: seq<PricedLine>) returns (orderId: int)
    modifies db`orders, db`orderLines
    ensures orderId == Sql.NextId(old(db.orders), OrderRowId)
    ensures db.orders == old(db.orders) + [Order(orderId, input.userId, OrderDate(input.orderDate, now),
                                                 OrderTotal(input.totalAmount, priced), OrderStatus(input.status))]
    ensures db.orderLines == old(db.orderLines) + LineRows(orderId, Sql.NextId(old(db.orderLines), LineRowId), priced)
  {
    orderId := Sql.NextId(db.orders, OrderRowId);
    var row := Order(orderId, input.userId, OrderDate(input.orderDate, now),
                     OrderTotal(input.totalAmount, priced), OrderStatus(input.status));
    db.orders := db.orders + [row];
    InsertLines(db, orderId, priced);
  }

  method InsertLines(db: Store, orderId: int, priced: seq<PricedLine>)
    modifies db`orderLines
    ensures db.orderLines == old(db.orderLines) + LineRows(orderId, Sql.NextId(old(db.orderLines), LineRowId), priced)
  {
    ghost var first := Sql.NextId(db.orderLines, LineRowId);
    ghost var inserted: seq<OrderLine> := [];
    var k := 0;
    while k < |priced|
      invariant 0 <= k <= |priced|
      invariant inserted == LineRows(orderId, first, priced[..k])
      invariant db.orderLines == old(db.orderLines) + inserted
      invariant Sql.NextId(db.orderLines, LineRowId) == first + k
    {
      var lineId := Sql.NextId(db.orderLines, LineRowId);
      var row := OrderLine(lineId, orderId, priced[k].itemId, priced[k].sizeId, priced[k].quantity, priced[k].price);
      Sql.NextIdAfterInsert(db.orderLines, LineRowId, row);
      LineRowsSnoc(orderId, first, priced, k);
      inserted := inserted + [row];
      db.orderLines := db.orderLines + [row];
      k := k + 1;
    }
    assert priced[..k] == priced;
  }

  lemma LineRowsSnoc(orderId: int, firstId: int, lines: seq<PricedLine>, k: int)
    requires 0 <= k < |lines|
    ensures LineRows(orderId, firstId, lines[..k + 1])
         == LineRows(orderId, firstId, lines[..k])
            + [OrderLine(firstId + k, orderId, lines[k].itemId, lines[k].sizeId, lines[k].quantity, lines[k].price)]
  {
    var a := LineRows(orderId, firstId, lines[..k + 1]);
    var b := LineRows(orderId, firstId, lines[..k])
            + [OrderLine(firstId + k, orderId, lines[k].itemId, lines[k].sizeId, lines[k].quantity, lines[k].price)];
    assert |a| == |b|;
    forall i | 0 <= i < |a| ensures a[i] == b[i] {
    }
  }

  /** `update`: an empty patch resolves false and writes nothing; otherwise
      the patch is applied and the result says whether the order existed. */
  method Update(db: Store, id: int, patch: OrderPatch) returns (changed: bool)
    modifies db`orders
    ensures patch.IsEmpty() ==> !changed && db.orders == old(db.orders)
    ensures !patch.IsEmpty() ==> db.orders == ApplyPatch(old(db.orders), id, patch)
    ensures !patch.IsEmpty() ==> (changed <==> GetById(old(db.orders), id).Some?)
  {
    if patch.IsEmpty() {
      return false;
    }
    changed := Sql.AnyRow(db.orders, HasId(id));
    db.orders := Sql.UpdateWhere(db.orders, HasId(id), Patched(patch));
  }

  /** `delete`: removes the order's lines, then the order, and says whether
      the order row existed. */
  method Delete(db: Store, id: int) returns (deleted: bool)
    modifies db`orders, db`orderLines
    ensures db.orderLines == Sql.DeleteWhere(old(db.orderLines), OfOrder(id))
    ensures db.orders == Sql.DeleteWhere(old(db.orders), HasId(id))
    ensures deleted <==> GetById(old(db.orders), id).Some?
  {
    db.orderLines := Sql.DeleteWhere(db.orderLines, OfOrder(id));
    deleted := Sql.AnyRow(db.orders, HasId(id));
    db.orders := Sql.DeleteWhere(db.orders, HasId(id));
  }

  lemma NewestFirstAntisymmetric()
    ensures Sorting.Antisymmetric(NewestFirst())
  {
    forall a: Order, b: Order ensures Sorting.Sign(NewestFirst()(a, b)) == -Sorting.Sign(NewestFirst()(b, a)) {
      Text.CompareAntisymmetric(b.orderDate, a.orderDate);
    }
  }

  /** Under `orderSchema` a supplied total is positive, so the fallback to
      the line sum happens exactly when the total is absent. */
  lemma TotalUnderSchema(input: OrderInput, lines: seq<PricedLine>)
    requires ValidOrder(input)
    ensures OrderTotal(input.totalAmount, lines) == if input.totalAmount.Some? then input.totalAmount.value else LineTotal(lines)
  {
  }

  /** Reading an order back after a non-empty `update` finds the old order
      with the patch applied. */
  lemma ReadBackPatched(orders: seq<Order>, id: int, patch: OrderPatch)
    ensures var before := GetById(orders, id);
            GetById(ApplyPatch(orders, id, patch), id)
              == if before.Some? then Some(Patched(patch)(before.value)) else None
  {
    Sql.FirstAfterUpdate(orders, HasId(id), Patched(patch));
  }
}
