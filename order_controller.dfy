/** backend/src/controllers/orderController.ts: the order/inventory ledger.
    Placing an order checks every line against the stock it finds, inserts
    the order, then walks the lines again, re-reading and overwriting each
    line's stock; deleting an order walks its stored lines and puts the
    quantities back. */
module OrderController {
  import opened Wrappers
  import opened Schema
  import opened Http
  import opened OrderValidation
  import Sql
  import Text
  import Stock = ItemAvailabilityService
  import Orders = OrderService
  import Users = UserService

  /** One stock adjustment: the (item, size) pair and the quantity a line
      names. */
  datatype StockMove = StockMove(itemId: int, sizeId: int, quantity: int)

  /** The 201 body of `create`: the order row and its line records. */
  datatype CreatedOrder = CreatedOrder(order: Order, orderLines: seq<Orders.OrderLineView>)

  /** The 200 body of `getById`: the order, its user (null when gone) and its
      line records. */
  datatype OrderDetails = OrderDetails(order: Order, user: Option<User>, orderLines: seq<Orders.OrderLineView>)

  /** The three tables an order handler may write, for "nothing changed". */
  function Tables(db: Store): (seq<Order>, seq<OrderLine>, seq<ItemAvailability>)
    reads db
  {
    (db.orders, db.orderLines, db.availability)
  }

  /** The stock a pair reads, or None when no row stocks it. */
  function StockOf(rows: seq<ItemAvailability>, itemId: int, sizeId: int): Option<int>
  {
    var k := Stock.PairIndex(rows, itemId, sizeId, 0);
    if k < |rows| then Some(rows[k].quantityInStock) else None
  }

  function Shift(stock: Option<int>, delta: int): Option<int> {
    if stock.Some? then Some(stock.value + delta) else None
  }

  /** One pass of either stock loop: re-read the pair and, when a row
      stocks it, overwrite its stock with what was read plus `delta`. */
  function Adjust(rows: seq<ItemAvailability>, itemId: int, sizeId: int, delta: int): seq<ItemAvailability> {
    var k := Stock.PairIndex(rows, itemId, sizeId, 0);
    if k < |rows| then Stock.SetStock(rows, itemId, sizeId, rows[k].quantityInStock + delta) else rows
  }

  /** The decrement loop of `create`, one move after the other. */
  function Withdraw(rows: seq<ItemAvailability>, moves: seq<StockMove>): seq<ItemAvailability>
    decreases |moves|
  {
    if moves == [] then rows
    else
      var m := moves[|moves| - 1];
      Adjust(Withdraw(rows, moves[..|moves| - 1]), m.itemId, m.sizeId, -m.quantity)
  }

  /** The restock loop of `delete`, one move after the other. */
  function Restore(rows: seq<ItemAvailability>, moves: seq<StockMove>): seq<ItemAvailability>
    decreases |moves|
  {
    if moves == [] then rows
    else
      var m := moves[|moves| - 1];
      Adjust(Restore(rows, moves[..|moves| - 1]), m.itemId, m.sizeId, m.quantity)
  }

  /** The total quantity the moves name for one pair. */
  function Demand(moves: seq<StockMove>, itemId: int, sizeId: int): int
    decreases |moves|
  {
    if moves == [] then 0
    else
      var m := moves[|moves| - 1];
      Demand(moves[..|moves| - 1], itemId, sizeId) + Share(m, itemId, sizeId)
  }

  /** The quantity one move names for a pair. */
  function Share(m: StockMove, itemId: int, sizeId: int): int {
    if m.itemId == itemId && m.sizeId == sizeId then m.quantity else 0
  }

  function MoveOf(line: OrderLineInput): StockMove {
    StockMove(line.itemId, line.sizeId, line.quantity)
  }

  /** The moves of the request's lines, in request order. */
  function Moves(lines: seq<OrderLineInput>): (r: seq<StockMove>)
    ensures |r| == |lines|
    ensures forall k :: 0 <= k < |lines| ==> r[k] == MoveOf(lines[k])
  {
    if lines == [] then [] else [MoveOf(lines[0])] + Moves(lines[1..])
  }

  /** The moves of stored line rows, in table order. The records `delete`
      fetches copy each row's item id, size id and quantity, so these are
      the moves its restock loop walks. */
  function LineMoves(rows: seq<OrderLine>): (r: seq<StockMove>)
    ensures |r| == |rows|
    ensures forall k :: 0 <= k < |rows| ==> r[k] == StockMove(rows[k].itemId, rows[k].sizeId, rows[k].quantity)
  {
    if rows == [] then [] else [StockMove(rows[0].itemId, rows[0].sizeId, rows[0].quantity)] + LineMoves(rows[1..])
  }

  /** A line passes the check loop: its pair is stocked and the stock read
      covers the line's quantity on its own. */
  predicate Covered(rows: seq<ItemAvailability>, line: OrderLineInput) {
    var found := Stock.GetByItemAndSize(rows, line.itemId, line.sizeId);
    found.Some? && found.value.quantityInStock >= line.quantity
  }

  /** The 400 body for a line that fails the check. */
  function ProblemOf(rows: seq<ItemAvailability>, line: OrderLineInput): ErrorBody {
    var found := Stock.GetByItemAndSize(rows, line.itemId, line.sizeId);
    if found.None? then UnavailablePair("Item not available in the specified size", line.itemId, line.sizeId)
    else ShortStock("Not enough stock available", line.itemId, line.sizeId, line.quantity, found.value.quantityInStock)
  }

  /** The position of the first line at or after `from` that the check
      loop rejects, or `|lines|` when it accepts them all. */
  function FirstUncovered(rows: seq<ItemAvailability>, lines: seq<OrderLineInput>, from: int): (k: int)
    requires 0 <= from <= |lines|
    ensures from <= k <= |lines|
    ensures k < |lines| ==> !Covered(rows, lines[k])
    ensures forall j :: from <= j < k ==> Covered(rows, lines[j])
    decreases |lines| - from
  {
    if from == |lines| || !Covered(rows, lines[from]) then from else FirstUncovered(rows, lines, from + 1)
  }

  /** The check loop of `create`: the problem of the first line that fails,
      or None when every line is covered. */
  function StockProblem(rows: seq<ItemAvailability>, lines: seq<OrderLineInput>): (r: Option<ErrorBody>)
    ensures r.None? <==> forall k :: 0 <= k < |lines| ==> Covered(rows, lines[k])
    ensures r.Some? ==> exists k :: 0 <= k < |lines| && !Covered(rows, lines[k]) && r.value == ProblemOf(rows, lines[k])
                                    && forall j :: 0 <= j < k ==> Covered(rows, lines[j])
  {
    var k := FirstUncovered(rows, lines, 0);
    if k < |lines| then Some(ProblemOf(rows, lines[k])) else None
  }

  /** The decrement loop of `create`: for each move, re-read the pair and
      overwrite its stock with what was read minus the quantity. */
  method TakeStock(db: Store, moves: seq<StockMove>)
    modifies db`availability
    ensures db.availability == Withdraw(old(db.availability), moves)
  {
    var k := 0;
    while k < |moves|
      invariant 0 <= k <= |moves|
      invariant db.availability == Withdraw(old(db.availability), moves[..k])
    {
      var m := moves[k];
      var found := Stock.GetByItemAndSize(db.availability, m.itemId, m.sizeId);
      if found.Some? {
        var _ := Stock.UpdateStock(db, m.itemId, m.sizeId, found.value.quantityInStock - m.quantity);
      }
      assert moves[..k + 1][..k] == moves[..k];
      k := k + 1;
    }
    assert moves[..k] == moves;
  }

  /** The restock loop of `delete`: for each move, re-read the pair and
      overwrite its stock with what was read plus the quantity; a pair no
      row stocks any more is skipped. */
  method PutBackStock(db: Store, moves: seq<StockMove>)
    modifies db`availability
    ensures db.availability == Restore(old(db.availability), moves)
  {
    var k := 0;
    while k < |moves|
      invariant 0 <= k <= |moves|
      invariant db.availability == Restore(old(db.availability), moves[..k])
    {
      var m := moves[k];
      var found := Stock.GetByItemAndSize(db.availability, m.itemId, m.sizeId);
      if found.Some? {
        var _ := Stock.UpdateStock(db, m.itemId, m.sizeId, found.value.quantityInStock + m.quantity);
      }
      assert moves[..k + 1][..k] == moves[..k];
      k := k + 1;
    }
    assert moves[..k] == moves;
  }

  /** The check loop of `create`: each line, in order, must find its pair
      stocked with at least its quantity; the first that does not decides
      the 400 body. */
  method CheckStock(db: Store, lines: seq<OrderLineInput>) returns (problem: Option<ErrorBody>)
    ensures problem == StockProblem(db.availability, lines)
  {
    var k := 0;
    while k < |lines|
      invariant 0 <= k <= |lines|
      invariant FirstUncovered(db.availability, lines, 0) == FirstUncovered(db.availability, lines, k)
    {
      var line := lines[k];
      var availability := Stock.GetByItemAndSize(db.availability, line.itemId, line.sizeId);
      if availability.None? {
        return Some(UnavailablePair("Item not available in the specified size", line.itemId, line.sizeId));
      }
      if availability.value.quantityInStock < line.quantity {
        return Some(ShortStock("Not enough stock available", line.itemId, line.sizeId,
                               line.quantity, availability.value.quantityInStock));
      }
      k := k + 1;
    }
    return None;
  }

  /** The order row `create` inserts once the prices are resolved. */
  function NewOrder(orders: seq<Order>, input: OrderInput, now: string, priced: seq<Orders.PricedLine>): Order {
    Order(Sql.NextId(orders, Orders.OrderRowId), input.userId, Orders.OrderDate(input.orderDate, now),
          Orders.OrderTotal(input.totalAmount, priced), Orders.OrderStatus(input.status))
  }

  /** What a successful `create` leaves behind: the order row and its line
      rows appended, every line's quantity taken off its pair, and the 201
      body holding the new order and its line records. */
  ghost predicate Placed(
    orders0: seq<Order>, lines0: seq<OrderLine>, stock0: seq<ItemAvailability>,
    orders: seq<Order>, lines: seq<OrderLine>, stock: seq<ItemAvailability>,
    items: seq<Item>, sizes: seq<Size>, input: OrderInput, now: string, resp: Response<CreatedOrder>)
  {
    && Orders.ResolvePrices(items, input.orderLines).Success?
    && var priced := Orders.ResolvePrices(items, input.orderLines).value;
       var order := NewOrder(orders0, input, now, priced);
       && orders == orders0 + [order]
       && lines == lines0 + Orders.LineRows(order.id, Sql.NextId(lines0, Orders.LineRowId), priced)
       && stock == Withdraw(stock0, Moves(input.orderLines))
       && resp == Ok(201, CreatedOrder(order, Orders.GetOrderLines(lines, items, sizes, order.id)))
  }

  /** The writes of `create` once every check has passed: an unknown item
      while resolving prices is a 500 with nothing written; otherwise the
      order is inserted and the stock taken. */
  method Place(db: Store, input: OrderInput, now: string) returns (resp: Response<CreatedOrder>)
    requires |input.orderLines| >= 1
    modifies db`orders, db`orderLines, db`availability
    ensures Orders.ResolvePrices(db.items, input.orderLines).Failure? ==>
      resp == Err(500, Error("Failed to create order")) && Tables(db) == old(Tables(db))
    ensures Orders.ResolvePrices(db.items, input.orderLines).Success? ==>
      Placed(old(db.orders), old(db.orderLines), old(db.availability), db.orders, db.orderLines, db.availability,
             db.items, db.sizes, input, now, resp)
  {
    var created := Orders.Create(db, input, now);
    if created.Failure? {
      return Err(500, Error("Failed to create order"));
    }
    var orderId := created.value;
    TakeStock(db, Moves(input.orderLines));
    var order := Orders.GetById(db.orders, orderId);
    Sql.FirstAppended(old(db.orders), db.orders[|db.orders| - 1], Orders.HasId(orderId));
    var orderLines := Orders.GetOrderLines(db.orderLines, db.items, db.sizes, orderId);
    resp := Ok(201, CreatedOrder(order.value, orderLines));
  }

  /** `create`. Every failure leaves all three tables as they were: a body
      outside `orderSchema` (400), an unknown user (404), a line whose pair
      is not stocked or whose quantity exceeds the stock read (400, first
      such line), an unknown item while resolving prices (500). On success
      the order and its lines are inserted and every line's quantity is
      taken off its pair's stock. */
  method Create(db: Store, input: OrderInput, now: string) returns (resp: Response<CreatedOrder>)
    modifies db`orders, db`orderLines, db`availability
    ensures !ValidOrder(input) ==> resp == Err(400, Error("Validation failed"))
    ensures ValidOrder(input) && Users.GetById(db.users, input.userId).None? ==>
      resp == Err(404, Error("User not found"))
    ensures ValidOrder(input) && Users.GetById(db.users, input.userId).Some?
            && StockProblem(old(db.availability), input.orderLines).Some? ==>
      resp == Err(400, StockProblem(old(db.availability), input.orderLines).value)
    ensures ValidOrder(input) && Users.GetById(db.users, input.userId).Some?
            && StockProblem(old(db.availability), input.orderLines).None?
            && Orders.ResolvePrices(db.items, input.orderLines).Failure? ==>
      resp == Err(500, Error("Failed to create order"))
    ensures ValidOrder(input) && Users.GetById(db.users, input.userId).Some?
            && StockProblem(old(db.availability), input.orderLines).None?
            && Orders.ResolvePrices(db.items, input.orderLines).Success?
            ==> resp.Ok?
    ensures resp.Err? ==> Tables(db) == old(Tables(db))
    ensures resp.Ok? ==>
      && ValidOrder(input) && Users.GetById(db.users, input.userId).Some?
      && StockProblem(old(db.availability), input.orderLines).None?
      && Placed(old(db.orders), old(db.orderLines), old(db.availability), db.orders, db.orderLines, db.availability,
                db.items, db.sizes, input, now, resp)
  {
    if !ValidOrder(input) {
      return Err(400, Error("Validation failed"));
    }
    var user := Users.GetById(db.users, input.userId);
    if user.None? {
      return Err(404, Error("User not found"));
    }
    var problem := CheckStock(db, input.orderLines);
    if problem.Some? {
      return Err(400, problem.value);
    }
    resp := Place(db, input, now);
  }

  /** `getById`: 400 for a malformed id, 404 for an unknown order, else the
      order with its user and its line records. */
  method GetById(db: Store, id: Option<int>) returns (resp: Response<OrderDetails>)
    ensures id.None? ==> resp == Err(400, Error("Invalid ID format"))
    ensures id.Some? && Orders.GetById(db.orders, id.value).None? ==> resp == Err(404, Error("Order not found"))
    ensures id.Some? && Orders.GetById(db.orders, id.value).Some? ==> resp.Ok?
    ensures resp.Ok? ==>
      && id.Some? && Orders.GetById(db.orders, id.value).Some?
      && var order := Orders.GetById(db.orders, id.value).value;
         resp == Ok(200, OrderDetails(order, Users.GetById(db.users, order.userId),
                                      Orders.GetOrderLines(db.orderLines, db.items, db.sizes, id.value)))
  {
    if id.None? {
      return Err(400, Error("Invalid ID format"));
    }
    var order := Orders.GetById(db.orders, id.value);
    if order.None? {
      return Err(404, Error("Order not found"));
    }
    var orderLines := Orders.GetOrderLines(db.orderLines, db.items, db.sizes, id.value);
    var user := Users.GetById(db.users, order.value.userId);
    resp := Ok(200, OrderDetails(order.value, user, orderLines));
  }

  /** `getByUserId`: 400 for a malformed id, 404 for an unknown user, else
      the user's orders, latest first. */
  method GetByUserId(db: Store, userId: Option<int>) returns (resp: Response<seq<Order>>)
    ensures userId.None? ==> resp == Err(400, Error("Invalid user ID format"))
    ensures userId.Some? && Users.GetById(db.users, userId.value).None? ==> resp == Err(404, Error("User not found"))
    ensures userId.Some? && Users.GetById(db.users, userId.value).Some? ==> resp.Ok?
    ensures resp.Ok? ==>
      && userId.Some? && Users.GetById(db.users, userId.value).Some?
      && resp.status == 200
      && (forall o :: multiset(resp.body)[o] == if o.userId == userId.value then multiset(db.orders)[o] else 0)
      && (forall k :: 0 < k < |resp.body| ==> Text.Compare(resp.body[k - 1].orderDate, resp.body[k].orderDate) >= 0)
  {
    if userId.None? {
      return Err(400, Error("Invalid user ID format"));
    }
    var user := Users.GetById(db.users, userId.value);
    if user.None? {
      return Err(404, Error("User not found"));
    }
    resp := Ok(200, Orders.GetByUserId(db.orders, userId.value));
  }

  /** `updateStatus`: 400 for a malformed id, 400 for a missing, empty or
      non-string status, 404 for an unknown order; otherwise only the
      order's status changes and the updated order is returned. */
  method UpdateStatus(db: Store, id: Option<int>, status: Option<string>) returns (resp: Response<Order>)
    modifies db`orders
    ensures id.None? ==> resp == Err(400, Error("Invalid ID format"))
    ensures id.Some? && (status.None? || status.value == "") ==>
      resp == Err(400, Error("Status is required and must be a string"))
    ensures id.Some? && status.Some? && status.value != "" && Orders.GetById(old(db.orders), id.value).None? ==>
      resp == Err(404, Error("Order not found"))
    ensures id.Some? && status.Some? && status.value != "" && Orders.GetById(old(db.orders), id.value).Some? ==> resp.Ok?
    ensures resp.Err? ==> db.orders == old(db.orders)
    ensures resp.Ok? ==>
      && id.Some? && status.Some? && Orders.GetById(old(db.orders), id.value).Some?
      && db.orders == Orders.ApplyPatch(old(db.orders), id.value, Orders.OrderPatch(None, None, None, status))
      && resp == Ok(200, Orders.GetById(old(db.orders), id.value).value.(status := status.value))
  {
    if id.None? {
      return Err(400, Error("Invalid ID format"));
    }
    if status.None? || status.value == "" {
      return Err(400, Error("Status is required and must be a string"));
    }
    var order := Orders.GetById(db.orders, id.value);
    if order.None? {
      return Err(404, Error("Order not found"));
    }
    var patch := Orders.OrderPatch(None, None, None, status);
    var _ := Orders.Update(db, id.value, patch);
    Orders.ReadBackPatched(old(db.orders), id.value, patch);
    var updated := Orders.GetById(db.orders, id.value);
    resp := Ok(200, updated.value);
  }

  /** `delete`: 400 for a malformed id, 404 for an unknown order; otherwise
      the order's line records are fetched, the order and its lines are
      deleted, and each fetched quantity is put back on its pair. */
  method Delete(db: Store, id: Option<int>) returns (resp: Response<()>)
    modifies db`orders, db`orderLines, db`availability
    ensures id.None? ==> resp == Err(400, Error("Invalid ID format"))
    ensures id.Some? && Orders.GetById(old(db.orders), id.value).None? ==> resp == Err(404, Error("Order not found"))
    ensures id.Some? && Orders.GetById(old(db.orders), id.value).Some? ==> resp.Ok?
    ensures resp.Err? ==> Tables(db) == old(Tables(db))
    ensures resp.Ok? ==>
      && id.Some? && Orders.GetById(old(db.orders), id.value).Some?
      && resp.status == 204
      && db.orders == Sql.DeleteWhere(old(db.orders), Orders.HasId(id.value))
      && db.orderLines == Sql.DeleteWhere(old(db.orderLines), Orders.OfOrder(id.value))
      && db.availability == Restore(old(db.availability), LineMoves(Sql.Select(old(db.orderLines), Orders.OfOrder(id.value))))
  {
    if id.None? {
      return Err(400, Error("Invalid ID format"));
    }
    var order := Orders.GetById(db.orders, id.value);
    if order.None? {
      return Err(404, Error("Order not found"));
    }
    var orderLines := Sql.Select(db.orderLines, Orders.OfOrder(id.value));
    var _ := Orders.Delete(db, id.value);
    PutBackStock(db, LineMoves(orderLines));
    resp := Ok(204, ());
  }

  /** Reading a row whose stock moved by `delta` reads a stock moved by
      `delta`. */
  lemma StockOfShifted(before: seq<ItemAvailability>, after: seq<ItemAvailability>, i: int, s: int, delta: int)
    requires var found := Stock.GetByItemAndSize(before, i, s);
             Stock.GetByItemAndSize(after, i, s)
               == if found.Some? then Some(found.value.(quantityInStock := found.value.quantityInStock + delta)) else None
    ensures StockOf(after, i, s) == Shift(StockOf(before, i, s), delta)
  {
  }

  /** Tables that read the same row for a pair read the same stock for it. */
  lemma StockOfSame(before: seq<ItemAvailability>, after: seq<ItemAvailability>, i: int, s: int)
    requires Stock.GetByItemAndSize(after, i, s) == Stock.GetByItemAndSize(before, i, s)
    ensures StockOf(after, i, s) == StockOf(before, i, s)
  {
  }

  /** Two shifts are one shift by the sum. */
  lemma ShiftTwice(stock: Option<int>, a: int, b: int)
    ensures Shift(Shift(stock, a), b) == Shift(stock, a + b)
  {
  }

  /** A stock shifted by `a` and then by `b` is the first one shifted by
      `a + b`. */
  lemma ShiftChain(first: Option<int>, mid: Option<int>, last: Option<int>, a: int, b: int)
    requires mid == Shift(first, a) && last == Shift(mid, b)
    ensures last == Shift(first, a + b)
  {
  }

  /** An adjustment moves the stock of its own pair by `delta`. */
  lemma AdjustOwnPair(rows: seq<ItemAvailability>, itemId: int, sizeId: int, delta: int)
    ensures StockOf(Adjust(rows, itemId, sizeId, delta), itemId, sizeId) == Shift(StockOf(rows, itemId, sizeId), delta)
  {
    var found := Stock.GetByItemAndSize(rows, itemId, sizeId);
    if found.Some? {
      Stock.StockAfterSetStock(rows, itemId, sizeId, found.value.quantityInStock + delta);
    }
    StockOfShifted(rows, Adjust(rows, itemId, sizeId, delta), itemId, sizeId, delta);
  }

  /** An adjustment leaves what every other pair reads alone. */
  lemma AdjustOtherPair(rows: seq<ItemAvailability>, itemId: int, sizeId: int, delta: int, i: int, s: int)
    requires !(i == itemId && s == sizeId)
    ensures StockOf(Adjust(rows, itemId, sizeId, delta), i, s) == StockOf(rows, i, s)
  {
    var found := Stock.GetByItemAndSize(rows, itemId, sizeId);
    if found.Some? {
      Stock.OtherPairsAfterSetStock(rows, itemId, sizeId, found.value.quantityInStock + delta, i, s);
    }
    StockOfSame(rows, Adjust(rows, itemId, sizeId, delta), i, s);
  }

  /** One adjustment moves the stock of its own pair by `delta` and leaves
      what every other pair reads alone. */
  lemma StockAfterAdjust(rows: seq<ItemAvailability>, itemId: int, sizeId: int, delta: int, i: int, s: int)
    ensures StockOf(Adjust(rows, itemId, sizeId, delta), i, s)
              == Shift(StockOf(rows, i, s), if i == itemId && s == sizeId then delta else 0)
  {
    if i == itemId && s == sizeId {
      AdjustOwnPair(rows, itemId, sizeId, delta);
    } else {
      AdjustOtherPair(rows, itemId, sizeId, delta, i, s);
    }
  }

  lemma ShiftZero(stock: Option<int>)
    ensures Shift(stock, 0) == stock
  {
  }

  /** The last pass of the decrement loop moves the stock of its own pair
      only. */
  lemma WithdrawLast(rows: seq<ItemAvailability>, moves: seq<StockMove>, i: int, s: int)
    requires moves != []
    ensures var m := moves[|moves| - 1];
            StockOf(Withdraw(rows, moves), i, s)
              == Shift(StockOf(Withdraw(rows, moves[..|moves| - 1]), i, s), -Share(m, i, s))
  {
    var m := moves[|moves| - 1];
    StockAfterAdjust(Withdraw(rows, moves[..|moves| - 1]), m.itemId, m.sizeId, -m.quantity, i, s);
  }

  /** The last pass of the restock loop moves the stock of its own pair
      only. */
  lemma RestoreLast(rows: seq<ItemAvailability>, moves: seq<StockMove>, i: int, s: int)
    requires moves != []
    ensures var m := moves[|moves| - 1];
            StockOf(Restore(rows, moves), i, s)
              == Shift(StockOf(Restore(rows, moves[..|moves| - 1]), i, s), Share(m, i, s))
  {
    var m := moves[|moves| - 1];
    StockAfterAdjust(Restore(rows, moves[..|moves| - 1]), m.itemId, m.sizeId, m.quantity, i, s);
  }

  /** After the decrement loop every pair reads its old stock minus the
      total quantity the order's lines name for it, even when several lines
      name the same pair: each pass re-reads before it overwrites. */
  lemma {:induction false} StockAfterWithdraw(rows: seq<ItemAvailability>, moves: seq<StockMove>, i: int, s: int)
    ensures StockOf(Withdraw(rows, moves), i, s) == Shift(StockOf(rows, i, s), -Demand(moves, i, s))
    decreases |moves|
  {
    if moves == [] {
      ShiftZero(StockOf(rows, i, s));
    } else {
      var prev := moves[..|moves| - 1];
      var m := moves[|moves| - 1];
      var d := -Share(m, i, s);
      StockAfterWithdraw(rows, prev, i, s);
      WithdrawLast(rows, moves, i, s);
      ShiftChain(StockOf(rows, i, s), StockOf(Withdraw(rows, prev), i, s), StockOf(Withdraw(rows, moves), i, s),
                 -Demand(prev, i, s), d);
      assert -Demand(moves, i, s) == -Demand(prev, i, s) + d;
    }
  }

  /** After the restock loop every pair reads its old stock plus the total
      quantity the fetched lines name for it; pairs no row stocks stay
      unstocked. */
  lemma {:induction false} StockAfterRestore(rows: seq<ItemAvailability>, moves: seq<StockMove>, i: int, s: int)
    ensures StockOf(Restore(rows, moves), i, s) == Shift(StockOf(rows, i, s), Demand(moves, i, s))
    decreases |moves|
  {
    if moves == [] {
      ShiftZero(StockOf(rows, i, s));
    } else {
      var prev := moves[..|moves| - 1];
      var m := moves[|moves| - 1];
      var d := Share(m, i, s);
      StockAfterRestore(rows, prev, i, s);
      RestoreLast(rows, moves, i, s);
      ShiftChain(StockOf(rows, i, s), StockOf(Restore(rows, prev), i, s), StockOf(Restore(rows, moves), i, s),
                 Demand(prev, i, s), d);
      assert Demand(moves, i, s) == Demand(prev, i, s) + d;
    }
  }

  /** Restocking the moves that were withdrawn gives every pair back the
      stock it read before. */
  lemma WithdrawThenRestore(rows: seq<ItemAvailability>, moves: seq<StockMove>, i: int, s: int)
    ensures StockOf(Restore(Withdraw(rows, moves), moves), i, s) == StockOf(rows, i, s)
  {
    var before := StockOf(rows, i, s);
    var demand := Demand(moves, i, s);
    StockAfterWithdraw(rows, moves, i, s);
    StockAfterRestore(Withdraw(rows, moves), moves, i, s);
    ShiftTwice(before, -demand, demand);
    ShiftZero(before);
  }

  /** Every line row stored under the order `delete` removes names the same
      pair and quantity as the request line it was inserted for. */
  lemma StoredMovesAreRequestMoves(
    lines: seq<OrderLine>, orderId: int, firstId: int,
    input: seq<OrderLineInput>, priced: seq<Orders.PricedLine>)
    requires !Sql.AnyRow(lines, Orders.OfOrder(orderId))
    requires |priced| == |input|
    requires forall k :: 0 <= k < |input| ==>
      priced[k].itemId == input[k].itemId && priced[k].sizeId == input[k].sizeId && priced[k].quantity == input[k].quantity
    ensures LineMoves(Sql.Select(lines + Orders.LineRows(orderId, firstId, priced), Orders.OfOrder(orderId))) == Moves(input)
  {
    var added := Orders.LineRows(orderId, firstId, priced);
    Sql.SelectAppended(lines, added, Orders.OfOrder(orderId));
  }

  /** Creating an order and then deleting it puts every table back: the
      order row and its lines are gone and every pair reads the stock it
      read before. Line rows must name existing orders, so none is stored
      under the fresh id yet. */
  lemma CreateThenDelete(
    orders: seq<Order>, lines: seq<OrderLine>, rows: seq<ItemAvailability>, items: seq<Item>,
    input: OrderInput, now: string, i: int, s: int)
    requires forall k :: 0 <= k < |lines| ==> Orders.GetById(orders, lines[k].orderId).Some?
    requires Orders.ResolvePrices(items, input.orderLines).Success?
    ensures
      var priced := Orders.ResolvePrices(items, input.orderLines).value;
      var orderId := Sql.NextId(orders, Orders.OrderRowId);
      var order := Order(orderId, input.userId, Orders.OrderDate(input.orderDate, now),
                         Orders.OrderTotal(input.totalAmount, priced), Orders.OrderStatus(input.status));
      var newLines := lines + Orders.LineRows(orderId, Sql.NextId(lines, Orders.LineRowId), priced);
      var taken := Withdraw(rows, Moves(input.orderLines));
      && Sql.DeleteWhere(orders + [order], Orders.HasId(orderId)) == orders
      && Sql.DeleteWhere(newLines, Orders.OfOrder(orderId)) == lines
      && StockOf(Restore(taken, LineMoves(Sql.Select(newLines, Orders.OfOrder(orderId)))), i, s) == StockOf(rows, i, s)
  {
    var priced := Orders.ResolvePrices(items, input.orderLines).value;
    var orderId := Sql.NextId(orders, Orders.OrderRowId);
    var added := Orders.LineRows(orderId, Sql.NextId(lines, Orders.LineRowId), priced);
    var order := Order(orderId, input.userId, Orders.OrderDate(input.orderDate, now),
                       Orders.OrderTotal(input.totalAmount, priced), Orders.OrderStatus(input.status));
    assert !Sql.AnyRow(lines, Orders.OfOrder(orderId)) by {
      forall k | 0 <= k < |lines| ensures lines[k].orderId != orderId {
        var o := Orders.GetById(orders, lines[k].orderId).value;
        assert o in orders;
      }
    }
    Sql.DeleteAppended(orders, [order], Orders.HasId(orderId));
    Sql.DeleteAppended(lines, added, Orders.OfOrder(orderId));
    StoredMovesAreRequestMoves(lines, orderId, Sql.NextId(lines, Orders.LineRowId), input.orderLines, priced);
    WithdrawThenRestore(rows, Moves(input.orderLines), i, s);
  }

  /** When no pair appears on two lines, a request that passes the check
      loop leaves every pair it names with non-negative stock. */
  lemma NoOversellWithDistinctPairs(rows: seq<ItemAvailability>, lines: seq<OrderLineInput>, k: int)
    requires StockProblem(rows, lines).None?
    requires forall a, b :: 0 <= a < b < |lines| ==>
      !(lines[a].itemId == lines[b].itemId && lines[a].sizeId == lines[b].sizeId)
    requires 0 <= k < |lines|
    ensures StockOf(Withdraw(rows, Moves(lines)), lines[k].itemId, lines[k].sizeId).Some?
    ensures StockOf(Withdraw(rows, Moves(lines)), lines[k].itemId, lines[k].sizeId).value >= 0
  {
    assert Covered(rows, lines[k]);
    DemandOfOneLine(lines, k);
    WithdrawCovered(rows, Moves(lines), lines[k]);
  }

  /** A line the check accepted, whose pair the moves take no more than the
      line's quantity from, leaves that pair with non-negative stock. */
  lemma WithdrawCovered(rows: seq<ItemAvailability>, moves: seq<StockMove>, line: OrderLineInput)
    requires Covered(rows, line)
    requires Demand(moves, line.itemId, line.sizeId) <= line.quantity
    ensures StockOf(Withdraw(rows, moves), line.itemId, line.sizeId).Some?
    ensures StockOf(Withdraw(rows, moves), line.itemId, line.sizeId).value >= 0
  {
    StockAfterWithdraw(rows, moves, line.itemId, line.sizeId);
  }

  /** With distinct pairs, the demand on a line's pair is that line's
      quantity. */
  lemma DemandOfOneLine(lines: seq<OrderLineInput>, k: int)
    requires forall a, b :: 0 <= a < b < |lines| ==>
      !(lines[a].itemId == lines[b].itemId && lines[a].sizeId == lines[b].sizeId)
    requires 0 <= k < |lines|
    ensures Demand(Moves(lines), lines[k].itemId, lines[k].sizeId) == lines[k].quantity
  {
    DemandSplit(Moves(lines), k, lines[k].itemId, lines[k].sizeId);
  }

  /** The demand on the pair of move `k`, when no other move names that
      pair, is move `k`'s quantity. */
  lemma {:induction false} DemandSplit(moves: seq<StockMove>, k: int, i: int, s: int)
    requires 0 <= k < |moves|
    requires moves[k].itemId == i && moves[k].sizeId == s
    requires forall j :: 0 <= j < |moves| && j != k ==> !(moves[j].itemId == i && moves[j].sizeId == s)
    ensures Demand(moves, i, s) == moves[k].quantity
    decreases |moves|
  {
    var n := |moves|;
    if k == n - 1 {
      DemandNone(moves[..n - 1], i, s);
    } else {
      DemandSplit(moves[..n - 1], k, i, s);
    }
  }

  /** No move names the pair: no demand. */
  lemma {:induction false} DemandNone(moves: seq<StockMove>, i: int, s: int)
    requires forall j :: 0 <= j < |moves| ==> !(moves[j].itemId == i && moves[j].sizeId == s)
    ensures Demand(moves, i, s) == 0
    decreases |moves|
  {
    if moves != [] {
      DemandNone(moves[..|moves| - 1], i, s);
    }
  }

  /** The check compares each line with the stock as it was before the
      order: two lines of 3 against a stock of 5 both pass, and the stock
      ends at -1. */
  lemma RepeatedPairOversells()
    ensures var rows := [ItemAvailability(1, 7, 2, 5)];
            var lines := [OrderLineInput(7, 2, 3, None), OrderLineInput(7, 2, 3, None)];
            && StockProblem(rows, lines).None?
            && StockOf(Withdraw(rows, Moves(lines)), 7, 2) == Some(-1)
  {
    var rows := [ItemAvailability(1, 7, 2, 5)];
    var lines := [OrderLineInput(7, 2, 3, None), OrderLineInput(7, 2, 3, None)];
    assert Stock.GetByItemAndSize(rows, 7, 2) == Some(rows[0]);
    assert Moves(lines) == [StockMove(7, 2, 3), StockMove(7, 2, 3)];
    StockAfterWithdraw(rows, Moves(lines), 7, 2);
    assert Demand(Moves(lines), 7, 2) == 6 by {
      assert Moves(lines)[..1] == [StockMove(7, 2, 3)];
      assert [StockMove(7, 2, 3)][..0] == [];
    }
  }
}
