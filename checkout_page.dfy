/** frontend/src/pages/CheckoutPage.tsx: the checkout form's checks, the
    order it builds from the cart, and its submission to the order
    controller. */
module CheckoutPage {
  import opened Wrappers
  import opened Schema
  import opened OrderValidation
  import Text
  import EmailFormat
  import CartStore
  import UserService
  import OrderService
  import OrderController
  import Http

  /** `validateForm`'s name message: empty when the name is fine. */
  function NameError(name: string): (error: string)
    ensures error == "Name is required" <==> Text.AllSpace(name)
    ensures error == "" <==> !Text.AllSpace(name)
  {
    Text.BlankIffAllSpace(name);
    if Text.Trim(name) == [] then "Name is required" else ""
  }

  /** `validateForm`'s email message: a blank address is missing, a
      non-blank one must pass the pattern test as typed. */
  function EmailError(email: string): (error: string)
    ensures error == "Email is required" <==> Text.AllSpace(email)
    ensures error == "Please enter a valid email address" <==> !Text.AllSpace(email) && !EmailFormat.IsValidEmail(email)
    ensures error == "" <==> EmailFormat.IsValidEmail(email)
  {
    Text.BlankIffAllSpace(email);
    if Text.Trim(email) == [] then "Email is required"
    else if !EmailFormat.IsValidEmail(email) then "Please enter a valid email address"
    else
      ""
  }

  /** `validateForm`'s verdict: both messages empty. */
  predicate FormValid(name: string, email: string) {
    NameError(name) == "" && EmailError(email) == ""
  }

  /** The form passes exactly when the name is not blank and the email
      matches the pattern; the blank-email test never decides on its own. */
  lemma FormValidIff(name: string, email: string)
    ensures FormValid(name, email) <==> !Text.AllSpace(name) && EmailFormat.MatchesPattern(email)
  {
    EmailFormat.IsValidEmailMatchesPattern(email);
  }

  /** An address the pattern accepts is never blank. */
  lemma ValidEmailNotBlank(email: string)
    requires EmailFormat.IsValidEmail(email)
    ensures !Text.AllSpace(email)
  {
    var at :| 1 <= at < |email| && email[at] == '@' && EmailFormat.AllPlain(email[..at]) && EmailFormat.AllPlain(email[at + 1..])
               && exists dot :: at + 2 <= dot < |email| - 1 && email[dot] == '.';
    assert EmailFormat.Plain(email[..at][0]);
  }

  /** The user the order is placed for: the one with that exact email, or
      user 1 when there is none. */
  function CheckoutUserId(users: seq<User>, email: string): (userId: int)
    ensures UserService.GetByEmail(users, email).Some? ==> userId == UserService.GetByEmail(users, email).value.id
    ensures (forall k :: 0 <= k < |users| ==> users[k].email != email) ==> userId == 1
  {
    var existingUser := UserService.GetByEmail(users, email);
    if existingUser.Some? then existingUser.value.id else 1
  }

  /** The order lines: one per cart line, in cart order, carrying the
      line's item, size, quantity and price. */
  function OrderLines(items: seq<CartStore.CartItem>): (lines: seq<OrderLineInput>)
    ensures |lines| == |items|
    ensures forall k :: 0 <= k < |items| ==>
      lines[k] == OrderLineInput(items[k].id, items[k].size.id, items[k].quantity, Some(items[k].price))
  {
    seq(|items|, k requires 0 <= k < |items| => OrderLineInput(items[k].id, items[k].size.id, items[k].quantity, Some(items[k].price)))
  }

  /** The `orderData` payload: the user, the time, the cart's total and the
      lines; no status. */
  function Payload(items: seq<CartStore.CartItem>, userId: int, now: string): (order: OrderInput)
    ensures order.totalAmount == Some(CartStore.TotalPrice(items))
    ensures order.orderLines == OrderLines(items) && order.userId == userId
  {
    OrderInput(userId, Some(now), Some(CartStore.TotalPrice(items)), None, OrderLines(items))
  }

  /** Every checkout line carries its own price, so the controller never
      looks an item up to price it. */
  lemma PayloadPriced(dbItems: seq<Item>, items: seq<CartStore.CartItem>)
    ensures OrderService.ResolvePrices(dbItems, OrderLines(items)).Success?
  {
  }

  lemma {:induction false} LineTotalSnoc(lines: seq<OrderService.PricedLine>, line: OrderService.PricedLine)
    ensures OrderService.LineTotal(lines + [line]) == OrderService.LineTotal(lines) + line.price * line.quantity
  {
    if lines != [] {
      LineTotalSnoc(lines[1..], line);
      assert (lines + [line])[1..] == lines[1..] + [line];
    }
  }

  /** Priced lines that copy the cart's prices and quantities add up to the
      cart's total. */
  lemma {:induction false} LineTotalIsCartTotal(priced: seq<OrderService.PricedLine>, items: seq<CartStore.CartItem>)
    requires |priced| == |items|
    requires forall k :: 0 <= k < |items| ==> priced[k].price == items[k].price && priced[k].quantity == items[k].quantity
    ensures OrderService.LineTotal(priced) == CartStore.TotalPrice(items)
    decreases |items|
  {
    if items != [] {
      var n := |items| - 1;
      LineTotalIsCartTotal(priced[..n], items[..n]);
      LineTotalSnoc(priced[..n], priced[n]);
      assert priced[..n] + [priced[n]] == priced;
    }
  }

  /** The total the order row stores for a checkout is the cart's total,
      whether the controller takes the supplied amount or, for a zero
      total, sums the lines. */
  lemma StoredTotalIsCartTotal(dbItems: seq<Item>, items: seq<CartStore.CartItem>, userId: int, now: string)
    ensures var order := Payload(items, userId, now);
            OrderService.OrderTotal(order.totalAmount, OrderService.ResolvePrices(dbItems, order.orderLines).value)
              == CartStore.TotalPrice(items)
  {
    PayloadPriced(dbItems, items);
    var priced := OrderService.ResolvePrices(dbItems, OrderLines(items)).value;
    if CartStore.TotalPrice(items) == 0 {
      LineTotalIsCartTotal(priced, items);
    }
  }

  /** What the page shows after pressing "Place order". */
  datatype Outcome =
    | Invalid(nameError: string, emailError: string)
    | SubmitFailed(error: string)
    | Confirmed(created: OrderController.CreatedOrder)

  /** The 201 body of a placed order carries the total the order row
      stores. */
  lemma PlacedTotal(
    orders0: seq<Order>, lines0: seq<OrderLine>, stock0: seq<ItemAvailability>,
    orders: seq<Order>, lines: seq<OrderLine>, stock: seq<ItemAvailability>,
    items: seq<Item>, sizes: seq<Size>, input: OrderInput, now: string, created: OrderController.CreatedOrder)
    requires OrderController.Placed(orders0, lines0, stock0, orders, lines, stock, items, sizes, input, now, Http.Ok(201, created))
    ensures created.order.totalAmount == OrderService.OrderTotal(input.totalAmount, OrderService.ResolvePrices(items, input.orderLines).value)
  {
  }

  /** The `orderApi.create` call and what follows it: an error response
      keeps the cart and shows the failure message, a created order empties
      the cart. */
  method Send(db: Store, cart: CartStore.Cart, order: OrderInput, now: string) returns (outcome: Outcome)
    modifies db`orders, db`orderLines, db`availability, cart
    ensures !outcome.Invalid?
    ensures outcome.SubmitFailed? ==>
      && outcome.error == "Failed to submit your order. Please try again."
      && cart.items == old(cart.items)
      && OrderController.Tables(db) == old(OrderController.Tables(db))
    ensures outcome.Confirmed? ==>
      && ValidOrder(order)
      && UserService.GetById(db.users, order.userId).Some?
      && OrderController.StockProblem(old(db.availability), order.orderLines).None?
      && cart.items == []
      && OrderController.Placed(old(db.orders), old(db.orderLines), old(db.availability),
                                db.orders, db.orderLines, db.availability,
                                db.items, db.sizes, order, now, Http.Ok(201, outcome.created))
    ensures OrderService.ResolvePrices(db.items, order.orderLines).Success?
            && ValidOrder(order)
            && UserService.GetById(db.users, order.userId).Some?
            && OrderController.StockProblem(old(db.availability), order.orderLines).None?
            ==> outcome.Confirmed?
    ensures cart.isOpen == old(cart.isOpen)
  {
    var resp := OrderController.Create(db, order, now);
    if resp.Err? {
      return SubmitFailed("Failed to submit your order. Please try again.");
    }
    cart.ClearCart();
    outcome := Confirmed(resp.body);
  }

  /** The payload `handleSubmit` builds from the cart. */
  function CheckoutOrder(items: seq<CartStore.CartItem>, users: seq<User>, email: string, now: string): OrderInput {
    Payload(items, CheckoutUserId(users, email), now)
  }

  /** `handleSubmit` past validation: look the user up, build the payload
      from the cart and send it. */
  method Checkout(db: Store, cart: CartStore.Cart, email: string, now: string) returns (outcome: Outcome)
    modifies db`orders, db`orderLines, db`availability, cart
    ensures !outcome.Invalid?
    ensures outcome.SubmitFailed? ==>
      && outcome.error == "Failed to submit your order. Please try again."
      && cart.items == old(cart.items)
      && OrderController.Tables(db) == old(OrderController.Tables(db))
    ensures outcome.Confirmed? <==>
      && ValidOrder(CheckoutOrder(old(cart.items), db.users, email, now))
      && UserService.GetById(db.users, CheckoutUserId(db.users, email)).Some?
      && OrderController.StockProblem(old(db.availability), OrderLines(old(cart.items))).None?
    ensures outcome.Confirmed? ==>
      && cart.items == []
      && OrderController.Placed(old(db.orders), old(db.orderLines), old(db.availability),
                                db.orders, db.orderLines, db.availability,
                                db.items, db.sizes, CheckoutOrder(old(cart.items), db.users, email, now), now,
                                Http.Ok(201, outcome.created))
      && outcome.created.order.totalAmount == CartStore.TotalPrice(old(cart.items))
    ensures cart.isOpen == old(cart.isOpen)
  {
    var userId := CheckoutUserId(db.users, email);
    var orderData := Payload(cart.items, userId, now);
    assert orderData == CheckoutOrder(cart.items, db.users, email, now);
    PayloadPriced(db.items, cart.items);
    StoredTotalIsCartTotal(db.items, cart.items, userId, now);
    outcome := Send(db, cart, orderData, now);
    if outcome.Confirmed? {
      PlacedTotal(old(db.orders), old(db.orderLines), old(db.availability), db.orders, db.orderLines, db.availability,
                  db.items, db.sizes, orderData, now, outcome.created);
    }
  }

  /** `handleSubmit`. An invalid form shows its messages and sends nothing;
      a valid one goes on to the checkout. */
  method HandleSubmit(db: Store, cart: CartStore.Cart, name: string, email: string, now: string)
    returns (outcome: Outcome)
    modifies db`orders, db`orderLines, db`availability, cart
    ensures !FormValid(name, email) ==>
      && outcome == Invalid(NameError(name), EmailError(email))
      && cart.items == old(cart.items)
      && OrderController.Tables(db) == old(OrderController.Tables(db))
    ensures FormValid(name, email) ==> !outcome.Invalid?
    ensures outcome.SubmitFailed? ==>
      && outcome.error == "Failed to submit your order. Please try again."
      && cart.items == old(cart.items)
      && OrderController.Tables(db) == old(OrderController.Tables(db))
    ensures outcome.Confirmed? ==>
      && FormValid(name, email)
      && cart.items == []
      && OrderController.Placed(old(db.orders), old(db.orderLines), old(db.availability),
                                db.orders, db.orderLines, db.availability,
                                db.items, db.sizes, CheckoutOrder(old(cart.items), db.users, email, now), now,
                                Http.Ok(201, outcome.created))
      && outcome.created.order.totalAmount == CartStore.TotalPrice(old(cart.items))
    ensures cart.isOpen == old(cart.isOpen)
  {
    if !FormValid(name, email) {
      return Invalid(NameError(name), EmailError(email));
    }
    outcome := Checkout(db, cart, email, now);
  }
}
