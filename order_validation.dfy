/** The request schemas of backend/src/validation/orderValidation.ts as
    predicates over already-parsed request bodies. An optional field is an
    `Option`; numbers are integers (amounts in cents), so zod's `.int()` has
    nothing left to reject. */
module OrderValidation {
  import opened Wrappers

  datatype OrderLineInput = OrderLineInput(itemId: int, sizeId: int, quantity: int, priceAtTimeOfOrder: Option<int>)

  datatype OrderInput = OrderInput(
    userId: int,
    orderDate: Option<string>,
    totalAmount: Option<int>,
    status: Option<string>,
    orderLines: seq<OrderLineInput>)

  datatype LocationInput = LocationInput(name: string, address: string)

  /** `orderLineSchema`: positive ids and quantity, a positive price when one
      is given. */
  predicate ValidOrderLine(line: OrderLineInput) {
    && line.itemId > 0
    && line.sizeId > 0
    && line.quantity > 0
    && (line.priceAtTimeOfOrder.Some? ==> line.priceAtTimeOfOrder.value > 0)
  }

  /** `orderSchema`: a positive user id, a positive total when one is given,
      and at least one line, every line valid. */
  predicate ValidOrder(order: OrderInput) {
    && order.userId > 0
    && (order.totalAmount.Some? ==> order.totalAmount.value > 0)
    && |order.orderLines| >= 1
    && forall k :: 0 <= k < |order.orderLines| ==> ValidOrderLine(order.orderLines[k])
  }

  /** `locationSchema`: a name and an address, both non-empty. */
  predicate ValidLocation(location: LocationInput) {
    |location.name| >= 1 && |location.address| >= 1
  }
}
