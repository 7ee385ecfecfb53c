/**
 * Each mutating route handler of the server as one atomic transition of
 * the ledger: the new store and the answer. The handlers issue one to
 * three SQL statements each; here they take effect together.
 */
module Handlers {
  import opened Records
  import opened Sums
  import opened State

  datatype Reply = Reply(after: Store, outcome: Outcome)

  /** Some table already carries the name `n`. */
  ghost predicate NameTaken(s: Store, n: string)
  {
    exists k :: k in s.tables && s.tables[k].name == n
  }

  /**
   * POST /api/orders: answer the table's open order, or open a new one
   * with total 0. The table id is not checked against `tables`.
   */
  ghost function FindOrCreateOrder(s: Store, tableId: Option<Id>, now: Time): (r: Reply)
    ensures r.outcome.Ok? <==> Given(tableId)
    ensures !Given(tableId) ==> r == Reply(s, BadRequest)
    ensures r.outcome.Ok? ==> r.outcome.id in r.after.orders && OpenFor(r.after.orders[r.outcome.id], tableId.value)
    ensures r.after.(orders := s.orders, nextOrder := s.nextOrder) == s
    ensures r.after != s ==>
              && Given(tableId)
              && (forall k :: k in s.orders ==> !OpenFor(s.orders[k], tableId.value))
              && r.outcome == Ok(s.nextOrder)
              && r.after.orders == s.orders[s.nextOrder := Order(tableId.value, Open, now, None, 0)]
              && r.after.nextOrder == s.nextOrder + 1
  {
    if !Given(tableId) then
      Reply(s, BadRequest)
    else
      match OpenOrderOf(s.orders, tableId.value)
      case Some(k) => Reply(s, Ok(k))
      case None =>
        var id := s.nextOrder;
        Reply(s.(orders := s.orders[id := Order(tableId.value, Open, now, None, 0)], nextOrder := id + 1), Ok(id))
  }

  /**
   * POST /api/orders/:id/items: insert a line priced at the product's
   * current price and raise the order's total by `price * qty`. The product
   * is looked up by id alone (an inactive one is accepted); the order is not
   * looked up at all, and when it does not exist the UPDATE matches no row.
   */
  ghost function AddItem(s: Store, orderId: Id, productId: Option<Id>, qty: Option<int>, now: Time): (r: Reply)
    ensures r.outcome.Ok? <==> Given(productId) && Given(qty) && productId.value in s.products
    ensures !r.outcome.Ok? ==> r == Reply(s, BadRequest)
    ensures r.outcome.Ok? ==>
              && r.outcome.id == s.nextItem
              && r.after.items == s.items[s.nextItem := Item(orderId, productId.value, qty.value, s.products[productId.value].price, now)]
              && r.after.nextItem == s.nextItem + 1
    ensures r.after.orders.Keys == s.orders.Keys
    ensures forall k :: k in s.orders && k != orderId ==> r.after.orders[k] == s.orders[k]
    ensures r.outcome.Ok? && orderId in s.orders ==>
              var price := s.products[productId.value].price;
              r.after.orders[orderId] == s.orders[orderId].(total := s.orders[orderId].total + price * qty.value)
    ensures r.after.(orders := s.orders, items := s.items, nextItem := s.nextItem) == s
  {
    if !Given(productId) || !Given(qty) then
      Reply(s, BadRequest)
    else if productId.value !in s.products then
      Reply(s, BadRequest)
    else
      var price := s.products[productId.value].price;
      var id := s.nextItem;
      var items' := s.items[id := Item(orderId, productId.value, qty.value, price, now)];
      var orders' :=
        if orderId in s.orders
        then s.orders[orderId := s.orders[orderId].(total := s.orders[orderId].total + price * qty.value)]
        else s.orders;
      Reply(s.(items := items', nextItem := id + 1, orders := orders'), Ok(id))
  }

  /**
   * DELETE /api/orders/:orderId/items/:itemId: delete the line and lower
   * the total of `orderId` by the line's `qty * price`. The line is found by
   * its own id; whether it belongs to `orderId` is not checked.
   */
  ghost function RemoveItem(s: Store, orderId: Id, itemId: Id): (r: Reply)
    ensures r.outcome == NotFound <==> itemId !in s.items
    ensures itemId !in s.items ==> r.after == s
    ensures itemId in s.items ==> r.outcome == Done && r.after.items == s.items - {itemId}
    ensures r.after.orders.Keys == s.orders.Keys
    ensures forall k :: k in s.orders && k != orderId ==> r.after.orders[k] == s.orders[k]
    ensures itemId in s.items && orderId in s.orders ==>
              var it := s.items[itemId];
              r.after.orders[orderId] == s.orders[orderId].(total := s.orders[orderId].total - it.qty * it.price)
    ensures r.after.(orders := s.orders, items := s.items) == s
  {
    if itemId !in s.items then
      Reply(s, NotFound)
    else
      var it := s.items[itemId];
      var orders' :=
        if orderId in s.orders
        then s.orders[orderId := s.orders[orderId].(total := s.orders[orderId].total - it.qty * it.price)]
        else s.orders;
      Reply(s.(items := s.items - {itemId}, orders := orders'), Done)
  }

  /**
   * POST /api/orders/:id/payments: append one payment row. Neither the
   * order nor the amount against its total is checked.
   */
  ghost function RecordPayment(s: Store, orderId: Id, paymentMethod: Option<string>, amount: Option<Money>, now: Time): (r: Reply)
    ensures r.outcome.Ok? <==> GivenText(paymentMethod) && Given(amount)
    ensures !r.outcome.Ok? ==> r == Reply(s, BadRequest)
    ensures r.outcome.Ok? ==>
              && r.outcome.id == s.nextPayment
              && r.after.payments == s.payments[s.nextPayment := Payment(orderId, paymentMethod.value, amount.value, now)]
              && r.after.nextPayment == s.nextPayment + 1
    ensures r.after.(payments := s.payments, nextPayment := s.nextPayment) == s
  {
    if !GivenText(paymentMethod) || !Given(amount) then
      Reply(s, BadRequest)
    else
      var id := s.nextPayment;
      Reply(s.(payments := s.payments[id := Payment(orderId, paymentMethod.value, amount.value, now)], nextPayment := id + 1), Ok(id))
  }

  /**
   * POST /api/orders/:id/close: mark the order closed and stamp the time,
   * whatever its status was; an unknown id matches no row.
   */
  ghost function CloseOrder(s: Store, orderId: Id, now: Time): (r: Reply)
    ensures r.outcome == Done
    ensures r.after.orders.Keys == s.orders.Keys
    ensures forall k :: k in s.orders && k != orderId ==> r.after.orders[k] == s.orders[k]
    ensures orderId in s.orders ==> r.after.orders[orderId] == s.orders[orderId].(status := Closed, closedAt := Some(now))
    ensures r.after.(orders := s.orders) == s
  {
    if orderId in s.orders then
      Reply(s.(orders := s.orders[orderId := s.orders[orderId].(status := Closed, closedAt := Some(now))]), Done)
    else
      Reply(s, Done)
  }

  /**
   * POST /api/tables: insert a table; the store's UNIQUE constraint on the
   * name makes a second table of the same name fail.
   */
  ghost function CreateTable(s: Store, name: Option<string>, now: Time): (r: Reply)
    ensures r.outcome.Ok? <==> GivenText(name) && !NameTaken(s, name.value)
    ensures !GivenText(name) ==> r == Reply(s, BadRequest)
    ensures GivenText(name) && NameTaken(s, name.value) ==> r == Reply(s, Rejected)
    ensures r.outcome.Ok? ==>
              && r.outcome.id == s.nextTable
              && r.after == s.(tables := s.tables[s.nextTable := Table(name.value, now)], nextTable := s.nextTable + 1)
  {
    if !GivenText(name) then
      Reply(s, BadRequest)
    else if NameTaken(s, name.value) then
      Reply(s, Rejected)
    else
      var id := s.nextTable;
      Reply(s.(tables := s.tables[id := Table(name.value, now)], nextTable := id + 1), Ok(id))
  }

  /** DELETE /api/products/:id: clear `active`; the row itself stays. */
  ghost function SoftDeleteProduct(s: Store, productId: Id): (r: Reply)
    ensures r.outcome == Done
    ensures r.after.products.Keys == s.products.Keys
    ensures forall p :: p in s.products ==>
              r.after.products[p] == s.products[p].(active := p != productId && s.products[p].active)
    ensures r.after.(products := s.products) == s
  {
    if productId in s.products then
      Reply(s.(products := s.products[productId := s.products[productId].(active := false)]), Done)
    else
      Reply(s, Done)
  }

  /** The requests of the order flow, one per route, with their arguments. */
  datatype Request =
    | PostOrder(tableId: Option<Id>, now: Time)
    | PostItem(orderId: Id, productId: Option<Id>, qty: Option<int>, now: Time)
    | DeleteItem(orderId: Id, itemId: Id)
    | PostPayment(orderId: Id, paymentMethod: Option<string>, amount: Option<Money>, now: Time)
    | PostClose(orderId: Id, now: Time)
    | PostTable(name: Option<string>, now: Time)
    | DeleteProduct(id: Id)

  /** The server as a state machine: one request, one atomic step. */
  ghost function Handle(s: Store, req: Request): Reply
  {
    match req
    case PostOrder(t, now) => FindOrCreateOrder(s, t, now)
    case PostItem(o, p, q, now) => AddItem(s, o, p, q, now)
    case DeleteItem(o, i) => RemoveItem(s, o, i)
    case PostPayment(o, m, a, now) => RecordPayment(s, o, m, a, now)
    case PostClose(o, now) => CloseOrder(s, o, now)
    case PostTable(n, now) => CreateTable(s, n, now)
    case DeleteProduct(p) => SoftDeleteProduct(s, p)
  }

  /** The store after serving `reqs` one after another. */
  ghost function Run(s: Store, reqs: seq<Request>): Store
    decreases |reqs|
  {
    if reqs == [] then s else Run(Handle(s, reqs[0]).after, reqs[1..])
  }
}
