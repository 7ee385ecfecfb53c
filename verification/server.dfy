/**
 * The server's ledger as a mutable object: the SQLite tables the order flow
 * touches become map fields, and each route handler a method that updates
 * them row by row, in the order the handler issues its statements. Every
 * method is specified by the matching transition in `Handlers`.
 */
module Server {
  import opened Records
  import opened State
  import opened Handlers
  import Invariants

  class Ledger {
    var tables: map<Id, Table>
    var products: map<Id, Product>
    var orders: map<Id, Order>
    var items: map<Id, Item>
    var payments: map<Id, Payment>
    // the next id each AUTOINCREMENT key issues
    var nextTable: Id
    var nextOrder: Id
    var nextItem: Id
    var nextPayment: Id

    /** The ledger's current contents as a value. */
    function Snapshot(): Store
      reads this
    {
      Store(tables, products, orders, items, payments, nextTable, nextOrder, nextItem, nextPayment)
    }

    ghost predicate Valid()
      reads this
    {
      State.Valid(Snapshot())
    }

    /** Opens a ledger over an existing store, as the server opens its database file. */
    constructor (s: Store)
      requires State.Valid(s)
      ensures Valid() && Snapshot() == s
    {
      tables, products, orders, items, payments := s.tables, s.products, s.orders, s.items, s.payments;
      nextTable, nextOrder, nextItem, nextPayment := s.nextTable, s.nextOrder, s.nextItem, s.nextPayment;
    }

    /** POST /api/orders */
    method FindOrCreateOrder(tableId: Option<Id>, now: Time) returns (out: Outcome)
      requires Valid()
      modifies this
      ensures Valid()
      ensures Reply(Snapshot(), out) == Handlers.FindOrCreateOrder(old(Snapshot()), tableId, now)
      ensures old(Consistent(Snapshot())) ==> Consistent(Snapshot())
    {
      ghost var s := Snapshot();
      if !Given(tableId) {
        return BadRequest;
      }
      var t := tableId.value;
      if k :| k in orders && OpenFor(orders[k], t) {
        assert OpenOrderOf(orders, t) == Some(k);
        return Ok(k);
      }
      var id := nextOrder;
      orders := orders[id := Order(t, Open, now, None, 0)];
      nextOrder := id + 1;
      out := Ok(id);
      Invariants.HandleKeepsValid(s, PostOrder(tableId, now));
      if Consistent(s) {
        Invariants.FindOrCreateKeepsConsistent(s, tableId, now);
      }
    }

    /** POST /api/orders/:id/items */
    method AddItem(orderId: Id, productId: Option<Id>, qty: Option<int>, now: Time) returns (out: Outcome)
      requires Valid()
      modifies this
      ensures Valid()
      ensures Reply(Snapshot(), out) == Handlers.AddItem(old(Snapshot()), orderId, productId, qty, now)
      ensures old(Consistent(Snapshot())) && orderId < old(nextOrder) ==> Consistent(Snapshot())
    {
      ghost var s := Snapshot();
      if !Given(productId) || !Given(qty) {
        return BadRequest;
      }
      var p := productId.value;
      if p !in products {
        return BadRequest;
      }
      var price := products[p].price;
      var id := nextItem;
      items := items[id := Item(orderId, p, qty.value, price, now)];
      nextItem := id + 1;
      if orderId in orders {
        orders := orders[orderId := orders[orderId].(total := orders[orderId].total + price * qty.value)];
      }
      out := Ok(id);
      Invariants.HandleKeepsValid(s, PostItem(orderId, productId, qty, now));
      if Consistent(s) && orderId < s.nextOrder {
        Invariants.AddItemKeepsConsistent(s, orderId, productId, qty, now);
      }
    }

    /** DELETE /api/orders/:orderId/items/:itemId */
    method RemoveItem(orderId: Id, itemId: Id) returns (out: Outcome)
      requires Valid()
      modifies this
      ensures Valid()
      ensures Reply(Snapshot(), out) == Handlers.RemoveItem(old(Snapshot()), orderId, itemId)
      ensures old(Consistent(Snapshot())) && (itemId in old(items) ==> old(items)[itemId].orderId == orderId) ==>
                Consistent(Snapshot())
    {
      ghost var s := Snapshot();
      if itemId !in items {
        return NotFound;
      }
      var it := items[itemId];
      items := items - {itemId};
      if orderId in orders {
        orders := orders[orderId := orders[orderId].(total := orders[orderId].total - it.qty * it.price)];
      }
      out := Done;
      Invariants.HandleKeepsValid(s, DeleteItem(orderId, itemId));
      if Consistent(s) && it.orderId == orderId {
        Invariants.RemoveItemKeepsConsistent(s, orderId, itemId);
      }
    }

    /** POST /api/orders/:id/payments */
    method RecordPayment(orderId: Id, paymentMethod: Option<string>, amount: Option<Money>, now: Time) returns (out: Outcome)
      requires Valid()
      modifies this
      ensures Valid()
      ensures Reply(Snapshot(), out) == Handlers.RecordPayment(old(Snapshot()), orderId, paymentMethod, amount, now)
      ensures old(Consistent(Snapshot())) ==> Consistent(Snapshot())
    {
      if !GivenText(paymentMethod) || !Given(amount) {
        return BadRequest;
      }
      var id := nextPayment;
      payments := payments[id := Payment(orderId, paymentMethod.value, amount.value, now)];
      nextPayment := id + 1;
      out := Ok(id);
    }

    /** POST /api/orders/:id/close */
    method CloseOrder(orderId: Id, now: Time) returns (out: Outcome)
      requires Valid()
      modifies this
      ensures Valid()
      ensures Reply(Snapshot(), out) == Handlers.CloseOrder(old(Snapshot()), orderId, now)
      ensures old(Consistent(Snapshot())) ==> Consistent(Snapshot())
    {
      ghost var s := Snapshot();
      if orderId in orders {
        orders := orders[orderId := orders[orderId].(status := Closed, closedAt := Some(now))];
      }
      out := Done;
      Invariants.HandleKeepsValid(s, PostClose(orderId, now));
    }

    /** POST /api/tables */
    method CreateTable(name: Option<string>, now: Time) returns (out: Outcome)
      requires Valid()
      modifies this
      ensures Valid()
      ensures Reply(Snapshot(), out) == Handlers.CreateTable(old(Snapshot()), name, now)
      ensures old(Consistent(Snapshot())) ==> Consistent(Snapshot())
    {
      ghost var s := Snapshot();
      if !GivenText(name) {
        return BadRequest;
      }
      if exists k :: k in tables && tables[k].name == name.value {
        return Rejected;
      }
      var id := nextTable;
      tables := tables[id := Table(name.value, now)];
      nextTable := id + 1;
      out := Ok(id);
      Invariants.HandleKeepsValid(s, PostTable(name, now));
    }

    /** DELETE /api/products/:id */
    method SoftDeleteProduct(productId: Id) returns (out: Outcome)
      requires Valid()
      modifies this
      ensures Valid()
      ensures Reply(Snapshot(), out) == Handlers.SoftDeleteProduct(old(Snapshot()), productId)
      ensures old(Consistent(Snapshot())) ==> Consistent(Snapshot())
    {
      if productId in products {
        products := products[productId := products[productId].(active := false)];
      }
      out := Done;
    }
  }

  /**
   * One table's evening, told through the class's contracts alone: an
   * order is opened, two lines go on it and one comes off again; the
   * stored total follows the lines, and a second removal finds nothing.
   */
  method ServeOneTable()
  {
    var ledger := new Ledger(Store(map[], map[7 := Product("tea", 1500, true, 0)], map[], map[], map[], 1, 1, 1, 1));
    var order := ledger.FindOrCreateOrder(Some(4), 200);
    assert order == Ok(1) && ledger.orders[1].total == 0;
    var first := ledger.AddItem(1, Some(7), Some(2), 300);
    var second := ledger.AddItem(1, Some(7), Some(1), 310);
    assert second == Ok(2) && ledger.orders[1].total == 4500;
    var removed := ledger.RemoveItem(1, 2);
    assert removed == Done && ledger.orders[1].total == 3000;
    var twice := ledger.RemoveItem(1, 2);
    assert twice == NotFound && ledger.orders[1].total == 3000;
  }
}
