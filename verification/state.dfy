/**
 * The ledger as a value: the five record sets the order flow touches and
 * the next id each AUTOINCREMENT key will issue, together with the
 * invariants the order flow is meant to keep.
 */
module State {
  import opened Records
  import opened Sums

  datatype Store = Store(
    tables: map<Id, Table>,
    products: map<Id, Product>,
    orders: map<Id, Order>,
    items: map<Id, Item>,
    payments: map<Id, Payment>,
    nextTable: Id,
    nextOrder: Id,
    nextItem: Id,
    nextPayment: Id)

  /** `o` is an open order of table `t`. */
  predicate OpenFor(o: Order, t: Id)
  {
    o.tableId == t && o.status == Open
  }

  /**
   * The row `SELECT * FROM orders WHERE table_id = ? AND status = 'open'`
   * finds, if any. Under `OneOpenPerTable` there is at most one candidate.
   */
  ghost function OpenOrderOf(orders: map<Id, Order>, t: Id): (r: Option<Id>)
    ensures r.Some? ==> r.value in orders && OpenFor(orders[r.value], t)
    ensures r.None? ==> forall k :: k in orders ==> !OpenFor(orders[k], t)
  {
    if exists k :: k in orders && OpenFor(orders[k], t) then
      Some(var k :| k in orders && OpenFor(orders[k], t); k)
    else
      None
  }

  /**
   * Structural facts the store provides: every key lies below the counter
   * that issues the next one, and table names are UNIQUE.
   */
  ghost predicate Wellformed(s: Store)
  {
    && (forall k :: k in s.tables ==> k < s.nextTable)
    && (forall k :: k in s.orders ==> k < s.nextOrder)
    && (forall k :: k in s.items ==> k < s.nextItem)
    && (forall k :: k in s.payments ==> k < s.nextPayment)
    && (forall a, b :: a in s.tables && b in s.tables && s.tables[a].name == s.tables[b].name ==> a == b)
  }

  /** No table has two open orders. */
  ghost predicate OneOpenPerTable(s: Store)
  {
    forall a, b ::
      (a in s.orders && b in s.orders && s.orders[a].status == Open && s.orders[b].status == Open &&
       s.orders[a].tableId == s.orders[b].tableId) ==> a == b
  }

  /** The invariant every handler keeps, whatever its arguments. */
  ghost predicate Valid(s: Store)
  {
    Wellformed(s) && OneOpenPerTable(s)
  }

  /** Every order's stored total is the sum of `qty * price` over its items. */
  ghost predicate TotalsMatch(s: Store)
  {
    forall k :: k in s.orders ==> s.orders[k].total == Sum(s.items, Line(k))
  }

  /** No item names an order id that the store has yet to issue. */
  ghost predicate NoItemsAhead(s: Store)
  {
    forall i :: i in s.items ==> s.items[i].orderId < s.nextOrder
  }

  /**
   * The denormalised totals are right, and stay right when the next order
   * is created.
   */
  ghost predicate Consistent(s: Store)
  {
    TotalsMatch(s) && NoItemsAhead(s)
  }
}
