/**
 * How the handlers show through the two read projections: what the table
 * list shows after an order is opened or closed, and which lines the
 * product report counts.
 */
module Observations {
  import opened Records
  import opened Sums
  import opened State
  import opened Handlers
  import opened Projections

  /** After find-or-create, the table's row shows the answered order and its total. */
  lemma OpenedOrderIsListed(s: Store, tableId: Id, now: Time)
    requires tableId != 0 && tableId in s.tables
    ensures var r := FindOrCreateOrder(s, Some(tableId), now);
            && r.outcome.Ok?
            && RowFor(r.after, tableId).open == Some(OpenTab(r.outcome.id, r.after.orders[r.outcome.id].total))
            && RowFor(r.after, tableId) in TableList(r.after)
  {
    var r := FindOrCreateOrder(s, Some(tableId), now);
    var row := RowFor(r.after, tableId);
    assert row.open.Some?;
  }

  /** Once its open order is closed, a table's row shows no open order. */
  lemma ClosedOrderLeavesList(s: Store, orderId: Id, now: Time)
    requires OneOpenPerTable(s)
    requires orderId in s.orders && s.orders[orderId].status == Open && s.orders[orderId].tableId in s.tables
    ensures var t := s.orders[orderId].tableId;
            RowFor(CloseOrder(s, orderId, now).after, t).open == None
  {
    var t := s.orders[orderId].tableId;
    var after := CloseOrder(s, orderId, now).after;
    forall k | k in after.orders
      ensures !OpenFor(after.orders[k], t)
    {
      if k != orderId {
        assert after.orders[k] == s.orders[k];
      }
    }
  }

  /**
   * Adding a line to an open order (or to no order) leaves the product
   * report for every range as it was: only closed orders are reported.
   */
  lemma ReportIgnoresOpenOrders(s: Store, orderId: Id, productId: Option<Id>, qty: Option<int>, now: Time,
                                from: Option<Day>, to: Option<Day>)
    requires Wellformed(s)
    requires orderId in s.orders ==> s.orders[orderId].status == Open
    ensures ProductReport(AddItem(s, orderId, productId, qty, now).after, from, to) == ProductReport(s, from, to)
  {
    var after := AddItem(s, orderId, productId, qty, now).after;
    if from.Some? && to.Some? {
      var f, t := from.value, to.value;
      forall it: Item | it.orderId != orderId
        ensures Counted(after, f, t, it) == Counted(s, f, t, it)
      {
      }
      assert Sold(after, f, t) == Sold(s, f, t);
    }
  }

  /**
   * Closing an order on a day inside the range brings every one of its
   * lines (whose product exists) into the report's sums.
   */
  lemma ClosingReportsLines(s: Store, orderId: Id, now: Time, from: Day, to: Day)
    requires orderId in s.orders && from <= DayOf(now) <= to
    ensures var sold := Sold(CloseOrder(s, orderId, now).after, from, to);
            forall i :: i in s.items && s.items[i].orderId == orderId && s.items[i].productId in s.products ==>
                          i in sold && sold[i] == s.items[i]
  {
  }

  /**
   * A closed order with two lines of one product, 2 at 10.00 and 1 at
   * 5.00, reports that product with 3 units and 25.00 of revenue.
   */
  lemma TwoLineReport(name: string, day: Day)
    ensures var closedAt := day * 86_400_000;
            var s := Store(
              map[], map[1 := Product(name, 1000, true, 0)],
              map[1 := Order(1, Closed, 0, Some(closedAt), 2500)],
              map[1 := Item(1, 1, 2, 1000, 0), 2 := Item(1, 1, 1, 500, 0)],
              map[], 1, 2, 3, 1);
            ProductReport(s, Some(day), Some(day)) == Some([ProductRow(1, name, 3, 2500)])
  {
    var closedAt := day * 86_400_000;
    var s := Store(
      map[], map[1 := Product(name, 1000, true, 0)],
      map[1 := Order(1, Closed, 0, Some(closedAt), 2500)],
      map[1 := Item(1, 1, 2, 1000, 0), 2 := Item(1, 1, 1, 500, 0)],
      map[], 1, 2, 3, 1);
    assert DayOf(closedAt) == day;
    var sold := Sold(s, day, day);
    assert sold == s.items;
    assert Groups(sold) == {1} by {
      assert sold[1].productId == 1;
    }
    var m := sold - {1};
    assert m == map[2 := Item(1, 1, 1, 500, 0)];
    SumRemove(sold, 1, UnitsOf(1));
    SumRemove(sold, 1, RevenueOf(1));
    SumRemove(m, 2, UnitsOf(1));
    SumRemove(m, 2, RevenueOf(1));
    assert m - {2} == map[];
    SumOfZeros(map[], UnitsOf(1));
    SumOfZeros(map[], RevenueOf(1));
    var rows := ProductReport(s, Some(day), Some(day)).value;
    assert |rows| == 1;
    assert rows[0] in rows;
  }
}
