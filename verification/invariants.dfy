/**
 * What serving requests one at a time keeps true of the ledger, and where
 * the handlers as written let the denormalised totals drift.
 */
module Invariants {
  import opened Records
  import opened Sums
  import opened State
  import opened Handlers

  /** Every handler keeps ids fresh, table names unique and one open order per table. */
  lemma HandleKeepsValid(s: Store, req: Request)
    requires Valid(s)
    ensures Valid(Handle(s, req).after)
  {
    match req
    case PostOrder(t, now) =>
      var r := FindOrCreateOrder(s, t, now);
      if r.after != s {
        var n := s.nextOrder;
        forall a, b | a in r.after.orders && b in r.after.orders && r.after.orders[a].status == Open &&
                      r.after.orders[b].status == Open && r.after.orders[a].tableId == r.after.orders[b].tableId
          ensures a == b
        {
          if a != n && b != n {
            assert s.orders[a] == r.after.orders[a] && s.orders[b] == r.after.orders[b];
          }
        }
      }
    case PostTable(name, now) =>
      var r := CreateTable(s, name, now);
      if r.outcome.Ok? {
        forall a, b | a in r.after.tables && b in r.after.tables && r.after.tables[a].name == r.after.tables[b].name
          ensures a == b
        {
          if a != s.nextTable && b != s.nextTable {
            assert s.tables[a] == r.after.tables[a] && s.tables[b] == r.after.tables[b];
          }
        }
      }
    case PostItem(o, p, q, now) =>
    case DeleteItem(o, i) =>
    case PostPayment(o, m, a, now) =>
    case PostClose(o, now) =>
    case DeleteProduct(p) =>
  }

  /** Opening an order keeps the totals right: nothing yet points at the new id. */
  lemma FindOrCreateKeepsConsistent(s: Store, tableId: Option<Id>, now: Time)
    requires Valid(s) && Consistent(s)
    ensures Consistent(FindOrCreateOrder(s, tableId, now).after)
  {
    var r := FindOrCreateOrder(s, tableId, now);
    if r.after != s {
      SumOfZeros(s.items, Line(s.nextOrder));
    }
  }

  /**
   * Adding a line keeps every total equal to the sum of its lines, provided
   * the line goes to an order id the store has already issued (or never
   * will: a non-positive one).
   */
  lemma AddItemKeepsConsistent(s: Store, orderId: Id, productId: Option<Id>, qty: Option<int>, now: Time)
    requires Valid(s) && Consistent(s)
    requires orderId < s.nextOrder
    ensures Consistent(AddItem(s, orderId, productId, qty, now).after)
  {
    var r := AddItem(s, orderId, productId, qty, now);
    if r.outcome.Ok? {
      var it := r.after.items[s.nextItem];
      forall k | k in r.after.orders
        ensures r.after.orders[k].total == Sum(r.after.items, Line(k))
      {
        SumInsert(s.items, s.nextItem, it, Line(k));
      }
    }
  }

  /**
   * Removing a line keeps every total equal to the sum of its lines when
   * the line belongs to the order named in the request.
   */
  lemma RemoveItemKeepsConsistent(s: Store, orderId: Id, itemId: Id)
    requires Consistent(s)
    requires itemId in s.items ==> s.items[itemId].orderId == orderId
    ensures Consistent(RemoveItem(s, orderId, itemId).after)
  {
    var r := RemoveItem(s, orderId, itemId);
    if itemId in s.items {
      forall k | k in r.after.orders
        ensures r.after.orders[k].total == Sum(r.after.items, Line(k))
      {
        SumRemove(s.items, itemId, Line(k));
      }
    }
  }

  /**
   * A request is aimed when it cannot make a total drift: an added line
   * goes to an issued order id, a removed line belongs to the named order.
   */
  ghost predicate Aimed(s: Store, req: Request)
  {
    match req
    case PostItem(o, _, _, _) => o < s.nextOrder
    case DeleteItem(o, i) => i in s.items ==> s.items[i].orderId == o
    case _ => true
  }

  lemma HandleKeepsConsistent(s: Store, req: Request)
    requires Valid(s) && Consistent(s) && Aimed(s, req)
    ensures Consistent(Handle(s, req).after)
  {
    match req
    case PostOrder(t, now) => FindOrCreateKeepsConsistent(s, t, now);
    case PostItem(o, p, q, now) => AddItemKeepsConsistent(s, o, p, q, now);
    case DeleteItem(o, i) => RemoveItemKeepsConsistent(s, o, i);
    case PostPayment(o, m, a, now) =>
    case PostClose(o, now) =>
      var r := CloseOrder(s, o, now);
      assert r.after.items == s.items;
    case PostTable(n, now) =>
    case DeleteProduct(p) =>
  }

  /** Every request of the sequence is aimed at the store it is served on. */
  ghost predicate AimedRun(s: Store, reqs: seq<Request>)
    decreases |reqs|
  {
    reqs == [] || (Aimed(s, reqs[0]) && AimedRun(Handle(s, reqs[0]).after, reqs[1..]))
  }

  lemma {:induction false} RunKeepsValid(s: Store, reqs: seq<Request>)
    requires Valid(s)
    ensures Valid(Run(s, reqs))
    decreases |reqs|
  {
    if reqs != [] {
      HandleKeepsValid(s, reqs[0]);
      RunKeepsValid(Handle(s, reqs[0]).after, reqs[1..]);
    }
  }

  /** Served one at a time, aimed requests never let a total drift. */
  lemma {:induction false} RunKeepsConsistent(s: Store, reqs: seq<Request>)
    requires Valid(s) && Consistent(s) && AimedRun(s, reqs)
    ensures Consistent(Run(s, reqs))
    decreases |reqs|
  {
    if reqs != [] {
      HandleKeepsValid(s, reqs[0]);
      HandleKeepsConsistent(s, reqs[0]);
      RunKeepsConsistent(Handle(s, reqs[0]).after, reqs[1..]);
    }
  }

  /**
   * A line posted to the next order id before that order exists is
   * inherited by the order opened next, whose total starts at 0.
   */
  lemma ItemAheadOfOrderDrifts(s: Store, productId: Id, qty: int, now: Time, tableId: Id, later: Time)
    requires Valid(s) && Consistent(s)
    requires productId != 0 && productId in s.products && qty != 0 && s.products[productId].price != 0
    requires tableId != 0 && forall k :: k in s.orders ==> !OpenFor(s.orders[k], tableId)
    ensures var s1 := AddItem(s, s.nextOrder, Some(productId), Some(qty), now).after;
            var r := FindOrCreateOrder(s1, Some(tableId), later);
            r.outcome == Ok(s.nextOrder) && !TotalsMatch(r.after)
  {
    var n := s.nextOrder;
    var r1 := AddItem(s, n, Some(productId), Some(qty), now);
    var s1 := r1.after;
    var it := s1.items[s.nextItem];
    assert s1.orders == s.orders;
    var r := FindOrCreateOrder(s1, Some(tableId), later);
    assert OpenOrderOf(s1.orders, tableId).None?;
    assert r.after.orders[n].total == 0;
    SumOfZeros(s.items, Line(n));
    SumInsert(s.items, s.nextItem, it, Line(n));
    assert Value(Line(n), it) == qty * s.products[productId].price != 0;
  }

  /**
   * Removing a line through an order it does not belong to lowers the wrong
   * total: the named order's total no longer matches its lines.
   */
  lemma MisdirectedRemoveDrifts(s: Store, orderId: Id, itemId: Id)
    requires TotalsMatch(s)
    requires orderId in s.orders && itemId in s.items && s.items[itemId].orderId != orderId
    requires s.items[itemId].qty != 0 && s.items[itemId].price != 0
    ensures !TotalsMatch(RemoveItem(s, orderId, itemId).after)
  {
    var r := RemoveItem(s, orderId, itemId);
    var it := s.items[itemId];
    SumRemove(s.items, itemId, Line(orderId));
    assert it.qty * it.price != 0;
    assert r.after.orders[orderId].total != Sum(r.after.items, Line(orderId));
  }

  /**
   * Asking twice for a table's order answers the same order and changes
   * nothing the second time.
   */
  lemma FindOrCreateIdempotent(s: Store, tableId: Option<Id>, now: Time, later: Time)
    ensures var r := FindOrCreateOrder(s, tableId, now);
            FindOrCreateOrder(r.after, tableId, later) == r
  {
    var r := FindOrCreateOrder(s, tableId, now);
    if r.after != s {
      var t := tableId.value;
      var id := r.outcome.id;
      forall k | k in r.after.orders && OpenFor(r.after.orders[k], t)
        ensures k == id
      {
      }
    }
  }

  /** Closing again only moves the closing time. */
  lemma CloseTwice(s: Store, orderId: Id, first: Time, second: Time)
    ensures CloseOrder(CloseOrder(s, orderId, first).after, orderId, second) == CloseOrder(s, orderId, second)
  {
  }

  /** A second removal of the same line finds nothing and changes nothing. */
  lemma RemoveTwice(s: Store, orderId: Id, itemId: Id)
    requires itemId in s.items
    ensures var r := RemoveItem(s, orderId, itemId);
            RemoveItem(r.after, orderId, itemId) == Reply(r.after, NotFound)
  {
  }

  /**
   * Lines are never rewritten: every line of the store after a request is
   * either a line it had, unchanged (with the price it was added at), or a
   * new line under a fresh id.
   */
  lemma HandleKeepsLines(s: Store, req: Request)
    ensures var t := Handle(s, req).after;
            && s.nextItem <= t.nextItem
            && forall i :: i in t.items ==> i >= s.nextItem || (i in s.items && t.items[i] == s.items[i])
  {
  }

  lemma {:induction false} RunKeepsLines(s: Store, reqs: seq<Request>)
    ensures var t := Run(s, reqs);
            && s.nextItem <= t.nextItem
            && forall i :: i in t.items ==> i >= s.nextItem || (i in s.items && t.items[i] == s.items[i])
    decreases |reqs|
  {
    if reqs != [] {
      HandleKeepsLines(s, reqs[0]);
      RunKeepsLines(Handle(s, reqs[0]).after, reqs[1..]);
    }
  }
}
