/**
 * The two read-only queries over the ledger that the order flow feeds:
 * the table list with each table's open order, and the per-product sales
 * report over closed orders.
 */
module Projections {
  import opened Records
  import opened Sums
  import opened State

  // ---------------------------------------------------------------------
  // Name order (ORDER BY t.name ASC: byte-wise comparison of the text)
  // ---------------------------------------------------------------------

  /** `a` sorts strictly before `b`, character code by character code. */
  predicate NameBefore(a: string, b: string)
    decreases |a|
  {
    if |a| == 0 then |b| > 0
    else if |b| == 0 then false
    else a[0] < b[0] || (a[0] == b[0] && NameBefore(a[1..], b[1..]))
  }

  predicate NameAtMost(a: string, b: string)
  {
    a == b || NameBefore(a, b)
  }

  lemma {:induction false} NameBeforeTotal(a: string, b: string)
    ensures a == b || NameBefore(a, b) || NameBefore(b, a)
    decreases |a|
  {
    if |a| != 0 && |b| != 0 && a[0] == b[0] {
      NameBeforeTotal(a[1..], b[1..]);
      if a[1..] == b[1..] {
        assert a == [a[0]] + a[1..] && b == [b[0]] + b[1..];
      }
    }
  }

  lemma {:induction false} NameBeforeTransitive(a: string, b: string, c: string)
    requires NameBefore(a, b) && NameBefore(b, c)
    ensures NameBefore(a, c)
    decreases |a|
  {
    if |a| != 0 && a[0] == b[0] && b[0] == c[0] {
      NameBeforeTransitive(a[1..], b[1..], c[1..]);
    }
  }

  lemma NameAtMostTransitive(a: string, b: string, c: string)
    requires NameAtMost(a, b) && NameAtMost(b, c)
    ensures NameAtMost(a, c)
  {
    if a != b && b != c {
      NameBeforeTransitive(a, b, c);
    }
  }

  // ---------------------------------------------------------------------
  // GET /api/tables
  // ---------------------------------------------------------------------

  /** The open order a table row shows: `open_order_id` and `open_total`. */
  datatype OpenTab = OpenTab(orderId: Id, total: Money)

  datatype TableRow = TableRow(tableId: Id, name: string, createdAt: Time, open: Option<OpenTab>)

  /** The row of table `k`: its columns joined with its open order, if any. */
  ghost function RowFor(s: Store, k: Id): (row: TableRow)
    requires k in s.tables
    ensures row.tableId == k && row.name == s.tables[k].name
    ensures row.open.None? <==> forall o :: o in s.orders ==> !OpenFor(s.orders[o], k)
    ensures row.open.Some? ==>
              row.open.value.orderId in s.orders && OpenFor(s.orders[row.open.value.orderId], k) &&
              row.open.value.total == s.orders[row.open.value.orderId].total
  {
    var open := match OpenOrderOf(s.orders, k)
      case None => None
      case Some(o) => Some(OpenTab(o, s.orders[o].total));
    TableRow(k, s.tables[k].name, s.tables[k].createdAt, open)
  }

  ghost predicate SortedByName(rows: seq<TableRow>)
  {
    forall i, j :: 0 <= i < j < |rows| ==> NameAtMost(rows[i].name, rows[j].name)
  }

  ghost predicate DistinctTables(rows: seq<TableRow>)
  {
    forall i, j :: 0 <= i < j < |rows| ==> rows[i].tableId != rows[j].tableId
  }

  /** Insert `r` in front of the first row whose name does not sort before it. */
  function InsertByName(r: TableRow, rows: seq<TableRow>): (res: seq<TableRow>)
    ensures |res| == |rows| + 1
    ensures forall x :: x in res <==> x in rows || x == r
  {
    if rows == [] then [r]
    else if NameAtMost(r.name, rows[0].name) then [r] + rows
    else [rows[0]] + InsertByName(r, rows[1..])
  }

  lemma {:induction false} InsertByNameSorted(r: TableRow, rows: seq<TableRow>)
    requires SortedByName(rows)
    ensures SortedByName(InsertByName(r, rows))
  {
    var res := InsertByName(r, rows);
    if rows == [] {
    } else if NameAtMost(r.name, rows[0].name) {
      forall j | 0 < j < |res|
        ensures NameAtMost(res[0].name, res[j].name)
      {
        if j > 1 {
          NameAtMostTransitive(r.name, rows[0].name, rows[j - 1].name);
        }
      }
    } else {
      NameBeforeTotal(r.name, rows[0].name);
      var tail := InsertByName(r, rows[1..]);
      InsertByNameSorted(r, rows[1..]);
      forall j | 0 <= j < |tail|
        ensures NameAtMost(rows[0].name, tail[j].name)
      {
        assert tail[j] in tail;
        if tail[j] != r {
          var m :| 0 <= m < |rows[1..]| && rows[1..][m] == tail[j];
          assert rows[m + 1] == tail[j];
        }
      }
    }
  }

  lemma {:induction false} InsertByNameDistinct(r: TableRow, rows: seq<TableRow>)
    requires DistinctTables(rows)
    requires forall x :: x in rows ==> x.tableId != r.tableId
    ensures DistinctTables(InsertByName(r, rows))
  {
    var res := InsertByName(r, rows);
    if rows != [] && !NameAtMost(r.name, rows[0].name) {
      var tail := InsertByName(r, rows[1..]);
      InsertByNameDistinct(r, rows[1..]);
      forall j | 0 <= j < |tail|
        ensures rows[0].tableId != tail[j].tableId
      {
        assert tail[j] in tail;
        if tail[j] != r {
          var m :| 0 <= m < |rows[1..]| && rows[1..][m] == tail[j];
          assert rows[m + 1] == tail[j];
        }
      }
    } else if rows != [] {
      forall j | 0 < j < |res|
        ensures r.tableId != res[j].tableId
      {
        assert res[j] == rows[j - 1];
      }
    }
  }

  /** The rows of the tables in `keys`, in name order. */
  ghost function ListTables(s: Store, keys: set<Id>): (rows: seq<TableRow>)
    requires keys <= s.tables.Keys
    ensures |rows| == |keys|
    ensures forall x :: x in rows ==> x.tableId in keys && x == RowFor(s, x.tableId)
    ensures forall k :: k in keys ==> RowFor(s, k) in rows
    ensures DistinctTables(rows)
    ensures SortedByName(rows)
    decreases keys
  {
    if !exists k :: k in keys then
      assert keys == {};
      []
    else
      var k :| k in keys;
      var rest := ListTables(s, keys - {k});
      var row := RowFor(s, k);
      InsertByNameSorted(row, rest);
      InsertByNameDistinct(row, rest);
      InsertByName(row, rest)
  }

  /**
   * GET /api/tables: every table once, in name order, each with the open
   * order of that table (id and running total) or none.
   */
  ghost function TableList(s: Store): (rows: seq<TableRow>)
    ensures |rows| == |s.tables|
    ensures forall x :: x in rows ==> x.tableId in s.tables && x == RowFor(s, x.tableId)
    ensures forall k :: k in s.tables ==> RowFor(s, k) in rows
    ensures DistinctTables(rows)
    ensures SortedByName(rows)
  {
    ListTables(s, s.tables.Keys)
  }

  /** Table names are unique, so the list is strictly ascending. */
  lemma TableListStrictlySorted(s: Store)
    requires Wellformed(s)
    ensures var rows := TableList(s);
            forall i, j :: 0 <= i < j < |rows| ==> NameBefore(rows[i].name, rows[j].name)
  {
    var rows := TableList(s);
    forall i, j | 0 <= i < j < |rows|
      ensures NameBefore(rows[i].name, rows[j].name)
    {
      assert rows[i] in rows && rows[j] in rows;
      NameBeforeTotal(rows[i].name, rows[j].name);
    }
  }

  // ---------------------------------------------------------------------
  // GET /api/reports/products
  // ---------------------------------------------------------------------

  datatype ProductRow = ProductRow(productId: Id, name: string, qty: int, revenue: Money)

  /**
   * A line is reported for the days `from..to` when its order is closed,
   * the order's closing day lies in the range, and its product row exists
   * (the JOIN on products).
   */
  ghost predicate Counted(s: Store, from: Day, to: Day, it: Item)
  {
    && it.orderId in s.orders
    && s.orders[it.orderId].status == Closed
    && s.orders[it.orderId].closedAt.Some?
    && from <= DayOf(s.orders[it.orderId].closedAt.value) <= to
    && it.productId in s.products
  }

  /** The lines the report adds up. */
  ghost function Sold(s: Store, from: Day, to: Day): (m: map<Id, Item>)
    ensures forall i :: i in m <==> i in s.items && Counted(s, from, to, s.items[i])
    ensures forall i :: i in m ==> m[i] == s.items[i]
  {
    map i | i in s.items && Counted(s, from, to, s.items[i]) :: s.items[i]
  }

  /** The products that have at least one reported line (the groups). */
  ghost function Groups(sold: map<Id, Item>): set<Id>
  {
    set i | i in sold :: sold[i].productId
  }

  /** `SELECT p.name, SUM(oi.qty), SUM(oi.qty * oi.price) ... GROUP BY p.id` for product `p`. */
  ghost function GroupRow(products: map<Id, Product>, sold: map<Id, Item>, p: Id): ProductRow
    requires p in products
  {
    ProductRow(p, products[p].name, Sum(sold, UnitsOf(p)), Sum(sold, RevenueOf(p)))
  }

  ghost predicate ByRevenue(rows: seq<ProductRow>)
  {
    forall i, j :: 0 <= i < j < |rows| ==> rows[i].revenue >= rows[j].revenue
  }

  ghost predicate DistinctProducts(rows: seq<ProductRow>)
  {
    forall i, j :: 0 <= i < j < |rows| ==> rows[i].productId != rows[j].productId
  }

  /** Insert `r` in front of the first row that earned no more than it. */
  function InsertByRevenue(r: ProductRow, rows: seq<ProductRow>): (res: seq<ProductRow>)
    ensures |res| == |rows| + 1
    ensures forall x :: x in res <==> x in rows || x == r
  {
    if rows == [] then [r]
    else if rows[0].revenue <= r.revenue then [r] + rows
    else [rows[0]] + InsertByRevenue(r, rows[1..])
  }

  lemma {:induction false} InsertByRevenueSorted(r: ProductRow, rows: seq<ProductRow>)
    requires ByRevenue(rows)
    ensures ByRevenue(InsertByRevenue(r, rows))
  {
    if rows != [] && rows[0].revenue > r.revenue {
      var tail := InsertByRevenue(r, rows[1..]);
      InsertByRevenueSorted(r, rows[1..]);
      forall j | 0 <= j < |tail|
        ensures rows[0].revenue >= tail[j].revenue
      {
        assert tail[j] in tail;
        if tail[j] != r {
          var m :| 0 <= m < |rows[1..]| && rows[1..][m] == tail[j];
          assert rows[m + 1] == tail[j];
        }
      }
    }
  }

  lemma {:induction false} InsertByRevenueDistinct(r: ProductRow, rows: seq<ProductRow>)
    requires DistinctProducts(rows)
    requires forall x :: x in rows ==> x.productId != r.productId
    ensures DistinctProducts(InsertByRevenue(r, rows))
  {
    var res := InsertByRevenue(r, rows);
    if rows != [] && rows[0].revenue > r.revenue {
      var tail := InsertByRevenue(r, rows[1..]);
      InsertByRevenueDistinct(r, rows[1..]);
      forall j | 0 <= j < |tail|
        ensures rows[0].productId != tail[j].productId
      {
        assert tail[j] in tail;
        if tail[j] != r {
          var m :| 0 <= m < |rows[1..]| && rows[1..][m] == tail[j];
          assert rows[m + 1] == tail[j];
        }
      }
    } else if rows != [] {
      forall j | 0 < j < |res|
        ensures r.productId != res[j].productId
      {
        assert res[j] == rows[j - 1];
      }
    }
  }

  /** The rows of the products in `ps`, highest revenue first. */
  ghost function ReportRows(products: map<Id, Product>, sold: map<Id, Item>, ps: set<Id>): (rows: seq<ProductRow>)
    requires ps <= products.Keys
    ensures |rows| == |ps|
    ensures forall x :: x in rows ==> x.productId in ps && x == GroupRow(products, sold, x.productId)
    ensures forall p :: p in ps ==> GroupRow(products, sold, p) in rows
    ensures DistinctProducts(rows)
    ensures ByRevenue(rows)
    decreases ps
  {
    if !exists p :: p in ps then
      assert ps == {};
      []
    else
      var p :| p in ps;
      var rest := ReportRows(products, sold, ps - {p});
      var row := GroupRow(products, sold, p);
      InsertByRevenueSorted(row, rest);
      InsertByRevenueDistinct(row, rest);
      InsertByRevenue(row, rest)
  }

  /**
   * GET /api/reports/products?from=&to=: 400 without both bounds; otherwise
   * one row per product sold on a closed order closed within the range,
   * with its units and revenue, highest revenue first. Rows of equal
   * revenue come in no promised order.
   */
  ghost function ProductReport(s: Store, from: Option<Day>, to: Option<Day>): (r: Option<seq<ProductRow>>)
    ensures r.None? <==> from.None? || to.None?
    ensures r.Some? ==>
              var sold := Sold(s, from.value, to.value);
              && |r.value| == |Groups(sold)|
              && (forall x :: x in r.value ==> x.productId in Groups(sold) && x == GroupRow(s.products, sold, x.productId))
              && (forall p :: p in Groups(sold) ==> GroupRow(s.products, sold, p) in r.value)
              && DistinctProducts(r.value)
              && ByRevenue(r.value)
  {
    if from.None? || to.None? then None
    else
      var sold := Sold(s, from.value, to.value);
      assert Groups(sold) <= s.products.Keys;
      Some(ReportRows(s.products, sold, Groups(sold)))
  }
}
