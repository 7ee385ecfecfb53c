/**
 * Sums over the `order_items` rows, as SQL's SUM and the running
 * `orders.total` compute them. A `Weight` says what one row contributes.
 */
module Sums {
  import opened Records

  /**
   * `Line(o)`: `qty * price` of a row of order `o` (what `orders.total`
   * accumulates). `UnitsOf(p)`: `qty` of a row of product `p`.
   * `RevenueOf(p)`: `qty * price` of a row of product `p`.
   */
  datatype Weight = Line(orderId: Id) | UnitsOf(productId: Id) | RevenueOf(productId: Id)

  function Value(w: Weight, it: Item): int
  {
    match w
    case Line(o) => if it.orderId == o then it.qty * it.price else 0
    case UnitsOf(p) => if it.productId == p then it.qty else 0
    case RevenueOf(p) => if it.productId == p then it.qty * it.price else 0
  }

  /** The sum of `w` over all rows of `m`, in no particular order. */
  ghost function Sum(m: map<Id, Item>, w: Weight): int
    decreases m.Keys
  {
    if !exists k :: k in m then 0
    else
      var k :| k in m;
      assert (m - {k}).Keys == m.Keys - {k};
      Value(w, m[k]) + Sum(m - {k}, w)
  }

  /** The sum may be split at any row, not only at the one `Sum` picks. */
  lemma {:induction false} SumRemove(m: map<Id, Item>, k: Id, w: Weight)
    requires k in m
    ensures Sum(m, w) == Value(w, m[k]) + Sum(m - {k}, w)
    decreases m.Keys
  {
    var j :| j in m && Sum(m, w) == Value(w, m[j]) + Sum(m - {j}, w);
    if j != k {
      assert (m - {j}).Keys == m.Keys - {j};
      assert (m - {k}).Keys == m.Keys - {k};
      SumRemove(m - {j}, k, w);
      SumRemove(m - {k}, j, w);
      assert m - {j} - {k} == m - {k} - {j};
    }
  }

  /** Inserting a row under a new id adds exactly that row's weight. */
  lemma SumInsert(m: map<Id, Item>, k: Id, it: Item, w: Weight)
    requires k !in m
    ensures Sum(m[k := it], w) == Sum(m, w) + Value(w, it)
  {
    SumRemove(m[k := it], k, w);
    assert m[k := it] - {k} == m;
  }

  /** Rows that all weigh nothing sum to nothing. */
  lemma {:induction false} SumOfZeros(m: map<Id, Item>, w: Weight)
    requires forall k :: k in m ==> Value(w, m[k]) == 0
    ensures Sum(m, w) == 0
    decreases m.Keys
  {
    if exists k :: k in m {
      var k :| k in m;
      assert (m - {k}).Keys == m.Keys - {k};
      SumRemove(m, k, w);
      SumOfZeros(m - {k}, w);
    }
  }
}
