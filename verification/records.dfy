/**
 * The rows of the point-of-sale ledger and the values a request handler
 * can answer with.
 *
 * Money is held in integer cents (the store itself uses floating point).
 * A timestamp is an integer count of milliseconds since the epoch (UTC),
 * which is what the server's `now()` ISO string denotes.
 */
module Records {

  /** A row id issued by the store (SQLite INTEGER PRIMARY KEY). */
  type Id = int

  /** An amount of money in cents. */
  type Money = int

  /** Milliseconds since the epoch, UTC. */
  type Time = int

  /** A calendar day, counted from the epoch. */
  type Day = int

  datatype Option<+T> = None | Some(value: T)

  /** SQLite's `date(t)` of a timestamp: the UTC day it falls on. */
  function DayOf(t: Time): (d: Day)
    ensures d * 86_400_000 <= t < (d + 1) * 86_400_000
  {
    t / 86_400_000
  }

  /**
   * A numeric field of a JSON body or query as the handlers test it: `!x`
   * is true for a missing field and for zero, so only those are rejected.
   */
  predicate Given(x: Option<int>)
  {
    x.Some? && x.value != 0
  }

  /** A text field as the handlers test it: `!x` rejects missing and "". */
  predicate GivenText(x: Option<string>)
  {
    x.Some? && x.value != ""
  }

  /** The two values the handlers ever write into `orders.status`. */
  datatype Status = Open | Closed

  datatype Table = Table(name: string, createdAt: Time)

  /** A product; `active` is cleared by the soft delete, never set back. */
  datatype Product = Product(name: string, price: Money, active: bool, createdAt: Time)

  /**
   * An order of a table. `total` is the denormalised running sum of its
   * items' `qty * price`, kept up to date by the item handlers.
   */
  datatype Order = Order(tableId: Id, status: Status, openedAt: Time, closedAt: Option<Time>, total: Money)

  /** An order line; `price` is the product's price when the line was added. */
  datatype Item = Item(orderId: Id, productId: Id, qty: int, price: Money, createdAt: Time)

  datatype Payment = Payment(orderId: Id, paymentMethod: string, amount: Money, paidAt: Time)

  /**
   * What a handler answers: `Ok(id)` carries the id of the row it returned
   * or inserted, `Done` is `{ ok: true }`, `BadRequest` is HTTP 400,
   * `NotFound` HTTP 404 and `Rejected` the HTTP 500 of a statement the
   * store refused (a UNIQUE violation).
   */
  datatype Outcome = Ok(id: Id) | Done | BadRequest | NotFound | Rejected
}
