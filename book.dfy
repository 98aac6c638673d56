/** The live buy-side order book of Vwap.H: a map from order id to the
    resting Order, and the pure transitions the message handlers apply to it.
    Every function here states in its contract what the transition means for
    each key; the handlers in module Vwap are specified by these functions. */
module OrderBook {
  import opened Wire

  type OrderId = uint64
  type LocateId = uint16
  type Price = uint32
  type Qty = uint32

  /** struct Order: price, remaining (or executed) quantity and the locate id
      of the security. */
  datatype Order = Order(price: Price, qty: Qty, locate: LocateId)

  /** std::unordered_map<OrderId, Order>; hashing and bucket layout are not observable. */
  type Book = map<OrderId, Order>

  const QtyModulus: int := 0x1_0000_0000

  /** The side byte of an add-order message that the book tracks ('B'). */
  const Buy: byte := 'B' as int

  /** qty_t subtraction `a -= b`: unsigned, so it wraps modulo 2^32. */
  function Sub32(a: Qty, b: Qty): (r: Qty)
    ensures (r + b) % QtyModulus == a
    ensures b <= a ==> r == a - b
    ensures a < b ==> r == QtyModulus - (b - a)
    ensures r == 0 <==> a == b
  {
    (a - b) % QtyModulus
  }

  /** std::unordered_map::emplace: adds id -> o unless id is already a key,
      in which case the existing entry stays as it was. */
  function Emplace(book: Book, id: OrderId, o: Order): (r: Book)
    ensures r.Keys == book.Keys + {id}
    ensures id !in book ==> r[id] == o
    ensures forall k :: k in book ==> r[k] == book[k]
  {
    if id in book then book else book[id := o]
  }

  /** addOrder: only buy orders enter the book. */
  function Add(book: Book, id: OrderId, side: byte, o: Order): (r: Book)
    ensures side != Buy ==> r == book
    ensures side == Buy ==> r.Keys == book.Keys + {id}
    ensures side == Buy && id !in book ==> r[id] == o
    ensures forall k :: k in book ==> r[k] == book[k]
  {
    if side == Buy then Emplace(book, id, o) else book
  }

  /** orderExec and orderExecPrice: `qty` units of order id trade. An absent
      id is ignored; a fill of exactly the resting quantity removes the
      order; any other fill subtracts from the resting quantity with
      wrap-around and keeps the order's price and locate. */
  function Execute(book: Book, id: OrderId, qty: Qty): (r: Book)
    ensures id !in book ==> r == book
    ensures r.Keys == if id in book && qty == book[id].qty then book.Keys - {id} else book.Keys
    ensures forall k :: k in r && k != id ==> r[k] == book[k]
    ensures id in r ==> && r[id].price == book[id].price
                        && r[id].locate == book[id].locate
                        && (r[id].qty + qty) % QtyModulus == book[id].qty
                        && (qty <= book[id].qty ==> r[id].qty == book[id].qty - qty)
  {
    if id !in book then book
    else if qty == book[id].qty then book - {id}
    else book[id := book[id].(qty := Sub32(book[id].qty, qty))]
  }

  /** orderCancel: an absent id is ignored; otherwise `qty` is subtracted
      with wrap-around and the order is removed exactly when the remainder
      is zero, that is when all of its resting quantity is cancelled. */
  function Cancel(book: Book, id: OrderId, qty: Qty): (r: Book)
    ensures id !in book ==> r == book
    ensures id in book ==> (id in r <==> qty != book[id].qty)
    ensures r.Keys <= book.Keys && book.Keys - r.Keys <= {id}
    ensures forall k :: k in r && k != id ==> r[k] == book[k]
    ensures id in r ==> && r[id].price == book[id].price
                        && r[id].locate == book[id].locate
                        && (r[id].qty + qty) % QtyModulus == book[id].qty
  {
    if id !in book then book
    else
      var left := book[id].(qty := Sub32(book[id].qty, qty));
      if left.qty == 0 then book - {id} else book[id := left]
  }

  /** orderDelete: removes id whatever its remaining quantity. */
  function Delete(book: Book, id: OrderId): (r: Book)
    ensures r.Keys == book.Keys - {id}
    ensures forall k :: k in r ==> r[k] == book[k]
  {
    book - {id}
  }

  /** orderReplace: when oldId is resting it is removed and newId is
      emplaced with the replacement order; when oldId is absent nothing is
      inserted. A newId that is already another live key keeps its entry. */
  function Replace(book: Book, oldId: OrderId, newId: OrderId, o: Order): (r: Book)
    ensures oldId !in book ==> r == book
    ensures oldId in book ==> r.Keys == book.Keys - {oldId} + {newId}
    ensures oldId in book && (newId == oldId || newId !in book) ==> r[newId] == o
    ensures forall k :: k in book && k != oldId ==> k in r && r[k] == book[k]
  {
    if oldId !in book then book else Emplace(book - {oldId}, newId, o)
  }

  /** The invariant one expects of a book of resting orders: every entry has
      a nonzero remaining quantity. The code does not enforce it (see the
      lemmas below for exactly which handlers keep it). */
  predicate Resting(book: Book)
  {
    forall id :: id in book ==> book[id].qty > 0
  }

  /** A cancel changes the book exactly as an execution of the same quantity
      would: both remove the order iff the quantity equals what rests. */
  lemma CancelIsExecute(book: Book, id: OrderId, qty: Qty)
    ensures Cancel(book, id, qty) == Execute(book, id, qty)
  {
  }

  /** Deleting twice is deleting once. */
  lemma DeleteIdempotent(book: Book, id: OrderId)
    ensures Delete(Delete(book, id), id) == Delete(book, id)
  {
  }

  /** Executions, cancels and deletes never leave a zero-quantity entry:
      a partial fill or cancel of e from q with e != q wraps to a nonzero
      remainder. */
  lemma ExecuteKeepsResting(book: Book, id: OrderId, qty: Qty)
    requires Resting(book)
    ensures Resting(Execute(book, id, qty))
    ensures Resting(Cancel(book, id, qty))
    ensures Resting(Delete(book, id))
  {
  }

  /** An add keeps the invariant iff it does not insert a zero quantity:
      the code accepts an add of quantity 0 and keeps the empty order. */
  lemma AddKeepsRestingIff(book: Book, id: OrderId, side: byte, o: Order)
    requires Resting(book)
    ensures Resting(Add(book, id, side, o)) <==> (side != Buy || id in book || o.qty > 0)
  {
  }

  /** A replace keeps the invariant iff it does not insert a zero quantity. */
  lemma ReplaceKeepsRestingIff(book: Book, oldId: OrderId, newId: OrderId, o: Order)
    requires Resting(book)
    ensures Resting(Replace(book, oldId, newId, o))
        <==> (oldId !in book || (newId in book && newId != oldId) || o.qty > 0)
  {
  }
}
