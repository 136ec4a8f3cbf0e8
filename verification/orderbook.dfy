/** Replay of a market-by-order event stream into the set of resting orders
    (analysis/lob3.py, `Order` and `Book.apply`). */
module OrderBook {
  import opened Wrappers
  import opened Maps

  type OrderId = int
  type Timestamp = int

  /** A resting order; `side` is "A" (ask) or "B" (bid). */
  datatype Order = Order(side: string, price: int, size: int, tsEvent: Timestamp)

  /** The resting orders, keyed by order id. */
  datatype Book = Book(orders: map<OrderId, Order>)

  /** The feed's "no price" sentinel. Its concrete value belongs to the vendor library and is
      deliberately left unspecified. */
  const UndefPrice: int

  /** The failed `assert`s and the missing-key lookups of `apply`. */
  datatype ApplyError =
    | SideNotAskOrBid
    | UndefPriceWithSize
    | UnknownOrder(id: OrderId)
    | CancelExceedsSize

  /** One event of the replayed stream: the arguments of one `apply` call. */
  datatype Event = Event(tsEvent: Timestamp, action: string, side: string, orderId: OrderId, price: int, size: int)

  const EmptyBook := Book(map[])

  predicate IsSide(side: string)
  {
    side == "A" || side == "B"
  }

  /** Every resting order is on one side of the book. */
  predicate WellSided(book: Book)
  {
    forall id :: id in book.orders ==> IsSide(book.orders[id].side)
  }

  /** Actions that never touch resting orders and are accepted with any side and price. */
  predicate IsPassive(action: string)
  {
    action == "T" || action == "F" || action == "R"
  }

  /** `book'` differs from `book` at most in the entry for `id`. */
  ghost predicate OnlyTouches(book: Book, book': Book, id: OrderId)
  {
    AgreeOutside(book.orders, book'.orders, id)
  }

  /** Add: the id now names the new order, replacing any order it named before. */
  function AddOrder(book: Book, ts: Timestamp, side: string, id: OrderId, price: int, size: int): (r: Book)
    ensures r.orders.Keys == book.orders.Keys + {id}
    ensures r.orders[id] == Order(side, price, size, ts)
    ensures OnlyTouches(book, r, id)
  {
    Book(book.orders[id := Order(side, price, size, ts)])
  }

  /** Cancel: take `size` off a resting order, removing it once nothing is left. */
  function CancelOrder(book: Book, id: OrderId, size: int): (r: Result<Book, ApplyError>)
    ensures id !in book.orders ==> r == Failure(UnknownOrder(id))
    ensures id in book.orders && book.orders[id].size < size ==> r == Failure(CancelExceedsSize)
    ensures r.Success? <==> id in book.orders && size <= book.orders[id].size
    ensures r.Success? ==> OnlyTouches(book, r.value, id)
    ensures r.Success? ==> (id in r.value.orders <==> book.orders[id].size != size)
    ensures r.Success? && id in r.value.orders ==>
              r.value.orders[id] == book.orders[id].(size := book.orders[id].size - size)
  {
    if id !in book.orders then Failure(UnknownOrder(id))
    else
      var existing := book.orders[id];
      if existing.size < size then Failure(CancelExceedsSize)
      else if existing.size - size == 0 then Success(Book(book.orders - {id}))
      else Success(Book(book.orders[id := existing.(size := existing.size - size)]))
  }

  /** Modify: move a resting order to a new price and size. It keeps its side, stays in the
      book even at size 0, and loses its queue priority (a new `tsEvent`) when the price
      changes or the size grows. */
  function ModifyOrder(book: Book, ts: Timestamp, id: OrderId, price: int, size: int): (r: Result<Book, ApplyError>)
    ensures r.Failure? <==> id !in book.orders
    ensures r.Failure? ==> r.error == UnknownOrder(id)
    ensures r.Success? ==> r.value.orders.Keys == book.orders.Keys && OnlyTouches(book, r.value, id)
    ensures r.Success? ==>
              var before, after := book.orders[id], r.value.orders[id];
              && after.side == before.side
              && after.price == price
              && after.size == size
              && (before.price != price || before.size < size ==> after.tsEvent == ts)
              && (before.price == price && size <= before.size ==> after.tsEvent == before.tsEvent)
  {
    if id !in book.orders then Failure(UnknownOrder(id))
    else
      var existing := book.orders[id];
      var ts' := if existing.price != price || existing.size < size then ts else existing.tsEvent;
      Success(Book(book.orders[id := Order(existing.side, price, size, ts')]))
  }

  /** One event applied to the book. */
  function Apply(book: Book, ts: Timestamp, action: string, side: string, id: OrderId, price: int, size: int): (r: Result<Book, ApplyError>)
    // Trade and Fill leave the book alone; Clear empties it, whatever the other fields say.
    ensures action == "T" || action == "F" ==> r == Success(book)
    ensures action == "R" ==> r == Success(EmptyBook)
    // Every other action needs a side ...
    ensures !IsPassive(action) && !IsSide(side) ==> r == Failure(SideNotAskOrBid)
    // ... and with the undefined price it is a no-op that must carry no size.
    ensures !IsPassive(action) && IsSide(side) && price == UndefPrice ==>
              r == (if size == 0 then Success(book) else Failure(UndefPriceWithSize))
    ensures !IsPassive(action) && IsSide(side) && price != UndefPrice ==>
              && (action == "A" ==> r == Success(AddOrder(book, ts, side, id, price, size)))
              && (action == "C" ==> r == CancelOrder(book, id, size))
              && (action == "M" ==> r == ModifyOrder(book, ts, id, price, size))
              && (action != "A" && action != "C" && action != "M" ==> r == Success(book))
    // Whatever happens, no order other than `id` is touched (except by a Clear).
    ensures r.Success? && action != "R" ==> OnlyTouches(book, r.value, id)
  {
    if action == "T" || action == "F" then Success(book)
    else if action == "R" then Success(EmptyBook)
    else if !IsSide(side) then Failure(SideNotAskOrBid)
    else if price == UndefPrice then
      (if size == 0 then Success(book) else Failure(UndefPriceWithSize))
    else if action == "A" then Success(AddOrder(book, ts, side, id, price, size))
    else if action == "C" then CancelOrder(book, id, size)
    else if action == "M" then ModifyOrder(book, ts, id, price, size)
    else Success(book)
  }

  function ApplyEvent(book: Book, e: Event): (r: Result<Book, ApplyError>)
  {
    Apply(book, e.tsEvent, e.action, e.side, e.orderId, e.price, e.size)
  }

  /** Applies the events in order, stopping at the first one `apply` rejects. */
  function Replay(book: Book, events: seq<Event>): (r: Result<Book, ApplyError>)
    decreases |events|
  {
    if |events| == 0 then Success(book)
    else match ApplyEvent(book, events[0])
      case Failure(e) => Failure(e)
      case Success(b) => Replay(b, events[1..])
  }

  /** `apply` only ever rests orders whose side is "A" or "B". */
  lemma ApplyKeepsWellSided(book: Book, e: Event)
    requires WellSided(book)
    ensures ApplyEvent(book, e).Success? ==> WellSided(ApplyEvent(book, e).value)
  {
  }

  /** Consequently a whole replay from a well-sided book (the empty one, say) stays well-sided. */
  lemma {:induction false} ReplayKeepsWellSided(book: Book, events: seq<Event>)
    requires WellSided(book)
    ensures Replay(book, events).Success? ==> WellSided(Replay(book, events).value)
    decreases |events|
  {
    if |events| > 0 {
      ApplyKeepsWellSided(book, events[0]);
      if ApplyEvent(book, events[0]).Success? {
        ReplayKeepsWellSided(ApplyEvent(book, events[0]).value, events[1..]);
      }
    }
  }

  /** Cancelling the full size of a freshly added order restores the book it was added to. */
  lemma AddThenCancelRestores(book: Book, ts: Timestamp, side: string, id: OrderId, price: int, size: int,
                              ts2: Timestamp, side2: string, price2: int)
    requires id !in book.orders
    requires IsSide(side) && IsSide(side2)
    requires price != UndefPrice && price2 != UndefPrice
    ensures Apply(book, ts, "A", side, id, price, size).Success?
    ensures Apply(Apply(book, ts, "A", side, id, price, size).value, ts2, "C", side2, id, price2, size) == Success(book)
  {
    var added := Apply(book, ts, "A", side, id, price, size).value;
    assert added.orders - {id} == book.orders;
  }
}
