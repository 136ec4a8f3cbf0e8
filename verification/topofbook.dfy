/** Best bid and best offer of a book (analysis/lob3.py, `PriceLevel` and `Book.bbo`). */
module TopOfBook {
  import opened Wrappers
  import opened Maps
  import opened OrderBook

  /** The aggregate of the orders resting at one price. */
  datatype PriceLevel = PriceLevel(price: Option<int>, size: int, count: nat)

  /** The level reported for a side with no orders. */
  const EmptyLevel := PriceLevel(None, 0, 0)

  /** `p` is a strictly better price than `q` on `side`: higher for bids, lower otherwise. */
  predicate Improves(side: string, p: int, q: int)
  {
    if side == "B" then p > q else p < q
  }

  /** The orders of `book`, in the iteration order `ids`. */
  function Resting(book: Book, ids: seq<OrderId>): (os: seq<Order>)
    requires forall i :: 0 <= i < |ids| ==> ids[i] in book.orders
    ensures |os| == |ids|
    ensures forall i :: 0 <= i < |ids| ==> os[i] == book.orders[ids[i]]
  {
    seq(|ids|, i requires 0 <= i < |ids| => book.orders[ids[i]])
  }

  /** Total size of the `side` orders at `price`. */
  function SizeAt(os: seq<Order>, side: string, price: int): (r: int)
  {
    if |os| == 0 then 0
    else
      var o := os[|os| - 1];
      SizeAt(os[..|os| - 1], side, price) + (if o.side == side && o.price == price then o.size else 0)
  }

  /** Number of `side` orders at `price`. */
  function CountAt(os: seq<Order>, side: string, price: int): (r: nat)
  {
    if |os| == 0 then 0
    else
      var o := os[|os| - 1];
      CountAt(os[..|os| - 1], side, price) + (if o.side == side && o.price == price then 1 else 0)
  }

  predicate HasSide(os: seq<Order>, side: string)
  {
    exists i :: 0 <= i < |os| && os[i].side == side
  }

  /** `p` is the price of some `side` order, and no `side` order improves on it. */
  predicate IsBestPrice(os: seq<Order>, side: string, p: int)
  {
    && (exists i :: 0 <= i < |os| && os[i].side == side && os[i].price == p)
    && (forall i :: 0 <= i < |os| && os[i].side == side ==> !Improves(side, os[i].price, p))
  }

  /** The specification of one half of `bbo`: the best price on `side` together with the
      total size and the number of orders resting there, or the empty level. */
  predicate IsBestLevel(os: seq<Order>, side: string, level: PriceLevel)
  {
    if HasSide(os, side) then
      && level.price.Some?
      && IsBestPrice(os, side, level.price.value)
      && level.size == SizeAt(os, side, level.price.value)
      && level.count == CountAt(os, side, level.price.value)
    else
      level == EmptyLevel
  }

  /** What one iteration of the `bbo` loop does to the running level of `side`. */
  function LevelStep(side: string, level: PriceLevel, o: Order): (r: PriceLevel)
  {
    if o.side != side then level
    else if level.price.None? || Improves(side, o.price, level.price.value) then PriceLevel(Some(o.price), o.size, 1)
    else if level.price.value == o.price then PriceLevel(level.price, level.size + o.size, level.count + 1)
    else level
  }

  lemma {:induction false} NothingAt(os: seq<Order>, side: string, price: int)
    requires forall i :: 0 <= i < |os| && os[i].side == side ==> os[i].price != price
    ensures SizeAt(os, side, price) == 0 && CountAt(os, side, price) == 0
  {
    if |os| > 0 {
      NothingAt(os[..|os| - 1], side, price);
    }
  }

  lemma AppendOne(os: seq<Order>, o: Order, side: string, price: int)
    ensures SizeAt(os + [o], side, price) == SizeAt(os, side, price) + (if o.side == side && o.price == price then o.size else 0)
    ensures CountAt(os + [o], side, price) == CountAt(os, side, price) + (if o.side == side && o.price == price then 1 else 0)
  {
    assert (os + [o])[..|os|] == os;
  }

  /** One loop iteration keeps the running level equal to the specification over the orders seen. */
  lemma LevelStepCorrect(os: seq<Order>, side: string, level: PriceLevel, o: Order)
    requires IsBestLevel(os, side, level)
    ensures IsBestLevel(os + [o], side, LevelStep(side, level, o))
  {
    var os' := os + [o];
    assert forall i :: 0 <= i < |os| ==> os'[i] == os[i];
    assert os'[|os|] == o;
    var next := LevelStep(side, level, o);
    if o.side != side {
      if HasSide(os, side) {
        AppendOne(os, o, side, level.price.value);
      } else {
        assert !HasSide(os', side);
      }
    } else if level.price.None? || Improves(side, o.price, level.price.value) {
      assert forall i :: 0 <= i < |os| && os[i].side == side ==> os[i].price != o.price;
      NothingAt(os, side, o.price);
      AppendOne(os, o, side, o.price);
    } else if level.price.value == o.price {
      AppendOne(os, o, side, o.price);
    } else {
      AppendOne(os, o, side, level.price.value);
      assert !Improves(side, o.price, level.price.value);
    }
  }

  /** A side of the book is populated exactly when some resting order is on it, whatever the iteration order. */
  lemma RestingHasSide(book: Book, ids: seq<OrderId>, side: string)
    requires IsEnumeration(ids, book.orders)
    ensures HasSide(Resting(book, ids), side) <==> exists id :: id in book.orders && book.orders[id].side == side
  {
    var os := Resting(book, ids);
    if exists id :: id in book.orders && book.orders[id].side == side {
      var id :| id in book.orders && book.orders[id].side == side;
      var i :| 0 <= i < |ids| && ids[i] == id;
      assert os[i].side == side;
    }
  }

  lemma {:induction false} SizeAtConcat(u: seq<Order>, v: seq<Order>, side: string, price: int)
    ensures SizeAt(u + v, side, price) == SizeAt(u, side, price) + SizeAt(v, side, price)
    ensures CountAt(u + v, side, price) == CountAt(u, side, price) + CountAt(v, side, price)
    decreases |v|
  {
    if |v| == 0 {
      assert u + v == u;
    } else {
      var v' := v[..|v| - 1];
      assert u + v == (u + v') + [v[|v| - 1]];
      SizeAtConcat(u, v', side, price);
      AppendOne(u + v', v[|v| - 1], side, price);
      AppendOne(v', v[|v| - 1], side, price);
      assert v == v' + [v[|v| - 1]];
    }
  }

  /** Removing the order at `j` removes its share from the size and the count at a price. */
  lemma SizeAtRemoveAt(b: seq<Order>, j: nat, side: string, price: int)
    requires j < |b|
    ensures SizeAt(b, side, price) == SizeAt(b[..j] + b[j + 1..], side, price) + (if b[j].side == side && b[j].price == price then b[j].size else 0)
    ensures CountAt(b, side, price) == CountAt(b[..j] + b[j + 1..], side, price) + (if b[j].side == side && b[j].price == price then 1 else 0)
  {
    var x := b[j];
    assert b == b[..j] + ([x] + b[j + 1..]);
    SizeAtConcat(b[..j], [x] + b[j + 1..], side, price);
    SizeAtConcat([x], b[j + 1..], side, price);
    SizeAtConcat(b[..j], b[j + 1..], side, price);
    AppendOne([], x, side, price);
    assert [] + [x] == [x];
  }

  /** The size and the count at a price depend only on which orders rest, not on their order. */
  lemma {:induction false} SizeAtPermutation(a: seq<Order>, b: seq<Order>, side: string, price: int)
    requires multiset(a) == multiset(b)
    ensures SizeAt(a, side, price) == SizeAt(b, side, price)
    ensures CountAt(a, side, price) == CountAt(b, side, price)
    decreases |a|
  {
    if |a| == 0 {
      assert |b| == |multiset(b)| == 0;
    } else {
      var x := a[|a| - 1];
      var a' := a[..|a| - 1];
      assert a == a' + [x];
      assert multiset(a) == multiset(a') + multiset{x};
      assert x in multiset(b);
      var j :| 0 <= j < |b| && b[j] == x;
      var rest := b[..j] + b[j + 1..];
      RemoveAtMultiset(b, j);
      MultisetCancel(multiset(a'), multiset(rest), x);
      SizeAtPermutation(a', rest, side, price);
      SizeAtRemoveAt(b, j, side, price);
      AppendOne(a', x, side, price);
    }
  }

  /** Two iteration orders of the same book list the same orders, up to permutation. */
  lemma RestingPermutation(book: Book, ids1: seq<OrderId>, ids2: seq<OrderId>)
    requires IsEnumeration(ids1, book.orders) && IsEnumeration(ids2, book.orders)
    ensures multiset(Resting(book, ids1)) == multiset(Resting(book, ids2))
  {
    var f := (id: OrderId) => if id in book.orders then book.orders[id] else Order("", 0, 0, 0);
    EnumerationsArePermutations(ids1, ids2, book.orders);
    MapSeqPermutation(f, ids1, ids2);
    assert Resting(book, ids1) == MapSeq(f, ids1);
    assert Resting(book, ids2) == MapSeq(f, ids2);
  }

  /** The specified level of a side does not depend on the dict's iteration order. */
  lemma BestLevelIndependentOfOrder(book: Book, ids1: seq<OrderId>, ids2: seq<OrderId>, side: string, level: PriceLevel)
    requires IsEnumeration(ids1, book.orders) && IsEnumeration(ids2, book.orders)
    ensures IsBestLevel(Resting(book, ids1), side, level) <==> IsBestLevel(Resting(book, ids2), side, level)
  {
    var a, b := Resting(book, ids1), Resting(book, ids2);
    RestingPermutation(book, ids1, ids2);
    RestingHasSide(book, ids1, side);
    RestingHasSide(book, ids2, side);
    if level.price.Some? {
      var p := level.price.value;
      SizeAtPermutation(a, b, side, p);
      assert IsBestPrice(a, side, p) ==> IsBestPrice(b, side, p) by {
        if IsBestPrice(a, side, p) {
          var i :| 0 <= i < |a| && a[i].side == side && a[i].price == p;
          assert a[i] in multiset(b);
          forall j | 0 <= j < |b| && b[j].side == side
            ensures !Improves(side, b[j].price, p)
          {
            assert b[j] in multiset(a);
          }
        }
      }
      assert IsBestPrice(b, side, p) ==> IsBestPrice(a, side, p) by {
        if IsBestPrice(b, side, p) {
          var i :| 0 <= i < |b| && b[i].side == side && b[i].price == p;
          assert b[i] in multiset(a);
          forall j | 0 <= j < |a| && a[j].side == side
            ensures !Improves(side, a[j].price, p)
          {
            assert a[j] in multiset(b);
          }
        }
      }
    }
  }

  /** The specified level is unique: at most one level meets it. */
  lemma BestLevelUnique(os: seq<Order>, side: string, l1: PriceLevel, l2: PriceLevel)
    requires IsBestLevel(os, side, l1) && IsBestLevel(os, side, l2)
    ensures l1 == l2
  {
    if HasSide(os, side) {
      var p1, p2 := l1.price.value, l2.price.value;
      var i :| 0 <= i < |os| && os[i].side == side && os[i].price == p1;
      var j :| 0 <= j < |os| && os[j].side == side && os[j].price == p2;
      assert !Improves(side, os[i].price, p2) && !Improves(side, os[j].price, p1);
    }
  }

  /** The best bid and the best ask of the book, folding over its orders in iteration order. */
  method Bbo(book: Book, ids: seq<OrderId>) returns (bid: PriceLevel, ask: PriceLevel)
    requires IsEnumeration(ids, book.orders)
    ensures IsBestLevel(Resting(book, ids), "B", bid)
    ensures IsBestLevel(Resting(book, ids), "A", ask)
    ensures bid.price.Some? <==> exists id :: id in book.orders && book.orders[id].side == "B"
    ensures ask.price.Some? <==> exists id :: id in book.orders && book.orders[id].side == "A"
  {
    var os := Resting(book, ids);
    bid, ask := EmptyLevel, EmptyLevel;
    var k := 0;
    while k < |os|
      invariant 0 <= k <= |os|
      invariant IsBestLevel(os[..k], "B", bid)
      invariant IsBestLevel(os[..k], "A", ask)
    {
      var order := os[k];
      LevelStepCorrect(os[..k], "A", ask, order);
      LevelStepCorrect(os[..k], "B", bid, order);
      assert os[..k + 1] == os[..k] + [order];
      if order.side == "A" {
        ask := LevelStep("A", ask, order);
      } else if order.side == "B" {
        bid := LevelStep("B", bid, order);
      }
      k := k + 1;
    }
    assert os[..k] == os;
    RestingHasSide(book, ids, "B");
    RestingHasSide(book, ids, "A");
  }
}
