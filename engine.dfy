// The matching engine of lib/engine/orderbook.go: the per-pair OrderBook,
// the Books registry with the lazy creation done by AddOrder, and
// MatchOrder, one limit-order matching pass under price-time priority.

module Engine {
  import opened Models
  import opened PriorityQueues
  import Heap

  /** Total remaining quantity of a sequence of orders. */
  function Sum(s: seq<Order>): int {
    if |s| == 0 then 0 else s[0].quantity + Sum(s[1..])
  }

  lemma {:induction false} SumConcat(a: seq<Order>, b: seq<Order>)
    ensures Sum(a + b) == Sum(a) + Sum(b)
    decreases |a|
  {
    if |a| == 0 {
      assert a + b == b;
    } else {
      assert (a + b)[1..] == a[1..] + b;
      SumConcat(a[1..], b);
    }
  }

  /** The total quantity does not depend on the order of the orders. */
  lemma {:induction false} SumOfPermutation(a: seq<Order>, b: seq<Order>)
    requires multiset(a) == multiset(b)
    ensures Sum(a) == Sum(b)
    decreases |a|
  {
    if |a| == 0 {
      assert |multiset(b)| == 0;
    } else {
      var x := a[0];
      assert x in multiset(b);
      var k :| 0 <= k < |b| && b[k] == x;
      assert b == b[..k] + [x] + b[k + 1..];
      var rest := b[..k] + b[k + 1..];
      assert a == [x] + a[1..];
      assert multiset(b) == multiset(b[..k]) + multiset{x} + multiset(b[k + 1..]);
      assert multiset(a[1..]) == multiset(a) - multiset{x};
      assert multiset(rest) == multiset(b[..k]) + multiset(b[k + 1..]);
      assert multiset(rest) == multiset(b) - multiset{x};
      assert multiset(a[1..]) == multiset(rest);
      SumOfPermutation(a[1..], rest);
      SumConcat(b[..k] + [x], b[k + 1..]);
      SumConcat(b[..k], [x]);
      SumConcat(b[..k], b[k + 1..]);
    }
  }

  /** Orders with positive quantities have a non-negative total. */
  lemma {:induction false} SumNonNegative(s: seq<Order>)
    requires forall o :: o in s ==> o.quantity > 0
    ensures Sum(s) >= 0
    ensures |s| > 0 ==> Sum(s) > 0
    decreases |s|
  {
    if |s| > 0 {
      assert forall o :: o in s[1..] ==> o in s;
      SumNonNegative(s[1..]);
    }
  }

  /**
   * An incoming order of `side` trades with a resting order `maker` of the
   * other side: a buy stops when its price is below the best sell price, a
   * sell when its price is above the best buy price.
   */
  function Crosses(side: Side, taker: Order, maker: Order): bool {
    match side
    case Buy => !(taker.price < maker.price)
    case Sell => !(taker.price > maker.price)
  }

  /** No order on one side would trade with any order on the other side. */
  ghost predicate Apart(side: Side, own: seq<Order>, opposite: seq<Order>) {
    forall a, m :: a in own && m in opposite ==> !Crosses(side, a, m)
  }

  /** The book is not crossed: every bid is priced strictly below every ask. */
  ghost predicate NotCrossed(buys: seq<Order>, sells: seq<Order>) {
    forall b, s :: b in buys && s in sells ==> b.price < s.price
  }

  lemma ApartIsNotCrossed(buys: seq<Order>, sells: seq<Order>)
    ensures Apart(Buy, buys, sells) <==> NotCrossed(buys, sells)
    ensures Apart(Sell, sells, buys) <==> NotCrossed(buys, sells)
  {
  }

  /**
   * With both sides in heap order, the book is uncrossed exactly when one
   * side is empty or the best bid is below the best ask.
   */
  lemma NotCrossedIffTopsApart(buys: seq<Order>, sells: seq<Order>)
    requires IsHeap(Buy, buys) && IsHeap(Sell, sells)
    ensures NotCrossed(buys, sells) <==>
              (|buys| == 0 || |sells| == 0 || buys[0].price < sells[0].price)
  {
    if |buys| > 0 && |sells| > 0 && buys[0].price < sells[0].price {
      HeapTopIsBest(Buy, buys);
      HeapTopIsBest(Sell, sells);
      forall b, s | b in buys && s in sells
        ensures b.price < s.price
      {
        assert !BuyLess(b, buys[0]);
        assert !SellLess(s, sells[0]);
      }
    }
  }

  /** Every order resting on `side` has a positive quantity and carries that side. */
  ghost predicate Resting(side: Side, s: seq<Order>) {
    forall o :: o in s ==> o.quantity > 0 && o.side == SideName(side)
  }

  /**
   * The orders `s` of a side, with `q` given back to the top: the state
   * before a partial fill of q took it from the top.
   */
  function Restored(s: seq<Order>, q: int): seq<Order> {
    if q == 0 || |s| == 0 then s else s[0 := s[0].(quantity := s[0].quantity + q)]
  }

  /**
   * Every order the opposite side held before matching is accounted for:
   * either filled and popped, or still resting (the top with the `partial`
   * quantity taken from it given back).
   */
  ghost predicate Accounted(opposite0: seq<Order>, filled: seq<Order>, partial: int,
                            opposite: seq<Order>)
  {
    multiset(opposite0) == multiset(filled) + multiset(Restored(opposite, partial))
  }

  /**
   * The state of a matching pass of an incoming `order` of `side` after some
   * steps, relative to the opposite side `opposite0` it started from:
   *   - the order is now `taker`, with only its quantity changed;
   *   - `filled` are the resting orders it consumed entirely, each as it was
   *     before the trade, in the order they were consumed; `partial` is what
   *     it took from the resting order it left on top of the book;
   *   - the quantity the order lost is exactly the quantity taken from the
   *     resting side (quantity conservation);
   *   - every order it traded with crossed its price, was at least as good
   *     as every order still resting, and they were consumed best first;
   *   - the opposite side is still a heap of resting orders.
   */
  ghost predicate Progress(side: Side, order: Order, taker: Order,
                           filled: seq<Order>, partial: int,
                           opposite0: seq<Order>, opposite: seq<Order>)
  {
    && IsHeap(Opposite(side), opposite) && Resting(Opposite(side), opposite)
    && taker == order.(quantity := taker.quantity)
    && order.quantity - taker.quantity == Sum(filled) + partial
    && (order.quantity > 0 ==> taker.quantity >= 0)
    && (order.quantity <= 0 ==> taker == order && filled == [] && partial == 0 && opposite == opposite0)
    && partial >= 0
    && (partial > 0 ==> taker.quantity == 0 && |opposite| > 0 && Crosses(side, order, opposite[0]))
    && Accounted(opposite0, filled, partial, opposite)
    && (forall c :: c in filled ==> c.quantity > 0 && Crosses(side, order, c))
    && (forall i, j :: 0 <= i < j < |filled| ==> !Precedes(Opposite(side), filled[j], filled[i]))
    && (forall c, o :: c in filled && o in opposite ==> !Precedes(Opposite(side), o, c))
  }

  /**
   * What a whole matching pass does, relating the book before (own0,
   * opposite0) to the book after (own, opposite): the Progress it made, the
   * reason it stopped (the order was exhausted, the other side was empty, or
   * the best resting order no longer crossed), and the remainder resting on
   * its own side exactly when it is positive.
   */
  ghost predicate MatchOutcome(side: Side, order: Order, taker: Order,
                               filled: seq<Order>, partial: int,
                               own0: seq<Order>, opposite0: seq<Order>,
                               own: seq<Order>, opposite: seq<Order>)
  {
    && Progress(side, order, taker, filled, partial, opposite0, opposite)
    && (taker.quantity <= 0 || |opposite| == 0 || !Crosses(side, order, opposite[0]))
    && (if taker.quantity > 0 then multiset(own) == multiset(own0) + multiset{taker}
        else own == own0)
  }

  lemma {:induction false} RestoredSum(s: seq<Order>, q: int)
    ensures Sum(Restored(s, q)) == Sum(s) + (if |s| == 0 then 0 else q)
  {
    if q != 0 && |s| > 0 {
      assert Restored(s, q)[1..] == s[1..];
    }
  }

  /**
   * Quantity conservation: what the incoming order lost is what the resting
   * side lost, and the order never ends with more than it came with nor
   * below zero.
   */
  lemma MatchConservesQuantity(side: Side, order: Order, taker: Order,
                               filled: seq<Order>, partial: int,
                               own0: seq<Order>, opposite0: seq<Order>,
                               own: seq<Order>, opposite: seq<Order>)
    requires MatchOutcome(side, order, taker, filled, partial, own0, opposite0, own, opposite)
    ensures Sum(opposite0) - Sum(opposite) == order.quantity - taker.quantity
    ensures Sum(own) == Sum(own0) + (if taker.quantity > 0 then taker.quantity else 0)
    ensures order.quantity > 0 ==> 0 <= taker.quantity <= order.quantity
  {
    SumOfPermutation(opposite0, filled + Restored(opposite, partial));
    SumConcat(filled, Restored(opposite, partial));
    RestoredSum(opposite, partial);
    SumNonNegative(filled);
    if taker.quantity > 0 {
      SumOfPermutation(own, own0 + [taker]);
      SumConcat(own0, [taker]);
    }
  }

  /** An order that is completely filled never enters the book. */
  lemma FilledTakerNeverRests(side: Side, order: Order, taker: Order,
                              filled: seq<Order>, partial: int,
                              own0: seq<Order>, opposite0: seq<Order>,
                              own: seq<Order>, opposite: seq<Order>)
    requires MatchOutcome(side, order, taker, filled, partial, own0, opposite0, own, opposite)
    requires Resting(side, own0)
    ensures taker in own <==> taker.quantity > 0
  {
    if taker.quantity > 0 {
      assert taker in multiset(own);
    } else {
      assert own == own0;
    }
  }

  /** Restoring the top's quantity changes no price and no length. */
  lemma RestoredKeepsPrices(s: seq<Order>, q: int)
    ensures |Restored(s, q)| == |s|
    ensures forall k :: 0 <= k < |s| ==> Restored(s, q)[k].price == s[k].price
  {
  }

  /** Adding `x` to a side that was apart from `opposite` keeps it apart when x crosses nothing there. */
  lemma ApartAfterRest(side: Side, own0: seq<Order>, own: seq<Order>, x: Order, rests: bool,
                       opposite0: seq<Order>, filled: seq<Order>,
                       r: seq<Order>, opposite: seq<Order>)
    requires Apart(side, own0, opposite0)
    requires multiset(opposite0) == multiset(filled) + multiset(r)
    requires |r| == |opposite| && forall k :: 0 <= k < |r| ==> r[k].price == opposite[k].price
    requires forall a :: a in own ==> a in own0 || (rests && a == x)
    requires rests ==> forall m :: m in opposite ==> !Crosses(side, x, m)
    ensures Apart(side, own, opposite)
  {
    forall a, m | a in own && m in opposite
      ensures !Crosses(side, a, m)
    {
      if a in own0 {
        var k :| 0 <= k < |opposite| && opposite[k] == m;
        assert r[k] in multiset(r);
        assert r[k] in multiset(opposite0);
        assert r[k] in opposite0;
        assert !Crosses(side, a, r[k]);
      }
    }
  }

  /**
   * A pass never crosses the book: if no order on the taker's side crossed
   * the other side before, none does afterwards, the remainder included.
   */
  lemma MatchKeepsApart(side: Side, order: Order, taker: Order,
                        filled: seq<Order>, partial: int,
                        own0: seq<Order>, opposite0: seq<Order>,
                        own: seq<Order>, opposite: seq<Order>)
    requires MatchOutcome(side, order, taker, filled, partial, own0, opposite0, own, opposite)
    requires Apart(side, own0, opposite0)
    ensures Apart(side, own, opposite)
  {
    RestoredKeepsPrices(opposite, partial);
    forall a | a in own
      ensures a in own0 || (taker.quantity > 0 && a == taker)
    {
      if taker.quantity > 0 {
        assert a in multiset(own);
      }
    }
    if taker.quantity > 0 && |opposite| > 0 {
      HeapTopIsBest(Opposite(side), opposite);
      forall m | m in opposite
        ensures !Crosses(side, taker, m)
      {
        assert !Precedes(Opposite(side), m, opposite[0]);
      }
    } else if taker.quantity <= 0 {
      assert own == own0;
    }
    ApartAfterRest(side, own0, own, taker, taker.quantity > 0, opposite0, filled, Restored(opposite, partial), opposite);
  }

  /** Changing the quantity of the top order keeps it resting, ranked and priced as before. */
  lemma TopUpdate(side: Side, s: seq<Order>, q: int, filled: seq<Order>)
    requires |s| > 0 && Resting(side, s) && q > 0
    requires forall c, o :: c in filled && o in s ==> !Precedes(side, o, c)
    ensures Resting(side, s[0 := s[0].(quantity := q)])
    ensures forall c, o :: c in filled && o in s[0 := s[0].(quantity := q)] ==> !Precedes(side, o, c)
  {
    var t := s[0 := s[0].(quantity := q)];
    forall o | o in t
      ensures o.quantity > 0 && o.side == SideName(side)
      ensures forall c :: c in filled ==> !Precedes(side, o, c)
    {
      var k :| 0 <= k < |t| && t[k] == o;
      forall c | c in filled
        ensures !Precedes(side, o, c)
      {
        PrecedesIgnoresQuantity(side, s[k], c, q);
      }
    }
  }

  /**
   * Popping the exhausted top: the popped order (as it was before the trade)
   * joins `filled`, everything left was already resting, and nothing left
   * comes before anything filled.
   */
  lemma PoppedStep(side: Side, s: seq<Order>, updated: seq<Order>, rest: seq<Order>,
                   filled: seq<Order>, s0: seq<Order>)
    requires |s| > 0 && updated == s[0 := s[0].(quantity := 0)]
    requires multiset(rest) == multiset(updated) - multiset{updated[0]}
    requires multiset(s0) == multiset(filled) + multiset(s)
    requires Resting(side, s)
    requires forall c, o :: c in filled && o in s ==> !Precedes(side, o, c)
    requires forall o :: o in s ==> !Precedes(side, o, s[0])
    ensures multiset(rest) == multiset(s) - multiset{s[0]}
    ensures multiset(s0) == multiset(filled + [s[0]]) + multiset(rest)
    ensures Resting(side, rest)
    ensures forall c, o :: c in filled + [s[0]] && o in rest ==> !Precedes(side, o, c)
  {
    assert s == [s[0]] + s[1..];
    assert updated == [updated[0]] + s[1..];
    assert multiset(rest) == multiset(s[1..]);
    forall o | o in rest
      ensures o in s
    {
      assert o in multiset(rest);
    }
  }

  /** A step that exhausts the best resting order, which is then popped. */
  lemma ExhaustStep(side: Side, order: Order, taker: Order, filled: seq<Order>,
                    opposite0: seq<Order>, s: seq<Order>, rest: seq<Order>, m: int)
    requires Progress(side, order, taker, filled, 0, opposite0, s)
    requires |s| > 0 && taker.quantity > 0 && Crosses(side, taker, s[0])
    requires m == s[0].quantity && m <= taker.quantity
    requires IsHeap(Opposite(side), rest)
    requires multiset(rest) == multiset(s[0 := s[0].(quantity := 0)]) - multiset{s[0].(quantity := 0)}
    ensures Progress(side, order, taker.(quantity := taker.quantity - m), filled + [s[0]], 0, opposite0, rest)
    ensures multiset(rest) == multiset(s) - multiset{s[0]}
  {
    HeapTopIsBest(Opposite(side), s);
    PoppedStep(Opposite(side), s, s[0 := s[0].(quantity := 0)], rest, filled, opposite0);
    SumConcat(filled, [s[0]]);
  }

  /** A step that exhausts the incoming order and leaves the best resting order partly filled. */
  lemma PartialStep(side: Side, order: Order, taker: Order, filled: seq<Order>,
                    opposite0: seq<Order>, s: seq<Order>, m: int, t: seq<Order>)
    requires Progress(side, order, taker, filled, 0, opposite0, s)
    requires |s| > 0 && Crosses(side, taker, s[0])
    requires 0 < m == taker.quantity < s[0].quantity
    requires t == s[0 := s[0].(quantity := s[0].quantity - m)]
    ensures Progress(side, order, taker.(quantity := taker.quantity - m), filled, m, opposite0, t)
  {
    HeapIgnoresTopQuantity(Opposite(side), s, s[0].quantity - m);
    TopUpdate(Opposite(side), s, s[0].quantity - m, filled);
    assert Restored(t, m) == s;
  }

  /** A positive remainder of the side's own kind keeps the side resting. */
  lemma RestingAfterPush(side: Side, own0: seq<Order>, own: seq<Order>, x: Order)
    requires Resting(side, own0) && x.quantity > 0 && x.side == SideName(side)
    requires multiset(own) == multiset(own0) + multiset{x}
    ensures Resting(side, own)
  {
    forall o | o in own
      ensures o.quantity > 0 && o.side == SideName(side)
    {
      assert o in multiset(own);
    }
  }

  /** The exhausted best resting order, lowered to quantity 0 at the top, is popped. */
  method RemoveFilled(side: Side, order: Order, taker: Order, opposite: OrderPQ,
                      ghost filled: seq<Order>, ghost opposite0: seq<Order>, ghost s: seq<Order>, m: int)
    requires opposite.side == Opposite(side)
    requires Progress(side, order, taker, filled, 0, opposite0, s)
    requires |s| > 0 && taker.quantity > 0 && Crosses(side, taker, s[0])
    requires m == s[0].quantity && m <= taker.quantity
    requires opposite.items == s[0 := s[0].(quantity := 0)] && IsHeap(opposite.side, opposite.items)
    modifies opposite
    ensures Progress(side, order, taker.(quantity := taker.quantity - m), filled + [s[0]], 0, opposite0, opposite.items)
    ensures |opposite.items| == |s| - 1
    ensures multiset(opposite.items) == multiset(s) - multiset{s[0]}
  {
    var _ := Heap.Pop(opposite);
    ExhaustStep(side, order, taker, filled, opposite0, s, opposite.items, m);
  }

  /**
   * One iteration of MatchOrder's loop: trade min(remaining, resting) with
   * the best resting order, lowering both quantities, and pop that order if
   * it is exhausted.
   */
  method TradeWithBest(side: Side, order: Order, taker: Order, opposite: OrderPQ,
                       ghost filled: seq<Order>, ghost opposite0: seq<Order>)
      returns (taker': Order, ghost filled': seq<Order>, ghost partial': int)
    requires opposite.side == Opposite(side)
    requires Progress(side, order, taker, filled, 0, opposite0, opposite.items)
    requires taker.quantity > 0 && |opposite.items| > 0 && Crosses(side, taker, opposite.items[0])
    modifies opposite
    ensures Progress(side, order, taker', filled', partial', opposite0, opposite.items)
    ensures |opposite.items| <= |old(opposite.items)|
    ensures |opposite.items| < |old(opposite.items)| || taker'.quantity == 0
    ensures var top := old(opposite.items)[0];
            var m := if taker.quantity < top.quantity then taker.quantity else top.quantity;
            && taker' == taker.(quantity := taker.quantity - m)
            && if m == top.quantity then
                 && filled' == filled + [top] && partial' == 0
                 && multiset(opposite.items) == multiset(old(opposite.items)) - multiset{top}
               else
                 && filled' == filled && partial' == m
                 && opposite.items == old(opposite.items)[0 := top.(quantity := top.quantity - m)]
  {
    var best := opposite.items[0];
    var matchQty := if taker.quantity < best.quantity then taker.quantity else best.quantity;
    taker' := taker.(quantity := taker.quantity - matchQty);
    ghost var s := opposite.items;
    HeapIgnoresTopQuantity(opposite.side, s, best.quantity - matchQty);
    // The resting order's quantity is lowered in place, at the top of its heap.
    opposite.items := opposite.items[0 := best.(quantity := best.quantity - matchQty)];
    if opposite.items[0].quantity == 0 {
      RemoveFilled(side, order, taker, opposite, filled, opposite0, s, matchQty);
      filled', partial' := filled + [s[0]], 0;
    } else {
      PartialStep(side, order, taker, filled, opposite0, s, matchQty, opposite.items);
      filled', partial' := filled, matchQty;
    }
  }

  /**
   * One pass of MatchOrder for an incoming order of `side`: trade against
   * the best order of the `opposite` queue while prices cross, taking
   * min(remaining, resting) from both each time and popping a resting order
   * only once it is exhausted; rest any remainder on the `own` queue.
   */
  method Match(order: Order, side: Side, own: OrderPQ, opposite: OrderPQ)
      returns (taker: Order, ghost filled: seq<Order>, ghost partial: int)
    requires own != opposite
    requires own.side == side && opposite.side == Opposite(side)
    requires order.side == SideName(side)
    requires IsHeap(side, own.items) && IsHeap(Opposite(side), opposite.items)
    requires Resting(side, own.items) && Resting(Opposite(side), opposite.items)
    modifies own, opposite
    ensures IsHeap(side, own.items) && IsHeap(Opposite(side), opposite.items)
    ensures Resting(side, own.items) && Resting(Opposite(side), opposite.items)
    ensures MatchOutcome(side, order, taker, filled, partial,
                         old(own.items), old(opposite.items), own.items, opposite.items)
  {
    taker := order;
    filled, partial := [], 0;
    while taker.quantity > 0 && opposite.Len() > 0
      invariant Progress(side, order, taker, filled, partial, old(opposite.items), opposite.items)
      invariant own.items == old(own.items)
      decreases |opposite.items|, if taker.quantity > 0 then 1 else 0
    {
      if !Crosses(side, taker, opposite.items[0]) {
        break;
      }
      taker, filled, partial := TradeWithBest(side, order, taker, opposite, filled, old(opposite.items));
    }
    if taker.quantity > 0 {
      Heap.Push(own, taker);
      RestingAfterPush(side, old(own.items), own.items, taker);
    }
  }

  /**
   * A partly filled resting order stays at the top of its heap, with what
   * was taken from it subtracted, and it is one of the orders that rested
   * there before.
   */
  lemma PartialMakerStaysOnTop(side: Side, order: Order, taker: Order,
                               filled: seq<Order>, partial: int,
                               own0: seq<Order>, opposite0: seq<Order>,
                               own: seq<Order>, opposite: seq<Order>)
    requires MatchOutcome(side, order, taker, filled, partial, own0, opposite0, own, opposite)
    requires partial > 0
    ensures |opposite| > 0 && opposite[0].quantity > 0 && taker.quantity == 0
    ensures opposite[0].(quantity := opposite[0].quantity + partial) in opposite0
  {
    var r := Restored(opposite, partial);
    assert r[0] == opposite[0].(quantity := opposite[0].quantity + partial);
    assert r[0] in multiset(r);
    assert r[0] in multiset(opposite0);
  }

  /** An OrderBook: the BuyOrderPQ and SellOrderPQ of one currency pair. */
  class OrderBook {
    const buyPQ: OrderPQ
    const sellPQ: OrderPQ

    /**
     * Both queues are heaps under their own Less and hold only orders of
     * their side with something left to trade.
     */
    ghost predicate Valid()
      reads this, buyPQ, sellPQ
    {
      && buyPQ != sellPQ && buyPQ.side == Buy && sellPQ.side == Sell
      && IsHeap(Buy, buyPQ.items) && IsHeap(Sell, sellPQ.items)
      && Resting(Buy, buyPQ.items) && Resting(Sell, sellPQ.items)
    }

    /** &OrderBook{}: two empty queues. */
    constructor ()
      ensures fresh(buyPQ) && fresh(sellPQ)
      ensures buyPQ.items == [] && sellPQ.items == []
      ensures Valid()
    {
      buyPQ := new OrderPQ(Buy);
      sellPQ := new OrderPQ(Sell);
    }
  }

  /**
   * MatchOrder: an order with side "buy" is matched against the sell queue
   * and may rest on the buy queue, one with side "sell" the other way round;
   * an order with any other side leaves the book untouched. `taker` is the
   * incoming order as the source leaves it, with its remaining quantity.
   * A book that was not crossed is still not crossed afterwards.
   */
  method MatchOrder(order: Order, book: OrderBook)
      returns (taker: Order, ghost filled: seq<Order>, ghost partial: int)
    requires book.Valid()
    modifies book.buyPQ, book.sellPQ
    ensures book.Valid()
    ensures order.side == "buy" ==>
              MatchOutcome(Buy, order, taker, filled, partial,
                           old(book.buyPQ.items), old(book.sellPQ.items),
                           book.buyPQ.items, book.sellPQ.items)
    ensures order.side == "sell" ==>
              MatchOutcome(Sell, order, taker, filled, partial,
                           old(book.sellPQ.items), old(book.buyPQ.items),
                           book.sellPQ.items, book.buyPQ.items)
    ensures order.side != "buy" && order.side != "sell" ==>
              taker == order && filled == [] && partial == 0
              && book.buyPQ.items == old(book.buyPQ.items)
              && book.sellPQ.items == old(book.sellPQ.items)
    ensures NotCrossed(old(book.buyPQ.items), old(book.sellPQ.items)) ==>
              NotCrossed(book.buyPQ.items, book.sellPQ.items)
  {
    ghost var buys0, sells0 := book.buyPQ.items, book.sellPQ.items;
    ApartIsNotCrossed(buys0, sells0);
    if order.side == "buy" {
      taker, filled, partial := Match(order, Buy, book.buyPQ, book.sellPQ);
      ApartIsNotCrossed(book.buyPQ.items, book.sellPQ.items);
      if NotCrossed(buys0, sells0) {
        MatchKeepsApart(Buy, order, taker, filled, partial, buys0, sells0,
                        book.buyPQ.items, book.sellPQ.items);
      }
    } else if order.side == "sell" {
      taker, filled, partial := Match(order, Sell, book.sellPQ, book.buyPQ);
      ApartIsNotCrossed(book.buyPQ.items, book.sellPQ.items);
      if NotCrossed(buys0, sells0) {
        MatchKeepsApart(Sell, order, taker, filled, partial, sells0, buys0,
                        book.sellPQ.items, book.buyPQ.items);
      }
    } else {
      taker, filled, partial := order, [], 0;
    }
  }

  /** A new book for a pair, each queue made a heap by heap.Init. */
  method NewBook() returns (book: OrderBook)
    ensures fresh(book) && fresh(book.buyPQ) && fresh(book.sellPQ)
    ensures book.buyPQ.items == [] && book.sellPQ.items == []
    ensures book.Valid()
  {
    book := new OrderBook();
    Heap.Init(book.buyPQ);
    Heap.Init(book.sellPQ);
    assert |multiset(book.buyPQ.items)| == 0 && |multiset(book.sellPQ.items)| == 0;
  }

  /**
   * The Books registry: one OrderBook per currency pair, keyed by the pair.
   * Distinct pairs never share a book or a queue.
   */
  class Registry {
    var books: map<string, OrderBook>

    /** Every book and queue the registry holds. */
    ghost function Objects(): set<object>
      reads this
    {
      (set p | p in books :: books[p] as object)
      + (set p | p in books :: books[p].buyPQ as object)
      + (set p | p in books :: books[p].sellPQ as object)
    }

    ghost predicate Valid()
      reads this, Objects()
    {
      && (forall p :: p in books ==> books[p].Valid())
      && (forall p, q :: p in books && q in books && p != q ==>
            && books[p] != books[q]
            && {books[p].buyPQ, books[p].sellPQ} !! {books[q].buyPQ, books[q].sellPQ})
    }

    /** var Books = map[string]*OrderBook{}: no book yet. */
    constructor ()
      ensures books == map[] && Valid()
    {
      books := map[];
    }

    /**
     * The lazy lookup of AddOrder: the book of an existing pair is returned
     * and the registry is unchanged; a missing pair gets a new book with two
     * empty heaps (heap.Init on each), registered under the pair.
     */
    method BookFor(pair: string) returns (book: OrderBook)
      requires Valid()
      modifies this
      ensures Valid()
      ensures pair in books && books[pair] == book
      ensures pair in old(books) ==> book == old(books)[pair] && books == old(books)
      ensures pair !in old(books) ==>
                && fresh(book) && fresh(book.buyPQ) && fresh(book.sellPQ)
                && book.buyPQ.items == [] && book.sellPQ.items == []
                && books == old(books)[pair := book]
    {
      if pair in books {
        book := books[pair];
        return;
      }
      book := NewBook();
      books := books[pair := book];
    }
  }
}
