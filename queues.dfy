// The two priority queues of lib/engine/orderbook.go (BuyOrderPQ and
// SellOrderPQ): their comparators, the heap order they are kept in, and the
// slice operations that container/heap drives.

module PriorityQueues {
  import opened Models

  datatype Side = Buy | Sell

  function Opposite(side: Side): Side {
    match side
    case Buy => Sell
    case Sell => Buy
  }

  /** The string an order of this side carries in its `side` field. */
  function SideName(side: Side): string {
    match side
    case Buy => "buy"
    case Sell => "sell"
  }

  /**
   * BuyOrderPQ.Less: a buy order comes first when its price is higher, and
   * among equal prices when it was created earlier.
   */
  function BuyLess(a: Order, b: Order): (r: bool)
    ensures r <==> a.price > b.price || (a.price == b.price && a.createdAt < b.createdAt)
  {
    if a.price == b.price then a.createdAt < b.createdAt else a.price > b.price
  }

  /**
   * SellOrderPQ.Less: a sell order comes first when its price is lower, and
   * among equal prices when it was created earlier. (The source's comment
   * calls this a max heap; by price it is a min heap.)
   */
  function SellLess(a: Order, b: Order): (r: bool)
    ensures r <==> a.price < b.price || (a.price == b.price && a.createdAt < b.createdAt)
  {
    if a.price == b.price then a.createdAt < b.createdAt else a.price < b.price
  }

  /** The Less of the queue holding orders of `side`. */
  function Precedes(side: Side, a: Order, b: Order): bool {
    match side
    case Buy => BuyLess(a, b)
    case Sell => SellLess(a, b)
  }

  /**
   * Both comparators are strict weak orders: irreflexive, transitive, and
   * "not before" is transitive too, so the heap top is a best element.
   */
  lemma PrecedesIsStrictWeakOrder(side: Side, a: Order, b: Order, c: Order)
    ensures !Precedes(side, a, a)
    ensures Precedes(side, a, b) ==> !Precedes(side, b, a)
    ensures Precedes(side, a, b) && Precedes(side, b, c) ==> Precedes(side, a, c)
    ensures !Precedes(side, a, b) && !Precedes(side, b, c) ==> !Precedes(side, a, c)
  {
  }

  /** The comparators look only at price and creation time, never at quantity. */
  lemma PrecedesIgnoresQuantity(side: Side, a: Order, b: Order, q: int)
    ensures Precedes(side, a.(quantity := q), b) == Precedes(side, a, b)
    ensures Precedes(side, a, b.(quantity := q)) == Precedes(side, a, b)
  {
  }

  /**
   * Index of the parent of heap slot k. container/heap computes (k - 1) / 2
   * with Go's truncating division, which yields 0 for k == 0.
   */
  function Parent(k: nat): (p: nat)
    ensures k > 0 ==> p < k && (k == 2 * p + 1 || k == 2 * p + 2)
    ensures k == 0 ==> p == 0
  {
    if k == 0 then 0 else (k - 1) / 2
  }

  /** The heap invariant of container/heap: no slot comes before its parent. */
  ghost predicate IsHeap(side: Side, s: seq<Order>) {
    forall k :: 0 < k < |s| ==> !Precedes(side, s[k], s[Parent(k)])
  }

  lemma {:induction false} TopAtLeastAsGood(side: Side, s: seq<Order>, k: nat)
    requires IsHeap(side, s) && k < |s|
    ensures !Precedes(side, s[k], s[0])
    decreases k
  {
    if k > 0 {
      TopAtLeastAsGood(side, s, Parent(k));
      PrecedesIsStrictWeakOrder(side, s[k], s[Parent(k)], s[0]);
    }
  }

  /** The top of a heap (index 0) is a best order: nothing in the heap comes before it. */
  lemma HeapTopIsBest(side: Side, s: seq<Order>)
    requires IsHeap(side, s) && |s| > 0
    ensures forall o :: o in s ==> !Precedes(side, o, s[0])
  {
    forall o | o in s
      ensures !Precedes(side, o, s[0])
    {
      var k :| 0 <= k < |s| && s[k] == o;
      TopAtLeastAsGood(side, s, k);
    }
  }

  /** Lowering or raising the quantity of the heap top keeps the heap order. */
  lemma HeapIgnoresTopQuantity(side: Side, s: seq<Order>, q: int)
    requires IsHeap(side, s) && |s| > 0
    ensures IsHeap(side, s[0 := s[0].(quantity := q)])
  {
    var t := s[0 := s[0].(quantity := q)];
    forall k | 0 < k < |t|
      ensures !Precedes(side, t[k], t[Parent(k)])
    {
      PrecedesIgnoresQuantity(side, s[k], s[Parent(k)], q);
    }
  }

  /**
   * A BuyOrderPQ (side Buy) or a SellOrderPQ (side Sell): a slice of orders
   * that container/heap keeps in heap order under Less.
   */
  class OrderPQ {
    const side: Side
    var items: seq<Order>

    constructor (side: Side)
      ensures this.side == side && items == []
    {
      this.side := side;
      items := [];
    }

    /** Len: the number of orders in the slice. */
    function Len(): (n: nat)
      reads this
      ensures n == |items|
    {
      |items|
    }

    /** Less(i, j): the order at slot i comes before the one at slot j. */
    function Less(i: nat, j: nat): (r: bool)
      reads this
      requires i < |items| && j < |items|
      ensures r == Precedes(side, items[i], items[j])
    {
      match side
      case Buy => BuyLess(items[i], items[j])
      case Sell => SellLess(items[i], items[j])
    }

    /** Swap(i, j): exchange two slots; the queue holds the same orders. */
    method Swap(i: nat, j: nat)
      requires i < |items| && j < |items|
      modifies this
      ensures items == old(items)[i := old(items)[j]][j := old(items)[i]]
      ensures multiset(items) == multiset(old(items))
    {
      items := items[i := items[j]][j := items[i]];
    }

    /** Push(x): append x at the end; existing slots are unchanged. */
    method Push(x: Order)
      modifies this
      ensures items == old(items) + [x]
    {
      items := items + [x];
    }

    /** Pop(): remove and return the last slot; the prefix is unchanged. */
    method Pop() returns (x: Order)
      requires |items| > 0
      modifies this
      ensures x == old(items)[|old(items)| - 1]
      ensures items == old(items)[..|old(items)| - 1]
      ensures old(items) == items + [x]
    {
      var n := |items|;
      x := items[n - 1];
      items := items[..n - 1];
    }
  }
}
