# coinmatch order book, in Dafny

This project models the in-memory matching engine of coinmatch, a crypto
exchange backend written in Go. It also models the two pieces of logic
around the engine: building a new order from a request, and the order book
snapshot served by `ViewOrderbook`.

- `models.dfy` (module `Models`) covers `OrderRequest`, `Order` and
  `ToOrder`. Prices and quantities are integers, standing for scaled fixed
  point. `CreatedAt` is an integer timestamp that the caller supplies.
- `queues.dfy` (module `PriorityQueues`) covers `BuyOrderPQ` and
  `SellOrderPQ`.
  - Their two `Less` comparators are `BuyLess` and `SellLess`.
  - One class, `OrderPQ`, stands for both queue types. Its `side` selects the
    comparator and its `items` is the slice.
  - `Len`, `Less`, `Swap`, `Push` and `Pop` are the slice operations.
  - `IsHeap` is the heap invariant that `container/heap` maintains.
- `heap.dfy` (module `Heap`) covers the parts of Go's `container/heap` that
  the engine calls: `Init`, `Push` and `Pop`, with their helpers `up` and
  `down`. That package is not part of the repository. The model follows its
  published algorithm, driving the `OrderPQ` methods.
- `engine.dfy` (module `Engine`) covers `MatchOrder`, the `OrderBook`, and
  the `Books` registry with the lazy book creation done by `AddOrder`.
  - One matching pass is `Match`. `MatchOrder` calls it with the sell queue
    as the opposite side for a buy, and the buy queue for a sell.
  - `Match` is proved against `MatchOutcome`, a specification of what a pass
    does. The pass stops for one of three reasons:
    - the order is exhausted;
    - the other side is empty;
    - the best resting order no longer crosses.
  - `MatchOutcome` states exactly:
    - which resting orders were consumed, in which order, and how much was
      taken from the one left on top;
    - that the remainder rests if and only if it is positive.
  - Lemmas derive the properties that follow from `MatchOutcome`:
    - quantity conservation;
    - no negative quantities;
    - a fully filled order never rests;
    - a book that was not crossed stays uncrossed.
- `snapshot.dfy` (module `Snapshot`) covers `ViewOrderbook`. Each step is
  modelled:
  - the depth parameter, read with `strconv.Atoi`;
  - copying the orders with a positive quantity;
  - sorting by price;
  - cutting to the depth;
  - the (price, quantity) entries.

  `SideSnapshot` specifies one side of the response. Lemmas state what a
  snapshot shows: every entry is a live order, the prices are in order, the
  length follows the depth rule, and the best prices are the ones kept.

## What the code does not do

`MatchOrder` has no fills, no status transitions, no in-book cancellation
and no per-price-level aggregation; the model follows the code.

- `MatchOrder` emits no fills and never updates `FilledQuantity` or `Status`.
  It only lowers `Quantity` in place.
- Cancellation (`CancelOrder`) only updates a database row. Nothing leaves
  the in-memory book except through a fill.
- The snapshot lists one entry per resting order, not per price level.
- Orders at equal prices are listed in whatever order the sort leaves them.
  The time order is not kept.
- Ties in the queues are broken by `CreatedAt`. Two orders with equal price
  and equal timestamp come before each other in neither direction, so
  `PrecedesIsStrictWeakOrder` proves a strict weak order and not a total one.

## Model

| member | source | states |
|---|---|---|
| Models.ToOrder | lib/models/order.go:40-51 | The new order copies user id, pair, side, price and quantity from the request. It has filled quantity 0, status "open", id 0, and `now` as its creation time. |
| Models.ToOrderUntouchedIffValid | lib/models/order.go:7-13 | A request meets the binding rules (pair, side and user id present; price and quantity > 0) exactly when the order built from it is untouched (nothing filled, status "open", positive price and quantity) and keeps those fields. |
| PriorityQueues.BuyLess | lib/engine/orderbook.go:16-22 | A buy order comes first iff its price is strictly higher, or the prices are equal and it was created strictly earlier. |
| PriorityQueues.SellLess | lib/engine/orderbook.go:51-57 | A sell order comes first iff its price is strictly lower, or the prices are equal and it was created strictly earlier. This is a min-heap by price, whatever the comment says. |
| PriorityQueues.PrecedesIsStrictWeakOrder | lib/engine/orderbook.go:16-57 | Both comparators are irreflexive, asymmetric and transitive, and "not before" is transitive too. |
| PriorityQueues.PrecedesIgnoresQuantity | lib/engine/orderbook.go:16-57 | Neither comparator depends on the quantity of either order. |
| PriorityQueues.HeapTopIsBest | lib/engine/orderbook.go:90 | In a heap, no order comes before the one at index 0, so the heap top is a best order. |
| PriorityQueues.HeapIgnoresTopQuantity | lib/engine/orderbook.go:96 | Lowering the top order's quantity in place keeps the heap order. |
| PriorityQueues.OrderPQ.Len | lib/engine/orderbook.go:12-14 | Returns the number of orders in the slice. |
| PriorityQueues.OrderPQ.Less | lib/engine/orderbook.go:16-22 | Less(i, j) is the comparator of the queue's side applied to slots i and j; for SellOrderPQ it is the one at lines 51-57. |
| PriorityQueues.OrderPQ.Swap | lib/engine/orderbook.go:24-26 | Exchanges exactly slots i and j. The queue holds the same multiset of orders. |
| PriorityQueues.OrderPQ.Push | lib/engine/orderbook.go:28-31 | Appends exactly one order at the end. Every existing slot is unchanged. |
| PriorityQueues.OrderPQ.Pop | lib/engine/orderbook.go:33-43 | Removes and returns the last slot. The prefix is unchanged and the length drops by one. |
| Heap.Down | lib/engine/orderbook.go:99 | The sift-down inside heap.Pop. The same orders stay in the slice, the slots from n on are untouched, and the heap order is restored from slot i0 on. |
| Heap.Up | lib/engine/orderbook.go:103 | The sift-up inside heap.Push. The same orders stay in the slice and the heap order is restored. |
| Heap.Init | lib/controllers/api_controllers.go:83-84 | heap.Init leaves the same orders in heap order. |
| Heap.Push | lib/engine/orderbook.go:103 | heap.Push adds exactly the pushed order and keeps the heap order. |
| Heap.Pop | lib/engine/orderbook.go:99 | heap.Pop removes and returns the order that was at index 0, which is a best order. Exactly that order leaves, and the rest stays in heap order. |
| Engine.NotCrossedIffTopsApart | lib/engine/orderbook.go:89-93 | With both queues heaps, every bid is below every ask exactly when one side is empty or the best bid is below the best ask. |
| Engine.ApartIsNotCrossed | lib/engine/orderbook.go:91 | "No buy crosses any sell" (the buy loop's test) and "no sell crosses any buy" (the sell loop's test, line 108) both mean that every bid is priced below every ask. |
| Engine.PartialStep | lib/engine/orderbook.go:94-97 | A step that exhausts the incoming order leaves the best resting order on top with matchQty less. The matching state, `Progress`, still holds. |
| Engine.ExhaustStep | lib/engine/orderbook.go:94-99 | A step that exhausts the best resting order pops it into the consumed list. `Progress` still holds. |
| Engine.RemoveFilled | lib/engine/orderbook.go:98-100 | Popping the exhausted top removes exactly that order, and `Progress` still holds. |
| Engine.TradeWithBest | lib/engine/orderbook.go:90-100 | One loop iteration takes m = min(remaining, resting) from the incoming order and from the top resting order. If that exhausts the top, exactly that order is popped and joins the consumed list. Otherwise the top stays in place with m less and `partial` is m. `Progress` is kept, and the queue shrinks unless the incoming order is exhausted. |
| Engine.Match | lib/engine/orderbook.go:89-104 | The matching pass (buy branch; the sell branch at 106-121 is the same with the sides swapped) ends in `MatchOutcome` and leaves both queues heaps of resting orders. |
| Engine.MatchConservesQuantity | lib/engine/orderbook.go:94-96 | The quantity the incoming order lost equals the quantity the opposite side lost. The own side gains exactly the positive remainder. The order ends between 0 and its original quantity. |
| Engine.FilledTakerNeverRests | lib/engine/orderbook.go:102-104 | The incoming order is in its own queue afterwards iff its remaining quantity is positive. |
| Engine.MatchKeepsApart | lib/engine/orderbook.go:89-104 | If no order of the taker's side crossed the opposite side before a pass, none does afterwards, the remainder included. |
| Engine.PartialMakerStaysOnTop | lib/engine/orderbook.go:96-100 | When a resting order is only partly filled, the incoming order is exhausted. That resting order is still at index 0 with a positive quantity, and it is one of the orders that rested there before. |
| Engine.OrderBook.constructor | lib/engine/orderbook.go:80-83 | A new OrderBook has two fresh, empty queues, one of each side. |
| Engine.MatchOrder | lib/engine/orderbook.go:87-123 | A "buy" order matches against the sell queue and may rest on the buy queue; a "sell" order does the reverse. Any other side leaves the book and the order unchanged. The book stays valid, and a book that was not crossed stays not crossed. |
| Engine.Registry.constructor | lib/engine/orderbook.go:85 | The registry starts with no books. |
| Engine.NewBook | lib/controllers/api_controllers.go:82-84 | A fresh book whose queues have been through heap.Init is empty and valid. |
| Engine.Registry.BookFor | lib/controllers/api_controllers.go:80-86 | An existing pair gets its book back and the registry is unchanged. A missing pair gets a fresh, empty, valid book registered under it. Validity of every book and their separation is kept. |
| Snapshot.Atoi | lib/controllers/api_controllers.go:106 | strconv.Atoi succeeds only on text that is an optional sign followed by at least one digit. The value is the digits read in decimal, negated after a "-", and it lies in the 64-bit range. Text of that form is rejected only when its value is out of range. |
| Snapshot.AtoiDecimalString | lib/controllers/api_controllers.go:106 | Atoi reads back every 64-bit integer written in decimal, and rejects the decimal form of every integer outside that range. |
| Snapshot.AtoiIgnoresPlusAndLeadingZero | lib/controllers/api_controllers.go:106 | A leading "+" or "0" in front of digits does not change what Atoi reads, so "+5" is 5 and "007" is 7. |
| Snapshot.AtoiRejects | lib/controllers/api_controllers.go:106-109 | "5x", "1.5", "", "-" and "+-1" are errors, which the handler turns into depth 0. |
| Snapshot.NormalizeDepth | lib/controllers/api_controllers.go:106-109 | A depth that is not an integer, or is negative, becomes 0. Otherwise the depth is the integer given. |
| Snapshot.DepthDefaultsToTen | lib/controllers/api_controllers.go:97 | Without a depth parameter the depth is 10. |
| Snapshot.Tradable | lib/controllers/api_controllers.go:125-129 | An order is kept iff it is in the queue and its quantity is positive. |
| Snapshot.TradableCounts | lib/controllers/api_controllers.go:125-129 | The filter keeps every copy of an order with a positive quantity and no copy of any other order, so equal orders are all listed. |
| Snapshot.TradableOfResting | lib/controllers/api_controllers.go:126 | On a side of a valid book, the filter drops nothing. |
| Snapshot.CollectTradable | lib/controllers/api_controllers.go:124-129 | The range loop builds exactly the filtered copy, in queue order, and modifies nothing. |
| Snapshot.SortByPrice | lib/controllers/api_controllers.go:132-134 | sort.Slice by price leaves the same orders (a permutation), with no order priced better than one before it. |
| Snapshot.Truncate | lib/controllers/api_controllers.go:136-138 | The result is a prefix of length depth when 0 < depth < len, and the whole list otherwise. |
| Snapshot.ToLevels | lib/controllers/api_controllers.go:164-169 | One entry per order, in order, carrying that order's price and quantity. |
| Snapshot.SideView | lib/controllers/api_controllers.go:121-155 | One side of the response is a `SideSnapshot` of its queue at the depth. |
| Snapshot.ViewOrderbook | lib/controllers/api_controllers.go:95-184 | A missing pair is a bad request with the source's message. An unknown pair gives two empty lists. A known pair gives each side's snapshot at the normalised depth, and nothing is modified. |
| Snapshot.SnapshotEntriesAreTradableOrders | lib/controllers/api_controllers.go:124-129 | Every entry has a positive quantity and is the (price, quantity) of an order in the queue. |
| Snapshot.SnapshotIsPriceOrdered | lib/controllers/api_controllers.go:131-134 | Buy entries never rise in price and sell entries never fall. |
| Snapshot.SnapshotLength | lib/controllers/api_controllers.go:153-155 | There are `depth` entries when 0 < depth < n, else all n live orders, so depth 0 means no limit. |
| Snapshot.SnapshotKeepsBetterPrices | lib/controllers/api_controllers.go:136-138 | The cut keeps the best prices: a live order priced strictly better than a shown entry is shown too. |
| Snapshot.SnapshotStartsAtBestPrice | lib/controllers/api_controllers.go:148-151 | The first entry carries the best price of the side: no live order is priced better. |

## Left out

- Concurrency is not modelled. `AddOrder` runs `MatchOrder` in a goroutine against an unsynchronised global map. Matching here is sequential, one call at a time, on one book.
- Database work is not modelled. That covers the inserts in `AddOrder` and `AddCurrency`, `GetUserOrder`, `CancelOrder`, and the configuration.
- HTTP handling, gin binding and the JSON encoding are not modelled. The binding rules of `OrderRequest` are the predicate `ValidRequest`.
- Prices and quantities are integers (scaled fixed point), not float64. Floating-point rounding is not modelled.
- `time.Now()` is a parameter, and `CreatedAt.Before` is `<` on integer timestamps.
- Orders are values, not shared `*Order` pointers. `MatchOrder` returns the incoming order's final state. The partly filled resting order's lower quantity is written back at index 0 of its queue, which is the only place the source's pointer makes it visible.
- `Pop` does not model clearing the vacated slot (`old[n-1] = nil`). It only matters to the garbage collector.
- Heap.Down: does not return Go's `down` result (whether the order moved). Only `heap.Fix` and `heap.Remove` read it, and the engine calls neither.
- `Heap.Down` does not model the `j1 < 0` overflow guard of `container/heap`, because integers here are unbounded and a slice can never reach that size.
- Heap.Push, Heap.Pop, Heap.Init: the contracts state the heap order and the multiset of orders, not the exact slot arrangement `container/heap` produces.
- Snapshot.SortByPrice: it settles equal prices one way (an insertion sort into a new sequence). `sort.Slice` sorts in place and leaves ties in an order the model does not pin down. `SideSnapshot` and the lemmas about it allow any order of ties.
- A known pair with an empty side is sent as JSON `null` (a nil slice), while an unknown pair gets `[]`. The model has the empty sequence for both.
- No fills, execution prices, order status transitions or cancellation are modelled, because the code has none of them.
