// The order book snapshot of ViewOrderbook in lib/controllers/api_controllers.go:
// the depth parameter, and per side the copy of the orders with something
// left, sorted by price and cut to the depth, as (price, quantity) entries.
// The gin request and the JSON response are reduced to values.

module Snapshot {
  import opened Models
  import opened PriorityQueues
  import opened Engine

  datatype Option<T> = None | Some(value: T)

  /** One entry of the response (ViewOrderResponse): one order's price and quantity. */
  datatype Level = Level(price: int, quantity: int)

  /** The two lists of a response, under "buy" and "sell". */
  datatype View = View(buy: seq<Level>, sell: seq<Level>)

  /** The outcome of the handler: 200 with the lists, or 400 with the error text. */
  datatype Response = Ok(view: View) | BadRequest(error: string)

  // ---- strconv.Atoi ----

  const MinInt64: int := -0x8000_0000_0000_0000
  const MaxInt64: int := 0x7fff_ffff_ffff_ffff

  predicate IsDigit(c: char) {
    '0' <= c <= '9'
  }

  predicate AllDigits(s: string) {
    forall i :: 0 <= i < |s| ==> IsDigit(s[i])
  }

  /** The value of a string of decimal digits, most significant first. */
  function DigitsValue(s: string): nat
    requires AllDigits(s)
  {
    if |s| == 0 then 0
    else DigitsValue(s[..|s| - 1]) * 10 + (s[|s| - 1] as int - '0' as int)
  }

  /** s without its leading sign, if it has one. */
  function Unsigned(s: string): (d: string)
    ensures |d| <= |s|
  {
    if |s| > 0 && (s[0] == '+' || s[0] == '-') then s[1..] else s
  }

  /**
   * strconv.Atoi: an optional sign followed by at least one decimal digit,
   * whose value fits in 64 bits; anything else is an error (None).
   */
  function Atoi(s: string): (r: Option<int>)
    ensures r.Some? ==> |Unsigned(s)| > 0 && AllDigits(Unsigned(s))
    ensures r.Some? ==> MinInt64 <= r.value <= MaxInt64
    ensures r.Some? ==>
              r.value == if s[0] == '-' then -(DigitsValue(Unsigned(s)) as int) else DigitsValue(Unsigned(s))
    ensures r.None? && |Unsigned(s)| > 0 && AllDigits(Unsigned(s)) ==>
              if s[0] == '-' then DigitsValue(Unsigned(s)) > -MinInt64
              else DigitsValue(Unsigned(s)) > MaxInt64
  {
    var digits := Unsigned(s);
    if |digits| == 0 || !AllDigits(digits) then None
    else
      var n: int := if s[0] == '-' then -(DigitsValue(digits) as int) else DigitsValue(digits);
      if MinInt64 <= n <= MaxInt64 then Some(n) else None
  }

  /** A leading zero does not change the value of a run of digits. */
  lemma {:induction false} DigitsValueLeadingZero(d: string)
    requires AllDigits(d)
    ensures AllDigits("0" + d) && DigitsValue("0" + d) == DigitsValue(d)
    decreases |d|
  {
    if |d| > 0 {
      var z := "0" + d;
      assert z[..|z| - 1] == "0" + d[..|d| - 1];
      DigitsValueLeadingZero(d[..|d| - 1]);
    }
  }

  /** Atoi reads "+" + d and "0" + d as it reads the digits d: "+5" is 5 and "007" is 7. */
  lemma AtoiIgnoresPlusAndLeadingZero(d: string)
    requires |d| > 0 && AllDigits(d)
    ensures Atoi("+" + d) == Atoi(d)
    ensures Atoi("0" + d) == Atoi(d)
  {
    DigitsValueLeadingZero(d);
    assert Unsigned("+" + d) == d;
  }

  /** Text with anything but one sign and digits is an error. */
  lemma AtoiRejects()
    ensures Atoi("5x") == None && Atoi("1.5") == None
    ensures Atoi("") == None && Atoi("-") == None && Atoi("+-1") == None
  {
    assert !IsDigit("5x"[1]) && !IsDigit("1.5"[1]) && !IsDigit("-1"[0]);
  }

  /** The decimal digits of n, without leading zeros. */
  function Digits(n: nat): string {
    if n < 10 then ['0' + n as char] else Digits(n / 10) + ['0' + (n % 10) as char]
  }

  /** How Go formats an int in decimal. */
  function DecimalString(n: int): string {
    if n < 0 then "-" + Digits(-n) else Digits(n)
  }

  lemma {:induction false} DigitsRoundTrip(n: nat)
    ensures |Digits(n)| > 0 && AllDigits(Digits(n)) && DigitsValue(Digits(n)) == n
    decreases n
  {
    if n >= 10 {
      DigitsRoundTrip(n / 10);
      var d := Digits(n);
      assert d[..|d| - 1] == Digits(n / 10);
    }
  }

  /**
   * Atoi reads back every 64-bit integer written in decimal, and rejects
   * every integer outside that range.
   */
  lemma AtoiDecimalString(n: int)
    ensures Atoi(DecimalString(n)) == if MinInt64 <= n <= MaxInt64 then Some(n) else None
  {
    if n < 0 {
      AtoiNegative(-n);
    } else {
      DigitsRoundTrip(n);
      var d := Digits(n);
      assert IsDigit(d[0]);
      assert Unsigned(d) == d;
    }
  }

  /** The negative half of AtoiDecimalString: "-" followed by the digits of k. */
  lemma AtoiNegative(k: nat)
    requires k > 0
    ensures Atoi("-" + Digits(k)) == if k <= -MinInt64 then Some(-(k as int)) else None
  {
    DigitsRoundTrip(k);
    var t := "-" + Digits(k);
    assert t[0] == '-';
    assert Unsigned(t) == Digits(k);
  }

  // ---- depth ----

  /** The depth used when the query has no depth parameter. */
  const DefaultDepth: string := "10"

  /**
   * The depth of ViewOrderbook: the parameter, "10" when it is absent, read
   * by Atoi; a parameter that is not an integer, or is negative, gives 0.
   */
  function NormalizeDepth(param: Option<string>): (depth: nat)
    ensures param.Some? && Atoi(param.value).None? ==> depth == 0
    ensures param.Some? && Atoi(param.value).Some? ==>
              depth == if Atoi(param.value).value < 0 then 0 else Atoi(param.value).value
  {
    var s := if param.None? then DefaultDepth else param.value;
    match Atoi(s)
    case None => 0
    case Some(n) => if n < 0 then 0 else n
  }

  /** Without a depth parameter the depth is 10. */
  lemma DepthDefaultsToTen()
    ensures NormalizeDepth(None) == 10
  {
    AtoiDecimalString(10);
    assert DecimalString(10) == DefaultDepth;
  }

  // ---- one side ----

  /** The orders of s with a positive quantity, in their order in s. */
  function Tradable(s: seq<Order>): (r: seq<Order>)
    ensures forall o :: o in r <==> o in s && o.quantity > 0
    ensures |r| <= |s|
  {
    if |s| == 0 then []
    else
      var init, last := s[..|s| - 1], s[|s| - 1];
      assert s == init + [last];
      assert forall o :: o in s <==> o in init || o == last;
      Tradable(init) + if last.quantity > 0 then [last] else []
  }

  /**
   * The filter keeps every copy of an order with something left and no copy
   * of any other order, so equal orders are all listed.
   */
  lemma {:induction false} TradableCounts(s: seq<Order>)
    ensures forall o :: multiset(Tradable(s))[o] == if o.quantity > 0 then multiset(s)[o] else 0
  {
    if |s| > 0 {
      var init, last := s[..|s| - 1], s[|s| - 1];
      assert s == init + [last];
      TradableCounts(init);
    }
  }

  /** The filter drops nothing from a side of a valid book, where every order has something left. */
  lemma {:induction false} TradableOfResting(side: Side, s: seq<Order>)
    requires Resting(side, s)
    ensures Tradable(s) == s
    decreases |s|
  {
    if |s| > 0 {
      var init, last := s[..|s| - 1], s[|s| - 1];
      assert s == init + [last];
      assert last in s && forall o :: o in init ==> o in s;
      TradableOfResting(side, init);
    }
  }

  /** The less function given to sort.Slice, on prices: higher for buys, lower for sells. */
  function BetterPrice(side: Side, p: int, q: int): bool {
    match side
    case Buy => p > q
    case Sell => p < q
  }

  /** What sort.Slice leaves: no order has a better price than one before it. */
  ghost predicate PriceOrdered(side: Side, s: seq<Order>) {
    forall i, j :: 0 <= i < j < |s| ==> !BetterPrice(side, s[j].price, s[i].price)
  }

  /** Insert x into a price-ordered sequence, before the first order with a worse price. */
  function Insert(side: Side, x: Order, s: seq<Order>): (r: seq<Order>)
    requires PriceOrdered(side, s)
    ensures PriceOrdered(side, r)
    ensures multiset(r) == multiset(s) + multiset{x}
    ensures |r| == |s| + 1
  {
    if |s| == 0 || !BetterPrice(side, s[0].price, x.price) then
      PrependOrdered(side, x, s);
      [x] + s
    else
      var rest := Insert(side, x, s[1..]);
      assert s == [s[0]] + s[1..];
      PrependOrdered(side, s[0], rest);
      [s[0]] + rest
  }

  /**
   * An order goes in front of a price-ordered sequence when no order there
   * has a better price; since the sequence is ordered, its head decides.
   */
  lemma PrependOrdered(side: Side, h: Order, t: seq<Order>)
    requires PriceOrdered(side, t)
    requires |t| > 0 ==> !BetterPrice(side, t[0].price, h.price)
    ensures PriceOrdered(side, [h] + t)
  {
    var r := [h] + t;
    forall i, j | 0 <= i < j < |r|
      ensures !BetterPrice(side, r[j].price, r[i].price)
    {
      if i == 0 && j > 1 {
        assert !BetterPrice(side, t[j - 1].price, t[0].price);
      }
    }
  }

  /**
   * sort.Slice by price: the result is ordered by price and holds exactly the
   * same orders. Equal prices may come in any order, since sort.Slice is not
   * stable; this model settles them one way.
   */
  function SortByPrice(side: Side, s: seq<Order>): (r: seq<Order>)
    ensures PriceOrdered(side, r)
    ensures multiset(r) == multiset(s)
  {
    if |s| == 0 then []
    else
      assert s == [s[0]] + s[1..];
      Insert(side, s[0], SortByPrice(side, s[1..]))
  }

  /** buys[:depth] when 0 < depth < len(buys); otherwise the whole list. */
  function Truncate(s: seq<Order>, depth: nat): (r: seq<Order>)
    ensures |r| == if 0 < depth < |s| then depth else |s|
    ensures r == s[..|r|]
  {
    if 0 < depth && depth < |s| then s[..depth] else s
  }

  function LevelOf(o: Order): Level {
    Level(o.price, o.quantity)
  }

  function LevelsOf(s: seq<Order>): seq<Level> {
    seq(|s|, i requires 0 <= i < |s| => LevelOf(s[i]))
  }

  /**
   * What one side of the snapshot shows for the orders `items` of a queue:
   * one entry per order of some price ordering of the orders with a positive
   * quantity, cut to the depth.
   */
  ghost predicate SideSnapshot(side: Side, items: seq<Order>, depth: nat, levels: seq<Level>) {
    exists full :: SortedCopy(side, items, full) && levels == LevelsOf(Truncate(full, depth))
  }

  ghost predicate SortedCopy(side: Side, items: seq<Order>, full: seq<Order>) {
    PriceOrdered(side, full) && multiset(full) == multiset(Tradable(items))
  }

  /** The range loop that copies every order with something left, keeping queue order. */
  method CollectTradable(pq: OrderPQ) returns (list: seq<Order>)
    ensures list == Tradable(pq.items)
  {
    list := [];
    for i := 0 to |pq.items|
      invariant list == Tradable(pq.items[..i])
    {
      var order := pq.items[i];
      assert pq.items[..i + 1][..i] == pq.items[..i];
      if order.quantity > 0 {
        list := list + [order];
      }
    }
    assert pq.items[..|pq.items|] == pq.items;
  }

  /** The range loop that turns each order into its (price, quantity) entry. */
  method ToLevels(orders: seq<Order>) returns (levels: seq<Level>)
    ensures |levels| == |orders|
    ensures forall k :: 0 <= k < |orders| ==>
              levels[k].price == orders[k].price && levels[k].quantity == orders[k].quantity
  {
    levels := [];
    for i := 0 to |orders|
      invariant |levels| == i
      invariant forall k :: 0 <= k < i ==> levels[k] == LevelOf(orders[k])
    {
      levels := levels + [LevelOf(orders[i])];
    }
  }

  /** One side of the snapshot: copy, sort by price, cut to depth, list (price, quantity). */
  method SideView(side: Side, pq: OrderPQ, depth: nat) returns (levels: seq<Level>)
    ensures SideSnapshot(side, pq.items, depth, levels)
  {
    var list := CollectTradable(pq);
    list := SortByPrice(side, list);
    ghost var full := list;
    list := Truncate(list, depth);
    levels := ToLevels(list);
    assert levels == LevelsOf(list);
    assert SortedCopy(side, pq.items, full);
  }

  /**
   * ViewOrderbook: a missing pair is a bad request; an unknown pair gets two
   * empty lists; otherwise each side is its snapshot at the normalised depth.
   * Nothing in the registry or its books is modified.
   */
  method ViewOrderbook(registry: Registry, pair: string, depthParam: Option<string>)
      returns (response: Response)
    ensures pair == "" <==> response.BadRequest?
    ensures pair == "" ==> response.error == "pair parameter is required"
    ensures pair != "" && pair !in registry.books ==> response == Ok(View([], []))
    ensures pair != "" && pair in registry.books ==>
              && response.Ok?
              && SideSnapshot(Buy, registry.books[pair].buyPQ.items,
                              NormalizeDepth(depthParam), response.view.buy)
              && SideSnapshot(Sell, registry.books[pair].sellPQ.items,
                              NormalizeDepth(depthParam), response.view.sell)
  {
    if pair == "" {
      return BadRequest("pair parameter is required");
    }
    var depth := NormalizeDepth(depthParam);
    if pair !in registry.books {
      return Ok(View([], []));
    }
    var book := registry.books[pair];
    var buyList := SideView(Buy, book.buyPQ, depth);
    var sellList := SideView(Sell, book.sellPQ, depth);
    response := Ok(View(buyList, sellList));
  }

  // ---- what a snapshot shows ----

  /** Every entry is one order of the queue that has something left. */
  lemma SnapshotEntriesAreTradableOrders(side: Side, items: seq<Order>, depth: nat, levels: seq<Level>)
    requires SideSnapshot(side, items, depth, levels)
    ensures forall k :: 0 <= k < |levels| ==>
              levels[k].quantity > 0 && exists o :: o in items && LevelOf(o) == levels[k]
  {
    var full: seq<Order> :| SortedCopy(side, items, full) && levels == LevelsOf(Truncate(full, depth));
    forall k | 0 <= k < |levels|
      ensures levels[k].quantity > 0 && exists o :: o in items && LevelOf(o) == levels[k]
    {
      var o := full[k];
      assert o in multiset(full);
      assert o in Tradable(items);
      assert LevelOf(o) == levels[k];
    }
  }

  /** Buy entries never rise in price and sell entries never fall. */
  lemma SnapshotIsPriceOrdered(side: Side, items: seq<Order>, depth: nat, levels: seq<Level>)
    requires SideSnapshot(side, items, depth, levels)
    ensures side == Buy ==> forall i, j :: 0 <= i < j < |levels| ==> levels[i].price >= levels[j].price
    ensures side == Sell ==> forall i, j :: 0 <= i < j < |levels| ==> levels[i].price <= levels[j].price
  {
    var full: seq<Order> :| SortedCopy(side, items, full) && levels == LevelsOf(Truncate(full, depth));
    forall i, j | 0 <= i < j < |levels|
      ensures !BetterPrice(side, levels[j].price, levels[i].price)
    {
      assert levels[i].price == full[i].price && levels[j].price == full[j].price;
    }
  }

  /**
   * The number of entries: the depth when 0 < depth < n, else all n orders
   * with something left (so depth 0 means no limit).
   */
  lemma SnapshotLength(side: Side, items: seq<Order>, depth: nat, levels: seq<Level>)
    requires SideSnapshot(side, items, depth, levels)
    ensures var n := |Tradable(items)|; |levels| == if 0 < depth < n then depth else n
  {
    var full: seq<Order> :| SortedCopy(side, items, full) && levels == LevelsOf(Truncate(full, depth));
    assert |full| == |multiset(full)| == |multiset(Tradable(items))|;
  }

  /**
   * The cut keeps the best prices: an order with something left whose price
   * is strictly better than that of a shown entry is shown too.
   */
  lemma SnapshotKeepsBetterPrices(side: Side, items: seq<Order>, depth: nat, levels: seq<Level>)
    requires SideSnapshot(side, items, depth, levels)
    ensures forall k, o :: 0 <= k < |levels| && o in Tradable(items)
              && BetterPrice(side, o.price, levels[k].price)
              ==> LevelOf(o) in levels
  {
    var full: seq<Order> :| SortedCopy(side, items, full) && levels == LevelsOf(Truncate(full, depth));
    forall k, o | 0 <= k < |levels| && o in Tradable(items)
                  && BetterPrice(side, o.price, levels[k].price)
      ensures LevelOf(o) in levels
    {
      assert o in multiset(full);
      var m :| 0 <= m < |full| && full[m] == o;
      assert levels[k].price == full[k].price;
      assert m < |levels|;
      assert levels[m] == LevelOf(o);
    }
  }

  /** The first buy entry is the highest bid and the first sell entry the lowest ask. */
  lemma SnapshotStartsAtBestPrice(side: Side, items: seq<Order>, depth: nat, levels: seq<Level>)
    requires SideSnapshot(side, items, depth, levels)
    requires |levels| > 0
    ensures forall o :: o in Tradable(items) ==>
              !BetterPrice(side, o.price, levels[0].price)
  {
    var full: seq<Order> :| SortedCopy(side, items, full) && levels == LevelsOf(Truncate(full, depth));
    forall o | o in Tradable(items)
      ensures !BetterPrice(side, o.price, levels[0].price)
    {
      assert o in multiset(full);
      var m :| 0 <= m < |full| && full[m] == o;
      assert levels[0].price == full[0].price;
      if m > 0 {
        assert !BetterPrice(side, full[m].price, full[0].price);
      }
    }
  }
}
