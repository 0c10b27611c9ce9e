// The order records of lib/models/order.go.
//
// Prices and quantities are scaled integers (fixed point) instead of float64,
// and CreatedAt is an integer admission timestamp supplied by the caller
// instead of time.Now().

module Models {

  /** An order as submitted by a client (OrderRequest). */
  datatype OrderRequest = OrderRequest(
    pair: string,
    side: string,
    price: int,
    quantity: int,
    userId: int)

  /** An order as held by the engine and stored in the database (Order). */
  datatype Order = Order(
    id: int,
    userId: int,
    pair: string,
    side: string,
    price: int,
    quantity: int,
    filledQuantity: int,
    status: string,
    createdAt: int)

  /** The status every new order starts with. */
  const Open: string := "open"

  /**
   * The binding rules of OrderRequest: pair, side and user id are required
   * (non-empty, non-zero) and price and quantity must be greater than 0.
   */
  predicate ValidRequest(req: OrderRequest) {
    && req.pair != ""
    && req.side != ""
    && req.price > 0
    && req.quantity > 0
    && req.userId != 0
  }

  /**
   * OrderRequest.ToOrder: the request's fields are copied unchanged, nothing
   * is filled yet, the status is "open" and the id keeps its zero value (the
   * database assigns it elsewhere). `now` stands for time.Now().
   */
  function ToOrder(req: OrderRequest, now: int): (o: Order)
    ensures o.userId == req.userId && o.pair == req.pair && o.side == req.side
    ensures o.price == req.price && o.quantity == req.quantity
    ensures o.filledQuantity == 0 && o.status == Open && o.id == 0
    ensures o.createdAt == now
  {
    Order(
      id := 0,
      userId := req.userId,
      pair := req.pair,
      side := req.side,
      price := req.price,
      quantity := req.quantity,
      filledQuantity := 0,
      status := Open,
      createdAt := now)
  }

  /** An order nothing has been filled from yet: its quantity is still the whole requested quantity. */
  predicate Untouched(o: Order) {
    o.filledQuantity == 0 && o.status == Open && o.price > 0 && o.quantity > 0
  }

  /**
   * A valid request becomes a fresh order that still carries the requested
   * quantity, and only a valid request does: the order keeps every field
   * that the request's validity is about.
   */
  lemma ToOrderUntouchedIffValid(req: OrderRequest, now: int)
    ensures ValidRequest(req) <==>
              (Untouched(ToOrder(req, now)) && ToOrder(req, now).pair != ""
               && ToOrder(req, now).side != "" && ToOrder(req, now).userId != 0)
  {
  }
}
