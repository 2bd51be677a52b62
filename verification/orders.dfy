/** The order record as the durable store keeps it, the response shape the service
    returns and the cache stores, the caller's identity and roles, the errors the
    service raises, and the store queries the service relies on. */
module Orders {

  import opened Wrappers
  import opened JavaText
  import opened OrderStatusEnum

  type UserId = int
  type OrderId = int
  /** LocalDateTime, as a point on an integer clock. */
  type Timestamp = int
  /** BigDecimal with scale 4 (the price column), as a count of 1/10000 units. */
  type Price = int

  datatype OrderType = BUY | SELL

  function TypeName(t: OrderType): string {
    match t
    case BUY => "BUY"
    case SELL => "SELL"
  }

  /** OrderType.valueOf(text.trim().toUpperCase()); None where valueOf throws. */
  function ParseOrderType(text: string): Option<OrderType> {
    var key := ToUpper(Trim(text));
    if key == "BUY" then Some(BUY)
    else if key == "SELL" then Some(SELL)
    else None
  }

  /** Parsing accepts a name exactly when the trimmed, upper-cased text is that name. */
  lemma {:induction false} ParseOrderTypeMeaning(text: string, t: OrderType)
    ensures ParseOrderType(text) == Some(t) <==> ToUpper(Trim(text)) == TypeName(t)
  {
    assert |TypeName(BUY)| != |TypeName(SELL)|;
  }

  lemma TypeNameIsUpper(t: OrderType)
    ensures |TypeName(t)| > 0
    ensures forall i :: 0 <= i < |TypeName(t)| ==> 'A' <= TypeName(t)[i] <= 'Z'
  {
    match t
    case BUY =>
    case SELL =>
  }

  /** Both names parse back to their type. */
  lemma {:induction false} ParseTypeName(t: OrderType)
    ensures ParseOrderType(TypeName(t)) == Some(t)
  {
    TypeNameIsUpper(t);
    UpperWordIsCanonical(TypeName(t));
    ParseOrderTypeMeaning(TypeName(t), t);
  }

  /** The orders table row; `version` is the optimistic-locking counter. */
  datatype Order = Order(
    orderId: OrderId,
    orderType: OrderType,
    quantity: int,
    price: Price,
    status: OrderStatus,
    userId: UserId,
    createdAt: Timestamp,
    updatedAt: Timestamp,
    version: int)

  /** OrderResponse: every column except the version. */
  datatype OrderResponse = OrderResponse(
    orderId: OrderId,
    orderType: OrderType,
    quantity: int,
    price: Price,
    status: OrderStatus,
    userId: UserId,
    createdAt: Timestamp,
    updatedAt: Timestamp)

  function ToResponse(o: Order): OrderResponse {
    OrderResponse(o.orderId, o.orderType, o.quantity, o.price, o.status, o.userId, o.createdAt, o.updatedAt)
  }

  /** The service maps a list of rows to responses element by element, keeping the order. */
  function ToResponses(rows: seq<Order>): seq<OrderResponse> {
    seq(|rows|, i requires 0 <= i < |rows| => ToResponse(rows[i]))
  }

  /** The authenticated principal: its user id and whether it holds ROLE_ADMIN or ROLE_VIEWER. */
  datatype Caller = Caller(id: UserId, isAdmin: bool, isViewer: bool)

  /** The exceptions the service throws. The first group are IllegalArgumentExceptions
      (validation failures), then EntityNotFoundException, AccessDeniedException and
      the optimistic-locking failure of a stale save. */
  datatype Error =
    | OrderTypeRequired | InvalidOrderType
    | QuantityRequired | QuantityNotPositive
    | PriceRequired | PriceNotPositive
    | StatusRequired | InvalidStatus
    | InvalidTransition(from: OrderStatus, to: OrderStatus)
    | CreatedFromAfterCreatedTo
    | MinPriceNegative | MaxPriceNegative | MinPriceAboveMaxPrice
    | MinQtyNegative | MaxQtyNegative | MinQtyAboveMaxQty
    | PageNegative | SizeOutOfRange | PageOutOfBounds(page: int, totalPages: int)
    | UserNotFound(userId: UserId)
    | OrderNotFound(orderId: OrderId)
    | AccessDenied
    | Conflict
  {
    predicate IsValidation() {
      !(UserNotFound? || OrderNotFound? || AccessDenied? || Conflict?)
    }
  }

  /** The ids of the orders a user owns. */
  function UserOrderIds(orders: map<OrderId, Order>, userId: UserId): set<OrderId> {
    set id | id in orders && orders[id].userId == userId
  }

  /** OrderRepository.countByUserId. */
  function CountByUser(orders: map<OrderId, Order>, userId: UserId): nat {
    |UserOrderIds(orders, userId)|
  }

  /** Saving a new row under a fresh id adds one to its owner's count and leaves every
      other user's count alone. */
  lemma {:induction false} CountAfterInsert(orders: map<OrderId, Order>, o: Order, u: UserId)
    requires o.orderId !in orders
    ensures CountByUser(orders[o.orderId := o], u)
      == CountByUser(orders, u) + (if o.userId == u then 1 else 0)
  {
    var after := UserOrderIds(orders[o.orderId := o], u);
    var before := UserOrderIds(orders, u);
    if o.userId == u {
      assert after == before + {o.orderId};
    } else {
      assert after == before;
    }
  }

  /** Rewriting a row without changing its owner leaves every user's count alone. */
  lemma {:induction false} CountAfterUpdate(orders: map<OrderId, Order>, o: Order, u: UserId)
    requires o.orderId in orders && orders[o.orderId].userId == o.userId
    ensures CountByUser(orders[o.orderId := o], u) == CountByUser(orders, u)
  {
    assert UserOrderIds(orders[o.orderId := o], u) == UserOrderIds(orders, u);
  }

  /** What findTop10ByUserIdOrderByCreatedAtDesc promises, stated of the responses
      made from its rows: at most ten of the user's stored orders as the store now
      holds them, without repetition, newest first, and any order of the user left out
      is no newer than the last entry, with ten entries present. */
  ghost predicate IsRecentView(orders: map<OrderId, Order>, userId: UserId, view: seq<OrderResponse>) {
    && |view| <= 10
    && (forall i :: 0 <= i < |view| ==>
          view[i].orderId in orders && ToResponse(orders[view[i].orderId]) == view[i] && view[i].userId == userId)
    && (forall i, j :: 0 <= i < j < |view| ==>
          view[i].orderId != view[j].orderId && view[i].createdAt >= view[j].createdAt)
    && (forall id :: id in UserOrderIds(orders, userId) && id !in ViewIds(view) ==>
          |view| == 10 && orders[id].createdAt <= view[9].createdAt)
  }

  function ViewIds(view: seq<OrderResponse>): set<OrderId> {
    set i | 0 <= i < |view| :: view[i].orderId
  }
}
